/**
 The control flow of an asynchronous task submission: attempts with retries, the first of which
 to get that far opens the billing session, then settlement on success, and a deferred refund
 on failure.
 */
module RelayTask {
  import opened Basics
  import opened WalletRefund
  import opened Billing

  datatype TaskError = TaskError(status: int, isLocal: bool)

  datatype Context = Context(affinitySkip: bool, specificChannel: bool)

  datatype Env = Env(retryTimes: int, alwaysSkipStatus: int -> bool, playground: bool)

  /** Go's integer division, which truncates towards zero. */
  function Hundreds(status: int): int {
    if status >= 0 then status / 100 else -(-status / 100)
  }

  predicate ShouldRetry(env: Env, ctx: Context, err: TaskError, retriesLeft: int) {
    if ctx.affinitySkip || retriesLeft <= 0 || ctx.specificChannel then false
    else if err.status == 429 || err.status == 307 then true
    else if Hundreds(err.status) == 5 then !env.alwaysSkipStatus(err.status)
    else if err.status == 400 || err.status == 408 || err.isLocal then false
    else Hundreds(err.status) != 2
  }

  /** What taking quota in advance is given and how it turns out; a free model takes none. */
  datatype Charge = Charge(free: bool, quota: int, trust: bool, io: Io, refusal: TaskError)

  /**
   An attempt: no channel or no body; or a submission, which may fail before quota is taken, be
   refused the quota, fail later, or succeed with a final quota.
   */
  datatype Attempt =
    | SetupFailed(err: TaskError)
    | NoBody(err: TaskError)
    | Submitted(ctx: Context, early: Option<TaskError>, charge: Charge, late: Option<TaskError>, finalQuota: int)

  datatype Round = Round(retry: int, attempt: Attempt)

  /** Where the retry loop stands: the error, the final quota if a submission succeeded, the session if one is open. */
  datatype Progress = Progress(err: Option<TaskError>, quota: Option<int>, session: Option<Session>)

  // ----- one submission -----

  /** The session that a charge opens, if it is granted. */
  function Opened(env: Env, charge: Charge): Option<Session> {
    if charge.quota < 0 then None
    else
      var (s, ok) := PreConsumeStep(NewSession(env.playground), charge.quota, charge.trust, charge.io);
      if ok then Some(s) else None
  }

  function Submission(env: Env, session: Option<Session>, a: Attempt): Progress
    requires a.Submitted?
  {
    if a.early.Some? then Progress(a.early, None, session)
    else if session.None? && !a.charge.free && Opened(env, a.charge).None?
    then Progress(Some(a.charge.refusal), None, None)
    else
      var open := if session.Some? || a.charge.free then session else Opened(env, a.charge);
      if a.late.Some? then Progress(a.late, None, open) else Progress(None, Some(a.finalQuota), open)
  }

  /** One submission; an open session is kept, and only the first charge that is granted opens one. */
  method RelayTaskSubmit(env: Env, session: BillingSession?, a: Attempt)
    returns (err: Option<TaskError>, quota: Option<int>, session': BillingSession?)
    requires a.Submitted?
    ensures Progress(err, quota, Books(session')) == Submission(env, Books(session), a)
    ensures session != null ==> session' == session
    ensures session == null && session' != null ==>
      fresh(session') && session'.refundCalls == 0 && session'.settleCalls == 0
  {
    err, quota, session' := a.early, None, session;
    if err.Some? {
      return;
    }
    if session == null && !a.charge.free {
      if a.charge.quota < 0 {
        return Some(a.charge.refusal), None, null;
      }
      var created := new BillingSession(env.playground);
      var ok := created.PreConsume(a.charge.quota, a.charge.trust, a.charge.io);
      if !ok {
        return Some(a.charge.refusal), None, null;
      }
      session' := created;
    }
    err := a.late;
    if err.None? {
      quota := Some(a.finalQuota);
    }
  }

  ghost function Books(session: BillingSession?): Option<Session>
    reads session
  {
    if session == null then None else Some(session.s)
  }

  // ----- the retry loop -----

  function Loop(env: Env, rounds: seq<Round>, p: Progress): Progress
    decreases |rounds|
  {
    if rounds == [] || rounds[0].retry > env.retryTimes then p
    else
      match rounds[0].attempt
      case SetupFailed(err) => p.(err := Some(err))
      case NoBody(err) => p.(err := Some(err))
      case Submitted(ctx, _, _, _, _) =>
        var next := Submission(env, p.session, rounds[0].attempt);
        if next.err.Some? && ShouldRetry(env, ctx, next.err.value, env.retryTimes - rounds[0].retry)
        then Loop(env, rounds[1..], next)
        else next
  }

  const START := Progress(None, None, None)

  /** The loop ends with an error or with a result, not both. */
  lemma {:induction false} LoopDecides(env: Env, rounds: seq<Round>, p: Progress)
    requires p.err.Some? && p.quota.None?
    ensures var end := Loop(env, rounds, p); end.err.Some? <==> end.quota.None?
    decreases |rounds|
  {
    if rounds != [] && rounds[0].attempt.Submitted? {
      var next := Submission(env, p.session, rounds[0].attempt);
      if next.err.Some? {
        LoopDecides(env, rounds[1..], next);
      }
    }
  }

  predicate Runs(env: Env, rounds: seq<Round>) {
    rounds != [] && rounds[0].retry <= env.retryTimes
  }

  /** A first turn of the loop is enough: from then on there is an error or a result. */
  lemma FirstRoundDecides(env: Env, rounds: seq<Round>)
    ensures var end := Loop(env, rounds, START); (end.err.Some? <==> end.quota.None?) <==> Runs(env, rounds)
  {
    if Runs(env, rounds) && rounds[0].attempt.Submitted? {
      var next := Submission(env, None, rounds[0].attempt);
      if next.err.Some? {
        LoopDecides(env, rounds[1..], next);
      }
    }
  }

  datatype End = Failed(err: TaskError) | Succeeded(quota: int) | Panicked

  /** How the loop's outcome is read: the quota of a missing result cannot be, which is the panic. */
  function EndOf(p: Progress): End {
    if p.err.Some? then Failed(p.err.value) else if p.quota.Some? then Succeeded(p.quota.value) else Panicked
  }

  /** The billing session after the end of the submission. */
  function Closed(s: Session, end: End, io: Io): Session {
    match end
    case Failed(_) => RefundStep(s)
    case Succeeded(quota) => SettleStep(s, quota, io).0
    case Panicked => s
  }

  /**
   A task submission.  If a session has been opened, every run that does not panic settles it
   once or refunds it once, and not both.
   */
  method RelayTask(env: Env, rounds: seq<Round>, io: Io) returns (end: End, session: BillingSession?)
    ensures var p := Loop(env, rounds, START);
      && end == EndOf(p)
      && (session == null <==> p.session.None?)
      && (session != null ==>
            && session.s == Closed(p.session.value, end, io)
            && session.refundCalls == (if end.Failed? then 1 else 0)
            && session.settleCalls == (if end.Succeeded? then 1 else 0))
    ensures rounds != [] && rounds[0].retry == 0 ==> (end.Panicked? <==> env.retryTimes < 0)
  {
    var err: Option<TaskError>, quota: Option<int> := None, None;
    session := null;
    var i, ended := 0, false;
    hide Submission, ShouldRetry;
    while i < |rounds| && !ended && rounds[i].retry <= env.retryTimes
      invariant 0 <= i <= |rounds|
      invariant session != null ==> fresh(session) && session.refundCalls == 0 && session.settleCalls == 0
      invariant Loop(env, rounds, START) ==
        if ended then Progress(err, quota, Books(session)) else Loop(env, rounds[i..], Progress(err, quota,
            Books(session)))
      decreases |rounds| - i, !ended
    {
      var round := rounds[i];
      assert rounds[i..][0] == round && rounds[i..][1..] == rounds[i + 1..];
      match round.attempt
      case SetupFailed(e) => err, ended := Some(e), true;
      case NoBody(e) => err, ended := Some(e), true;
      case Submitted(ctx, _, _, _, _) =>
        err, quota, session := RelayTaskSubmit(env, session, round.attempt);
        if err.Some? && ShouldRetry(env, ctx, err.value, env.retryTimes - round.retry) {
          i := i + 1;
        } else {
          ended := true;
        }
    }
    FirstRoundDecides(env, rounds);
    if err.None? {
      if quota.None? {
        return Panicked, session;
      }
      if session != null {
        var ok := session.Settle(quota.value, io);
      }
      return Succeeded(quota.value), session;
    }
    // deferred step
    if session != null {
      session.Refund();
    }
    return Failed(err.value), session;
  }

  // ----- what a task costs -----

  /** The wallet returns balanced records of what it takes for a charge. */
  predicate HonestCharges(rounds: seq<Round>) {
    forall i :: 0 <= i < |rounds| && rounds[i].attempt.Submitted? ==>
      Honest(rounds[i].attempt.charge.io, rounds[i].attempt.charge.quota)
  }

  /** A session in order, without top-ups. */
  predicate InOrder(session: Option<Session>) {
    session.Some? ==> Held(session.value) && session.value.extraReserved == 0
  }

  lemma {:induction false} LoopKeepsOrder(env: Env, rounds: seq<Round>, p: Progress)
    requires HonestCharges(rounds) && InOrder(p.session)
    ensures InOrder(Loop(env, rounds, p).session)
    decreases |rounds|
  {
    hide Held, PreConsumeStep;
    if rounds != [] && rounds[0].attempt.Submitted? {
      var a := rounds[0].attempt;
      if a.charge.quota >= 0 {
        PreConsumeHoldsOrNothing(env.playground, a.charge.quota, a.charge.trust, a.charge.io);
      }
      LoopKeepsOrder(env, rounds[1..], Submission(env, p.session, a));
    }
  }

  /**
   The cost of a task with a session: nothing if it failed; if it was submitted, its final quota,
   for the wallet if the settlement takes effect and for the token if that update succeeds too,
   and otherwise what was taken in advance.
   */
  lemma TaskCost(env: Env, rounds: seq<Round>, io: Io)
    requires HonestCharges(rounds)
    requires var p := Loop(env, rounds, START);
      EndOf(p).Succeeded? && p.session.Some? ==>
        p.quota.value >= 0 && (io.walletOk ==> Honest(io, p.quota.value - p.session.value.preConsumed))
    ensures var p := Loop(env, rounds, START);
      p.session.Some? && !EndOf(p).Panicked? ==>
        var s, closed := p.session.value, Closed(p.session.value, EndOf(p), io);
        if p.err.Some? then closed.walletSpent == 0 && closed.tokenSpent == 0
        else
          var quota := p.quota.value;
          && closed.walletSpent == (if TakesEffect(s, quota, io) then quota else s.preConsumed)
          && closed.tokenSpent == if TakesEffect(s, quota, io) then TokenCost(s, quota, io) else s.tokenSpent
  {
    hide SettleStep, RefundStep, Loop, TakesEffect, TokenCost;
    var p := Loop(env, rounds, START);
    LoopKeepsOrder(env, rounds, START);
    if p.session.Some? {
      if p.err.Some? {
        RefundIsCompleteIff(p.session.value);
      } else if p.quota.Some? {
        SettlementCost(p.session.value, p.quota.value, io);
      }
    }
  }

  // ----- which attempt decides -----

  /** Which errors are retried, as one condition. */
  lemma RetryMeaning(env: Env, ctx: Context, err: TaskError, retriesLeft: int)
    ensures ShouldRetry(env, ctx, err, retriesLeft) <==>
      && retriesLeft >= 1 && !ctx.affinitySkip && !ctx.specificChannel
      && (err.status == 429 || err.status == 307
          || (500 <= err.status < 600 && !env.alwaysSkipStatus(err.status))
          || (!(500 <= err.status < 600) && !(200 <= err.status < 300) && err.status != 400 && err.status != 408
              && !err.isLocal))
  {
  }

  /** The quota of a charge is granted. */
  predicate Granted(env: Env, charge: Charge) {
    && charge.quota >= 0
    && (charge.trust || charge.quota == 0 || (charge.io.walletOk && (env.playground || charge.io.tokenOk)))
  }

  /** An attempt that opens a session, if none is open yet. */
  predicate Opens(env: Env, a: Attempt) {
    a.Submitted? && a.early.None? && !a.charge.free && Granted(env, a.charge)
  }

  ghost predicate OpenBefore(env: Env, rounds: seq<Round>, open: bool, k: nat)
    requires k <= |rounds|
  {
    open || exists j :: 0 <= j < k && Opens(env, rounds[j].attempt)
  }

  /** How an attempt fails, given whether a session is open. */
  function FailureOf(env: Env, open: bool, a: Attempt): Option<TaskError> {
    if !a.Submitted? then Some(a.err)
    else if a.early.Some? then a.early
    else if !open && !a.charge.free && !Granted(env, a.charge) then Some(a.charge.refusal)
    else a.late
  }

  predicate Retried(env: Env, open: bool, round: Round) {
    var failure := FailureOf(env, open, round.attempt);
    && round.attempt.Submitted? && failure.Some?
    && ShouldRetry(env, round.attempt.ctx, failure.value, env.retryTimes - round.retry)
  }

  lemma SubmissionMeaning(env: Env, session: Option<Session>, a: Attempt)
    requires a.Submitted?
    ensures var next := Submission(env, session, a);
            && next.err == FailureOf(env, session.Some?, a)
            && next.quota == (if next.err.Some? then None else Some(a.finalQuota))
            && (next.session.Some? <==> session.Some? || Opens(env, a))
            && (session.Some? ==> next.session == session)
  {
    hide PreConsumeStep;
    PreConsumeGrantedIff(env.playground, a.charge.quota, a.charge.trust, a.charge.io);
  }

  lemma OpenBeforeTail(env: Env, rounds: seq<Round>, open: bool, k: nat)
    requires 0 < k <= |rounds|
    ensures OpenBefore(env, rounds, open, k) <==>
      OpenBefore(env, rounds[1..], open || Opens(env, rounds[0].attempt), k - 1)
  {
    hide Opens;
    var rest := rounds[1..];
    assert forall j :: 0 < j < |rounds| ==> rounds[j] == rest[j - 1];
    assert forall j :: 0 <= j < |rest| ==> rest[j] == rounds[j + 1];
  }

  /**
   The attempts made are the longest run in which every attempt but the last is retried and the
   counter stays within its limit; the last one alone decides how the submission ends.
   */
  lemma {:induction false} LastAttemptDecides(env: Env, rounds: seq<Round>, p: Progress) returns (n: nat)
    requires p.quota.None?
    ensures n <= |rounds|
    ensures forall j :: 0 <= j < n ==> rounds[j].retry <= env.retryTimes
    ensures forall j :: 0 <= j < n - 1 ==> Retried(env, OpenBefore(env, rounds, p.session.Some?, j), rounds[j])
    ensures n < |rounds| && rounds[n].retry <= env.retryTimes ==>
              n > 0 && !Retried(env, OpenBefore(env, rounds, p.session.Some?, n - 1), rounds[n - 1])
    ensures n > 0 ==>
              var last := rounds[n - 1].attempt;
              var failure := FailureOf(env, OpenBefore(env, rounds, p.session.Some?, n - 1), last);
              EndOf(Loop(env, rounds, p)) == if failure.Some? then Failed(failure.value) else Succeeded(last.finalQuota)
    ensures n == 0 ==> Loop(env, rounds, p) == p
    decreases |rounds|
  {
    hide ShouldRetry, Submission, Granted, Opens;
    n := 0;
    if rounds != [] && rounds[0].retry <= env.retryTimes {
      n := 1;
      var open, first := p.session.Some?, rounds[0].attempt;
      if first.Submitted? {
        SubmissionMeaning(env, p.session, first);
        if Retried(env, open, rounds[0]) {
          var rest, next := rounds[1..], Submission(env, p.session, first);
          var m := LastAttemptDecides(env, rest, next);
          n := m + 1;
          assert forall j :: 0 < j < |rounds| ==> rounds[j] == rest[j - 1];
          forall j | 0 < j <= m
            ensures OpenBefore(env, rounds, open, j) <==> OpenBefore(env, rest, next.session.Some?, j - 1)
          {
            OpenBeforeTail(env, rounds, open, j);
          }
        }
      }
    }
  }
}
