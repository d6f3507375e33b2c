/**
 The control flow of a relayed request: attempts on one channel after another, and the deferred
 steps that run afterwards in reverse order, which decide about the refund.

 Attempts are a finite sequence of outcomes; which channel is tried and how the retry counter
 moves is not part of the model.
 */
module Relay {
  import opened Basics
  import opened WalletRefund
  import opened Billing

  datatype ApiError = ApiError(fairUse: bool, channelError: bool, skipRetry: bool, alwaysSkip: bool, status: int)

  /** The error a broken fair-use lease turns into. */
  const LEASE_ERROR := ApiError(true, false, true, false, 503)

  /** What an attempt leaves behind in the request context. */
  datatype Context = Context(written: bool, streamStarted: bool, affinitySkip: bool, specificChannel: bool)

  datatype Env = Env(retryTimes: int, retryStatus: int -> bool, normalize: ApiError -> ApiError)

  predicate ShouldRetry(env: Env, ctx: Context, err: ApiError, retriesLeft: int) {
    if err.fairUse then false
    else if ctx.streamStarted || ctx.written then false
    else if ctx.affinitySkip then false
    else if err.channelError then true
    else if err.skipRetry then false
    else if retriesLeft <= 0 then false
    else if ctx.specificChannel then false
    else if 200 <= err.status < 300 then false
    else if err.status < 100 || err.status > 599 then true
    else if err.alwaysSkip then false
    else env.retryStatus(err.status)
  }

  /** A settlement made by the handler of an attempt. */
  datatype Settlement = Settlement(actual: int, io: Io)

  datatype Attempt =
    | NoChannel(err: ApiError)
    | NoBody(err: ApiError)
    | Handled(result: Option<ApiError>, ctx: Context, settlement: Option<Settlement>)

  /** One turn of the retry loop: the value of the retry counter, and what happens. */
  datatype Round = Round(retry: int, attempt: Attempt)

  // ----- the retry loop -----

  datatype Progress = Progress(err: Option<ApiError>, ctx: Context, made: nat, session: Session)

  function Settled(s: Session, settlement: Option<Settlement>): Session {
    if settlement.None? then s else SettleStep(s, settlement.value.actual, settlement.value.io).0
  }

  /** Where the retry loop ends up. */
  function Loop(env: Env, rounds: seq<Round>, p: Progress): Progress
    decreases |rounds|
  {
    if rounds == [] || rounds[0].retry > env.retryTimes then p
    else
      match rounds[0].attempt
      case NoChannel(err) => p.(err := Some(err), made := p.made + 1)
      case NoBody(err) => p.(err := Some(err), made := p.made + 1)
      case Handled(result, ctx, settlement) =>
        var p' := p.(ctx := ctx, made := p.made + 1, session := Settled(p.session, settlement));
        if result.None? then p'.(err := None)
        else
          var err := env.normalize(result.value);
          if ShouldRetry(env, ctx, err, env.retryTimes - rounds[0].retry)
          then Loop(env, rounds[1..], p'.(err := Some(err)))
          else p'.(err := Some(err))
  }

  /** Every attempt but the last failed and left the response untouched. */
  lemma {:induction false} RetriesLeaveResponseUntouched(env: Env, rounds: seq<Round>, p: Progress, j: nat)
    requires p.made + j + 1 < Loop(env, rounds, p).made
    ensures j < |rounds| && rounds[j].attempt.Handled? && rounds[j].attempt.result.Some?
    ensures !rounds[j].attempt.ctx.written && !rounds[j].attempt.ctx.streamStarted
    decreases |rounds|
  {
    if rounds[0].attempt.Handled? && rounds[0].attempt.result.Some? && j > 0 {
      var a := rounds[0].attempt;
      var p' := Progress(Some(env.normalize(a.result.value)), a.ctx, p.made + 1, Settled(p.session, a.settlement));
      RetriesLeaveResponseUntouched(env, rounds[1..], p', j - 1);
    }
  }

  // ----- the deferred steps -----

  /** A fair-use lease: whether its heartbeat failed during the request and whether releasing it failed. */
  datatype Lease = Lease(heartbeatFailed: bool, releaseFailed: bool)

  /** A lease failure becomes the request's error unless a response is already out or, on release, there is an error. */
  predicate Promotes(lease: Lease, err: Option<ApiError>, ctx: Context) {
    if lease.heartbeatFailed then !ctx.written
    else lease.releaseFailed && err.None? && !ctx.written
  }

  function AfterLease(lease: Option<Lease>, err: Option<ApiError>, ctx: Context): Option<ApiError> {
    if lease.Some? && Promotes(lease.value, err, ctx) then Some(LEASE_ERROR) else err
  }

  /** How the request ends, after the refunding step and then the lease step have run. */
  function FinalError(env: Env, lease: Option<Lease>, err: Option<ApiError>, ctx: Context): Option<ApiError> {
    AfterLease(lease, if err.Some? then Some(env.normalize(err.value)) else None, ctx)
  }

  /** Ends the lease; gives the quota back if only now the request has become a failure. */
  method FinishLease(lease: Lease, session: BillingSession?, ctx: Context, err: Option<ApiError>)
    returns (err': Option<ApiError>)
    modifies session
    ensures err' == AfterLease(Some(lease), err, ctx)
    ensures session != null ==>
      && session.settleCalls == old(session.settleCalls)
      && session.refundCalls == old(session.refundCalls) + (if err.None? && err'.Some? then 1 else 0)
      && session.s == if err.None? && err'.Some? then RefundStep(old(session.s)) else old(session.s)
  {
    err' := err;
    if lease.heartbeatFailed {
      err' := Promote(session, ctx, err, true);
    } else if lease.releaseFailed {
      err' := Promote(session, ctx, err, false);
    }
  }

  method Promote(session: BillingSession?, ctx: Context, err: Option<ApiError>, force: bool)
      returns (err': Option<ApiError>)
    modifies session
    ensures err' == if (force || err.None?) && !ctx.written then Some(LEASE_ERROR) else err
    ensures session != null ==>
      && session.settleCalls == old(session.settleCalls)
      && session.refundCalls == old(session.refundCalls) + (if err.None? && err'.Some? then 1 else 0)
      && session.s == if err.None? && err'.Some? then RefundStep(old(session.s)) else old(session.s)
  {
    if (!force && err.Some?) || ctx.written {
      return err;
    }
    err' := Some(LEASE_ERROR);
    if err.None? && session != null {
      session.Refund();
    }
  }

  /**
   A request from the moment quota has been taken in advance (session is null for a free model).
   The quota is given back exactly once if the request ends in an error, and never otherwise.
   */
  method Relay(env: Env, session: BillingSession?, lease: Option<Lease>, rounds: seq<Round>, ctx0: Context)
    returns (final: Option<ApiError>, ctx: Context, made: nat)
    modifies session
    ensures var end := Loop(env, rounds, Progress(None, ctx0, 0, if session == null then NewSession(false)
          else old(session.s)));
      && final == FinalError(env, lease, end.err, end.ctx) && ctx == end.ctx && made == end.made
      && (session != null ==>
            && session.refundCalls == old(session.refundCalls) + (if final.Some? then 1 else 0)
            && session.s == if final.Some? then RefundStep(end.session) else end.session)
  {
    var err: Option<ApiError> := None;
    ctx, made := ctx0, 0;
    ghost var start := Progress(None, ctx0, 0, if session == null then NewSession(false) else session.s);
    ghost var books := start.session;
    var i := 0;
    var ended := false;
    while i < |rounds| && !ended && rounds[i].retry <= env.retryTimes
      invariant 0 <= i <= |rounds|
      invariant session != null ==> session.s == books && session.refundCalls == old(session.refundCalls)
      invariant Loop(env, rounds, start) ==
        if ended then Progress(err, ctx, made, books) else Loop(env, rounds[i..], Progress(err, ctx, made, books))
      decreases |rounds| - i, !ended
    {
      var round := rounds[i];
      assert rounds[i..][0] == round && rounds[i..][1..] == rounds[i + 1..];
      made := made + 1;
      match round.attempt
      case NoChannel(e) => err, ended := Some(e), true;
      case NoBody(e) => err, ended := Some(e), true;
      case Handled(result, after, settlement) =>
        ctx := after;
        books := Settled(books, settlement);
        if session != null && settlement.Some? {
          var ok := session.Settle(settlement.value.actual, settlement.value.io);
        }
        if result.None? {
          err, ended := None, true;
        } else {
          err := Some(env.normalize(result.value));
          if ShouldRetry(env, ctx, err.value, env.retryTimes - round.retry) {
            i := i + 1;
          } else {
            ended := true;
          }
        }
    }
    // deferred steps, last registered first
    if err.Some? {
      err := Some(env.normalize(err.value));
      if session != null {
        session.Refund();
      }
    }
    final := err;
    if lease.Some? {
      final := FinishLease(lease.value, session, ctx, err);
    }
  }

  // ----- what a request costs -----

  /** The settlements that the attempts make, in order. */
  function Settlements(env: Env, rounds: seq<Round>): seq<Settlement>
    decreases |rounds|
  {
    if rounds == [] || rounds[0].retry > env.retryTimes || !rounds[0].attempt.Handled? then []
    else
      var a := rounds[0].attempt;
      var made := if a.settlement.Some? then [a.settlement.value] else [];
      if a.result.Some? && ShouldRetry(env, a.ctx, env.normalize(a.result.value), env.retryTimes - rounds[0].retry)
      then made + Settlements(env, rounds[1..])
      else made
  }

  function SettleAll(s: Session, settlements: seq<Settlement>): Session
    decreases |settlements|
  {
    if settlements == [] then s
    else SettleAll(SettleStep(s, settlements[0].actual, settlements[0].io).0, settlements[1..])
  }

  lemma {:induction false} LoopSettles(env: Env, rounds: seq<Round>, p: Progress)
    ensures Loop(env, rounds, p).session == SettleAll(p.session, Settlements(env, rounds))
    decreases |rounds|
  {
    hide SettleStep, ShouldRetry;
    if rounds != [] && rounds[0].attempt.Handled? {
      var a := rounds[0].attempt;
      if a.settlement.Some? {
        var one := [a.settlement.value];
        assert one[1..] == [] && SettleAll(p.session, one) == Settled(p.session, a.settlement);
      }
      if a.result.Some? {
        var err := Some(env.normalize(a.result.value));
        LoopSettles(env, rounds[1..], Progress(err, a.ctx, p.made + 1, Settled(p.session, a.settlement)));
        var rest := Settlements(env, rounds[1..]);
        if a.settlement.Some? {
          assert ([a.settlement.value] + rest)[1..] == rest;
        } else {
          assert [] + rest == rest;
        }
      }
    }
  }

  /** Where the first settlement stands that takes effect, or the number of settlements if none does. */
  function FirstEffect(s: Session, settlements: seq<Settlement>): (k: nat)
    ensures k <= |settlements|
    ensures k < |settlements| ==> TakesEffect(s, settlements[k].actual, settlements[k].io)
    ensures forall i :: 0 <= i < k ==> !TakesEffect(s, settlements[i].actual, settlements[i].io)
  {
    if settlements == [] then 0
    else if TakesEffect(s, settlements[0].actual, settlements[0].io) then 0
    else 1 + FirstEffect(s, settlements[1..])
  }

  predicate AllHonest(s: Session, settlements: seq<Settlement>) {
    forall i :: 0 <= i < |settlements| ==>
      settlements[i].actual >= 0
      && (settlements[i].io.walletOk ==> Honest(settlements[i].io, settlements[i].actual - s.preConsumed))
  }

  /** The first settlement that takes effect is the only one. */
  lemma {:induction false} FirstEffectDecides(s: Session, settlements: seq<Settlement>)
    requires Held(s) && AllHonest(s, settlements)
    ensures var k := FirstEffect(s, settlements);
            SettleAll(s, settlements) == if k == |settlements| then s
                else SettleStep(s, settlements[k].actual, settlements[k].io).0
    decreases |settlements|
  {
    hide SettleStep, Held;
    if settlements != [] {
      var x, rest := settlements[0], settlements[1..];
      SettlementCost(s, x.actual, x.io);
      if TakesEffect(s, x.actual, x.io) {
        SettledStays(SettleStep(s, x.actual, x.io).0, rest);
      } else {
        FirstEffectDecides(s, rest);
      }
    }
  }

  lemma {:induction false} SettledStays(s: Session, settlements: seq<Settlement>)
    requires s.settled
    ensures SettleAll(s, settlements) == s
    decreases |settlements|
  {
    if settlements != [] {
      SettledStays(s, settlements[1..]);
    }
  }

  /**
   What a request that ends in an error has cost after its refund.  It stays charged exactly if
   some attempt made a settlement that took effect, and then as that settlement says; otherwise
   everything is given back apart from top-ups.
   */
  lemma FailedRequestCost(env: Env, rounds: seq<Round>, ctx0: Context, s: Session)
    requires Held(s)
    requires AllHonest(s, Settlements(env, rounds))
    ensures var made := Settlements(env, rounds);
            var k := FirstEffect(s, made);
            var end := RefundStep(Loop(env, rounds, Progress(None, ctx0, 0, s)).session);
            && (end.settled <==> k < |made|)
            && (k < |made| ==>
                  && end.walletSpent == Max(made[k].actual, s.extraReserved)
                  && end.tokenSpent == TokenCost(s, made[k].actual, made[k].io))
            && (k == |made| ==> end.walletSpent == s.extraReserved && end.tokenSpent == 0)
  {
    hide Loop, Settlements, SettleStep, SettleAll, RefundStep, Held, FirstEffect, TakesEffect, TokenCost;
    var made := Settlements(env, rounds);
    var k := FirstEffect(s, made);
    LoopSettles(env, rounds, Progress(None, ctx0, 0, s));
    FirstEffectDecides(s, made);
    if k < |made| {
      SettlementCost(s, made[k].actual, made[k].io);
      SettledIsNotRefunded(SettleStep(s, made[k].actual, made[k].io).0);
    } else {
      RefundIsCompleteIff(s);
      RefundDoesNotSettle(s);
    }
  }

  lemma SettledIsNotRefunded(s: Session)
    requires s.settled
    ensures RefundStep(s) == s
  {
  }

  lemma RefundDoesNotSettle(s: Session)
    requires Held(s)
    ensures !RefundStep(s).settled
  {
  }

  /**
   A run that is charged for an error: the only attempt succeeds and settles without writing a
   response, and then the lease turns out to be broken.
   */
  lemma BrokenLeaseIsCharged(env: Env, lease: Lease, ctx: Context, ctx0: Context, s: Session, x: Settlement)
    requires env.retryTimes >= 0 && lease.heartbeatFailed && !ctx.written
    requires Held(s) && AllHonest(s, [x]) && TakesEffect(s, x.actual, x.io)
    ensures var end := Loop(env, [Round(0, Handled(None, ctx, Some(x)))], Progress(None, ctx0, 0, s));
            && FinalError(env, Some(lease), end.err, end.ctx) == Some(LEASE_ERROR)
            && RefundStep(end.session).walletSpent == Max(x.actual, s.extraReserved)
            && RefundStep(end.session).tokenSpent == TokenCost(s, x.actual, x.io)
  {
    hide SettleStep, RefundStep, Held, TakesEffect, TokenCost;
    assert [x][0] == x;
    SettlementCost(s, x.actual, x.io);
    SettledIsNotRefunded(SettleStep(s, x.actual, x.io).0);
  }

  // ----- which attempt decides -----

  predicate Succeeds(attempt: Attempt) {
    attempt.Handled? && attempt.result.None?
  }

  /** The error an attempt ends with; one of the handler's is normalized. */
  function ErrorOf(env: Env, attempt: Attempt): Option<ApiError> {
    match attempt
    case NoChannel(err) => Some(err)
    case NoBody(err) => Some(err)
    case Handled(result, _, _) => if result.None? then None else Some(env.normalize(result.value))
  }

  /** The attempt was handled, failed, and may be followed by another. */
  predicate Retried(env: Env, round: Round) {
    && round.attempt.Handled? && round.attempt.result.Some?
    && ShouldRetry(env, round.attempt.ctx, env.normalize(round.attempt.result.value), env.retryTimes - round.retry)
  }

  /** Which errors are retried, as one condition. */
  lemma RetryMeaning(env: Env, ctx: Context, err: ApiError, retriesLeft: int)
    ensures ShouldRetry(env, ctx, err, retriesLeft) <==>
      && !err.fairUse && !ctx.streamStarted && !ctx.written && !ctx.affinitySkip
      && (err.channelError ||
          (&& !err.skipRetry && retriesLeft >= 1 && !ctx.specificChannel
           && (err.status < 100 || 600 <= err.status ||
               ((err.status < 200 || 300 <= err.status) && !err.alwaysSkip && env.retryStatus(err.status)))))
  {
  }

  /**
   The attempts made are the longest run in which every attempt but the last is retried and the
   counter stays within its limit; the last one alone decides about the error and the response.
   */
  lemma {:induction false} LastAttemptDecides(env: Env, rounds: seq<Round>, p: Progress)
    ensures var end := Loop(env, rounds, p);
            var n := end.made - p.made;
            && 0 <= n <= |rounds|
            && (forall j :: 0 <= j < n ==> rounds[j].retry <= env.retryTimes)
            && (forall j :: 0 <= j < n - 1 ==> Retried(env, rounds[j]))
            && (n < |rounds| && rounds[n].retry <= env.retryTimes ==> n > 0 && !Retried(env, rounds[n - 1]))
            && (n > 0 ==>
                  && end.err == ErrorOf(env, rounds[n - 1].attempt)
                  && (rounds[n - 1].attempt.Handled? ==> end.ctx == rounds[n - 1].attempt.ctx))
            && (n == 0 ==> end == p)
    decreases |rounds|
  {
    hide ShouldRetry;
    if rounds != [] && rounds[0].retry <= env.retryTimes && Retried(env, rounds[0]) {
      var a, rest := rounds[0].attempt, rounds[1..];
      var p' := Progress(Some(env.normalize(a.result.value)), a.ctx, p.made + 1, Settled(p.session, a.settlement));
      LastAttemptDecides(env, rest, p');
      assert forall j :: 0 < j < |rounds| ==> rounds[j] == rest[j - 1];
    }
  }

  /**
   A request ends without an error exactly if its last attempt succeeded, or none was made, and
   no failure of its lease is found before a response has been written.
   */
  lemma RequestSucceedsIff(env: Env, lease: Option<Lease>, rounds: seq<Round>, ctx0: Context, s: Session)
    ensures var end := Loop(env, rounds, Progress(None, ctx0, 0, s));
            && end.made <= |rounds|
            && (FinalError(env, lease, end.err, end.ctx).None? <==>
                  && (end.made == 0 || Succeeds(rounds[end.made - 1].attempt))
                  && (lease.Some? && (lease.value.heartbeatFailed || lease.value.releaseFailed) ==> end.ctx.written))
  {
    hide Loop;
    LastAttemptDecides(env, rounds, Progress(None, ctx0, 0, s));
  }
}
