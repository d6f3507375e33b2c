/**
 The billing session of one request, paid from the user's wallet: quota is taken in advance,
 possibly topped up, and in the end either settled at the actual amount or given back.
 */
module Billing {
  import opened WalletRefund

  /**
   The session's own fields, together with the net amounts that the session has taken so far
   from the user's wallet and from the token's quota.
   */
  datatype Session = Session(
    preConsumed: int, tokenConsumed: int, extraReserved: int, consumed: int, split: Split,
    trusted: bool, fundingSettled: bool, settled: bool, refunded: bool, playground: bool,
    walletSpent: int, tokenSpent: int)

  /** Calls to the database that a step makes, and how they turn out. */
  datatype Io = Io(walletOk: bool, tokenOk: bool, split: Split)

  const NOTHING := Split(0, 0, [])

  function NewSession(playground: bool): Session {
    Session(0, 0, 0, 0, NOTHING, false, false, false, false, playground, 0, 0)
  }

  /** Quota taken from the token; requests from the playground have no token. */
  function SpendToken(s: Session, amount: int): Session {
    if s.playground then s else s.(tokenSpent := s.tokenSpent + amount)
  }

  // ----- taking quota in advance -----

  /** Token first, wallet second; if the wallet fails the token gets its quota back. */
  function PreConsumeStep(s: Session, quota: int, trust: bool, io: Io): (Session, bool) {
    var effective := if trust then 0 else quota;
    var s1 := s.(trusted := trust);
    if effective > 0 && !s.playground && !io.tokenOk then (s1, false)
    else
      var s2 := if effective > 0 then SpendToken(s1, effective).(tokenConsumed := effective) else s1;
      if effective > 0 && !io.walletOk then
        (if s2.tokenConsumed > 0 && !s2.playground then SpendToken(s2, -s2.tokenConsumed).(tokenConsumed := 0)
         else s2, false)
      else
        var s3 :=
          if effective > 0 then s2.(consumed := effective, split := io.split, walletSpent := s2.walletSpent + effective)
          else s2;
        (s3.(preConsumed := effective), true)
  }

  /** Tops the quota up before the request is sent; if the token fails the wallet gets the difference back. */
  function ReserveStep(s: Session, target: int, io: Io): (Session, bool) {
    if s.settled || s.refunded || s.trusted || target <= s.preConsumed then (s, true)
    else
      var delta := target - s.preConsumed;
      if !io.walletOk then (s, false)
      else if !s.playground && !io.tokenOk then (s, false)
      else
        (SpendToken(s, delta).(consumed := s.consumed + delta, walletSpent := s.walletSpent + delta,
                               preConsumed := s.preConsumed + delta, tokenConsumed := s.tokenConsumed + delta,
                               extraReserved := s.extraReserved + delta), true)
  }

  // ----- closing the session -----

  function Merged(a: Split, b: Split): Split {
    Split(a.promo + b.promo, a.cash + b.cash, a.allocations + b.allocations)
  }

  /** The wallet's part of a settlement: charge a shortfall, give a surplus back as far as the record allows. */
  function SettleWallet(s: Session, delta: int, io: Io): Session {
    if delta > 0 then
      s.(consumed := s.consumed + delta, split := Merged(s.split, io.split), walletSpent := s.walletSpent + delta)
    else
      var back := Min(-delta, s.consumed);
      var (refund, rest) := Refund(s.split, back);
      s.(consumed := s.consumed - back, split := rest, walletSpent := s.walletSpent - refund.Total())
  }

  function SettleStep(s: Session, actual: int, io: Io): (Session, bool) {
    var delta := actual - s.preConsumed;
    if s.settled then (s, true)
    else if delta == 0 then (s.(settled := true), true)
    else if !s.fundingSettled && !io.walletOk then (s, false)
    else
      var s1 := if s.fundingSettled then s else SettleWallet(s, delta, io).(fundingSettled := true);
      var s2 := if s1.playground || !io.tokenOk then s1 else SpendToken(s1, delta);
      (s2.(settled := true), s.playground || io.tokenOk)
  }

  predicate NeedsRefund(s: Session) {
    !s.settled && !s.refunded && !s.fundingSettled && s.tokenConsumed > 0
  }

  function RefundStep(s: Session): Session {
    if !NeedsRefund(s) then s
    else
      var s1 := s.(refunded := true);
      var s2 :=
        if s.consumed > 0 then s1.(walletSpent := s1.walletSpent - s.split.Total(), consumed := 0, split := NOTHING)
        else s1;
      if s.tokenConsumed > 0 && !s.playground then SpendToken(s2, -s.tokenConsumed) else s2
  }

  /** The session object; its calls to the wallet and to the token table all succeed or fail as the parameter says. */
  class BillingSession {
    var s: Session
    ghost var refundCalls: nat
    ghost var settleCalls: nat

    constructor (playground: bool)
      ensures s == NewSession(playground) && refundCalls == 0 && settleCalls == 0
    {
      s, refundCalls, settleCalls := NewSession(playground), 0, 0;
    }

    method PreConsume(quota: int, trust: bool, io: Io) returns (ok: bool)
      modifies this`s
      ensures (s, ok) == PreConsumeStep(old(s), quota, trust, io)
    {
      var effective := quota;
      s := s.(trusted := trust);
      if trust {
        effective := 0;
      }
      if effective > 0 {
        if !s.playground && !io.tokenOk {
          return false;
        }
        s := SpendToken(s, effective);
        s := s.(tokenConsumed := effective);
      }
      if effective > 0 {
        if !io.walletOk {
          if s.tokenConsumed > 0 && !s.playground {
            s := SpendToken(s, -s.tokenConsumed);
            s := s.(tokenConsumed := 0);
          }
          return false;
        }
        s := s.(consumed := effective, split := io.split, walletSpent := s.walletSpent + effective);
      }
      s := s.(preConsumed := effective);
      return true;
    }

    method Reserve(target: int, io: Io) returns (ok: bool)
      modifies this`s
      ensures (s, ok) == ReserveStep(old(s), target, io)
    {
      if s.settled || s.refunded || s.trusted || target <= s.preConsumed {
        return true;
      }
      var delta := target - s.preConsumed;
      if !io.walletOk {
        return false;
      }
      s := s.(walletSpent := s.walletSpent + delta, consumed := s.consumed + delta);
      if !s.playground && !io.tokenOk {
        s := s.(walletSpent := s.walletSpent - delta, consumed := s.consumed - delta);
        return false;
      }
      s := SpendToken(s, delta);
      s := s.(preConsumed := s.preConsumed + delta, tokenConsumed := s.tokenConsumed + delta);
      s := s.(extraReserved := s.extraReserved + delta);
      return true;
    }

    method Settle(actual: int, io: Io) returns (ok: bool)
      modifies this
      ensures (s, ok) == SettleStep(old(s), actual, io)
      ensures settleCalls == old(settleCalls) + 1 && refundCalls == old(refundCalls)
    {
      hide WalletRefund.Refund, Sum;
      settleCalls := settleCalls + 1;
      if s.settled {
        return true;
      }
      var delta := actual - s.preConsumed;
      if delta == 0 {
        s := s.(settled := true);
        return true;
      }
      if !s.fundingSettled {
        if !io.walletOk {
          return false;
        }
        if delta > 0 {
          s := s.(consumed := s.consumed + delta, split := Merged(s.split, io.split),
              walletSpent := s.walletSpent + delta);
        } else {
          var back := if -delta > s.consumed then s.consumed else -delta;
          var refund, rest := TakeWalletRefund(s.split, back);
          s := s.(walletSpent := s.walletSpent - refund.Total());
          s := s.(consumed := s.consumed - back, split := rest);
        }
        s := s.(fundingSettled := true);
      }
      ok := true;
      if !s.playground {
        ok := io.tokenOk;
        if ok {
          s := SpendToken(s, delta);
        }
      }
      s := s.(settled := true);
    }

    method Refund()
      modifies this
      ensures s == RefundStep(old(s))
      ensures refundCalls == old(refundCalls) + 1 && settleCalls == old(settleCalls)
    {
      refundCalls := refundCalls + 1;
      if s.settled || s.refunded || !NeedsRefund(s) {
        return;
      }
      s := s.(refunded := true);
      if s.consumed > 0 {
        s := s.(walletSpent := s.walletSpent - s.split.Total());
        s := s.(consumed := 0, split := NOTHING);
      }
      if s.tokenConsumed > 0 && !s.playground {
        s := SpendToken(s, -s.tokenConsumed);
      }
    }
  }

  // ----- what a session costs -----

  predicate Open(s: Session) {
    !s.settled && !s.refunded && !s.fundingSettled
  }

  /** The quota held by a session that has not been closed. */
  predicate Held(s: Session) {
    && Open(s)
    && 0 <= s.extraReserved <= s.preConsumed == s.tokenConsumed == s.consumed == s.walletSpent
    && s.split.Balanced() && s.split.Total() == s.preConsumed - s.extraReserved
    && s.tokenSpent == if s.playground then 0 else s.tokenConsumed
  }

  /** The database returns a balanced record of what it took. */
  predicate Honest(io: Io, amount: int) {
    amount > 0 ==> io.split.Balanced() && io.split.Total() == amount
  }

  lemma NothingBalanced()
    ensures NOTHING.Balanced()
  {
  }

  /** Taking quota in advance either holds it, or leaves nothing taken at all. */
  lemma PreConsumeHoldsOrNothing(playground: bool, quota: int, trust: bool, io: Io)
    requires quota >= 0 && Honest(io, quota)
    ensures var (s, ok) := PreConsumeStep(NewSession(playground), quota, trust, io);
            && (ok ==> Held(s) && s.extraReserved == 0 && s.preConsumed == if trust then 0 else quota)
            && (!ok ==> s.walletSpent == 0 && s.tokenSpent == 0)
  {
    NothingBalanced();
  }

  datatype Reservation = Reservation(target: int, io: Io)

  function ReserveAll(s: Session, reservations: seq<Reservation>): Session {
    if reservations == [] then s
    else
      var n := |reservations| - 1;
      ReserveStep(ReserveAll(s, reservations[..n]), reservations[n].target, reservations[n].io).0
  }

  /** Any number of top-ups, successful or not, keep the session's books in order. */
  lemma {:induction false} ReservationsHold(s: Session, reservations: seq<Reservation>)
    requires Held(s)
    ensures Held(ReserveAll(s, reservations))
    ensures ReserveAll(s, reservations).preConsumed - ReserveAll(s, reservations).extraReserved
          == s.preConsumed - s.extraReserved
  {
    if reservations != [] {
      ReservationsHold(s, reservations[..|reservations| - 1]);
    }
  }

  function Max(a: int, b: int): int { if a >= b then a else b }

  /** A settlement takes effect if there is nothing to adjust or the wallet can be adjusted. */
  predicate TakesEffect(s: Session, actual: int, io: Io) {
    actual == s.preConsumed || io.walletOk
  }

  /** What the token ends up with: the actual amount, unless it has to be adjusted and cannot be. */
  function TokenCost(s: Session, actual: int, io: Io): int {
    if s.playground then 0 else if actual == s.preConsumed || io.tokenOk then actual else s.preConsumed
  }

  /**
   A settlement that takes effect charges the wallet the actual amount, but never less than what
   was topped up, and the token the actual amount unless that update fails; one that takes no
   effect changes nothing and can be repeated.
   */
  lemma SettlementCost(s: Session, actual: int, io: Io)
    requires Held(s) && actual >= 0
    requires io.walletOk ==> Honest(io, actual - s.preConsumed)
    ensures var (s', ok) := SettleStep(s, actual, io);
            if !TakesEffect(s, actual, io) then s' == s && !ok
            else
              && s'.settled && s'.walletSpent == Max(actual, s.extraReserved)
              && s'.tokenSpent == TokenCost(s, actual, io)
              && (ok <==> actual == s.preConsumed || s.playground || io.tokenOk)
  {
    hide Refund, Sum, AllPositive, Merged;
    var delta := actual - s.preConsumed;
    if delta < 0 && io.walletOk {
      SurplusCost(s, actual, io);
    }
  }

  lemma SurplusCost(s: Session, actual: int, io: Io)
    requires Held(s) && 0 <= actual < s.preConsumed
    ensures var s' := SettleWallet(s, actual - s.preConsumed, io);
            && s'.walletSpent == Max(actual, s.extraReserved)
            && s'.tokenSpent == s.tokenSpent && s'.playground == s.playground
  {
    hide Refund, Sum, AllPositive;
    RefundConserves(s.split, s.preConsumed - actual, Kind(true));
  }

  /** The wallet is charged exactly the actual amount exactly if that covers the top-ups and takes effect. */
  lemma SettlementIsExactIff(s: Session, actual: int, io: Io)
    requires Held(s) && actual >= 0
    requires io.walletOk ==> Honest(io, actual - s.preConsumed)
    ensures SettleStep(s, actual, io).0.walletSpent == actual <==>
          TakesEffect(s, actual, io) && s.extraReserved <= actual
  {
    hide SettleStep;
    SettlementCost(s, actual, io);
  }

  /** A refund gives the token everything back; the wallet gets everything back exactly if nothing was topped up. */
  lemma RefundIsCompleteIff(s: Session)
    requires Held(s)
    ensures RefundStep(s).tokenSpent == 0 && RefundStep(s).walletSpent == s.extraReserved
    ensures RefundStep(s).walletSpent == 0 <==> s.extraReserved == 0
  {
    hide Sum, AllPositive;
  }

  // ----- closing more than once -----

  datatype Closing = Settling(actual: int, io: Io) | Refunding

  function CloseStep(s: Session, c: Closing): Session {
    match c
    case Settling(actual, io) => SettleStep(s, actual, io).0
    case Refunding => RefundStep(s)
  }

  function CloseAll(s: Session, closings: seq<Closing>): Session {
    if closings == [] then s
    else CloseStep(CloseAll(s, closings[..|closings| - 1]), closings[|closings| - 1])
  }

  /** A settled session is never changed again, by whatever settlements and refunds follow. */
  lemma {:induction false} SettledIsFinal(s: Session, closings: seq<Closing>)
    requires s.settled
    ensures CloseAll(s, closings) == s
  {
    if closings != [] {
      SettledIsFinal(s, closings[..|closings| - 1]);
    }
  }

  /** Repeated refunds pay out once. */
  lemma {:induction false} RefundIsIdempotent(s: Session, n: nat)
    ensures CloseAll(s, seq(n + 1, _ => Refunding)) == RefundStep(s)
  {
    var all := seq(n + 1, _ => Refunding);
    if n > 0 {
      assert all[..n] == seq(n, _ => Refunding);
      RefundIsIdempotent(s, n - 1);
      assert RefundStep(RefundStep(s)) == RefundStep(s);
    } else {
      assert all[..0] == [];
    }
  }

  /**
   A settlement after a refund is not refused.  It charges the wallet and the token as if the
   quota were still held, except that the wallet has nothing left to give back; so it leaves
   the refunded amounts alone exactly if there is nothing to adjust or nothing can be adjusted.
   */
  lemma SettlingAfterRefund(s: Session, actual: int, io: Io)
    requires Held(s) && NeedsRefund(s) && actual >= 0
    ensures var refunded := RefundStep(s);
            var after, delta := SettleStep(refunded, actual, io).0, actual - s.preConsumed;
            && after.walletSpent == refunded.walletSpent + (if delta > 0 && io.walletOk then delta else 0)
            && after.tokenSpent == refunded.tokenSpent + (if io.walletOk && io.tokenOk && !s.playground
                then delta else 0)
            && (after.walletSpent == refunded.walletSpent && after.tokenSpent == refunded.tokenSpent <==>
                  || actual == s.preConsumed || !io.walletOk
                  || (actual < s.preConsumed && (s.playground || !io.tokenOk)))
  {
    hide Sum, AllPositive, Take, Compact, Merged;
    assert Refund(NOTHING, 0) == (NOTHING, NOTHING);
  }

  // ----- when quota is granted -----

  /** Quota is granted exactly if none is needed, or the wallet has it and the token, where there is one, too. */
  lemma PreConsumeGrantedIff(playground: bool, quota: int, trust: bool, io: Io)
    ensures PreConsumeStep(NewSession(playground), quota, trust, io).1 <==>
      trust || quota <= 0 || (io.walletOk && (playground || io.tokenOk))
  {
  }

  /** A top-up is granted on the same terms, and then holds the target; a refused one changes nothing. */
  lemma ReserveMeaning(s: Session, target: int, io: Io)
    requires Held(s)
    ensures var (s', ok) := ReserveStep(s, target, io);
            var more := !s.trusted && target > s.preConsumed;
            && (ok <==> !more || (io.walletOk && (s.playground || io.tokenOk)))
            && (!(ok && more) ==> s' == s)
            && (ok && more ==>
                  && s'.preConsumed == target && s'.walletSpent == s.walletSpent + (target - s.preConsumed)
                  && s'.tokenSpent == (if s.playground then 0 else s.tokenSpent + (target - s.preConsumed))
                  && s'.extraReserved == s.extraReserved + (target - s.preConsumed))
  {
  }
}
