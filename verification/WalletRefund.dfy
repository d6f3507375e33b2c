/**
 Giving part of a wallet deduction back.  A deduction is recorded as allocations from credit
 lots, paid or promotional; a refund takes from the paid allocations first, the latest first.
 */
module WalletRefund {

  /** An amount taken from one credit lot. */
  datatype Allocation = Allocation(lot: int, paid: bool, amount: int)

  datatype Split = Split(promo: int, cash: int, allocations: seq<Allocation>) {
    function Total(): int { promo + cash }

    /** The two totals add up the allocations of their kind, all of them positive. */
    predicate Balanced() {
      && AllPositive(allocations)
      && cash == Sum(allocations, Kind(true)) && promo == Sum(allocations, Kind(false))
    }
  }

  predicate AllPositive(allocations: seq<Allocation>) {
    forall i :: 0 <= i < |allocations| ==> allocations[i].amount > 0
  }

  predicate NoneNegative(allocations: seq<Allocation>) {
    forall i :: 0 <= i < |allocations| ==> allocations[i].amount >= 0
  }

  /** Which allocations to add up: all of one kind, or those of one kind from one credit lot. */
  datatype Selector = Kind(paid: bool) | Lot(lot: int, paid: bool) {
    predicate Matches(x: Allocation) { x.paid == paid && (Lot? ==> x.lot == lot) }
  }

  function Sum(allocations: seq<Allocation>, sel: Selector): int {
    if allocations == [] then 0
    else
      var last := allocations[|allocations| - 1];
      Sum(allocations[..|allocations| - 1], sel) + if sel.Matches(last) then last.amount else 0
  }

  // ----- one kind of allocation -----

  datatype Taking = Taking(kept: seq<Allocation>, taken: seq<Allocation>, left: int)

  function Min(a: int, b: int): int { if a <= b then a else b }

  predicate Takes(a: Allocation, paid: bool, wanted: int) {
    wanted > 0 && a.paid == paid && a.amount > 0
  }

  /** Takes up to the wanted amount from the allocations of one kind, from the last to the first. */
  function Take(allocations: seq<Allocation>, paid: bool, wanted: int): Taking {
    if allocations == [] then Taking([], [], wanted)
    else
      var front, last := allocations[..|allocations| - 1], allocations[|allocations| - 1];
      if !Takes(last, paid, wanted) then
        var rest := Take(front, paid, wanted);
        Taking(rest.kept + [last], rest.taken, rest.left)
      else
        var part := Min(last.amount, wanted);
        var rest := Take(front, paid, wanted - part);
        Taking(rest.kept + [last.(amount := last.amount - part)], [last.(amount := part)] + rest.taken, rest.left)
  }

  /** A taking from the front part, continued by what has already been done behind it. */
  function Resume(front: Taking, behind: seq<Allocation>, before: seq<Allocation>): Taking {
    Taking(front.kept + behind, before + front.taken, front.left)
  }

  lemma ResumeStep(front: seq<Allocation>, x: Allocation, paid: bool, left: int, behind: seq<Allocation>,
      before: seq<Allocation>)
    ensures Resume(Take(front + [x], paid, left), behind, before) ==
            if !Takes(x, paid, left) then Resume(Take(front, paid, left), [x] + behind, before)
            else
              var part := Min(x.amount, left);
              Resume(Take(front, paid, left - part), [x.(amount := x.amount - part)] + behind,
                  before + [x.(amount := part)])
  {
    assert (front + [x])[..|front|] == front;
  }

  lemma ResumeStart(all: seq<Allocation>, paid: bool, wanted: int)
    ensures Resume(Take(all, paid, wanted), [], []) == Take(all, paid, wanted)
    ensures Take([], paid, wanted) == Taking([], [], wanted)
  {
  }

  /** The same, in place. */
  method TakeInPlace(a: array<Allocation>, paid: bool, wanted: int) returns (taken: seq<Allocation>, left: int)
    modifies a
    ensures Taking(a[..], taken, left) == Take(old(a[..]), paid, wanted)
  {
    hide Take, Resume;
    ghost var was, behind: seq<Allocation> := a[..], [];
    taken, left := [], wanted;
    var i := a.Length;
    assert was[..i] == was && was + behind == was;
    ResumeStart(was, paid, wanted);
    while i > 0 && left > 0
      invariant 0 <= i <= a.Length
      invariant a[..] == was[..i] + behind
      invariant Take(was, paid, wanted) == Resume(Take(was[..i], paid, left), behind, taken)
    {
      i := i - 1;
      ghost var x, front := was[i], was[..i];
      assert was[..i + 1] == front + [x];
      assert a[i] == a[..][i] == x;
      ResumeStep(front, x, paid, left, behind, taken);
      if Takes(a[i], paid, left) {
        var part := Min(a[i].amount, left);
        taken := taken + [a[i].(amount := part)];
        a[i] := a[i].(amount := a[i].amount - part);
        left := left - part;
      }
      ReplaceAt(front, x, behind, a[i]);
      behind := [a[i]] + behind;
    }
    FinishTaking(was[..i], paid, left, behind, taken);
  }

  lemma ReplaceAt(front: seq<Allocation>, x: Allocation, behind: seq<Allocation>, y: Allocation)
    ensures (front + [x] + behind)[|front| := y] == front + ([y] + behind)
  {
  }

  lemma FinishTaking(front: seq<Allocation>, paid: bool, left: int, behind: seq<Allocation>, taken: seq<Allocation>)
    requires front == [] || left <= 0
    ensures Resume(Take(front, paid, left), behind, taken) == Taking(front + behind, taken, left)
  {
    if front != [] {
      TakeNothing(front, paid, left);
    }
  }

  lemma {:induction false} TakeNothing(allocations: seq<Allocation>, paid: bool, wanted: int)
    requires wanted <= 0
    ensures Take(allocations, paid, wanted) == Taking(allocations, [], wanted)
  {
    if allocations != [] {
      TakeNothing(allocations[..|allocations| - 1], paid, wanted);
    }
  }

  // ----- a whole refund -----

  function Compact(allocations: seq<Allocation>): seq<Allocation> {
    if allocations == [] then []
    else
      var last := allocations[|allocations| - 1];
      Compact(allocations[..|allocations| - 1]) + if last.amount > 0 then [last] else []
  }

  /** What is given back, and what remains deducted. */
  function Refund(split: Split, amount: int): (Split, Split) {
    if amount <= 0 then (Split(0, 0, []), split)
    else
      var paid := Take(split.allocations, true, amount);
      var promo := Take(paid.kept, false, paid.left);
      (Split(paid.left - promo.left, amount - paid.left, paid.taken + promo.taken),
       Split(split.promo - (paid.left - promo.left), split.cash - (amount - paid.left), Compact(promo.kept)))
  }

  method TakeWalletRefund(split: Split, amount: int) returns (refund: Split, rest: Split)
    ensures (refund, rest) == Refund(split, amount)
  {
    if amount <= 0 {
      return Split(0, 0, []), split;
    }
    hide Take;
    var copy := Copy(split.allocations);
    var paidTaken, afterPaid := TakeInPlace(copy, true, amount);
    var promoTaken, afterPromo := TakeInPlace(copy, false, afterPaid);
    var compacted := CompactInto(copy);
    refund := Split(afterPaid - afterPromo, amount - afterPaid, paidTaken + promoTaken);
    rest := Split(split.promo - (afterPaid - afterPromo), split.cash - (amount - afterPaid), compacted);
  }

  method Copy(s: seq<Allocation>) returns (a: array<Allocation>)
    ensures fresh(a) && a[..] == s
  {
    a := new Allocation[|s|](i requires 0 <= i < |s| => s[i]);
  }

  method CompactInto(a: array<Allocation>) returns (compacted: seq<Allocation>)
    ensures compacted == Compact(a[..])
  {
    compacted := [];
    for i := 0 to a.Length
      invariant compacted == Compact(a[..i])
    {
      assert a[..i + 1][..i] == a[..i];
      if a[i].amount > 0 {
        compacted := compacted + [a[i]];
      }
    }
    assert a[..a.Length] == a[..];
  }

  // ----- conservation -----

  lemma SumSnoc(a: seq<Allocation>, x: Allocation, sel: Selector)
    ensures Sum(a + [x], sel) == Sum(a, sel) + if sel.Matches(x) then x.amount else 0
  {
    assert (a + [x])[..|a|] == a;
  }

  lemma {:induction false} SumConcat(a: seq<Allocation>, b: seq<Allocation>, sel: Selector)
    ensures Sum(a + b, sel) == Sum(a, sel) + Sum(b, sel)
  {
    if b == [] {
      assert a + b == a;
    } else {
      assert (a + b)[..|a + b| - 1] == a + b[..|b| - 1];
      SumConcat(a, b[..|b| - 1], sel);
    }
  }

  lemma SumCons(x: Allocation, a: seq<Allocation>, sel: Selector)
    ensures Sum([x] + a, sel) == Sum(a, sel) + if sel.Matches(x) then x.amount else 0
  {
    SumConcat([x], a, sel);
    SumSnoc([], x, sel);
    assert [] + [x] == [x];
  }

  lemma {:induction false} SumNonNegative(a: seq<Allocation>, sel: Selector)
    requires NoneNegative(a)
    ensures Sum(a, sel) >= 0
  {
    if a != [] {
      SumNonNegative(a[..|a| - 1], sel);
    }
  }

  /** Nothing is lost or invented, in any lot. */
  lemma {:induction false} TakeConserves(a: seq<Allocation>, paid: bool, wanted: int, sel: Selector)
    ensures var t := Take(a, paid, wanted); Sum(t.kept, sel) + Sum(t.taken, sel) == Sum(a, sel)
  {
    if a != [] {
      var front, last := a[..|a| - 1], a[|a| - 1];
      assert a == front + [last];
      hide Sum;
      SumSnoc(front, last, sel);
      if Takes(last, paid, wanted) {
        var part := Min(last.amount, wanted);
        var rest := Take(front, paid, wanted - part);
        TakeConserves(front, paid, wanted - part, sel);
        SumSnoc(rest.kept, last.(amount := last.amount - part), sel);
        SumCons(last.(amount := part), rest.taken, sel);
      } else {
        TakeConserves(front, paid, wanted, sel);
        SumSnoc(Take(front, paid, wanted).kept, last, sel);
      }
    }
  }

  lemma {:induction false} TakeSigns(a: seq<Allocation>, paid: bool, wanted: int)
    requires NoneNegative(a) && wanted >= 0
    ensures var t := Take(a, paid, wanted); NoneNegative(t.kept) && AllPositive(t.taken) && t.left >= 0
  {
    if a != [] {
      var front, last := a[..|a| - 1], a[|a| - 1];
      TakeSigns(front, paid, if Takes(last, paid, wanted) then wanted - Min(last.amount, wanted) else wanted);
    }
  }

  /** As much is taken as is wanted or there is, and only of the one kind. */
  lemma {:induction false} TakeAmount(a: seq<Allocation>, paid: bool, wanted: int)
    requires NoneNegative(a) && wanted >= 0
    ensures var t := Take(a, paid, wanted);
            && Sum(t.taken, Kind(paid)) == Min(wanted, Sum(a, Kind(paid)))
            && Sum(t.taken, Kind(!paid)) == 0
            && t.left == wanted - Sum(t.taken, Kind(paid))
  {
    if a != [] {
      var front, last := a[..|a| - 1], a[|a| - 1];
      assert a == front + [last];
      hide Sum;
      SumNonNegative(front, Kind(paid));
      SumSnoc(front, last, Kind(paid));
      if Takes(last, paid, wanted) {
        var part := Min(last.amount, wanted);
        TakeAmount(front, paid, wanted - part);
        var rest := Take(front, paid, wanted - part);
        SumCons(last.(amount := part), rest.taken, Kind(paid));
        SumCons(last.(amount := part), rest.taken, Kind(!paid));
      } else {
        TakeAmount(front, paid, wanted);
      }
    }
  }

  lemma {:induction false} CompactConserves(a: seq<Allocation>, sel: Selector)
    requires NoneNegative(a)
    ensures Sum(Compact(a), sel) == Sum(a, sel)
  {
    if a != [] {
      var front, last := a[..|a| - 1], a[|a| - 1];
      assert a == front + [last];
      hide Sum;
      CompactConserves(front, sel);
      SumSnoc(front, last, sel);
      SumSnoc(Compact(front), last, sel);
      assert Compact(front) + [] == Compact(front);
    }
  }

  lemma {:induction false} CompactIsPositive(a: seq<Allocation>)
    ensures AllPositive(Compact(a))
  {
    if a != [] {
      CompactIsPositive(a[..|a| - 1]);
    }
  }

  /**
   A refund gives back the wanted amount, or all there is; paid money first, promotional money
   only once the paid money is used up; and in every credit lot nothing is lost or invented.
   */
  lemma RefundConserves(split: Split, amount: int, sel: Selector)
    requires split.Balanced() && amount >= 0
    ensures var (refund, rest) := Refund(split, amount);
            && refund.Balanced() && rest.Balanced()
            && refund.Total() == Min(amount, split.Total())
            && refund.cash == Min(amount, split.cash)
            && refund.cash + rest.cash == split.cash && refund.promo + rest.promo == split.promo
            && Sum(refund.allocations, sel) + Sum(rest.allocations, sel) == Sum(split.allocations, sel)
  {
    hide Take, Compact;
    SumNonNegative(split.allocations, Kind(true));
    SumNonNegative(split.allocations, Kind(false));
    if amount > 0 {
      var paid := Take(split.allocations, true, amount);
      TakeSigns(split.allocations, true, amount);
      TakeAmount(split.allocations, true, amount);
      var promo := Take(paid.kept, false, paid.left);
      TakeSigns(paid.kept, false, paid.left);
      TakeAmount(paid.kept, false, paid.left);
      RefundParts(split.allocations, paid, promo, amount, Kind(true));
      RefundParts(split.allocations, paid, promo, amount, Kind(false));
      RefundParts(split.allocations, paid, promo, amount, sel);
    }
  }

  lemma RefundParts(a: seq<Allocation>, paid: Taking, promo: Taking, amount: int, sel: Selector)
    requires NoneNegative(a) && amount >= 0
    requires paid == Take(a, true, amount) && promo == Take(paid.kept, false, paid.left)
    requires NoneNegative(promo.kept)
    ensures Sum(paid.taken + promo.taken, sel) == Sum(paid.taken, sel) + Sum(promo.taken, sel)
    ensures Sum(paid.kept, sel) == Sum(a, sel) - Sum(paid.taken, sel)
    ensures AllPositive(Compact(promo.kept))
    ensures Sum(Compact(promo.kept), sel) == Sum(a, sel) - Sum(paid.taken, sel) - Sum(promo.taken, sel)
  {
    hide Take, Sum, Compact;
    SumConcat(paid.taken, promo.taken, sel);
    TakeConserves(a, true, amount, sel);
    TakeConserves(paid.kept, false, paid.left, sel);
    CompactConserves(promo.kept, sel);
    CompactIsPositive(promo.kept);
  }

  /**
   The latest allocations go first: if anything is taken from an allocation of the wanted kind,
   every later one of that kind has been taken whole.
   */
  lemma {:induction false} TakeLatestFirst(a: seq<Allocation>, paid: bool, wanted: int, i: int, j: int)
    requires 0 <= i < j < |a| && a[i].paid == paid && a[j].paid == paid && a[i].amount > 0 && a[j].amount > 0
    ensures var kept := Take(a, paid, wanted).kept;
            && |kept| == |a| && kept[i].lot == a[i].lot && kept[j].lot == a[j].lot
            && (kept[i].amount < a[i].amount ==> kept[j].amount == 0)
  {
    var n := |a| - 1;
    var front, last := a[..n], a[n];
    TakeAligned(front, paid, wanted);
    TakeAligned(a, paid, wanted);
    if Takes(last, paid, wanted) {
      var part := Min(last.amount, wanted);
      TakeAligned(front, paid, wanted - part);
      if j < n {
        TakeLatestFirst(front, paid, wanted - part, i, j);
      } else if part == wanted {
        TakeNothing(front, paid, 0);
      }
    } else if j < n {
      TakeLatestFirst(front, paid, wanted, i, j);
    } else {
      assert wanted <= 0;
      TakeNothing(front, paid, wanted);
    }
  }

  /** What is kept is what was there, lot by lot, with smaller amounts. */
  lemma {:induction false} TakeAligned(a: seq<Allocation>, paid: bool, wanted: int)
    ensures var kept := Take(a, paid, wanted).kept;
            |kept| == |a| && forall i :: 0 <= i < |a| ==> kept[i].lot == a[i].lot && kept[i].paid == a[i].paid
  {
    if a != [] {
      var n := |a| - 1;
      TakeAligned(a[..n], paid, wanted);
      if Takes(a[n], paid, wanted) {
        TakeAligned(a[..n], paid, wanted - Min(a[n].amount, wanted));
      }
    }
  }
}
