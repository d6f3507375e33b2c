/**
 Choosing one price per model from the models.dev catalogue, where several providers may list
 the same model.  Costs are compared up to a tolerance, which is not transitive; the result is
 still within one tolerance of the cheapest, because providers are visited in sorted order.
 */
module ModelsDev {
  import opened Basics
  import opened Tolerance

  /** A float read from JSON: a number, or an infinity or not-a-number. */
  datatype Float = Finite(v: real) | NotFinite

  predicate ValidCost(f: Float) {
    f.Finite? && f.v >= 0.0
  }

  datatype Cost = Cost(input: Option<Float>, output: Option<Float>, cacheRead: Option<Float>)

  datatype Candidate = Candidate(provider: string, input: real, output: Option<real>, cacheRead: Option<real>)

  function BuildCandidate(provider: string, cost: Cost): Option<Candidate> {
    if cost.input.None? || !ValidCost(cost.input.value) then None
    else if cost.output.Some? && !ValidCost(cost.output.value) then None
    else if cost.input.value.v == 0.0 && cost.output.Some? && cost.output.value.v > 0.0 then None
    else
      Some(Candidate(provider, cost.input.value.v,
                     if cost.output.Some? then Some(cost.output.value.v) else None,
                     if cost.cacheRead.Some? && ValidCost(cost.cacheRead.value) then Some(cost.cacheRead.value.v)
                         else None))
  }

  /** The order of strings. */
  predicate Less(a: string, b: string) {
    if b == "" then false
    else if a == "" then true
    else if a[0] != b[0] then a[0] < b[0]
    else Less(a[1..], b[1..])
  }

  predicate ShouldReplace(current: Candidate, next: Candidate) {
    if (current.input > 0.0) != (next.input > 0.0) then next.input > 0.0
    else if next.input > 0.0 && !NearlyEqual(next.input, current.input) then next.input < current.input
    else Less(next.provider, current.provider)
  }

  // ----- strings in order -----

  lemma {:induction false} LessTransitive(a: string, b: string, c: string)
    requires Less(a, b) && Less(b, c)
    ensures Less(a, c)
  {
    if a != "" && a[0] == b[0] == c[0] {
      LessTransitive(a[1..], b[1..], c[1..]);
    }
  }

  lemma {:induction false} LessIrreflexive(a: string)
    ensures !Less(a, a)
  {
    if a != "" {
      LessIrreflexive(a[1..]);
    }
  }

  lemma {:induction false} LessTotal(a: string, b: string)
    ensures a == b || Less(a, b) || Less(b, a)
  {
    if a != "" && b != "" && a[0] == b[0] {
      LessTotal(a[1..], b[1..]);
      if a[1..] == b[1..] {
        assert a == [a[0]] + a[1..] && b == [b[0]] + b[1..];
      }
    }
  }

  lemma LessAsymmetric(a: string, b: string)
    requires Less(a, b)
    ensures !Less(b, a)
  {
    if Less(b, a) {
      LessTransitive(a, b, a);
      LessIrreflexive(a);
    }
  }

  predicate Sorted(xs: seq<string>) {
    forall i, j :: 0 <= i < j < |xs| ==> Less(xs[i], xs[j])
  }

  function Insert(x: string, xs: seq<string>): seq<string> {
    if xs == [] then [x]
    else if x == xs[0] then xs
    else if Less(x, xs[0]) then [x] + xs
    else [xs[0]] + Insert(x, xs[1..])
  }

  /** The distinct strings of the list, in order. */
  function Sort(xs: seq<string>): seq<string> {
    if xs == [] then [] else Insert(xs[0], Sort(xs[1..]))
  }

  lemma {:induction false} InsertSorted(x: string, xs: seq<string>)
    requires Sorted(xs)
    ensures Sorted(Insert(x, xs))
    ensures forall y :: y in Insert(x, xs) <==> y == x || y in xs
  {
    if xs != [] && x != xs[0] {
      var rest := xs[1..];
      assert xs == [xs[0]] + rest;
      if Less(x, xs[0]) {
        SortedCons(x, xs);
      } else {
        LessTotal(x, xs[0]);
        InsertSorted(x, rest);
        SortedCons(xs[0], Insert(x, rest));
      }
    }
  }

  lemma SortedCons(x: string, xs: seq<string>)
    requires Sorted(xs)
    requires forall y :: y in xs ==> Less(x, y) || (xs != [] && Less(x, xs[0]))
    ensures Sorted([x] + xs)
  {
    forall i | 0 <= i < |xs|
      ensures Less(x, xs[i])
    {
      assert xs[i] in xs;
      if !Less(x, xs[i]) {
        LessTransitive(x, xs[0], xs[i]);
      }
    }
  }

  lemma {:induction false} SortSorts(xs: seq<string>)
    ensures Sorted(Sort(xs))
    ensures forall y :: y in Sort(xs) <==> y in xs
  {
    if xs != [] {
      SortSorts(xs[1..]);
      InsertSorted(xs[0], Sort(xs[1..]));
    }
  }

  /** Two sorted lists with the same strings are the same list. */
  lemma {:induction false} SortedUnique(a: seq<string>, b: seq<string>)
    requires Sorted(a) && Sorted(b) && forall y :: y in a <==> y in b
    ensures a == b
  {
    NonEmptyHasMember(a);
    NonEmptyHasMember(b);
    if a != [] && b != [] {
      assert a[0] in b && b[0] in a;
      SameHead(a, b);
      assert a == [a[0]] + a[1..] && b == [b[0]] + b[1..];
      forall y
        ensures y in a[1..] <==> y in b[1..]
      {
        HeadNotInTail(a);
        HeadNotInTail(b);
        assert y in a <==> y == a[0] || y in a[1..];
        assert y in b <==> y == b[0] || y in b[1..];
      }
      SortedUnique(a[1..], b[1..]);
    }
  }

  lemma NonEmptyHasMember(xs: seq<string>)
    ensures xs != [] <==> exists y :: y in xs
  {
    if xs != [] {
      assert xs[0] in xs;
    }
  }

  lemma SameHead(a: seq<string>, b: seq<string>)
    requires Sorted(a) && Sorted(b) && a != [] && b != []
    requires a[0] in b && b[0] in a
    ensures a[0] == b[0]
  {
    if a[0] != b[0] {
      var i :| 0 <= i < |b| && b[i] == a[0];
      var j :| 0 <= j < |a| && a[j] == b[0];
      LessAsymmetric(b[0], a[0]);
    }
  }

  lemma HeadNotInTail(a: seq<string>)
    requires Sorted(a) && a != []
    ensures a[0] !in a[1..]
  {
    LessIrreflexive(a[0]);
  }

  // ----- the selection -----

  type Catalogue = map<string, map<string, Cost>>

  function Offer(data: Catalogue, provider: string, model: string): Option<Candidate> {
    if provider in data && model in data[provider] then BuildCandidate(provider, data[provider][model]) else None
  }

  function Better(current: Option<Candidate>, next: Option<Candidate>): Option<Candidate> {
    if next.None? then current
    else if current.None? || ShouldReplace(current.value, next.value) then next
    else current
  }

  /** The candidate left after visiting the providers in the given order. */
  function Choose(data: Catalogue, providers: seq<string>, model: string): Option<Candidate> {
    if providers == [] then None
    else Better(Choose(data, providers[..|providers| - 1], model), Offer(data, providers[|providers| - 1], model))
  }

  /** Visits every provider in sorted order and each of its models, keeping the best candidate per model. */
  method SelectCandidates(data: Catalogue, names: seq<string>) returns (selected: map<string, Candidate>)
    requires forall p :: p in names <==> p in data
    ensures forall m :: m in selected <==> Choose(data, Sort(names), m).Some?
    ensures forall m :: m in selected ==> Choose(data, Sort(names), m) == Some(selected[m])
  {
    var providers := Sort(names);
    SortSorts(names);
    selected := map[];
    for i := 0 to |providers|
      invariant Holds(selected, data, providers[..i])
    {
      assert providers[i] in providers;
      selected := VisitProvider(data, providers, i, selected);
    }
    assert providers[..|providers|] == providers;
  }

  ghost predicate Holds(selected: map<string, Candidate>, data: Catalogue, providers: seq<string>) {
    forall m :: Lookup(selected, m) == Choose(data, providers, m)
  }

  function Lookup(selected: map<string, Candidate>, m: string): Option<Candidate> {
    if m in selected then Some(selected[m]) else None
  }

  method VisitProvider(data: Catalogue, providers: seq<string>, i: nat, before: map<string, Candidate>)
    returns (selected: map<string, Candidate>)
    requires i < |providers| && providers[i] in data
    requires Holds(before, data, providers[..i])
    ensures Holds(selected, data, providers[..i + 1])
  {
    var provider := providers[i];
    var models := data[provider];
    selected := before;
    assert providers[..i + 1][..i] == providers[..i];
    var pending := models.Keys;
    while pending != {}
      invariant pending <= models.Keys
      invariant forall m :: m in models && m !in pending ==> Lookup(selected, m) == Choose(data, providers[..i + 1], m)
      invariant forall m :: m !in models || m in pending ==> Lookup(selected, m) == Choose(data, providers[..i], m)
    {
      var model :| model in pending;
      pending := pending - {model};
      var candidate := BuildCandidate(provider, models[model]);
      if candidate.None? {
        continue;
      }
      if model !in selected || ShouldReplace(selected[model], candidate.value) {
        selected := selected[model := candidate.value];
      }
    }
  }

  /** The order in which the map of providers is enumerated makes no difference. */
  lemma EnumerationIrrelevant(a: seq<string>, b: seq<string>)
    requires forall p :: p in a <==> p in b
    ensures Sort(a) == Sort(b)
  {
    SortSorts(a);
    SortSorts(b);
    SortedUnique(Sort(a), Sort(b));
  }

  // ----- what is chosen -----

  /** Nothing a chosen candidate was compared with undercuts it by a whole tolerance. */
  predicate Dominates(chosen: Candidate, other: Candidate) {
    other.input > 0.0 ==> chosen.input > 0.0 && chosen.input < other.input + EPSILON
  }

  lemma OffersDescribeProvider(data: Catalogue, provider: string, model: string)
    ensures Offer(data, provider, model).Some? ==>
      Offer(data, provider, model).value.provider == provider && Offer(data, provider, model).value.input >= 0.0
  {
  }

  /** The chosen candidate is one of the offers; it comes from one of the providers visited. */
  lemma {:induction false} ChosenIsOffered(data: Catalogue, providers: seq<string>, model: string)
    ensures var c := Choose(data, providers, model);
            && (c.Some? <==> exists i :: 0 <= i < |providers| && Offer(data, providers[i], model).Some?)
            && (c.Some? ==> c.value.provider in providers && Offer(data, c.value.provider, model) == c)
  {
    if providers != [] {
      var n := |providers| - 1;
      ChosenIsOffered(data, providers[..n], model);
      OffersDescribeProvider(data, providers[n], model);
      if Choose(data, providers[..n], model).Some? {
        var i :| 0 <= i < n && Offer(data, providers[..n][i], model).Some?;
        assert providers[i] == providers[..n][i];
      }
    }
  }

  /** In sorted order, replacements only ever lower the price: the tie-breaker on names never fires. */
  lemma ReplacementsLowerThePrice(current: Candidate, next: Candidate)
    requires Less(current.provider, next.provider) && current.input >= 0.0 && next.input >= 0.0
    ensures ShouldReplace(current, next) <==>
      next.input > 0.0 && (current.input == 0.0 || next.input <= current.input - EPSILON)
  {
    LessAsymmetric(current.provider, next.provider);
  }

  /**
   Visiting the providers in sorted order, the chosen candidate has a non-zero cost whenever
   there is one, and costs less than every non-zero offer plus one tolerance.
   */
  lemma {:induction false} ChosenIsCheapest(data: Catalogue, providers: seq<string>, model: string)
    requires Sorted(providers)
    ensures forall i :: 0 <= i < |providers| && Offer(data, providers[i], model).Some? ==>
      && Choose(data, providers, model).Some?
      && Dominates(Choose(data, providers, model).value, Offer(data, providers[i], model).value)
  {
    if providers != [] {
      var n := |providers| - 1;
      var front, last := providers[..n], providers[n];
      ChosenIsCheapest(data, front, model);
      ChosenIsOffered(data, front, model);
      OffersDescribeProvider(data, last, model);
      var current, next := Choose(data, front, model), Offer(data, last, model);
      if current.Some? {
        OffersDescribeProvider(data, current.value.provider, model);
        if next.Some? {
          ReplacementsLowerThePrice(current.value, next.value);
        }
      }
      forall i | 0 <= i < |providers| && Offer(data, providers[i], model).Some?
        ensures Choose(data, providers, model).Some?
        ensures Dominates(Choose(data, providers, model).value, Offer(data, providers[i], model).value)
      {
        if i < n {
          assert front[i] == providers[i];
          assert Dominates(current.value, Offer(data, front[i], model).value);
        }
      }
    }
  }

  /** Out of sorted order, tie-breaks would let the price creep up by more than the tolerance. */
  lemma UnsortedVisitsDrift(first: Candidate, second: Candidate, third: Candidate)
    requires Less(second.provider, first.provider) && Less(third.provider, second.provider)
    requires first.input > 0.0
    requires second.input == first.input + 0.6 * EPSILON && third.input == first.input + 1.2 * EPSILON
    ensures Better(Better(Some(first), Some(second)), Some(third)) == Some(third) && !Dominates(third, first)
  {
  }

  // ----- which prices become candidates -----

  /** A usable price: a finite number that is not negative. */
  predicate Usable(price: Option<Float>) {
    price.Some? && price.value.Finite? && price.value.v >= 0.0
  }

  function PriceOf(price: Option<Float>): Option<real> {
    if price.Some? && price.value.Finite? then Some(price.value.v) else None
  }

  /**
   A listed cost becomes a candidate exactly if its input price is usable, its output price is
   usable where there is one, and the input is not free while the output costs something.  The
   candidate has the listed prices; an unusable cache price is left out.
   */
  lemma CandidateMeaning(provider: string, cost: Cost)
    ensures var c := BuildCandidate(provider, cost);
      && (c.Some? <==>
            && Usable(cost.input) && (cost.output.Some? ==> Usable(cost.output))
            && !(cost.input.value.v == 0.0 && cost.output.Some? && cost.output.value.v > 0.0))
      && (c.Some? ==>
            && c.value.provider == provider && Some(c.value.input) == PriceOf(cost.input)
            && c.value.output == PriceOf(cost.output)
            && c.value.cacheRead == if Usable(cost.cacheRead) then PriceOf(cost.cacheRead) else None)
  {
  }
}
