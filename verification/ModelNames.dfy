/**
 Lists of model names and the ordered-set algebra on them: trimming and deduplicating,
 merging, subtracting and intersecting, and applying a selection of changes.
 */
module ModelNames {
  import opened Text

  // ----- ordered sets -----

  predicate Distinct(xs: seq<string>) {
    forall i, j :: 0 <= i < j < |xs| ==> xs[i] != xs[j]
  }

  /** First occurrences only, in order. */
  function Uniq(xs: seq<string>): seq<string> {
    if xs == [] then []
    else
      var front, last := Uniq(xs[..|xs| - 1]), xs[|xs| - 1];
      if last in front then front else front + [last]
  }

  function Filter(xs: seq<string>, p: string -> bool): seq<string> {
    if xs == [] then []
    else
      var front, last := Filter(xs[..|xs| - 1], p), xs[|xs| - 1];
      if p(last) then front + [last] else front
  }

  function Normalize(models: seq<string>): seq<string> {
    Uniq(Clean(models))
  }

  predicate IsName(x: string) {
    x != "" && Trimmed(x)
  }

  predicate AreNames(xs: seq<string>) {
    forall i :: 0 <= i < |xs| ==> IsName(xs[i])
  }

  /** A list that normalising leaves alone: distinct, trimmed, no blank names. */
  predicate Normal(xs: seq<string>) {
    Distinct(xs) && AreNames(xs)
  }

  function Merge(base: seq<string>, appended: seq<string>): seq<string> {
    var merged := Normalize(base);
    merged + Filter(Normalize(appended), m => m !in merged)
  }

  function Subtract(base: seq<string>, removed: seq<string>): seq<string> {
    var gone := Normalize(removed);
    Filter(Normalize(base), m => m !in gone)
  }

  function Intersect(base: seq<string>, allowed: seq<string>): seq<string> {
    var kept := Normalize(allowed);
    Filter(Normalize(base), m => m in kept)
  }

  function ApplySelected(origin: seq<string>, add: seq<string>, remove: seq<string>): seq<string> {
    var added := Normalize(add);
    var removed := Subtract(Normalize(remove), added);
    Subtract(Merge(origin, added), removed)
  }

  /** The merge as it is computed: one pass over the appended names with a set of names seen. */
  method MergeModelNames(base: seq<string>, appended: seq<string>) returns (merged: seq<string>)
    ensures merged == Merge(base, appended)
  {
    hide Normalize, IsName;
    merged := Normalize(base);
    ghost var start := merged;
    var seen := set i | 0 <= i < |merged| :: merged[i];
    var more := Normalize(appended);
    NormalizeIsNormal(appended);
    for i := 0 to |more|
      invariant merged == start + Filter(more[..i], m => m !in start)
      invariant forall m :: m in seen <==> m in merged
    {
      FilterMembers(more[..i], m => m !in start);
      assert more[..i + 1][..i] == more[..i] && more[i] !in more[..i];
      if more[i] !in seen {
        seen := seen + {more[i]};
        merged := merged + [more[i]];
      }
    }
    assert more[..|more|] == more;
  }

  // ----- basic facts -----

  lemma {:induction false} UniqProperties(xs: seq<string>)
    ensures Distinct(Uniq(xs))
    ensures forall x :: x in Uniq(xs) <==> x in xs
    ensures Distinct(xs) ==> Uniq(xs) == xs
  {
    if xs != [] {
      UniqProperties(xs[..|xs| - 1]);
      assert xs == xs[..|xs| - 1] + [xs[|xs| - 1]];
    }
  }

  lemma {:induction false} CleanMembers(xs: seq<string>)
    ensures AreNames(Clean(xs))
  {
    if xs != [] {
      CleanMembers(xs[..|xs| - 1]);
      TrimSpaceIsTrimmed(xs[|xs| - 1]);
    }
  }

  lemma {:induction false} CleanOfNormal(xs: seq<string>)
    requires AreNames(xs)
    ensures Clean(xs) == xs
  {
    hide Trimmed, TrimSpace;
    if xs != [] {
      CleanOfNormal(xs[..|xs| - 1]);
      TrimSpaceOfTrimmed(xs[|xs| - 1]);
    }
  }

  /** Normalising gives a normal list with the same cleaned names, and leaves normal lists alone. */
  lemma NormalizeIsNormal(xs: seq<string>)
    ensures Normal(Normalize(xs))
    ensures forall x :: x in Normalize(xs) <==> x in Clean(xs)
    ensures Normal(xs) ==> Normalize(xs) == xs
  {
    hide IsName;
    CleanMembers(xs);
    UniqProperties(Clean(xs));
    forall i | 0 <= i < |Normalize(xs)|
      ensures IsName(Normalize(xs)[i])
    {
      assert Normalize(xs)[i] in Clean(xs);
    }
    if Normal(xs) {
      CleanOfNormal(xs);
    }
  }

  lemma {:induction false} FilterMembers(xs: seq<string>, p: string -> bool)
    ensures forall x :: x in Filter(xs, p) <==> x in xs && p(x)
    ensures Normal(xs) ==> Normal(Filter(xs, p))
  {
    hide IsName;
    if xs != [] {
      var front, last := xs[..|xs| - 1], xs[|xs| - 1];
      assert xs == front + [last];
      FilterMembers(front, p);
    }
  }

  lemma {:induction false} FilterAll(xs: seq<string>, p: string -> bool)
    requires forall i :: 0 <= i < |xs| ==> p(xs[i])
    ensures Filter(xs, p) == xs
  {
    if xs != [] {
      FilterAll(xs[..|xs| - 1], p);
    }
  }

  lemma {:induction false} FilterNone(xs: seq<string>, p: string -> bool)
    requires forall i :: 0 <= i < |xs| ==> !p(xs[i])
    ensures Filter(xs, p) == []
  {
    if xs != [] {
      FilterNone(xs[..|xs| - 1], p);
    }
  }

  lemma EmptyIfNoMembers(xs: seq<string>)
    ensures xs == [] <==> forall m :: m !in xs
  {
    if xs != [] {
      assert xs[0] in xs;
    }
  }

  lemma {:induction false} FilterConcat(a: seq<string>, b: seq<string>, p: string -> bool)
    ensures Filter(a + b, p) == Filter(a, p) + Filter(b, p)
  {
    if b == [] {
      assert a + b == a;
    } else {
      assert (a + b)[..|a + b| - 1] == a + b[..|b| - 1];
      FilterConcat(a, b[..|b| - 1], p);
    }
  }

  lemma {:induction false} FilterAgree(xs: seq<string>, p: string -> bool, q: string -> bool)
    requires forall x :: x in xs ==> p(x) == q(x)
    ensures Filter(xs, p) == Filter(xs, q)
  {
    if xs != [] {
      FilterAgree(xs[..|xs| - 1], p, q);
    }
  }

  // ----- what the operations mean -----

  /** Union in order: the base comes first, then the names that are new. */
  lemma MergeMeaning(base: seq<string>, appended: seq<string>)
    ensures Normal(Merge(base, appended))
    ensures Normalize(base) <= Merge(base, appended)
    ensures forall m :: m in Merge(base, appended) <==> m in Normalize(base) || m in Normalize(appended)
  {
    hide Normalize, Normal;
    NormalizeIsNormal(base);
    NormalizeIsNormal(appended);
    var merged := Normalize(base);
    var novel := Filter(Normalize(appended), m => m !in merged);
    FilterMembers(Normalize(appended), m => m !in merged);
    NormalConcat(merged, novel);
  }

  lemma NormalConcat(a: seq<string>, b: seq<string>)
    requires Normal(a) && Normal(b)
    requires forall x :: x in b ==> x !in a
    ensures Normal(a + b)
  {
    hide IsName;
    forall i, j | 0 <= i < j < |a + b|
      ensures (a + b)[i] != (a + b)[j]
    {
      if i < |a| <= j {
        assert (a + b)[j] == b[j - |a|] && b[j - |a|] in b;
      }
    }
  }

  lemma MergeDisjoint(base: seq<string>, appended: seq<string>)
    requires Normal(base) && Normal(appended)
    requires forall m :: m in appended ==> m !in base
    ensures Merge(base, appended) == base + appended
  {
    NormalizeIsNormal(base);
    NormalizeIsNormal(appended);
    FilterAll(appended, m => m !in base);
  }

  lemma SubtractMeaning(base: seq<string>, removed: seq<string>)
    ensures Normal(Subtract(base, removed))
    ensures forall m :: m in Subtract(base, removed) <==> m in Normalize(base) && m !in Normalize(removed)
  {
    NormalizeIsNormal(base);
    var gone := Normalize(removed);
    FilterMembers(Normalize(base), m => m !in gone);
  }

  lemma IntersectMeaning(base: seq<string>, allowed: seq<string>)
    ensures Normal(Intersect(base, allowed))
    ensures forall m :: m in Intersect(base, allowed) <==> m in Normalize(base) && m in Normalize(allowed)
  {
    NormalizeIsNormal(base);
    var kept := Normalize(allowed);
    FilterMembers(Normalize(base), m => m in kept);
  }

  /** Selected additions win over selected removals, and nothing else changes. */
  lemma ApplySelectedMeaning(origin: seq<string>, add: seq<string>, remove: seq<string>)
    ensures Normal(ApplySelected(origin, add, remove))
    ensures forall m :: m in ApplySelected(origin, add, remove) <==>
      m in Normalize(add) || (m in Normalize(origin) && m !in Normalize(remove))
  {
    NormalizeIsNormal(add);
    NormalizeIsNormal(remove);
    var added := Normalize(add);
    NormalizeIsNormal(added);
    NormalizeIsNormal(Normalize(remove));
    SubtractMeaning(Normalize(remove), added);
    var removed := Subtract(Normalize(remove), added);
    NormalizeIsNormal(removed);
    MergeMeaning(origin, added);
    NormalizeIsNormal(Merge(origin, added));
    SubtractMeaning(Merge(origin, added), removed);
  }
}
