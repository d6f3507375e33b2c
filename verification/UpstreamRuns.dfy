/**
 What detection, auto-sync, application and ignoring achieve together, over single rounds
 and over whole runs.
 */
module UpstreamRuns {
  import opened Basics
  import opened Text
  import opened ModelNames
  import opened UpstreamSync

  // ----- reading back a stored model list -----

  predicate CommaFree(names: seq<string>) {
    forall i :: 0 <= i < |names| ==> ',' !in names[i]
  }

  lemma LocalNamesMeaning(models: string)
    ensures LocalNames(models) == Uniq(Fields(models, ','))
    ensures Normal(LocalNames(models)) && CommaFree(LocalNames(models))
    ensures forall n :: n in LocalNames(models) <==> n in Fields(models, ',')
  {
    assert Clean(GetModels(models)) == Fields(models, ',') by {
      if models == "" {
        FieldsDropBlank([]);
      } else {
        FieldsOfTrimmedChar(models, ',');
      }
    }
    NormalizeIsNormal(GetModels(models));
    UniqProperties(Fields(models, ','));
    FieldsAreFields(models, ',');
    forall i | 0 <= i < |LocalNames(models)|
      ensures ',' !in LocalNames(models)[i]
    {
      var n := LocalNames(models)[i];
      assert n in Fields(models, ',');
    }
  }

  lemma {:induction false} AllFieldsMembers(names: seq<string>, n: string)
    ensures n in AllFields(names, ',') <==> exists i :: 0 <= i < |names| && n in Fields(names[i], ',')
  {
    hide Fields;
    if names != [] {
      AllFieldsMembers(names[1..], n);
      if n in AllFields(names[1..], ',') {
        var i :| 0 <= i < |names[1..]| && n in Fields(names[1..][i], ',');
        assert names[i + 1] == names[1..][i];
      }
      if i :| 0 <= i < |names| && n in Fields(names[i], ',') {
        if i > 0 {
          assert names[1..][i - 1] == names[i];
        }
      }
    }
  }

  /** n comes back from storage exactly if it is a comma-separated part of some stored name. */
  lemma StoredNamesFallApart(names: seq<string>, n: string)
    ensures n in LocalNames(JoinNames(names)) <==> exists i :: 0 <= i < |names| && n in Fields(names[i], ',')
  {
    LocalNamesMeaning(JoinNames(names));
    FieldsOfJoined(names, ',');
    AllFieldsMembers(names, n);
  }

  /** Comma-free names come back from storage unchanged, in order. */
  lemma StoredNamesRoundTrip(names: seq<string>)
    requires Normal(names) && CommaFree(names)
    ensures LocalNames(JoinNames(names)) == names
  {
    LocalNamesMeaning(JoinNames(names));
    JoinedFieldsRoundTrip(names, ',');
    UniqProperties(names);
  }

  lemma FieldsOfCommaFree(n: string)
    requires IsName(n) && ',' !in n
    ensures Fields(n, ',') == [n]
  {
    SplitOfSeparatorFree(n, ',');
    CleanOfFields([n], ',');
  }

  // ----- pending changes -----

  lemma PendingAddMeaning(env: Env, local: seq<string>, upstream: seq<string>, ignored: seq<string>)
    ensures Normal(PendingAdd(env, local, upstream, ignored))
    ensures forall m :: m in PendingAdd(env, local, upstream, ignored) <==>
      m in Normalize(upstream) && WantsAdd(env, Normalize(local), Normalize(ignored), m)
  {
    hide Normalize, Normal;
    var have, rules := Normalize(local), Normalize(ignored);
    NormalizeIsNormal(upstream);
    FilterMembers(Normalize(upstream), name => WantsAdd(env, have, rules, name));
    NormalizeIsNormal(Filter(Normalize(upstream), name => WantsAdd(env, have, rules, name)));
  }

  lemma PendingRemoveMeaning(env: Env, local: seq<string>, upstream: seq<string>)
    ensures Normal(PendingRemove(env, local, upstream))
    ensures var offered := Normalize(upstream);
      PendingRemove(env, local, upstream) == Filter(Normalize(local), name => WantsRemove(env, offered, name))
    ensures forall m :: m in PendingRemove(env, local, upstream) <==>
      m in Normalize(local) && WantsRemove(env, Normalize(upstream), m)
  {
    hide Normalize, Normal;
    var offered := Normalize(upstream);
    NormalizeIsNormal(local);
    FilterMembers(Normalize(local), name => WantsRemove(env, offered, name));
    NormalizeIsNormal(Filter(Normalize(local), name => WantsRemove(env, offered, name)));
  }

  /** The rule silences the name: a rule "regex:..." by its expression, any other by being the name. */
  predicate Silences(env: Env, rule: string, name: string) {
    if "regex:" <= rule then env.matches(TrimSpace(rule[6..]), name) else rule == name
  }

  /** A pending addition: offered, not local, not the target of a redirect, and not silenced by any rule. */
  ghost predicate IsAddition(env: Env, row: Row, upstream: seq<string>, m: string) {
    && m in Normalize(upstream) && m !in LocalNames(row.models)
    && (forall source :: source in env.mapping ==> env.mapping[source] != m)
    && forall rule :: rule in Normalize(row.ignored) ==> !Silences(env, rule, m)
  }

  /** A pending removal: local, not offered, and not the source of a redirect. */
  predicate IsRemoval(env: Env, row: Row, upstream: seq<string>, m: string) {
    m in LocalNames(row.models) && m !in Normalize(upstream) && m !in env.mapping.Keys
  }

  lemma PendingMeaning(env: Env, row: Row, upstream: seq<string>)
    ensures forall m :: m in PendingAdd(env, GetModels(row.models), upstream, row.ignored) <==>
      IsAddition(env, row, upstream, m)
    ensures forall m :: m in PendingRemove(env, GetModels(row.models), upstream) <==> IsRemoval(env, row, upstream, m)
  {
    hide Normalize, PendingAdd, PendingRemove;
    PendingAddMeaning(env, GetModels(row.models), upstream, row.ignored);
    PendingRemoveMeaning(env, GetModels(row.models), upstream);
    forall m
      ensures
        (m in Normalize(upstream) && WantsAdd(env, Normalize(GetModels(row.models)), Normalize(row.ignored), m)) <==>
        IsAddition(env, row, upstream, m)
    {
      IgnoredByMember(env, Normalize(row.ignored), m);
      assert forall rule :: MatchesRule(env, rule, m) <==> Silences(env, rule, m);
    }
  }

  // ----- when a check runs and what it changes -----

  /** A check runs if it is forced, if none ran before, or if the interval has passed. */
  predicate IsDue(env: Env, row: Row, force: bool, now: int) {
    force || row.lastCheck <= 0 || now >= row.lastCheck + env.minInterval
  }

  /** A check that is due is the forced check, and one that is not changes nothing. */
  lemma ScheduledCheck(env: Env, row: Row, fetched: Option<seq<string>>, force: bool, autoApply: bool, now: int)
    ensures DetectStep(env, row, fetched, force, autoApply, now) ==
      if IsDue(env, row, force, now) then DetectStep(env, row, fetched, true, autoApply, now)
      else Detection(row, false, 0, true)
  {
    hide PendingAdd, PendingRemove, Merge, ValidModels, JoinNames;
  }

  /**
   A check changes the model list only if the caller allows it and the channel has auto-sync on.
   Otherwise a check that is due, with the upstream list fetched, records exactly the pending
   additions and removals; after a failed fetch it records the time alone.  It never touches the
   ignore rules.
   */
  lemma CheckMeaning(env: Env, row: Row, fetched: Option<seq<string>>, force: bool, autoApply: bool, now: int)
    ensures var d := DetectStep(env, row, fetched, force, autoApply, now);
      && d.row.ignored == row.ignored && d.row.autoSync == row.autoSync
      && (d.row.models != row.models || d.changed || d.autoAdded > 0 ==>
            autoApply && row.autoSync && fetched.Some? && IsDue(env, row, force, now))
      && (IsDue(env, row, force, now) && fetched.None? ==> d == Detection(row.(lastCheck := now), false, 0, false))
      && (IsDue(env, row, force, now) && fetched.Some? && !(autoApply && row.autoSync) ==>
            && d.ok && d.row.lastCheck == now
            && (forall m :: m in d.row.detected <==> IsAddition(env, row, fetched.value, m))
            && (forall m :: m in d.row.removed <==> IsRemoval(env, row, fetched.value, m)))
  {
    hide PendingAdd, PendingRemove, Merge, ValidModels, JoinNames, IsAddition, IsRemoval;
    if fetched.Some? {
      PendingMeaning(env, row, fetched.value);
    }
  }

  // ----- what an application changes -----

  /** The names selected among the pending ones. */
  predicate Chosen(input: seq<string>, pending: seq<string>, m: string) {
    m in Normalize(input) && m in Normalize(pending)
  }

  /** A selected pending removal counts unless the same name is also selected for addition. */
  predicate Dropped(row: Row, add: seq<string>, remove: seq<string>, m: string) {
    Chosen(remove, row.removed, m) && !Chosen(add, row.detected, m)
  }

  /**
   An application does with every name what was selected for it and nothing else: exactly the
   selected pending additions and removals are reported, exactly the others stay pending, the
   ignore list gains the selected ignores and loses the additions, and the new model list has the
   old names without the removals, and the additions.
   */
  lemma ApplicationMeaning(row: Row, add: seq<string>, ignore: seq<string>, remove: seq<string>, now: int, m: string)
    requires ApplyStep(row, add, ignore, remove, now).ok
    ensures var a := ApplyStep(row, add, ignore, remove, now);
            var added, dropped := Chosen(add, row.detected, m), Dropped(row, add, remove, m);
      && (m in a.added <==> added) && (m in a.removed <==> dropped)
      && (m in Normalize(a.row.detected) <==>
            m in Normalize(row.detected) && !added && !Chosen(ignore, row.detected, m))
      && (m in Normalize(a.row.removed) <==> m in Normalize(row.removed) && !dropped)
      && (m in Normalize(a.row.ignored) <==>
            (m in Normalize(row.ignored) || Chosen(ignore, row.detected, m)) && !added)
      && (CommaFree(a.added) ==>
            (m in LocalNames(a.row.models) <==> added || (m in LocalNames(row.models) && !dropped)))
  {
    hide Normalize, Normal, Merge, Subtract, Intersect, ApplySelected, JoinNames, ValidModels, LocalNames, CommaFree;
    var pending, gone := Normalize(row.detected), Normalize(row.removed);
    NormalizeIsNormal(row.detected);
    NormalizeIsNormal(row.removed);
    NormalizeIsNormal(pending);
    NormalizeIsNormal(gone);
    var added, ignored, out := Intersect(add, pending), Intersect(ignore, pending), Intersect(remove, gone);
    IntersectMeaning(add, pending);
    IntersectMeaning(ignore, pending);
    IntersectMeaning(remove, gone);
    NormalizeIsNormal(added);
    NormalizeIsNormal(ignored);
    NormalizeIsNormal(out);
    SubtractMeaning(out, added);
    var dropped := Subtract(out, added);
    NormalizeIsNormal(dropped);
    RemainingMeaning(pending, gone, added, ignored, dropped);
    RulesAfter(row.ignored, ignored, added);
    StoredSelection(row.models, added, dropped);
  }

  lemma RemainingMeaning(pending: seq<string>, gone: seq<string>, added: seq<string>, ignored: seq<string>,
                         dropped: seq<string>)
    requires Normal(pending) && Normal(gone) && Normal(added) && Normal(ignored) && Normal(dropped)
    ensures forall m :: m in Normalize(Subtract(pending, added + ignored)) <==>
          m in pending && m !in added && m !in ignored
    ensures forall m :: m in Normalize(Subtract(gone, dropped)) <==> m in gone && m !in dropped
  {
    hide Normalize, Normal, Subtract;
    NormalizeIsNormal(pending);
    NormalizeIsNormal(gone);
    NormalizeIsNormal(dropped);
    ConcatMembers(added, ignored);
    SubtractMeaning(pending, added + ignored);
    SubtractMeaning(gone, dropped);
    NormalizeIsNormal(Subtract(pending, added + ignored));
    NormalizeIsNormal(Subtract(gone, dropped));
  }

  lemma RulesAfter(rules: seq<string>, ignored: seq<string>, added: seq<string>)
    requires Normal(ignored) && Normal(added)
    ensures var merged := Merge(rules, ignored);
            forall m :: m in Normalize(if added != [] then Subtract(merged, added) else merged) <==>
              (m in Normalize(rules) || m in ignored) && m !in added
  {
    hide Normalize, Normal, Subtract, Merge;
    var merged := Merge(rules, ignored);
    MergeMeaning(rules, ignored);
    NormalizeIsNormal(ignored);
    NormalizeIsNormal(added);
    NormalizeIsNormal(merged);
    SubtractMeaning(merged, added);
    NormalizeIsNormal(Subtract(merged, added));
  }

  // ----- applying everything that is pending -----

  /** A forced check that only records pending changes. */
  function Detected(env: Env, row: Row, upstream: seq<string>, now: int): Row {
    DetectStep(env, row, Some(upstream), true, false, now).row
  }

  /** Apply-all: every pending change selected, nothing ignored. */
  function ApplyAll(row: Row, now: int): Application {
    ApplyStep(row, Normalize(row.detected), [], Normalize(row.removed), now)
  }

  lemma IntersectSelf(xs: seq<string>)
    requires Normal(xs)
    ensures Intersect(xs, xs) == xs
  {
    NormalizeIsNormal(xs);
    FilterAll(xs, m => m in xs);
  }

  lemma SubtractDisjoint(xs: seq<string>, ys: seq<string>)
    requires Normal(xs)
    requires forall m :: m in xs ==> m !in Normalize(ys)
    ensures Subtract(xs, ys) == xs
  {
    NormalizeIsNormal(xs);
    var gone := Normalize(ys);
    FilterAll(xs, m => m !in gone);
  }

  /** What apply-all selects, stores and keeps ignoring, when the pending lists are disjoint and normal. */
  lemma ApplyAllMeaning(row: Row, now: int)
    requires Normal(row.detected) && Normal(row.removed)
    requires forall m :: m in row.removed ==> m !in row.detected
    requires ApplyAll(row, now).ok
    ensures var next := ApplySelected(LocalNames(row.models), row.detected, row.removed);
            var row' := ApplyAll(row, now).row;
            && row'.models == (if LocalNames(row.models) != next then JoinNames(next) else row.models)
            && forall m :: m in Normalize(row'.ignored) <==> m in Normalize(row.ignored) && m !in row.detected
  {
    hide Normalize, Normal, Merge, Subtract, Intersect, ApplySelected, JoinNames, ValidModels, LocalNames;
    var add, remove := row.detected, row.removed;
    NormalizeIsNormal(add);
    NormalizeIsNormal(remove);
    IntersectSelf(add);
    IntersectSelf(remove);
    SubtractDisjoint(remove, add);
    IntersectMeaning([], add);
    NormalizeIsNormal([]);
    assert Normalize([]) == [] && Intersect([], add) == [] by { NormalizeIsNormal([]); EmptyIntersect(add); }
    MergeMeaning(row.ignored, []);
    var ignored := Merge(row.ignored, []);
    NormalizeIsNormal(ignored);
    SubtractMeaning(ignored, add);
    NormalizeIsNormal(Subtract(ignored, add));
  }

  lemma EmptyIntersect(xs: seq<string>)
    ensures Normalize([]) == [] && Intersect([], xs) == []
  {
  }

  lemma IgnoredByMember(env: Env, rules: seq<string>, name: string)
    ensures Ignored(env, rules, name) <==> exists r :: r in rules && MatchesRule(env, r, name)
  {
    if r :| r in rules && MatchesRule(env, r, name) {
      var i :| 0 <= i < |rules| && rules[i] == r;
    }
  }

  lemma IgnoredMonotone(env: Env, rules: seq<string>, more: seq<string>, name: string)
    requires forall r :: r in rules ==> r in more
    requires Ignored(env, rules, name)
    ensures Ignored(env, more, name)
  {
    IgnoredByMember(env, rules, name);
    IgnoredByMember(env, more, name);
  }

  /** Once the selected changes have been stored, what the channel's models are. */
  lemma StoredSelection(models: string, add: seq<string>, remove: seq<string>)
    requires Normal(add) && Normal(remove)
    ensures var next := ApplySelected(LocalNames(models), add, remove);
            var models' := if LocalNames(models) != next then JoinNames(next) else models;
            && CommaFree(LocalNames(models'))
            && (CommaFree(add) ==> LocalNames(models') == next)
            && forall m :: m in next <==> m in add || (m in LocalNames(models) && m !in remove)
  {
    hide Normalize, Normal, ApplySelected, LocalNames;
    var local := LocalNames(models);
    LocalNamesMeaning(models);
    NormalizeIsNormal(local);
    NormalizeIsNormal(add);
    NormalizeIsNormal(remove);
    ApplySelectedMeaning(local, add, remove);
    var next := ApplySelected(local, add, remove);
    LocalNamesMeaning(JoinNames(next));
    if CommaFree(add) {
      forall i | 0 <= i < |next|
        ensures ',' !in next[i]
      {
        assert next[i] in next;
      }
      StoredNamesRoundTrip(next);
    }
  }

  /** Every rule that matches the name is withdrawn, and there is one: it is spelled like an added model. */
  ghost predicate SilencedByWithdrawn(env: Env, ignored: seq<string>, added: seq<string>, name: string) {
    && (exists r :: r in Normalize(ignored) && MatchesRule(env, r, name))
    && forall r :: r in Normalize(ignored) && MatchesRule(env, r, name) ==> r in added
  }

  /**
   Application withdraws ignore rules that are spelled like an added model.  This says that
   none of them alone silenced an upstream model that the channel neither has nor redirects to.
   */
  ghost predicate RulesSurvive(env: Env, row: Row, upstream: seq<string>, added: seq<string>) {
    forall m :: m in Normalize(upstream) && m !in LocalNames(row.models) && m !in env.mapping.Values ==>
      !SilencedByWithdrawn(env, row.ignored, added, m)
  }

  /** What is wanted after the withdrawal was wanted before. */
  lemma SurvivalMeans(env: Env, row: Row, upstream: seq<string>, added: seq<string>)
    requires Normal(added)
    ensures var local := LocalNames(row.models);
            RulesSurvive(env, row, upstream, added) <==>
              forall m :: m in Normalize(upstream) && WantsAdd(env, local, Subtract(row.ignored, added), m) ==>
                WantsAdd(env, local, Normalize(row.ignored), m)
  {
    hide Normalize, Normal, LocalNames, Subtract;
    NormalizeIsNormal(added);
    SubtractMeaning(row.ignored, added);
    forall m
      ensures SilencedByWithdrawn(env, row.ignored, added, m) <==>
        Ignored(env, Normalize(row.ignored), m) && !Ignored(env, Subtract(row.ignored, added), m)
    {
      IgnoredByMember(env, Normalize(row.ignored), m);
      IgnoredByMember(env, Subtract(row.ignored, added), m);
    }
  }

  /** Only regular expressions are ever withdrawn: an exact rule keeps its model from being added. */
  lemma WithdrawnAreRegex(env: Env, row: Row, upstream: seq<string>, now: int, rule: string)
    requires rule in Normalize(row.ignored) && rule in Detected(env, row, upstream, now).detected
    ensures REGEX_PREFIX <= rule && rule in Normalize(upstream)
  {
    hide Normalize, GetModels;
    PendingAddMeaning(env, GetModels(row.models), upstream, row.ignored);
    if !(REGEX_PREFIX <= rule) {
      ExactRuleIgnores(env, Normalize(row.ignored), rule);
    }
  }

  /**
   Applying every pending change and checking again against the same upstream list finds
   nothing more to do exactly when no pending addition contains a comma and no ignore rule
   that is still needed was withdrawn.
   */
  lemma ApplyAllIsFinal(env: Env, row: Row, upstream: seq<string>, t1: int, t2: int, t3: int)
    requires ApplyAll(Detected(env, row, upstream, t1), t2).ok
    ensures var d := Detected(env, row, upstream, t1);
            var again := Detected(env, ApplyAll(d, t2).row, upstream, t3);
            again.detected == [] && again.removed == []
            <==> CommaFree(d.detected) && RulesSurvive(env, row, upstream, d.detected)
  {
    hide Normalize, Normal, ApplySelected, ApplyStep, PendingAdd, PendingRemove, GetModels, Subtract, RulesSurvive;
    var d := Detected(env, row, upstream, t1);
    var local, rules := GetModels(row.models), Subtract(row.ignored, d.detected);
    PendingAddMeaning(env, local, upstream, row.ignored);
    SurvivalMeans(env, row, upstream, d.detected);
    PendingRemoveMeaning(env, local, upstream);
    ApplyAllMeaning(d, t2);
    SubtractMeaning(row.ignored, d.detected);
    NormalizeIsNormal(d.detected);
    StoredSelection(row.models, d.detected, d.removed);
    var row' := ApplyAll(d, t2).row;
    var local' := GetModels(row'.models);
    var again := Detected(env, row', upstream, t3);
    PendingAddMeaning(env, local', upstream, row'.ignored);
    PendingRemoveMeaning(env, local', upstream);
    EmptyIfNoMembers(again.detected);
    EmptyIfNoMembers(again.removed);
    forall m
      ensures Ignored(env, rules, m) <==> Ignored(env, Normalize(row'.ignored), m)
    {
      IgnoredSame(env, rules, Normalize(row'.ignored), m);
    }
    if !CommaFree(d.detected) {
      var i :| 0 <= i < |d.detected| && ',' in d.detected[i];
      var m := d.detected[i];
      assert m in d.detected && WantsAdd(env, Normalize(local), Normalize(row.ignored), m);
      NotCommaFree(LocalNames(row'.models), m);
      if Ignored(env, rules, m) {
        IgnoredMonotone(env, rules, Normalize(row.ignored), m);
      }
      assert WantsAdd(env, Normalize(local'), Normalize(row'.ignored), m);
    } else if !RulesSurvive(env, row, upstream, d.detected) {
      var m :| m in Normalize(upstream) && WantsAdd(env, Normalize(local), rules, m)
               && !WantsAdd(env, Normalize(local), Normalize(row.ignored), m);
      assert WantsAdd(env, Normalize(local'), Normalize(row'.ignored), m);
    }
  }

  /** Unless an upstream model is named like a rule, commas are all that can keep apply-all from being final. */
  lemma ApplyAllIsFinalForOrdinaryNames(env: Env, row: Row, upstream: seq<string>, t1: int, t2: int, t3: int)
    requires ApplyAll(Detected(env, row, upstream, t1), t2).ok
    requires forall m :: m in Normalize(upstream) ==> !(REGEX_PREFIX <= m)
    ensures var d := Detected(env, row, upstream, t1);
            var again := Detected(env, ApplyAll(d, t2).row, upstream, t3);
            again.detected == [] && again.removed == [] <==> CommaFree(d.detected)
  {
    hide Normalize, DetectStep, ApplyStep;
    ApplyAllIsFinal(env, row, upstream, t1, t2, t3);
    var d := Detected(env, row, upstream, t1);
    forall m | SilencedByWithdrawn(env, row.ignored, d.detected, m)
      ensures false
    {
      var r :| r in Normalize(row.ignored) && MatchesRule(env, r, m);
      WithdrawnAreRegex(env, row, upstream, t1, r);
    }
  }

  /**
   A rule that is adopted as a model brings back what it silenced: a channel without models
   that ignores by the rule, and an upstream that offers the rule's own text and a match.
   */
  lemma WithdrawnRuleReopens(env: Env, rule: string, m: string, t1: int, t2: int, t3: int) returns (row: Row)
    requires REGEX_PREFIX <= rule && IsName(rule) && IsName(m) && ValidModels(rule)
    requires MatchesRule(env, rule, m) && !MatchesRule(env, rule, rule)
    requires rule !in env.mapping.Values && m !in env.mapping.Values
    ensures var d := Detected(env, row, [rule, m], t1);
            && d.detected == [rule] && ApplyAll(d, t2).ok && !RulesSurvive(env, row, [rule, m], [rule])
            && var again := Detected(env, ApplyAll(d, t2).row, [rule, m], t3);
               !(again.detected == [] && again.removed == [])
  {
    hide Normalize, Normal, PendingAdd, PendingRemove, ApplySelected, ValidModels, JoinNames, IsName, Intersect,
        Subtract, Merge;
    row := Row("", [rule], [], [], 0, false);
    var d := Detected(env, row, [rule, m], t1);
    NothingNormal();
    NormalizeSingle(rule);
    NormalizePair(rule, m);
    PendingAddMeaning(env, [], [rule, m], [rule]);
    PendingRemoveMeaning(env, [], [rule, m]);
    assert MatchesRule(env, [rule][0], m);
    assert Ignored(env, [rule], m) && !Ignored(env, [rule], rule);
    SingleMember(d.detected, rule);
    EmptyIfNoMembers(d.removed);
    AdoptingOne(d, rule, t2);
    assert m in Normalize([rule, m]) && m !in LocalNames("");
    assert SilencedByWithdrawn(env, [rule], [rule], m);
    ApplyAllIsFinal(env, row, [rule, m], t1, t2, t3);
  }

  lemma NormalizePair(a: string, b: string)
    requires IsName(a) && IsName(b)
    ensures forall x :: x in Normalize([a, b]) <==> x == a || x == b
  {
    NormalizeIsNormal([a, b]);
    CleanPair(a, b);
  }

  lemma CleanPair(a: string, b: string)
    requires IsName(a) && IsName(b)
    ensures Clean([a, b]) == [a, b]
  {
    assert [a, b][..1] == [a] && [a][..0] == [];
    TrimSpaceOfTrimmed(a);
    TrimSpaceOfTrimmed(b);
    hide TrimSpace;
    assert Clean([a]) == [a];
  }

  lemma AdoptingOne(d: Row, n: string, now: int)
    requires d.models == "" && d.detected == [n] && d.removed == [] && IsName(n) && ValidModels(n)
    ensures ApplyAll(d, now).ok
  {
    hide Normalize, Normal, ValidModels, JoinNames, ApplySelected, Merge, IsName;
    NothingNormal();
    NormalizeSingle(n);
    IntersectSelf([n]);
    SelfIntersectNone();
    ApplySelectedMeaning([], [n], []);
    SingleMember(ApplySelected([], [n], []), n);
    JoinSingle(n);
  }

  lemma SelfIntersectNone()
    ensures forall xs :: Intersect([], xs) == [] && Subtract([], xs) == []
  {
  }

  lemma NotCommaFree(names: seq<string>, m: string)
    requires CommaFree(names) && ',' in m
    ensures m !in names
  {
  }

  lemma IgnoredSame(env: Env, rules: seq<string>, rules': seq<string>, name: string)
    requires forall r :: r in rules <==> r in rules'
    ensures Ignored(env, rules, name) <==> Ignored(env, rules', name)
  {
    IgnoredByMember(env, rules, name);
    IgnoredByMember(env, rules', name);
  }

  // ----- auto-sync -----

  /** A forced check of a channel with auto-sync, with automatic application allowed. */
  function AutoSynced(env: Env, row: Row, upstream: seq<string>, now: int): Detection {
    DetectStep(env, row.(autoSync := true), Some(upstream), true, true, now)
  }

  /**
   Auto-sync appends exactly the pending additions, reports how many there were, clears them,
   and records the pending removals.
   */
  lemma AutoSyncAdoptsAdditions(env: Env, row: Row, upstream: seq<string>, now: int)
    requires AutoSynced(env, row, upstream, now).ok
    ensures var d, local := AutoSynced(env, row, upstream, now), GetModels(row.models);
            var add := PendingAdd(env, local, upstream, row.ignored);
            && d.autoAdded == |add| && (d.changed <==> add != [])
            && d.row.models == (if add == [] then row.models else JoinNames(LocalNames(row.models) + add))
            && d.row.detected == [] && d.row.ignored == row.ignored
            && d.row.removed == PendingRemove(env, local, upstream)
  {
    hide Normalize, Normal, PendingAdd, PendingRemove, Merge, JoinNames, ValidModels;
    var local := GetModels(row.models);
    var add := PendingAdd(env, local, upstream, row.ignored);
    PendingAddMeaning(env, local, upstream, row.ignored);
    NormalizeIsNormal(local);
    MergeDisjoint(Normalize(local), add);
  }

  /** Auto-sync fails only if the resulting model list is rejected. */
  lemma AutoSyncOutcome(env: Env, row: Row, upstream: seq<string>, now: int)
    ensures var add := PendingAdd(env, GetModels(row.models), upstream, row.ignored);
            AutoSynced(env, row, upstream, now).ok
            <==> add == [] || ValidModels(JoinNames(LocalNames(row.models) + add))
  {
    hide Normalize, Normal, PendingAdd, PendingRemove, Merge, JoinNames, ValidModels;
    var local := GetModels(row.models);
    var add := PendingAdd(env, local, upstream, row.ignored);
    PendingAddMeaning(env, local, upstream, row.ignored);
    NormalizeIsNormal(local);
    MergeDisjoint(Normalize(local), add);
  }

  /**
   After an auto-sync, a further check against the same list finds no additions exactly when
   no adopted name contains a comma; then the pending removals are also unchanged.
   */
  lemma AutoSyncIsFinal(env: Env, row: Row, upstream: seq<string>, now: int, later: int)
    requires AutoSynced(env, row, upstream, now).ok
    ensures var add := PendingAdd(env, GetModels(row.models), upstream, row.ignored);
            var synced := AutoSynced(env, row, upstream, now).row;
            var again := Detected(env, synced, upstream, later);
            && (again.detected == [] <==> CommaFree(add))
            && (CommaFree(add) ==> again.removed == synced.removed)
  {
    hide Normalize, Normal, PendingAdd, PendingRemove, DetectStep, JoinNames, GetModels;
    AutoSyncAdoptsAdditions(env, row, upstream, now);
    var local := GetModels(row.models);
    var add := PendingAdd(env, local, upstream, row.ignored);
    var synced := AutoSynced(env, row, upstream, now).row;
    var local' := GetModels(synced.models);
    var again := Detected(env, synced, upstream, later);
    assert again.detected == PendingAdd(env, local', upstream, row.ignored)
        && again.removed == PendingRemove(env, local', upstream) by { DetectedMeaning(env, synced, upstream, later); }
    PendingAddMeaning(env, local, upstream, row.ignored);
    PendingAddMeaning(env, local', upstream, row.ignored);
    EmptyIfNoMembers(again.detected);
    LocalNamesMeaning(row.models);
    LocalNamesMeaning(synced.models);
    if CommaFree(add) {
      AdoptedNames(row.models, synced.models, add);
      RemovalsUnchanged(env, local, local', add, upstream);
    } else {
      var i :| 0 <= i < |add| && ',' in add[i];
      assert add[i] in add;
      NotCommaFree(LocalNames(synced.models), add[i]);
      assert WantsAdd(env, Normalize(local'), Normalize(row.ignored), add[i]);
    }
  }

  lemma DetectedMeaning(env: Env, row: Row, upstream: seq<string>, now: int)
    ensures Detected(env, row, upstream, now) ==
      row.(lastCheck := now, detected := PendingAdd(env, GetModels(row.models), upstream, row.ignored),
           removed := PendingRemove(env, GetModels(row.models), upstream))
  {
  }

  lemma AdoptedNames(models: string, models': string, add: seq<string>)
    requires Normal(add) && CommaFree(add)
    requires forall m :: m in add ==> m !in LocalNames(models)
    requires models' == if add == [] then models else JoinNames(LocalNames(models) + add)
    ensures LocalNames(models') == LocalNames(models) + add
  {
    hide LocalNames, Normal, JoinNames;
    LocalNamesMeaning(models);
    if add != [] {
      NormalConcat(LocalNames(models), add);
      StoredNamesRoundTrip(LocalNames(models) + add);
    }
  }

  lemma RemovalsUnchanged(env: Env, local: seq<string>, local': seq<string>, add: seq<string>, upstream: seq<string>)
    requires Normalize(local') == Normalize(local) + add
    requires forall m :: m in add ==> m in Normalize(upstream)
    ensures PendingRemove(env, local', upstream) == PendingRemove(env, local, upstream)
  {
    hide Normalize, PendingRemove;
    PendingRemoveMeaning(env, local, upstream);
    PendingRemoveMeaning(env, local', upstream);
    var offered := Normalize(upstream);
    FilterConcat(Normalize(local), add, name => WantsRemove(env, offered, name));
    FilterNone(add, name => WantsRemove(env, offered, name));
  }

  // ----- ignored models stay ignored -----

  datatype Step =
    | Check(fetched: Option<seq<string>>, force: bool, autoApply: bool, now: int)
    | Apply(add: seq<string>, ignore: seq<string>, remove: seq<string>, now: int)

  function After(env: Env, row: Row, step: Step): Row {
    match step
    case Check(fetched, force, autoApply, now) => DetectStep(env, row, fetched, force, autoApply, now).row
    case Apply(add, ignore, remove, now) => ApplyStep(row, add, ignore, remove, now).row
  }

  function Run(env: Env, row: Row, steps: seq<Step>): Row {
    if steps == [] then row else After(env, Run(env, row, steps[..|steps| - 1]), steps[|steps| - 1])
  }

  /** Another name that has n as one of its comma-separated parts, and that a model list may contain. */
  predicate Carrier(name: string, n: string) {
    name != n && n in Fields(name, ',') && ValidModels(name)
  }

  /** Some name in the list carries n. */
  predicate Carries(names: seq<string>, n: string) {
    exists i :: 0 <= i < |names| && Carrier(names[i], n)
  }

  /** n is ignored, is not one of the channel's models and is not pending; nothing pending carries it. */
  predicate Shunned(row: Row, n: string) {
    && n in Normalize(row.ignored)
    && n !in LocalNames(row.models)
    && n !in Normalize(row.detected)
    && !Carries(Normalize(row.detected), n)
  }

  /** What an upstream must not offer if n is to stay out: a carrier that is not the target of a redirect. */
  predicate Harmful(env: Env, name: string, n: string) {
    IsName(name) && Carrier(name, n) && name !in env.mapping.Values
  }

  predicate OffersHarm(env: Env, upstream: seq<string>, n: string) {
    exists i :: 0 <= i < |Normalize(upstream)| && Harmful(env, Normalize(upstream)[i], n)
  }

  predicate Harms(env: Env, step: Step, n: string) {
    step.Check? && step.fetched.Some? && OffersHarm(env, step.fetched.value, n)
  }

  lemma ExactRuleIgnores(env: Env, rules: seq<string>, n: string)
    requires n in rules && !(REGEX_PREFIX <= n)
    ensures Ignored(env, rules, n)
  {
    IgnoredByMember(env, rules, n);
  }

  lemma CarriesSubset(names: seq<string>, more: seq<string>, n: string)
    requires forall m :: m in names ==> m in more
    requires Carries(names, n)
    ensures Carries(more, n)
  {
    hide Carrier;
    var i :| 0 <= i < |names| && Carrier(names[i], n);
    assert names[i] in names;
    var j :| 0 <= j < |more| && more[j] == names[i];
  }

  /** Pending additions carry n only if the upstream offers harm. */
  lemma PendingCarries(env: Env, local: seq<string>, upstream: seq<string>, ignored: seq<string>, n: string)
    requires Carries(PendingAdd(env, local, upstream, ignored), n)
    ensures OffersHarm(env, upstream, n)
  {
    hide PendingAdd, Normalize, Carrier, IsName;
    var add := PendingAdd(env, local, upstream, ignored);
    PendingAddMeaning(env, local, upstream, ignored);
    NormalizeIsNormal(upstream);
    var i :| 0 <= i < |add| && Carrier(add[i], n);
    assert add[i] in add;
    var j :| 0 <= j < |Normalize(upstream)| && Normalize(upstream)[j] == add[i];
    assert Harmful(env, Normalize(upstream)[j], n);
  }

  /** Every name in an accepted model list would be accepted alone. */
  lemma ValidParts(names: seq<string>, i: int)
    requires ValidModels(JoinNames(names)) && 0 <= i < |names|
    ensures ValidModels(names[i])
  {
    hide Fields;
    FieldsOfJoined(names, ',');
    var all, parts := Fields(JoinNames(names), ','), Fields(names[i], ',');
    forall j | 0 <= j < |parts|
      ensures parts[j] != "" ==> parts[j][|parts[j]| - 1] != '"'
    {
      assert parts[j] in Fields(names[i], ',');
      AllFieldsMembers(names, parts[j]);
      var k :| 0 <= k < |all| && all[k] == parts[j];
    }
  }

  lemma CarrierInList(names: seq<string>, m: string, n: string)
    ensures m in names && Carrier(m, n) ==> Carries(names, n)
  {
  }

  /** Storing the channel's own models together with names that are not n and do not carry n. */
  lemma StoredWithout(models: string, add: seq<string>, next: seq<string>, n: string)
    requires n !in LocalNames(models)
    requires n !in add && !Carries(add, n) && ValidModels(JoinNames(next))
    requires forall m :: m in next ==> m in LocalNames(models) || m in add
    ensures n !in LocalNames(JoinNames(next))
  {
    hide LocalNames, JoinNames, Fields, ValidModels;
    LocalNamesMeaning(models);
    StoredNamesFallApart(next, n);
    if i :| 0 <= i < |next| && n in Fields(next[i], ',') {
      var m := next[i];
      assert m in next;
      if m in LocalNames(models) {
        var j :| 0 <= j < |LocalNames(models)| && LocalNames(models)[j] == m;
        FieldsOfCommaFree(m);
      } else {
        ValidParts(next, i);
        CarrierInList(add, m, n);
      }
    }
  }

  lemma CheckKeepsShunned(env: Env, row: Row, fetched: Option<seq<string>>, force: bool, autoApply: bool, now: int,
      n: string)
    requires Shunned(row, n) && !(REGEX_PREFIX <= n)
    requires fetched.Some? ==> !OffersHarm(env, fetched.value, n)
    ensures Shunned(DetectStep(env, row, fetched, force, autoApply, now).row, n)
  {
    hide Normalize, Normal, PendingAdd, PendingRemove, Merge, JoinNames, ValidModels, GetModels, Carries, OffersHarm;
    if fetched.Some? {
      var local := GetModels(row.models);
      var add := PendingAdd(env, local, fetched.value, row.ignored);
      PendingAddMeaning(env, local, fetched.value, row.ignored);
      ExactRuleIgnores(env, Normalize(row.ignored), n);
      assert n !in add;
      if Carries(add, n) {
        PendingCarries(env, local, fetched.value, row.ignored, n);
      }
      NormalizeIsNormal(add);
      NormalizeIsNormal(local);
      NormalizeIsNormal(Normalize(local));
      MergeMeaning(Normalize(local), add);
      if ValidModels(JoinNames(Merge(Normalize(local), add))) {
        StoredWithout(row.models, add, Merge(Normalize(local), add), n);
      }
      NothingPending(n);
    }
  }

  lemma NothingPending(n: string)
    ensures n !in Normalize([]) && !Carries(Normalize([]), n)
  {
  }

  lemma ApplyKeepsShunned(row: Row, add: seq<string>, ignore: seq<string>, remove: seq<string>, now: int, n: string)
    requires n in Normalize(row.ignored) || (n in Normalize(ignore) && n in Normalize(row.detected))
    requires n !in LocalNames(row.models)
    requires n !in Normalize(row.detected) || (n in Normalize(ignore) && n !in Normalize(add))
    requires !Carries(Normalize(row.detected), n)
    requires ApplyStep(row, add, ignore, remove, now).ok
    ensures Shunned(ApplyStep(row, add, ignore, remove, now).row, n)
  {
    hide Normalize, Normal, Merge, Subtract, Intersect, ApplySelected, JoinNames, ValidModels, LocalNames, Carries;
    var pending := Normalize(row.detected);
    NormalizeIsNormal(row.detected);
    NormalizeIsNormal(pending);
    var added, dropped := Intersect(add, pending), Intersect(ignore, pending);
    IntersectMeaning(add, pending);
    IntersectMeaning(ignore, pending);
    NormalizeIsNormal(added);
    NormalizeIsNormal(dropped);
    assert n !in added;

    var ignored := Merge(row.ignored, dropped);
    MergeMeaning(row.ignored, dropped);
    NormalizeIsNormal(ignored);
    SubtractMeaning(ignored, added);
    NormalizeIsNormal(Subtract(ignored, added));

    var left := Subtract(pending, added + dropped);
    SubtractMeaning(pending, added + dropped);
    NormalizeIsNormal(left);
    ConcatMembers(added, dropped);
    if Carries(left, n) {
      CarriesSubset(left, pending, n);
    }
    if Carries(added, n) {
      CarriesSubset(added, pending, n);
    }
    var local := LocalNames(row.models);
    var removed := Subtract(Intersect(remove, Normalize(row.removed)), added);
    LocalNamesMeaning(row.models);
    NormalizeIsNormal(local);
    ApplySelectedMeaning(local, added, removed);
    if ValidModels(JoinNames(ApplySelected(local, added, removed))) {
      StoredWithout(row.models, added, ApplySelected(local, added, removed), n);
    }
  }

  lemma ConcatMembers(a: seq<string>, b: seq<string>)
    requires Normal(a) && Normal(b)
    ensures forall m :: m in Normalize(a + b) <==> m in a || m in b
  {
    hide IsName;
    CleanConcat(a, b);
    NormalizeIsNormal(a + b);
    CleanOfNormal(a);
    CleanOfNormal(b);
  }

  /** Once shunned, a model stays out through every run whose upstream lists offer nothing harmful. */
  lemma {:induction false} IgnoredStaysIgnored(env: Env, row: Row, steps: seq<Step>, n: string)
    requires Shunned(row, n) && !(REGEX_PREFIX <= n)
    requires forall i :: 0 <= i < |steps| ==> !Harms(env, steps[i], n)
    ensures Shunned(Run(env, row, steps), n)
    decreases |steps|
  {
    hide Shunned, Harms;
    if steps != [] {
      var before, last := steps[..|steps| - 1], steps[|steps| - 1];
      IgnoredStaysIgnored(env, row, before, n);
      StepKeepsShunned(env, Run(env, row, before), last, n);
    }
  }

  lemma StepKeepsShunned(env: Env, row: Row, step: Step, n: string)
    requires Shunned(row, n) && !(REGEX_PREFIX <= n)
    requires !Harms(env, step, n)
    ensures Shunned(After(env, row, step), n)
  {
    hide DetectStep, Carries, OffersHarm, Normalize, LocalNames;
    match step
    case Check(fetched, force, autoApply, now) =>
      CheckKeepsShunned(env, row, fetched, force, autoApply, now, n);
    case Apply(add, ignore, remove, now) =>
      if ApplyStep(row, add, ignore, remove, now).ok {
        ApplyKeepsShunned(row, add, ignore, remove, now, n);
      }
  }

  /** A detected model that is ignored and not added never comes back unless something harmful is offered. */
  lemma IgnoringIsForever(env: Env, row: Row, upstream: seq<string>, t: int, choice: Step, steps: seq<Step>, n: string)
    requires var d := Detected(env, row, upstream, t);
      && n in d.detected && !(REGEX_PREFIX <= n)
      && choice.Apply? && n in Normalize(choice.ignore) && n !in Normalize(choice.add)
      && ApplyStep(d, choice.add, choice.ignore, choice.remove, choice.now).ok
    requires !OffersHarm(env, upstream, n)
    requires forall i :: 0 <= i < |steps| ==> !Harms(env, steps[i], n)
    ensures var last := Run(env, After(env, Detected(env, row, upstream, t), choice), steps);
      n !in LocalNames(last.models) && n !in Normalize(last.detected) && n in Normalize(last.ignored)
  {
    hide Normalize, Normal, PendingAdd, PendingRemove, DetectStep, ApplyStep, LocalNames, Carries, OffersHarm, Harms;
    var d := Detected(env, row, upstream, t);
    DetectedMeaning(env, row, upstream, t);
    PendingAddMeaning(env, GetModels(row.models), upstream, row.ignored);
    NormalizeIsNormal(d.detected);
    assert n !in LocalNames(d.models) by { assert LocalNames(row.models)
          == Normalize(GetModels(row.models)) by { LocalNamesDef(row.models); } }
    if Carries(d.detected, n) {
      PendingCarries(env, GetModels(row.models), upstream, row.ignored, n);
    }
    ApplyKeepsShunned(d, choice.add, choice.ignore, choice.remove, choice.now, n);
    IgnoredStaysIgnored(env, After(env, d, choice), steps, n);
  }

  lemma LocalNamesDef(models: string)
    ensures LocalNames(models) == Normalize(GetModels(models))
  {
  }

  /** Auto-sync brings an absent model in exactly if it is a comma-separated part of an adopted name. */
  lemma AutoSyncAdmitsParts(env: Env, row: Row, upstream: seq<string>, now: int, n: string)
    requires AutoSynced(env, row, upstream, now).ok
    requires n !in LocalNames(row.models)
    ensures var add := PendingAdd(env, GetModels(row.models), upstream, row.ignored);
            n in LocalNames(AutoSynced(env, row, upstream, now).row.models)
            <==> exists i :: 0 <= i < |add| && n in Fields(add[i], ',')
  {
    hide PendingAdd, LocalNames, JoinNames, DetectStep, Fields;
    AutoSyncAdoptsAdditions(env, row, upstream, now);
    var add := PendingAdd(env, GetModels(row.models), upstream, row.ignored);
    var local := LocalNames(row.models);
    if add != [] {
      StoredNamesFallApart(local + add, n);
      LocalNamesMeaning(row.models);
      PartsOfAdded(local, add, n);
    }
  }

  /** A part of a list of names that is not among the comma-free names in front is a part of a later one. */
  lemma PartsOfAdded(local: seq<string>, add: seq<string>, n: string)
    requires AreFields(local, ',') && n !in local
    ensures (exists i :: 0 <= i < |local + add| && n in Fields((local + add)[i], ','))
            <==> exists i :: 0 <= i < |add| && n in Fields(add[i], ',')
  {
    hide Fields;
    if i :| 0 <= i < |add| && n in Fields(add[i], ',') {
      assert (local + add)[|local| + i] == add[i];
    }
    if i :| 0 <= i < |local + add| && n in Fields((local + add)[i], ',') {
      if i < |local| {
        FieldsOfCommaFree(local[i]);
      } else {
        assert (local + add)[i] == add[i - |local|];
      }
    }
  }

  /**
   Every harmful name does bring n back: a channel that ignores n and auto-syncs against an
   upstream offering just that name ends up with n.
   */
  lemma SmuggledModelReturns(env: Env, carrier: string, n: string, now: int) returns (row: Row)
    requires Harmful(env, carrier, n) && !(REGEX_PREFIX <= n)
    ensures Shunned(row, n) && row.autoSync
    ensures n in LocalNames(AutoSynced(env, row, [carrier], now).row.models)
  {
    hide PendingAdd, Normalize, Fields, DetectStep, JoinNames, ValidModels, GetModels;
    row := Row("", [n], [], [], 0, true);
    FieldIsName(carrier, n);
    NormalizeSingle(n);
    NothingNormal();
    OnlyOffer(env, carrier, n);
    AutoSyncOutcome(env, row, [carrier], now);
    assert [] + [carrier] == [carrier] && JoinNames([carrier]) == carrier by { JoinSingle(carrier); }
    AutoSyncAdmitsParts(env, row, [carrier], now, n);
    assert n in Fields([carrier][0], ',');
  }

  /** Every name that the upstream offers, normalised, belongs to the given class. */
  predicate OffersOnly(possible: string -> bool, steps: seq<Step>) {
    forall i :: 0 <= i < |steps| && steps[i].Check? && steps[i].fetched.Some? ==>
      forall m :: m in Normalize(steps[i].fetched.value) ==> possible(m)
  }

  /** From every row in which n is shunned, no run brings n into the channel's models. */
  ghost predicate StaysOut(env: Env, possible: string -> bool, n: string) {
    forall row, steps :: Shunned(row, n) && OffersOnly(possible, steps) ==>
      n !in LocalNames(Run(env, row, steps).models)
  }

  /**
   Whatever class of names the upstream may offer: an ignored model stays out through every run
   exactly if no name of the class is harmful.
   */
  lemma StaysOutIff(env: Env, possible: string -> bool, n: string)
    requires !(REGEX_PREFIX <= n)
    ensures StaysOut(env, possible, n) <==> forall m :: possible(m) ==> !Harmful(env, m, n)
  {
    hide Run, Normalize, LocalNames, Harmful;
    if forall m :: possible(m) ==> !Harmful(env, m, n) {
      forall row, steps | Shunned(row, n) && OffersOnly(possible, steps)
        ensures n !in LocalNames(Run(env, row, steps).models)
      {
        forall i | 0 <= i < |steps|
          ensures !Harms(env, steps[i], n)
        {
          NoHarm(env, possible, steps, i, n);
        }
        IgnoredStaysIgnored(env, row, steps, n);
      }
    }
    if m :| possible(m) && Harmful(env, m, n) {
      var row := SmuggledModelReturns(env, m, n, 0);
      var steps := [Check(Some([m]), true, true, 0)];
      HarmfulIsName(env, m, n);
      NormalizeSingle(m);
      assert OffersOnly(possible, steps);
      OneCheck(env, row, m);
    }
  }

  lemma NoHarm(env: Env, possible: string -> bool, steps: seq<Step>, i: int, n: string)
    requires OffersOnly(possible, steps) && 0 <= i < |steps| && forall m :: possible(m) ==> !Harmful(env, m, n)
    ensures !Harms(env, steps[i], n)
  {
    hide Normalize, Harmful;
  }

  lemma HarmfulIsName(env: Env, m: string, n: string)
    requires Harmful(env, m, n)
    ensures IsName(m)
  {
  }

  lemma OneCheck(env: Env, row: Row, m: string)
    requires row.autoSync
    ensures Run(env, row, [Check(Some([m]), true, true, 0)]) == AutoSynced(env, row, [m], 0).row
  {
    hide DetectStep;
    var step := Check(Some([m]), true, true, 0);
    assert [step][..0] == [];
    assert row.(autoSync := true) == row;
  }

  lemma OnlyOffer(env: Env, carrier: string, n: string)
    requires IsName(carrier) && IsName(n) && carrier != n
    requires carrier !in env.mapping.Values && !(REGEX_PREFIX <= n)
    ensures PendingAdd(env, [], [carrier], [n]) == [carrier]
  {
    hide PendingAdd, Normalize, IsName;
    NormalizeSingle(n);
    NormalizeSingle(carrier);
    NothingNormal();
    PendingAddMeaning(env, [], [carrier], [n]);
    assert WantsAdd(env, [], [n], carrier);
    SingleMember(PendingAdd(env, [], [carrier], [n]), carrier);
  }

  lemma JoinSingle(s: string)
    ensures JoinNames([s]) == s
  {
  }

  lemma NothingNormal()
    ensures Normalize([]) == [] && GetModels("") == [] && LocalNames("") == []
  {
  }

  lemma NormalizeSingle(n: string)
    requires IsName(n)
    ensures Normal([n]) && Normalize([n]) == [n]
  {
    NormalizeIsNormal([n]);
  }

  lemma FieldIsName(s: string, n: string)
    requires n in Fields(s, ',')
    ensures IsName(n)
  {
    FieldsAreFields(s, ',');
  }

  lemma SingleMember(xs: seq<string>, x: string)
    requires Normal(xs) && x in xs && forall m :: m in xs ==> m == x
    ensures xs == [x]
  {
    hide IsName;
    assert |xs| >= 2 ==> xs[0] != xs[1];
    forall i | 0 <= i < |xs|
      ensures xs[i] == x
    {
      assert xs[i] in xs;
    }
  }
}
