/**
 A check that is not atomic: the row is read with a batch of channels, the upstream list is
 fetched, and the settings are written back as they were read.  What happens to the row in
 between is overwritten, an ignore decision included.
 */
module UpstreamRaces {
  import opened Basics
  import opened Text
  import opened ModelNames
  import opened UpstreamSync
  import opened UpstreamRuns

  /**
   The row after a check that works on an older reading: the settings come from the reading,
   the model list only if the check changed it.
   */
  function WrittenBack(env: Env, read: Row, stored: Row, fetched: Option<seq<string>>, force: bool, autoApply: bool,
      now: int): Row {
    var d := DetectStep(env, read, fetched, force, autoApply, now);
    var skipped := !force && read.lastCheck > 0 && now - read.lastCheck < env.minInterval;
    if skipped || (!d.ok && fetched.Some?) then stored
    else d.row.(models := if d.changed then d.row.models else stored.models)
  }

  /** On a fresh reading this is the atomic check. */
  lemma FreshReadingIsAtomic(env: Env, row: Row, fetched: Option<seq<string>>, force: bool, autoApply: bool, now: int)
    ensures WrittenBack(env, row, row, fetched, force, autoApply, now) == DetectStep(env, row, fetched, force,
          autoApply, now).row
  {
    hide PendingAdd, PendingRemove, Merge, ValidModels, JoinNames;
  }

  /** A check that writes nothing: it came too early, or its model list was rejected. */
  predicate WritesNothing(env: Env, read: Row, fetched: Option<seq<string>>, force: bool, autoApply: bool, now: int) {
    || (!force && read.lastCheck > 0 && now - read.lastCheck < env.minInterval)
    || (fetched.Some? && !DetectStep(env, read, fetched, force, autoApply, now).ok)
  }

  /**
   Every check that writes at all, after a failed fetch too, puts the ignore list back to what
   it had read: whatever was added or withdrawn in between is undone.
   */
  lemma IgnoreListIsRestored(env: Env, read: Row, stored: Row, fetched: Option<seq<string>>,
                             force: bool, autoApply: bool, now: int)
    ensures WrittenBack(env, read, stored, fetched, force, autoApply, now).ignored ==
      if WritesNothing(env, read, fetched, force, autoApply, now) then stored.ignored else read.ignored
  {
    hide PendingAdd, PendingRemove, Merge, ValidModels, JoinNames;
  }

  /**
   A pending model that is ignored while a check is under way comes back as pending, and its
   rule is lost; had the check started afterwards, the model would have stayed ignored.
   */
  lemma IgnoreDuringCheckIsLost(env: Env, row: Row, upstream: seq<string>, n: string, t: int, now: int)
    requires n in Normalize(row.detected) && !(REGEX_PREFIX <= n)
    requires n in PendingAdd(env, GetModels(row.models), upstream, row.ignored)
    ensures var ignoring := ApplyStep(row, [], [n], [], t);
            && ignoring.ok && n in Normalize(ignoring.row.ignored)
            && n !in Detected(env, ignoring.row, upstream, now).detected
            && var raced := WrittenBack(env, row, ignoring.row, Some(upstream), true, false, now);
               n in raced.detected && n !in Normalize(raced.ignored)
  {
    hide Normalize, Normal, PendingAdd, PendingRemove, Merge, Subtract, Intersect, GetModels, ValidModels, JoinNames;
    PendingAddMeaning(env, GetModels(row.models), upstream, row.ignored);
    if n in Normalize(row.ignored) {
      ExactRuleIgnores(env, Normalize(row.ignored), n);
    }
    IgnoringChangesNothingElse(row, n, t);
    var ignoring := ApplyStep(row, [], [n], [], t).row;
    PendingAddMeaning(env, GetModels(ignoring.models), upstream, ignoring.ignored);
    ExactRuleIgnores(env, Normalize(ignoring.ignored), n);
  }

  lemma IgnoringChangesNothingElse(row: Row, n: string, t: int)
    requires n in Normalize(row.detected)
    ensures var a := ApplyStep(row, [], [n], [], t);
            a.ok && a.row.models == row.models && n in Normalize(a.row.ignored)
  {
    hide Normalize, Normal, ValidModels, JoinNames, IsName, Intersect, Subtract, Merge, ApplySelected;
    NothingNormal();
    SelfIntersectNone();
    NormalizeIsNormal(GetModels(row.models));
    NormalizeIsNormal(row.detected);
    NothingSelected(LocalNames(row.models));
    RuleIsAdded(row.ignored, Normalize(row.detected), n);
  }

  lemma RuleIsAdded(ignored: seq<string>, pending: seq<string>, n: string)
    requires Normal(pending) && n in pending
    ensures n in Normalize(Merge(ignored, Intersect([n], pending)))
  {
    hide Normalize, Merge, Intersect;
    assert IsName(n) by {
      var i :| 0 <= i < |pending| && pending[i] == n;
    }
    hide Normal, IsName;
    NormalizeSingle(n);
    NormalizeIsNormal(pending);
    IntersectMeaning([n], pending);
    var dropped := Intersect([n], pending);
    NormalizeIsNormal(dropped);
    MergeMeaning(ignored, dropped);
    NormalizeIsNormal(Merge(ignored, dropped));
  }

  lemma NothingSelected(names: seq<string>)
    requires Normal(names)
    ensures ApplySelected(names, [], []) == names
  {
    hide Normalize, Normal, Subtract;
    NothingNormal();
    SelfIntersectNone();
    NormalizeIsNormal(names);
    assert Subtract([], []) == [];
    assert Merge(names, []) == names + [] == names;
    SubtractDisjoint(names, []);
  }
}
