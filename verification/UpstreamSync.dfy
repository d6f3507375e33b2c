/**
 Keeping a channel's model list in step with what its upstream offers.

 A detection compares the channel's models with the upstream list and stores pending
 additions and removals; with auto-sync it adopts the additions at once.  An administrator
 then applies, ignores or drops pending changes.  The models live in one comma-separated
 string, so a name that itself contains a comma does not survive storage: the results below
 say exactly where that matters.
 */
module UpstreamSync {
  import opened Basics
  import opened Text
  import opened ModelNames

  /** What does not change during a run: regular expressions, the redirect mapping, the check interval. */
  datatype Env = Env(matches: (string, string) -> bool, mapping: map<string, string>, minInterval: int)

  /** The stored part of a channel that detection and application work on. */
  datatype Row = Row(models: string, ignored: seq<string>, detected: seq<string>, removed: seq<string>,
                     lastCheck: int, autoSync: bool)

  // ----- the stored model list -----

  function GetModels(models: string): seq<string> {
    if models == "" then [] else Split(TrimChar(models, ','), ',')
  }

  /** The channel's models as every operation sees them. */
  function LocalNames(models: string): seq<string> {
    Normalize(GetModels(models))
  }

  function JoinNames(names: seq<string>): string {
    Join(names, ',')
  }

  /** Stored model lists with a name that ends in a quote are rejected. */
  predicate ValidModels(models: string) {
    var names := Fields(models, ',');
    forall i :: 0 <= i < |names| ==> names[i] != "" ==> names[i][|names[i]| - 1] != '"'
  }

  // ----- pending changes -----

  const REGEX_PREFIX := "regex:"

  predicate MatchesRule(env: Env, rule: string, name: string) {
    if REGEX_PREFIX <= rule then env.matches(TrimSpace(rule[|REGEX_PREFIX|..]), name) else rule == name
  }

  predicate Ignored(env: Env, rules: seq<string>, name: string) {
    exists i :: 0 <= i < |rules| && MatchesRule(env, rules[i], name)
  }

  predicate WantsAdd(env: Env, local: seq<string>, rules: seq<string>, name: string) {
    name !in local && name !in env.mapping.Values && !Ignored(env, rules, name)
  }

  predicate WantsRemove(env: Env, upstream: seq<string>, name: string) {
    name !in env.mapping && name !in upstream
  }

  function PendingAdd(env: Env, local: seq<string>, upstream: seq<string>, ignored: seq<string>): seq<string> {
    var have, rules := Normalize(local), Normalize(ignored);
    Normalize(Filter(Normalize(upstream), name => WantsAdd(env, have, rules, name)))
  }

  function PendingRemove(env: Env, local: seq<string>, upstream: seq<string>): seq<string> {
    var offered := Normalize(upstream);
    Normalize(Filter(Normalize(local), name => WantsRemove(env, offered, name)))
  }

  // ----- the two operations -----

  datatype Detection = Detection(row: Row, changed: bool, autoAdded: nat, ok: bool)

  /** A check of the channel against a freshly fetched upstream list, or against a failed fetch. */
  function DetectStep(env: Env, row: Row, fetched: Option<seq<string>>, force: bool, autoApply: bool,
      now: int): Detection {
    if !force && row.lastCheck > 0 && now - row.lastCheck < env.minInterval then
      Detection(row, false, 0, true)
    else if fetched.None? then
      Detection(row.(lastCheck := now), false, 0, false)
    else
      var local := GetModels(row.models);
      var add := PendingAdd(env, local, fetched.value, row.ignored);
      var checked := row.(lastCheck := now, removed := PendingRemove(env, local, fetched.value));
      if autoApply && row.autoSync && add != [] then
        var merged := Merge(Normalize(local), add);
        var grown := |merged| - |Normalize(local)|;
        if grown <= 0 then Detection(checked.(detected := []), false, 0, true)
        else if !ValidModels(JoinNames(merged)) then Detection(row, false, grown, false)
        else Detection(checked.(detected := [], models := JoinNames(merged)), true, grown, true)
      else
        Detection(checked.(detected := add), false, 0, true)
  }

  datatype Application = Application(row: Row, added: seq<string>, removed: seq<string>, changed: bool, ok: bool)

  /** An administrator's selection, cut down to what is pending. */
  function ApplyStep(row: Row, add: seq<string>, ignore: seq<string>, remove: seq<string>, now: int): Application {
    var pendingAdd, pendingRemove := Normalize(row.detected), Normalize(row.removed);
    var added := Intersect(add, pendingAdd);
    var dropped := Intersect(ignore, pendingAdd);
    var removed := Subtract(Intersect(remove, pendingRemove), added);
    var origin := LocalNames(row.models);
    var next := ApplySelected(origin, added, removed);
    var changed := origin != next;
    var models := if changed then JoinNames(next) else row.models;
    var ignored := Merge(row.ignored, dropped);
    if changed && !ValidModels(models) then
      Application(row, [], [], false, false)
    else
      var row' := row.(models := models,
                       ignored := if added != [] then Subtract(ignored, added) else ignored,
                       detected := Subtract(pendingAdd, added + dropped),
                       removed := Subtract(pendingRemove, removed),
                       lastCheck := now);
      Application(row', added, removed, changed, true)
  }

  /** The channel's database row, updated in place. */
  class Channel {
    var models: string
    var ignored: seq<string>
    var detected: seq<string>
    var removed: seq<string>
    var lastCheck: int
    const autoSync: bool

    constructor (row: Row)
      ensures Stored() == row
    {
      models, ignored, detected, removed := row.models, row.ignored, row.detected, row.removed;
      lastCheck, autoSync := row.lastCheck, row.autoSync;
    }

    function Stored(): Row
      reads this
    {
      Row(models, ignored, detected, removed, lastCheck, autoSync)
    }

    method CheckAndPersist(env: Env, fetched: Option<seq<string>>, force: bool, autoApply: bool, now: int)
      returns (changed: bool, autoAdded: nat, ok: bool)
      modifies this
      ensures Detection(Stored(), changed, autoAdded, ok)
           == DetectStep(env, old(Stored()), fetched, force, autoApply, now)
    {
      hide Normalize, Merge, PendingAdd, PendingRemove, ValidModels, JoinNames, GetModels;
      changed, autoAdded, ok := false, 0, true;
      if !force && lastCheck > 0 && now - lastCheck < env.minInterval {
        return;
      }
      if fetched.None? {
        lastCheck := now;
        return false, 0, false;
      }
      var add := PendingAdd(env, GetModels(models), fetched.value, ignored);
      var remove := PendingRemove(env, GetModels(models), fetched.value);
      var nextModels, nextDetected := models, add;
      if autoApply && autoSync && add != [] {
        var origin := Normalize(GetModels(models));
        var merged := MergeModelNames(origin, add);
        if |merged| > |origin| {
          nextModels := JoinNames(merged);
          autoAdded := |merged| - |origin|;
          changed := true;
        }
        nextDetected := [];
      }
      if changed && !ValidModels(nextModels) {
        return false, autoAdded, false;
      }
      models, detected, removed, lastCheck := nextModels, nextDetected, remove, now;
    }

    method ApplyUpdates(add: seq<string>, ignore: seq<string>, remove: seq<string>, now: int)
      returns (addModels: seq<string>, removeModels: seq<string>, changed: bool, ok: bool)
      modifies this
      ensures Application(Stored(), addModels, removeModels, changed, ok)
           == ApplyStep(old(Stored()), add, ignore, remove, now)
    {
      hide Normalize, Merge, Subtract, Intersect, ApplySelected, ValidModels, JoinNames, GetModels;
      var pendingAdd := Normalize(detected);
      var pendingRemove := Normalize(removed);
      addModels := Intersect(add, pendingAdd);
      var ignoreModels := Intersect(ignore, pendingAdd);
      removeModels := Intersect(remove, pendingRemove);
      removeModels := Subtract(removeModels, addModels);

      var origin := Normalize(GetModels(models));
      var next := ApplySelected(origin, addModels, removeModels);
      changed := origin != next;
      var nextModels := if changed then JoinNames(next) else models;

      var nextIgnored := MergeModelNames(ignored, ignoreModels);
      if |addModels| > 0 {
        nextIgnored := Subtract(nextIgnored, addModels);
      }
      if changed && !ValidModels(nextModels) {
        return [], [], false, false;
      }
      models, ignored, lastCheck, ok := nextModels, nextIgnored, now, true;
      detected := Subtract(pendingAdd, addModels + ignoreModels);
      removed := Subtract(pendingRemove, removeModels);
    }
  }
}
