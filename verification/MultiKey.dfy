/**
 Channels with several keys.

 The keys are stored as one newline-separated string, encrypted or not; status, disabled time
 and disabled reason are stored in maps from a key's index.  Every operation has to keep those
 maps in step with a key list that is appended to, deleted from and reindexed.  The
 specification is a plain list of entries, one per key.
 */
module MultiKey {
  import opened Basics
  import opened Text
  import opened ModelNames
  import opened KeyCipher

  const ENABLED := 1
  const MANUALLY_DISABLED := 2
  const AUTO_DISABLED := 3

  const RANDOM := "random"
  const POLLING := "polling"

  function GetKeys(key: string): seq<string> {
    if key == "" then [] else Fields(TrimSpace(key), '\n')
  }

  lemma GetKeysMeaning(key: string)
    ensures GetKeys(key) == Fields(key, '\n')
    ensures AreFields(GetKeys(key), '\n')
  {
    if key == "" {
      FieldsDropBlank([]);
    } else {
      FieldsOfTrimSpace(key, '\n');
    }
    FieldsAreFields(key, '\n');
  }

  // ----- entries -----

  /** All that is known about one key. */
  datatype Entry = Entry(key: string, status: int, time: Option<int>, reason: Option<string>)

  function Lookup<T>(m: map<int, T>, i: int): Option<T> {
    if i in m then Some(m[i]) else None
  }

  function EffectiveStatus(status: map<int, int>, i: int): int {
    if i in status then status[i] else ENABLED
  }

  function EntryAt(key: string, status: map<int, int>, time: map<int, int>, reason: map<int, string>, i: int): Entry {
    Entry(key, EffectiveStatus(status, i), Lookup(time, i), Lookup(reason, i))
  }

  function EntriesOf(keys: seq<string>, status: map<int, int>, time: map<int, int>, reason: map<int,
      string>): seq<Entry> {
    seq(|keys|, i requires 0 <= i < |keys| => EntryAt(keys[i], status, time, reason, i))
  }

  predicate InRange<T>(m: map<int, T>, n: nat) {
    forall i :: i in m ==> 0 <= i < n
  }

  function Put<T>(m: map<int, T>, i: int, v: Option<T>): map<int, T> {
    if v.Some? then m[i := v.value] else m
  }

  function PutStatus(m: map<int, int>, i: int, status: int): map<int, int> {
    if status != ENABLED then m[i := status] else m
  }

  /** Drops the statuses of keys that do not exist. */
  function Prune(status: map<int, int>, size: nat): map<int, int> {
    map i | i in status && i < size :: status[i]
  }

  lemma PruneInRange(status: map<int, int>, n: nat, size: nat)
    requires InRange(status, n) && n <= size
    ensures Prune(status, size) == status
  {
  }

  // ----- a list of entries as keys and maps -----

  function KeysIn(entries: seq<Entry>): (r: seq<string>)
    ensures |r| == |entries| && forall i :: 0 <= i < |r| ==> r[i] == entries[i].key
  {
    seq(|entries|, i requires 0 <= i < |entries| => entries[i].key)
  }

  function StatusIn(entries: seq<Entry>): map<int, int> {
    map i | 0 <= i < |entries| && entries[i].status != ENABLED :: entries[i].status
  }

  function TimeIn(entries: seq<Entry>): map<int, int> {
    map i | 0 <= i < |entries| && entries[i].time.Some? :: entries[i].time.value
  }

  function ReasonIn(entries: seq<Entry>): map<int, string> {
    map i | 0 <= i < |entries| && entries[i].reason.Some? :: entries[i].reason.value
  }

  /** The maps of a list of entries describe that list. */
  lemma EntriesRoundTrip(entries: seq<Entry>)
    ensures EntriesOf(KeysIn(entries), StatusIn(entries), TimeIn(entries), ReasonIn(entries)) == entries
    ensures var n := |entries|;
            InRange(StatusIn(entries), n) && InRange(TimeIn(entries), n) && InRange(ReasonIn(entries), n)
  {
  }

  /** One more entry is one more index. */
  lemma EntriesPush(entries: seq<Entry>, e: Entry)
    ensures var n, more := |entries|, entries + [e];
            && KeysIn(more) == KeysIn(entries) + [e.key]
            && StatusIn(more) == PutStatus(StatusIn(entries), n, e.status)
            && TimeIn(more) == Put(TimeIn(entries), n, e.time)
            && ReasonIn(more) == Put(ReasonIn(entries), n, e.reason)
  {
  }

  // ----- what the operations should do to the list of entries -----

  function Fresh(key: string): Entry {
    Entry(key, ENABLED, None, None)
  }

  function Enabled(entries: seq<Entry>): (r: seq<Entry>)
    ensures |r| == |entries| && forall i :: 0 <= i < |r| ==> r[i] == Fresh(entries[i].key)
  {
    seq(|entries|, i requires 0 <= i < |entries| => Fresh(entries[i].key))
  }

  function FreshAll(keys: seq<string>): (r: seq<Entry>)
    ensures |r| == |keys| && forall i :: 0 <= i < |r| ==> r[i] == Fresh(keys[i])
  {
    seq(|keys|, i requires 0 <= i < |keys| => Fresh(keys[i]))
  }

  function AfterDisabling(status: int): int {
    if status == ENABLED then MANUALLY_DISABLED else status
  }

  function Disabled(entries: seq<Entry>): (r: seq<Entry>)
    ensures |r| == |entries|
    ensures forall i :: 0 <= i < |r| ==> r[i] == entries[i].(status := AfterDisabling(entries[i].status))
  {
    seq(|entries|, i requires 0 <= i < |entries| => entries[i].(status := AfterDisabling(entries[i].status)))
  }

  predicate AnyEnabled(entries: seq<Entry>) {
    exists i :: 0 <= i < |entries| && entries[i].status == ENABLED
  }

  function Without(entries: seq<Entry>, index: int): seq<Entry>
    requires 0 <= index < |entries|
  {
    entries[..index] + entries[index + 1..]
  }

  /** The entry of an enabled key carries no time or reason once the list has been purged. */
  function Tidy(e: Entry): Entry {
    if e.status == ENABLED then Fresh(e.key) else e
  }

  function Purged(entries: seq<Entry>): seq<Entry> {
    if entries == [] then []
    else
      var front, last := Purged(entries[..|entries| - 1]), entries[|entries| - 1];
      if last.status == AUTO_DISABLED then front else front + [Tidy(last)]
  }

  /** The new keys among the lines of the input: first occurrences only, none that is already there. */
  function NewKeys(keys: seq<string>, input: string): seq<string> {
    Filter(Uniq(Fields(input, '\n')), k => k !in keys)
  }

  /** Where a key first occurs, if it does. */
  function FirstIndex(keys: seq<string>, key: string): (r: int)
    ensures -1 <= r < |keys|
    ensures r >= 0 ==> keys[r] == key && key !in keys[..r]
    ensures r < 0 ==> key !in keys
  {
    if keys == [] then -1
    else if keys[0] == key then 0
    else
      var r := FirstIndex(keys[1..], key);
      if r < 0 then -1 else r + 1
  }

  /** The keys an append brings in; into a channel without keys, the input goes as it is. */
  function Added(keys: seq<string>, input: string): seq<string> {
    if keys == [] then Fields(input, '\n') else NewKeys(keys, input)
  }

  function Reported(entries: seq<Entry>, i: int, status: int, why: string, now: int): seq<Entry>
    requires 0 <= i < |entries|
  {
    entries[i := if status == ENABLED then entries[i].(status := ENABLED)
                 else Entry(entries[i].key, status, Some(now), Some(why))]
  }

  predicate AnyAutoDisabled(entries: seq<Entry>) {
    exists i :: 0 <= i < |entries| && entries[i].status == AUTO_DISABLED
  }

  // ----- what the operations do to the stored row -----

  datatype Row = Row(key: string, isMultiKey: bool, size: int,
                     status: map<int, int>, time: map<int, int>, reason: map<int, string>, mode: string,
                     channelStatus: int)

  function Keys(cipher: Cipher, row: Row): seq<string> {
    GetKeys(Plaintext(cipher, row.key))
  }

  function Entries(cipher: Cipher, row: Row): seq<Entry> {
    EntriesOf(Keys(cipher, row), row.status, row.time, row.reason)
  }

  /**
   Writes a changed row back.  The keys are counted, and statuses beyond the count dropped, in
   the key string as it was handed over, which may be a ciphertext; then it is encrypted.  An
   empty key string is not written, so the stored one stays and is counted.
   */
  function Written(cipher: Cipher, row: Row, newKey: string): Row {
    var count := |GetKeys(if newKey != "" then newKey else row.key)|;
    var counted := if row.isMultiKey then row.(size := count, status := Prune(row.status, count)) else row;
    if newKey != "" then counted.(key := Encrypted(cipher, newKey)) else counted
  }

  /** A key list of more than one key makes the channel a multi-key channel. */
  function Reconciled(row: Row, keys: seq<string>): Row {
    if |keys| <= 1 then row
    else row.(isMultiKey := true, size := |keys|, mode := if row.mode in {RANDOM, POLLING} then row.mode else RANDOM)
  }

  function Filled(row: Row, entries: seq<Entry>): Row {
    row.(status := StatusIn(entries), time := TimeIn(entries), reason := ReasonIn(entries))
  }

  /** The lines of the stored string, encrypted or not, followed by the new lines of the input. */
  function AppendedKey(stored: string, input: string): string {
    if stored == "" then input
    else
      var existing := Split(TrimChar(stored, '\n'), '\n');
      Join(existing + NewKeys(Clean(existing), input), '\n')
  }

  function Appended(cipher: Cipher, row: Row, input: string): Row {
    var newKey := AppendedKey(row.key, input);
    Written(cipher, Reconciled(row, GetKeys(Plaintext(cipher, if newKey != "" then newKey else row.key))), newKey)
  }

  /** The enabled ones among the first size keys, as manually disabled. */
  function Disabling(status: map<int, int>, size: int): map<int, int> {
    map i | 0 <= i < size && EffectiveStatus(status, i) == ENABLED :: MANUALLY_DISABLED
  }

  function Dropped(entries: seq<Entry>, index: int): seq<Entry> {
    if 0 <= index < |entries| then Without(entries, index) else entries
  }

  /** The row with the status of key i set or cleared; time and reason of an enabled key stay behind. */
  function Marked(row: Row, i: int, status: int, why: string, now: int): Row {
    if status == ENABLED then row.(status := row.status - {i})
    else row.(status := row.status[i := status], time := row.time[i := now], reason := row.reason[i := why])
  }

  /**
   A report about a key.  Nothing happens if the channel itself has the reported status already;
   otherwise the first key that matches is marked, and the channel is disabled with its last
   enabled key and enabled with a key.
   */
  function ReportStep(cipher: Cipher, row: Row, key: string, status: int, why: string, now: int): Row {
    var keys := Keys(cipher, row);
    var i := FirstIndex(keys, key);
    if row.channelStatus == status then row
    else if !row.isMultiKey || keys == [] || (i < 0 && key == "") then row.(channelStatus := status)
    else if i < 0 then row
    else
      var marked := Marked(row, i, status, why, now);
      if !AnyEnabled(Entries(cipher, marked)) then marked.(channelStatus := AUTO_DISABLED)
      else if status == ENABLED then marked.(channelStatus := ENABLED)
      else marked
  }

  datatype Action =
    | DisableKey(index: Option<int>)
    | EnableKey(index: Option<int>)
    | EnableAll
    | DisableAll
    | DeleteKey(index: Option<int>)
    | DeleteDisabled
    | Report(key: string, status: int, why: string, now: int)
    | Append(input: string)

  predicate Reaches(row: Row, index: Option<int>) {
    row.isMultiKey && index.Some? && 0 <= index.value < row.size
  }

  function Exec(cipher: Cipher, row: Row, a: Action): Row {
    match a
    case DisableKey(index) =>
      if !Reaches(row, index) then row
      else Written(cipher, row.(status := row.status[index.value := MANUALLY_DISABLED]), row.key)
    case EnableKey(index) =>
      if !Reaches(row, index) then row
      else
        var i := index.value;
        Written(cipher, row.(status := row.status - {i}, time := row.time - {i}, reason := row.reason - {i}), row.key)
    case EnableAll =>
      if !row.isMultiKey then row else Written(cipher, Filled(row, []), row.key)
    case DisableAll =>
      if !row.isMultiKey || Disabling(row.status, row.size) == map[] then row
      else Written(cipher, row.(status := row.status + Disabling(row.status, row.size)), row.key)
    case DeleteKey(index) =>
      if !Reaches(row, index) then row
      else
        var rest := Dropped(Entries(cipher, row), index.value);
        if rest == [] then row else Written(cipher, Filled(row, rest), Join(KeysIn(rest), '\n'))
    case DeleteDisabled =>
      var entries := Entries(cipher, row);
      if !row.isMultiKey || !AnyAutoDisabled(entries) then row
      else Written(cipher, Filled(row, Purged(entries)), Join(KeysIn(Purged(entries)), '\n'))
    case Report(key, status, why, now) => ReportStep(cipher, row, key, status, why, now)
    case Append(input) => Appended(cipher, row, input)
  }

  // ----- the channel -----

  class Channel {
    const cipher: Cipher
    var key: string
    var isMultiKey: bool
    var size: int
    var status: map<int, int>
    var time: map<int, int>
    var reason: map<int, string>
    var mode: string
    var channelStatus: int

    constructor (cipher: Cipher, row: Row)
      ensures this.cipher == cipher && Stored() == row
    {
      this.cipher := cipher;
      key, isMultiKey, size, mode := row.key, row.isMultiKey, row.size, row.mode;
      status, time, reason, channelStatus := row.status, row.time, row.reason, row.channelStatus;
    }

    function Stored(): Row
      reads this
    {
      Row(key, isMultiKey, size, status, time, reason, mode, channelStatus)
    }

    method Update(newKey: string, newStatus: map<int, int>, newTime: map<int, int>, newReason: map<int, string>)
      modifies this`key, this`size, this`status, this`time, this`reason
      ensures var changed := old(Stored()).(status := newStatus, time := newTime, reason := newReason);
              Stored() == Written(cipher, changed, newKey)
    {
      status, time, reason := newStatus, newTime, newReason;
      if isMultiKey {
        var counted := newKey;
        if counted == "" {
          counted := key;
        }
        size := |GetKeys(counted)|;
        status := Prune(status, size);
      }
      if newKey != "" {
        key := Encrypted(cipher, newKey);
      }
    }

    method DisableKey(index: Option<int>)
      modifies this
      ensures Stored() == Exec(cipher, old(Stored()), Action.DisableKey(index))
    {
      if !isMultiKey || index.None? || index.value < 0 || index.value >= size {
        return;
      }
      Update(key, status[index.value := MANUALLY_DISABLED], time, reason);
    }

    method EnableKey(index: Option<int>)
      modifies this
      ensures Stored() == Exec(cipher, old(Stored()), Action.EnableKey(index))
    {
      if !isMultiKey || index.None? || index.value < 0 || index.value >= size {
        return;
      }
      Update(key, status - {index.value}, time - {index.value}, reason - {index.value});
    }

    method EnableAllKeys()
      modifies this
      ensures Stored() == Exec(cipher, old(Stored()), EnableAll)
    {
      if !isMultiKey {
        return;
      }
      assert StatusIn([]) == map[] && TimeIn([]) == map[] && ReasonIn([]) == map[];
      Update(key, map[], map[], map[]);
    }

    method DisableAllKeys()
      modifies this
      ensures Stored() == Exec(cipher, old(Stored()), DisableAll)
    {
      if !isMultiKey {
        return;
      }
      var next, disabledCount := DisableEach(size, status);
      if disabledCount == 0 {
        return;
      }
      Update(key, next, time, reason);
    }

    /** Removes one key and moves the data of the later keys down by one; the last key cannot be removed. */
    method DeleteKey(index: Option<int>)
      modifies this
      ensures Stored() == Exec(cipher, old(Stored()), Action.DeleteKey(index))
    {
      hide GetKeys, Plaintext;
      if !isMultiKey || index.None? || index.value < 0 || index.value >= size {
        return;
      }
      var keys := GetKeys(Plaintext(cipher, key));
      var remaining, newStatus, newTime, newReason := SkipKey(keys, status, time, reason, index.value);
      if |remaining| == 0 {
        return;
      }
      Update(Join(remaining, '\n'), newStatus, newTime, newReason);
    }

    /** Removes every automatically disabled key. */
    method DeleteDisabledKeys()
      modifies this
      ensures Stored() == Exec(cipher, old(Stored()), DeleteDisabled)
    {
      hide GetKeys, Plaintext;
      if !isMultiKey {
        return;
      }
      var keys := GetKeys(Plaintext(cipher, key));
      var remaining, newStatus, newTime, newReason, deleted := PurgeKeys(keys, status, time, reason);
      if deleted == 0 {
        return;
      }
      Update(Join(remaining, '\n'), newStatus, newTime, newReason);
    }

    /** The relay reports that a key has been disabled, or works again; the key string is not written. */
    method ReportKey(usingKey: string, newStatus: int, why: string, now: int)
      modifies this`status, this`time, this`reason, this`channelStatus
      ensures Stored() == Exec(cipher, old(Stored()), Report(usingKey, newStatus, why, now))
    {
      hide GetKeys, Plaintext, FirstIndex, Written, Filled, Disabling, Dropped, Purged, Appended;
      if channelStatus == newStatus {
        return;
      }
      var keys := GetKeys(Plaintext(cipher, key));
      if !isMultiKey || |keys| == 0 {
        channelStatus := newStatus;
        return;
      }
      var keyIndex := FindKey(keys, usingKey);
      if keyIndex < 0 {
        if usingKey == "" {
          channelStatus := newStatus;
        }
        return;
      }
      if newStatus == ENABLED {
        status := status - {keyIndex};
      } else {
        status := status[keyIndex := newStatus];
        reason := reason[keyIndex := why];
        time := time[keyIndex := now];
      }
      var someEnabled := HasEnabledKey(keys, status, time, reason);
      if !someEnabled {
        channelStatus := AUTO_DISABLED;
      } else if newStatus == ENABLED {
        channelStatus := ENABLED;
      }
    }

    method Reconcile(keys: seq<string>)
      modifies this`isMultiKey, this`size, this`mode
      ensures Stored() == Reconciled(old(Stored()), keys)
    {
      if |keys| <= 1 {
        return;
      }
      isMultiKey, size := true, |keys|;
      if mode != RANDOM && mode != POLLING {
        mode := RANDOM;
      }
    }

    /** Adds pasted keys, one per line, behind the lines of the stored string. */
    method AppendKeys(input: string)
      modifies this
      ensures Stored() == Exec(cipher, old(Stored()), Append(input))
    {
      hide GetKeys, Plaintext, AppendedKey;
      var newKey := JoinAppended(key, input);
      if newKey != "" {
        Reconcile(GetKeys(Plaintext(cipher, newKey)));
      } else {
        Reconcile(GetKeys(Plaintext(cipher, key)));
      }
      Update(newKey, status, time, reason);
    }
  }

  // ----- the loops -----

  /** Marks every enabled key among the first size as manually disabled, and counts them. */
  method DisableEach(size: int, status: map<int, int>) returns (next: map<int, int>, count: nat)
    ensures next == status + Disabling(status, size)
    ensures count == 0 <==> Disabling(status, size) == map[]
  {
    NoneDisabled(status, size);
    hide Disabling;
    next, count := status, 0;
    var i := 0;
    while i < size
      invariant i <= size || i == 0
      invariant next == status + Disabling(status, i)
      invariant count == 0 <==> Disabling(status, i) == map[]
    {
      DisablingStep(status, i);
      var current := if i in next then next[i] else ENABLED;
      if current == ENABLED {
        next := next[i := MANUALLY_DISABLED];
        count := count + 1;
      }
      i := i + 1;
    }
  }

  lemma NoneDisabled(status: map<int, int>, size: int)
    ensures Disabling(status, 0) == map[] && (size < 0 ==> Disabling(status, size) == map[])
  {
  }

  lemma DisablingStep(status: map<int, int>, i: nat)
    ensures i !in Disabling(status, i)
    ensures var before, after := Disabling(status, i), Disabling(status, i + 1);
            if EffectiveStatus(status, i) == ENABLED then
              && after == before[i := MANUALLY_DISABLED] && after != map[]
              && status + after == (status + before)[i := MANUALLY_DISABLED]
            else after == before
  {
    if EffectiveStatus(status, i) == ENABLED {
      assert i in Disabling(status, i + 1);
    }
  }

  /** Keeps an entry under the next free index. */
  method Keep(e: Entry, ghost kept: seq<Entry>, n: nat, s: map<int, int>, t: map<int, int>, r: map<int, string>)
    returns (s': map<int, int>, t': map<int, int>, r': map<int, string>)
    requires n == |kept| && s == StatusIn(kept) && t == TimeIn(kept) && r == ReasonIn(kept)
    ensures s' == StatusIn(kept + [e]) && t' == TimeIn(kept + [e]) && r' == ReasonIn(kept + [e])
    ensures KeysIn(kept + [e]) == KeysIn(kept) + [e.key]
  {
    s', t', r' := s, t, r;
    if e.status != ENABLED {
      s' := s'[n := e.status];
    }
    if e.time.Some? {
      t' := t'[n := e.time.value];
    }
    if e.reason.Some? {
      r' := r'[n := e.reason.value];
    }
    EntriesPush(kept, e);
  }

  function Skip<T>(s: seq<T>, gone: nat, i: nat): seq<T>
    requires i <= |s|
  {
    if i <= gone then s[..i] else s[..gone] + s[gone + 1..i]
  }

  lemma SkipStep<T>(s: seq<T>, gone: nat, i: nat)
    requires i < |s|
    ensures Skip(s, gone, i + 1) == if i == gone then Skip(s, gone, i) else Skip(s, gone, i) + [s[i]]
  {
  }

  /** One pass over the keys that skips one of them and reindexes the data of the others. */
  method SkipKey(keys: seq<string>, status: map<int, int>, time: map<int, int>, reason: map<int, string>, gone: nat)
    returns (remaining: seq<string>, newStatus: map<int, int>, newTime: map<int, int>, newReason: map<int, string>)
    ensures var rest := Dropped(EntriesOf(keys, status, time, reason), gone);
            && remaining == KeysIn(rest)
            && newStatus == StatusIn(rest) && newTime == TimeIn(rest) && newReason == ReasonIn(rest)
  {
    ghost var entries := EntriesOf(keys, status, time, reason);
    assert |entries| == |keys| && forall i :: 0 <= i < |keys| ==>
          entries[i] == EntryAt(keys[i], status, time, reason, i);
    assert Dropped(entries, gone) == Skip(entries, gone, |entries|);
    NoEntries();
    remaining, newStatus, newTime, newReason := [], map[], map[], map[];
    ghost var kept: seq<Entry> := [];
    assert kept == Skip(entries, gone, 0);
    hide Skip, EntriesOf, EntryAt, KeysIn, StatusIn, TimeIn, ReasonIn;
    for i := 0 to |keys|
      invariant kept == Skip(entries, gone, i) && remaining == KeysIn(kept)
      invariant newStatus == StatusIn(kept) && newTime == TimeIn(kept) && newReason == ReasonIn(kept)
    {
      SkipStep(entries, gone, i);
      if i == gone {
        continue;
      }
      var e := EntryAt(keys[i], status, time, reason, i);
      newStatus, newTime, newReason := Keep(e, kept, |remaining|, newStatus, newTime, newReason);
      remaining := remaining + [keys[i]];
      assert e == entries[i] && e.key == keys[i] by { EntryKey(keys[i], status, time, reason, i); }
      kept := kept + [e];
    }
  }

  lemma EntryKey(key: string, status: map<int, int>, time: map<int, int>, reason: map<int, string>, i: int)
    ensures EntryAt(key, status, time, reason, i).key == key
    ensures EntryAt(key, status, time, reason, i).status == EffectiveStatus(status, i)
  {
  }

  lemma NoEntries()
    ensures KeysIn([]) == [] && StatusIn([]) == map[] && TimeIn([]) == map[] && ReasonIn([]) == map[]
  {
  }

  /** One pass over the keys that drops automatically disabled ones and reindexes the others. */
  method PurgeKeys(keys: seq<string>, status: map<int, int>, time: map<int, int>, reason: map<int, string>)
    returns (remaining: seq<string>, newStatus: map<int, int>, newTime: map<int, int>, newReason: map<int, string>,
             deleted: nat)
    ensures var entries := EntriesOf(keys, status, time, reason);
            var rest := Purged(entries);
            && remaining == KeysIn(rest)
            && newStatus == StatusIn(rest) && newTime == TimeIn(rest) && newReason == ReasonIn(rest)
            && (deleted == 0 <==> !AnyAutoDisabled(entries))
  {
    ghost var entries := EntriesOf(keys, status, time, reason);
    assert |entries| == |keys| && forall i :: 0 <= i < |keys| ==>
          entries[i] == EntryAt(keys[i], status, time, reason, i);
    NoEntries();
    remaining, newStatus, newTime, newReason, deleted := [], map[], map[], map[], 0;
    ghost var kept: seq<Entry> := [];
    assert Purged(entries[..0]) == [] && !AnyAutoDisabled(entries[..0]);
    hide EntriesOf, EntryAt, EffectiveStatus, KeysIn, StatusIn, TimeIn, ReasonIn, Purged, AnyAutoDisabled;
    for i := 0 to |keys|
      invariant kept == Purged(entries[..i]) && remaining == KeysIn(kept)
      invariant newStatus == StatusIn(kept) && newTime == TimeIn(kept) && newReason == ReasonIn(kept)
      invariant deleted == 0 <==> !AnyAutoDisabled(entries[..i])
    {
      PurgedStep(entries, i);
      var e := EntryAt(keys[i], status, time, reason, i);
      EntryKey(keys[i], status, time, reason, i);
      if e.status == AUTO_DISABLED {
        deleted := deleted + 1;
      } else {
        var tidy := if e.status == ENABLED then Fresh(keys[i]) else e;
        newStatus, newTime, newReason := Keep(tidy, kept, |remaining|, newStatus, newTime, newReason);
        remaining := remaining + [keys[i]];
        kept := kept + [tidy];
      }
    }
    assert entries[..|keys|] == entries;
  }

  method HasEnabledKey(keys: seq<string>, status: map<int, int>, ghost time: map<int, int>, ghost reason: map<int,
      string>)
    returns (found: bool)
    ensures found <==> AnyEnabled(EntriesOf(keys, status, time, reason))
  {
    ghost var entries := EntriesOf(keys, status, time, reason);
    for i := 0 to |keys|
      invariant forall j :: 0 <= j < i ==> entries[j].status != ENABLED
    {
      if i !in status || status[i] == ENABLED {
        assert entries[i].status == ENABLED;
        return true;
      }
    }
    return false;
  }

  lemma PurgedStep(entries: seq<Entry>, i: nat)
    requires i < |entries|
    ensures Purged(entries[..i + 1]) ==
      if entries[i].status == AUTO_DISABLED then Purged(entries[..i]) else Purged(entries[..i]) + [Tidy(entries[i])]
    ensures AnyAutoDisabled(entries[..i + 1]) <==> AnyAutoDisabled(entries[..i]) || entries[i].status == AUTO_DISABLED
  {
    var done := entries[..i + 1];
    assert done[..i] == entries[..i] && done == entries[..i] + [entries[i]];
    assert AnyAutoDisabled(entries[..i]) ==> AnyAutoDisabled(done) by {
      if j :| 0 <= j < i && entries[..i][j].status == AUTO_DISABLED {
        assert done[j].status == AUTO_DISABLED;
      }
    }
    assert done[i] == entries[i];
  }

  method FindKey(keys: seq<string>, key: string) returns (index: int)
    ensures index == FirstIndex(keys, key)
  {
    index := -1;
    for i := 0 to |keys|
      invariant index == -1 && key !in keys[..i]
    {
      if keys[i] == key {
        FirstIndexUnique(keys, key, i);
        return i;
      }
    }
    assert keys[..|keys|] == keys;
  }

  lemma {:induction false} FirstIndexUnique(keys: seq<string>, key: string, i: int)
    requires 0 <= i < |keys| && keys[i] == key && key !in keys[..i]
    ensures FirstIndex(keys, key) == i
  {
    if i > 0 {
      assert keys[..i][0] != key && keys[..i][1..] == keys[1..][..i - 1];
      FirstIndexUnique(keys[1..], key, i - 1);
    }
  }

  method TrimmedSet(lines: seq<string>) returns (seen: set<string>)
    ensures forall k :: k in seen <==> k in Clean(lines)
  {
    hide TrimSpace;
    seen := {};
    for i := 0 to |lines|
      invariant forall k :: k in seen <==> k in Clean(lines[..i])
    {
      assert lines[..i + 1][..i] == lines[..i];
      var normalized := TrimSpace(lines[i]);
      if normalized != "" {
        seen := seen + {normalized};
      }
    }
    assert lines[..|lines|] == lines;
  }

  /** Drops new keys that are already there, comparing trimmed, and repetitions. */
  method DedupNewKeys(existing: seq<string>, newKeys: seq<string>) returns (deduped: seq<string>)
    requires AreFields(newKeys, '\n')
    ensures var have := Clean(existing); deduped == Filter(Uniq(newKeys), k => k !in have)
  {
    ghost var have := Clean(existing);
    var seen := TrimmedSet(existing);
    hide Clean, TrimSpace;
    deduped := [];
    for i := 0 to |newKeys|
      invariant forall k :: k in seen <==> k in have || k in newKeys[..i]
      invariant deduped == Filter(Uniq(newKeys[..i]), k => k !in have)
    {
      UniqSnoc(newKeys, i, have);
      assert newKeys[..i + 1] == newKeys[..i] + [newKeys[i]];
      TrimSpaceOfTrimmed(newKeys[i]);
      var normalized := TrimSpace(newKeys[i]);
      if normalized != "" && normalized !in seen {
        seen := seen + {normalized};
        deduped := deduped + [normalized];
      }
    }
    assert newKeys[..|newKeys|] == newKeys;
  }

  lemma UniqSnoc(xs: seq<string>, i: int, have: seq<string>)
    requires 0 <= i < |xs|
    ensures Filter(Uniq(xs[..i + 1]), k => k !in have) == Filter(Uniq(xs[..i]), k => k !in have)
            + if xs[i] in xs[..i] || xs[i] in have then [] else [xs[i]]
  {
    var done := xs[..i];
    assert xs[..i + 1][..i] == done;
    UniqProperties(done);
    assert (Uniq(done) + [xs[i]])[..|Uniq(done)|] == Uniq(done);
  }

  lemma NewKeysMeaning(keys: seq<string>, input: string)
    ensures AreFields(NewKeys(keys, input), '\n') && Distinct(NewKeys(keys, input))
    ensures forall k :: k in NewKeys(keys, input) <==> k in Fields(input, '\n') && k !in keys
  {
    var lines := Fields(input, '\n');
    FieldsAreFields(input, '\n');
    UniqProperties(lines);
    FilterDistinct(Uniq(lines), k => k !in keys);
    forall i | 0 <= i < |NewKeys(keys, input)|
      ensures IsField(NewKeys(keys, input)[i], '\n')
    {
      assert NewKeys(keys, input)[i] in lines;
    }
  }

  lemma {:induction false} FilterDistinct(xs: seq<string>, p: string -> bool)
    requires Distinct(xs)
    ensures Distinct(Filter(xs, p))
    ensures forall x :: x in Filter(xs, p) <==> x in xs && p(x)
  {
    if xs != [] {
      var front, last := xs[..|xs| - 1], xs[|xs| - 1];
      assert xs == front + [last];
      FilterDistinct(front, p);
    }
  }

  /** The key string of an append: the lines it has, and the new lines of the input behind them. */
  method JoinAppended(stored: string, input: string) returns (newKey: string)
    ensures newKey == AppendedKey(stored, input)
  {
    if stored == "" {
      return input;
    }
    hide Fields, Clean, Split, TrimChar;
    var existing := Split(TrimChar(stored, '\n'), '\n');
    FieldsAreFields(input, '\n');
    var deduped := DedupNewKeys(existing, Fields(input, '\n'));
    newKey := Join(existing + deduped, '\n');
  }

  // ----- key strings -----

  /** The string after an append reads back as the keys it had, followed by the new ones. */
  lemma AppendedKeys(stored: string, input: string)
    requires stored != ""
    ensures GetKeys(AppendedKey(stored, input)) == GetKeys(stored) + NewKeys(GetKeys(stored), input)
  {
    var existing := Split(TrimChar(stored, '\n'), '\n');
    GetKeysMeaning(stored);
    FieldsOfTrimmedChar(stored, '\n');
    var more := NewKeys(GetKeys(stored), input);
    SplitPartsAreSeparatorFree(TrimChar(stored, '\n'), '\n');
    NewKeysMeaning(GetKeys(stored), input);
    SplitJoined(existing + more, '\n');
    CleanConcat(existing, more);
    CleanOfFields(more, '\n');
    GetKeysMeaning(Join(existing + more, '\n'));
  }

  /** Keys joined and read back. */
  lemma KeysRoundTrip(keys: seq<string>)
    requires AreFields(keys, '\n')
    ensures GetKeys(Join(keys, '\n')) == keys
    ensures keys != [] ==> Join(keys, '\n') != ""
  {
    GetKeysMeaning(Join(keys, '\n'));
    JoinedFieldsRoundTrip(keys, '\n');
  }

  lemma GetKeysOfNothing()
    ensures GetKeys("") == []
  {
  }

  /** A ciphertext read as a list of keys is one key, which is not among the keys it holds. */
  lemma CiphertextKeys(cipher: Cipher, stored: string)
    requires Opens(cipher, stored)
    ensures stored != "" && GetKeys(stored) == [stored] && stored !in GetKeys(Plaintext(cipher, stored))
  {
    CiphertextIsLine(cipher, stored);
    GetKeysMeaning(stored);
    SplitOfSeparatorFree(stored, '\n');
    CleanOfFields([stored], '\n');
    var plain := Plaintext(cipher, stored);
    GetKeysMeaning(plain);
    if stored in GetKeys(plain) {
      FieldLength(plain, '\n', stored);
    }
  }
}
