/**
 What the actions on a multi-key channel come to, index by index: the keys, and for every key
 its status (1 enabled, 2 disabled by hand, 3 disabled automatically), time and reason, in terms
 of the stored maps before and after.
 */
module KeyActions {
  import opened Basics
  import opened Text
  import opened ModelNames
  import opened KeyCipher
  import opened MultiKey
  import opened MultiKeyRuns

  /** The status of key i: enabled unless the map says otherwise. */
  function StatusAt(row: Row, i: int): int {
    if i in row.status then row.status[i] else 1
  }

  /** Key i of one row has the time and the reason of key j of another. */
  predicate SameRecord(row: Row, i: int, other: Row, j: int) {
    && (i in row.time <==> j in other.time) && (i in row.time ==> row.time[i] == other.time[j])
    && (i in row.reason <==> j in other.reason) && (i in row.reason ==> row.reason[i] == other.reason[j])
  }

  predicate SameKey(row: Row, i: int, other: Row, j: int) {
    StatusAt(row, i) == StatusAt(other, j) && SameRecord(row, i, other, j)
  }

  predicate NoRecord(row: Row, i: int) {
    i !in row.time && i !in row.reason
  }

  lemma EntryFields(cipher: Cipher, row: Row)
    ensures var entries := Entries(cipher, row);
            && |entries| == |Keys(cipher, row)|
            && forall i :: 0 <= i < |entries| ==>
                 && entries[i].key == Keys(cipher, row)[i] && entries[i].status == StatusAt(row, i)
                 && (entries[i].time == if i in row.time then Some(row.time[i]) else None)
                 && (entries[i].reason == if i in row.reason then Some(row.reason[i]) else None)
  {
    hide GetKeys, Plaintext;
  }

  /** An action that is carried out leads to the intended entries. */
  lemma Intended(cipher: Cipher, row: Row, a: Action)
    requires Aligned(cipher, row) && CarriedOut(cipher, row, a)
    ensures var next := Exec(cipher, row, a);
            Entries(cipher, next) == Step(PoolOf(cipher, row), a).entries
  {
    hide CarriedOut, Exec, Step;
    TracksIffCarriedOut(cipher, row, a);
    TracksMeans(cipher, row, a);
  }

  /** Disabling a key sets its status to 2 and changes no other key; an index out of range changes nothing. */
  lemma DisableMeaning(cipher: Cipher, row: Row, index: Option<int>)
    requires Aligned(cipher, row) && CarriedOut(cipher, row, DisableKey(index))
    ensures var next := Exec(cipher, row, DisableKey(index));
            && Keys(cipher, next) == Keys(cipher, row)
            && forall j :: 0 <= j < |Keys(cipher, row)| ==>
                 && SameRecord(next, j, row, j)
                 && StatusAt(next, j) == if row.isMultiKey && index == Some(j) then 2 else StatusAt(row, j)
  {
    hide GetKeys, Plaintext, EntriesOf, Exec, CarriedOut, Aligned;
    var next := Exec(cipher, row, DisableKey(index));
    Intended(cipher, row, DisableKey(index));
    EntryFields(cipher, row);
    EntryFields(cipher, next);
    SameEntryKeys(cipher, row, next);
  }

  lemma SameEntryKeys(cipher: Cipher, row: Row, next: Row)
    ensures |Entries(cipher, row)| == |Entries(cipher, next)|
            && (forall i :: 0 <= i < |Entries(cipher, row)| ==>
                Entries(cipher, row)[i].key == Entries(cipher, next)[i].key)
            <==> Keys(cipher, row) == Keys(cipher, next)
  {
    hide GetKeys, Plaintext;
    EntryFields(cipher, row);
    EntryFields(cipher, next);
  }

  /** Enabling a key takes its status, time and reason away and changes no other key. */
  lemma EnableMeaning(cipher: Cipher, row: Row, index: Option<int>)
    requires Aligned(cipher, row) && CarriedOut(cipher, row, EnableKey(index))
    ensures var next := Exec(cipher, row, EnableKey(index));
            && Keys(cipher, next) == Keys(cipher, row)
            && forall j :: 0 <= j < |Keys(cipher, row)| ==>
                 if row.isMultiKey && index == Some(j) then StatusAt(next, j) == 1 && NoRecord(next, j)
                 else SameKey(next, j, row, j)
  {
    hide GetKeys, Plaintext, EntriesOf, Exec, CarriedOut, Aligned;
    var next := Exec(cipher, row, EnableKey(index));
    Intended(cipher, row, EnableKey(index));
    EntryFields(cipher, row);
    EntryFields(cipher, next);
    SameEntryKeys(cipher, row, next);
  }

  /** Enabling all keys leaves every key with status 1 and without a record. */
  lemma EnableAllMeaning(cipher: Cipher, row: Row)
    requires Aligned(cipher, row) && row.isMultiKey && CarriedOut(cipher, row, EnableAll)
    ensures var next := Exec(cipher, row, EnableAll);
            && Keys(cipher, next) == Keys(cipher, row)
            && forall j :: 0 <= j < |Keys(cipher, row)| ==> StatusAt(next, j) == 1 && NoRecord(next, j)
  {
    hide GetKeys, Plaintext, EntriesOf, Exec, CarriedOut, Aligned;
    var next := Exec(cipher, row, EnableAll);
    Intended(cipher, row, EnableAll);
    EntryFields(cipher, row);
    EntryFields(cipher, next);
    SameEntryKeys(cipher, row, next);
  }

  /** Disabling all keys turns status 1 into 2, and leaves every other status and all records alone. */
  lemma DisableAllMeaning(cipher: Cipher, row: Row)
    requires Aligned(cipher, row) && row.isMultiKey && CarriedOut(cipher, row, DisableAll)
    ensures var next := Exec(cipher, row, DisableAll);
            && Keys(cipher, next) == Keys(cipher, row)
            && forall j :: 0 <= j < |Keys(cipher, row)| ==>
                 && SameRecord(next, j, row, j)
                 && StatusAt(next, j) == if StatusAt(row, j) == 1 then 2 else StatusAt(row, j)
  {
    hide GetKeys, Plaintext, EntriesOf, Exec, CarriedOut, Aligned;
    var next := Exec(cipher, row, DisableAll);
    Intended(cipher, row, DisableAll);
    EntryFields(cipher, row);
    EntryFields(cipher, next);
    SameEntryKeys(cipher, row, next);
  }

  /** Deleting a key moves every later key down by one, with its status, time and reason. */
  lemma DeleteMeaning(cipher: Cipher, row: Row, i: int)
    requires Aligned(cipher, row) && row.isMultiKey && 0 <= i < row.size && row.size > 1
    requires CarriedOut(cipher, row, DeleteKey(Some(i)))
    ensures var next := Exec(cipher, row, DeleteKey(Some(i)));
            && |Keys(cipher, next)| == |Keys(cipher, row)| - 1
            && forall j :: 0 <= j < |Keys(cipher, next)| ==>
                 var from := if j < i then j else j + 1;
                 Keys(cipher, next)[j] == Keys(cipher, row)[from] && SameKey(next, j, row, from)
  {
    hide Entries, Keys, Exec, CarriedOut, StatusAt, SameKey;
    var a := DeleteKey(Some(i));
    var next := Exec(cipher, row, a);
    Lengths(cipher, row);
    Lengths(cipher, next);
    Intended(cipher, row, a);
    DeleteStep(cipher, row, i);
    forall j | 0 <= j < |Keys(cipher, next)|
      ensures var from := if j < i then j else j + 1;
              Keys(cipher, next)[j] == Keys(cipher, row)[from] && SameKey(next, j, row, from)
    {
      SameEntry(cipher, row, if j < i then j else j + 1, next, j);
    }
  }

  lemma Lengths(cipher: Cipher, row: Row)
    ensures |Entries(cipher, row)| == |Keys(cipher, row)|
  {
  }

  lemma DeleteStep(cipher: Cipher, row: Row, i: int)
    requires row.isMultiKey && 0 <= i < |Entries(cipher, row)| && |Entries(cipher, row)| > 1
    ensures var entries := Entries(cipher, row);
            Step(PoolOf(cipher, row), DeleteKey(Some(i))).entries == entries[..i] + entries[i + 1..]
  {
    hide Entries;
  }

  /** Equal entries are keys with the same status and record. */
  lemma SameEntry(cipher: Cipher, row: Row, i: int, next: Row, j: int)
    requires 0 <= i < |Entries(cipher, row)| && 0 <= j < |Entries(cipher, next)|
    requires Entries(cipher, row)[i] == Entries(cipher, next)[j]
    ensures i < |Keys(cipher, row)| && j < |Keys(cipher, next)|
    ensures Keys(cipher, next)[j] == Keys(cipher, row)[i] && SameKey(next, j, row, i)
  {
    hide Keys;
  }

  // ----- purging -----

  predicate Ascending(indices: seq<int>) {
    forall i, j :: 0 <= i < j < |indices| ==> indices[i] < indices[j]
  }

  /** The indices of the entries that are not automatically disabled, ascending. */
  function Survivors(entries: seq<Entry>): (r: seq<int>)
    ensures forall k :: 0 <= k < |r| ==> 0 <= r[k] < |entries| && entries[r[k]].status != 3
    ensures Ascending(r)
    ensures forall i :: 0 <= i < |entries| && entries[i].status != 3 ==> i in r
  {
    if entries == [] then []
    else
      var n := |entries| - 1;
      var front := Survivors(entries[..n]);
      if entries[n].status != 3 then front + [n] else front
  }

  /** A purge keeps exactly the entries that are not automatically disabled,
      in order; enabled ones lose their record. */
  lemma {:induction false} PurgedMeaning(entries: seq<Entry>, k: int)
    ensures |Purged(entries)| == |Survivors(entries)|
    ensures 0 <= k < |Survivors(entries)| ==>
      var e := entries[Survivors(entries)[k]];
      Purged(entries)[k] == if e.status == 1 then Entry(e.key, 1, None, None) else e
  {
    if entries != [] {
      var n := |entries| - 1;
      var front := entries[..n];
      PurgedMeaning(front, k);
      SurvivorStep(entries);
      PurgedStep(entries, n);
      assert entries[..n + 1] == entries;
      hide Purged, Survivors;
      if 0 <= k < |Survivors(front)| {
        assert front[Survivors(front)[k]] == entries[Survivors(front)[k]];
      }
    }
  }

  lemma SurvivorStep(entries: seq<Entry>)
    requires entries != []
    ensures var n := |entries| - 1;
            Survivors(entries) == Survivors(entries[..n]) + if entries[n].status != 3 then [n] else []
  {
  }

  /** What a purge of a row leaves, given the indices of the keys that stay. */
  predicate PurgedTo(cipher: Cipher, row: Row, next: Row, indices: seq<int>)
    requires forall k :: 0 <= k < |indices| ==> 0 <= indices[k] < |Keys(cipher, row)|
  {
    && |Keys(cipher, next)| == |indices|
    && forall k :: 0 <= k < |indices| ==>
         && Keys(cipher, next)[k] == Keys(cipher, row)[indices[k]]
         && StatusAt(next, k) == StatusAt(row, indices[k])
         && if StatusAt(row, indices[k]) == 1 then NoRecord(next, k) else SameRecord(next, k, row, indices[k])
  }

  /**
   Deleting the automatically disabled keys: with the ascending list of the other indices, the
   k-th key left is the key of the k-th index, with its status, and with its time and reason if
   it is disabled.
   */
  lemma PurgeMeaning(cipher: Cipher, row: Row) returns (indices: seq<int>)
    requires Aligned(cipher, row) && row.isMultiKey && CarriedOut(cipher, row, DeleteDisabled)
    ensures Ascending(indices) && forall k :: 0 <= k < |indices| ==> 0 <= indices[k] < |Keys(cipher, row)|
    ensures forall i :: 0 <= i < |Keys(cipher, row)| ==> (i in indices <==> StatusAt(row, i) != 3)
    ensures if |indices| < |Keys(cipher, row)| then PurgedTo(cipher, row, Exec(cipher, row, DeleteDisabled), indices)
            else Exec(cipher, row, DeleteDisabled) == row
  {
    hide Entries, Keys, Exec, CarriedOut, Purged, Aligned, Survivors, AnyAutoDisabled, Step, StatusAt, PurgedTo;
    var entries := Entries(cipher, row);
    indices := Survivors(entries);
    EntryFields(cipher, row);
    SurvivorCount(entries);
    PurgeStep(cipher, row);
    if |indices| < |entries| {
      Intended(cipher, row, DeleteDisabled);
      PurgedRow(cipher, row, Exec(cipher, row, DeleteDisabled));
    }
  }

  lemma PurgeStep(cipher: Cipher, row: Row)
    requires row.isMultiKey
    ensures var entries := Entries(cipher, row);
            if AnyAutoDisabled(entries) then Step(PoolOf(cipher, row), DeleteDisabled).entries == Purged(entries)
            else Exec(cipher, row, DeleteDisabled) == row
  {
    hide Entries, Purged;
  }

  lemma PurgedRow(cipher: Cipher, row: Row, next: Row)
    requires Entries(cipher, next) == Purged(Entries(cipher, row))
    ensures |Entries(cipher, row)| == |Keys(cipher, row)|
    ensures PurgedTo(cipher, row, next, Survivors(Entries(cipher, row)))
  {
    hide Entries, Keys, Purged, StatusAt, SameKey;
    Lengths(cipher, row);
    Lengths(cipher, next);
    var entries := Entries(cipher, row);
    var indices := Survivors(entries);
    PurgedMeaning(entries, 0);
    forall k | 0 <= k < |indices|
      ensures Keys(cipher, next)[k] == Keys(cipher, row)[indices[k]] && StatusAt(next, k) == StatusAt(row, indices[k])
      ensures if StatusAt(row, indices[k]) == 1 then NoRecord(next, k) else SameRecord(next, k, row, indices[k])
    {
      PurgedMeaning(entries, k);
      TidiedEntry(cipher, row, indices[k], next, k);
    }
  }

  lemma TidiedEntry(cipher: Cipher, row: Row, i: int, next: Row, j: int)
    requires 0 <= i < |Entries(cipher, row)| && 0 <= j < |Entries(cipher, next)|
    requires var e := Entries(cipher, row)[i];
             Entries(cipher, next)[j] == if e.status == 1 then Entry(e.key, 1, None, None) else e
    ensures i < |Keys(cipher, row)| && j < |Keys(cipher, next)|
    ensures Keys(cipher, next)[j] == Keys(cipher, row)[i] && StatusAt(next, j) == StatusAt(row, i)
    ensures if StatusAt(row, i) == 1 then NoRecord(next, j) else SameRecord(next, j, row, i)
  {
    hide Keys;
  }

  lemma {:induction false} SurvivorCount(entries: seq<Entry>)
    ensures |Survivors(entries)| <= |entries|
    ensures |Survivors(entries)| < |entries| <==> AnyAutoDisabled(entries)
  {
    if entries != [] {
      var n := |entries| - 1;
      SurvivorCount(entries[..n]);
      PurgedStep(entries, n);
      assert entries[..n + 1] == entries;
    }
  }

  // ----- reports -----

  /**
   A report about the first key that matches, with a status that the channel itself does not
   have: the key gets the status, and a disabled one the time and the reason; no other key
   changes; the channel is disabled automatically with its last enabled key.
   */
  lemma ReportMeaning(cipher: Cipher, row: Row, i: int, status: int, why: string, now: int)
    requires row.isMultiKey && row.channelStatus != status && 0 <= i < |Keys(cipher, row)|
    requires Keys(cipher, row)[i] !in Keys(cipher, row)[..i]
    ensures var keys := Keys(cipher, row);
            var next := Exec(cipher, row, Report(keys[i], status, why, now));
            && next.key == row.key && next.size == row.size && next.mode == row.mode && next.isMultiKey
            && StatusAt(next, i) == status
            && (if status == 1 then SameRecord(next, i, row, i)
                else i in next.time && next.time[i] == now && i in next.reason && next.reason[i] == why)
            && (forall j :: j != i ==> SameKey(next, j, row, j))
            && next.channelStatus ==
                 if forall j :: 0 <= j < |keys| ==> StatusAt(next, j) != 1 then 3
                 else if status == 1 then 1 else row.channelStatus
  {
    hide Keys, Exec, Entries, AnyEnabled, Marked;
    var keys := Keys(cipher, row);
    FirstIndexUnique(keys, keys[i], i);
    var marked := Marked(row, i, status, why, now);
    MarkedMeaning(cipher, row, i, status, why, now);
    EnabledMeaning(cipher, marked);
    ReportIs(cipher, row, i, status, why, now);
    var next := Exec(cipher, row, Report(keys[i], status, why, now));
    assert forall j :: StatusAt(next, j) == StatusAt(marked, j);
    forall j | j != i
      ensures SameKey(next, j, row, j)
    {
      assert SameKey(marked, j, row, j);
    }
  }

  lemma MarkedMeaning(cipher: Cipher, row: Row, i: int, status: int, why: string, now: int)
    ensures var marked := Marked(row, i, status, why, now);
            && marked == row.(status := marked.status, time := marked.time, reason := marked.reason)
            && Keys(cipher, marked) == Keys(cipher, row) && StatusAt(marked, i) == status
            && (if status == 1 then SameRecord(marked, i, row, i)
                else i in marked.time && marked.time[i] == now && i in marked.reason && marked.reason[i] == why)
            && (forall j :: j != i ==> SameKey(marked, j, row, j))
  {
    hide GetKeys, Plaintext;
  }

  lemma EnabledMeaning(cipher: Cipher, row: Row)
    ensures AnyEnabled(Entries(cipher, row)) <==> exists j :: 0 <= j < |Keys(cipher, row)| && StatusAt(row, j) == 1
  {
    hide Keys;
    var entries := Entries(cipher, row);
    if AnyEnabled(entries) {
      var i :| 0 <= i < |entries| && entries[i].status == ENABLED;
      assert StatusAt(row, i) == 1;
    }
    if j :| 0 <= j < |Keys(cipher, row)| && StatusAt(row, j) == 1 {
      assert entries[j].status == 1;
    }
  }

  lemma ReportIs(cipher: Cipher, row: Row, i: int, status: int, why: string, now: int)
    requires row.isMultiKey && row.channelStatus != status && 0 <= i < |Keys(cipher, row)|
    requires FirstIndex(Keys(cipher, row), Keys(cipher, row)[i]) == i
    ensures var marked := Marked(row, i, status, why, now);
            Exec(cipher, row, Report(Keys(cipher, row)[i], status, why, now)) ==
              if !AnyEnabled(Entries(cipher, marked)) then marked.(channelStatus := 3)
              else if status == 1 then marked.(channelStatus := 1) else marked
  {
    hide Keys, Entries, AnyEnabled, Marked, FirstIndex;
  }

  /** Any other report changes the status of the channel at most: not a known key, or not a multi-key channel. */
  lemma OtherReportMeaning(cipher: Cipher, row: Row, key: string, status: int, why: string, now: int)
    requires row.channelStatus == status || !row.isMultiKey || key !in Keys(cipher, row)
    ensures Exec(cipher, row, Report(key, status, why, now)) ==
      if row.isMultiKey && key != "" && Keys(cipher, row) != [] then row else row.(channelStatus := status)
  {
    hide GetKeys, Plaintext, Written, Purged, Appended;
  }

  // ----- appending -----

  /**
   An append that is carried out: the keys that were there stay as they are, the new ones follow
   with status 1 and without a record, and several keys make a multi-key channel with a known
   mode, which is kept if it was known.
   */
  lemma AppendedKeysMeaning(cipher: Cipher, row: Row, input: string)
    requires Aligned(cipher, row) && CarriedOut(cipher, row, Append(input))
    ensures var keys, next := Keys(cipher, row), Exec(cipher, row, Append(input));
            var more := if keys == [] then Fields(input, '\n') else NewKeys(keys, input);
            && Keys(cipher, next) == keys + more
            && (forall j :: 0 <= j < |keys| ==> SameKey(next, j, row, j))
            && (forall j :: |keys| <= j < |keys + more| ==> StatusAt(next, j) == 1 && NoRecord(next, j))
            && next.isMultiKey == (row.isMultiKey || |keys + more| > 1)
  {
    hide Entries, Keys, Exec, CarriedOut, StatusAt, SameKey, Fields, NewKeys, KeysIn, Aligned;
    var a := Append(input);
    var keys, next := Keys(cipher, row), Exec(cipher, row, a);
    Lengths(cipher, row);
    Lengths(cipher, next);
    KeysOfEntries(cipher, row);
    KeysOfEntries(cipher, next);
    TracksIffCarriedOut(cipher, row, a);
    TracksMeans(cipher, row, a);
    var more := Added(keys, input);
    KeysOfConcat(Entries(cipher, row), more);
    forall j | 0 <= j < |keys|
      ensures SameKey(next, j, row, j)
    {
      SameEntry(cipher, row, j, next, j);
    }
    forall j | |keys| <= j < |keys + more|
      ensures StatusAt(next, j) == 1 && NoRecord(next, j)
    {
      FreshEntry(cipher, next, j);
    }
  }

  lemma FreshEntry(cipher: Cipher, row: Row, j: int)
    requires 0 <= j < |Entries(cipher, row)| && Entries(cipher, row)[j] == Fresh(Entries(cipher, row)[j].key)
    ensures StatusAt(row, j) == 1 && NoRecord(row, j)
  {
    hide Keys;
  }

  /** After an append that leaves several keys, the mode is a known one, and a known mode stays. */
  lemma ModeMeaning(cipher: Cipher, row: Row, input: string)
    ensures var next := Exec(cipher, row, Append(input));
            && (|Keys(cipher, next)| > 1 ==> next.mode == "random" || next.mode == "polling")
            && (row.mode == "random" || row.mode == "polling" ==> next.mode == row.mode)
  {
    hide GetKeys, AppendedKey, Purged;
    var newKey := AppendedKey(row.key, input);
    PlaintextOfEncrypted(cipher, newKey);
  }
}
