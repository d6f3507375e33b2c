/**
 Runs of key management actions on one channel.  The index maps are meant to implement a list
 of entries; they do as long as every action is carried out as meant, and the condition for
 that is exact, action by action.  What breaks it is that key strings are encrypted when they
 are written while some actions read the stored string without decrypting it.
 */
module MultiKeyRuns {
  import opened Basics
  import opened Text
  import opened ModelNames
  import opened KeyCipher
  import opened MultiKey

  /** A channel as a list of entries. */
  datatype Pool = Pool(multi: bool, entries: seq<Entry>) {
    predicate Has(index: Option<int>) {
      multi && index.Some? && 0 <= index.value < |entries|
    }
  }

  /** What each action is meant to do. */
  function Step(p: Pool, a: Action): Pool {
    match a
    case DisableKey(index) =>
      if p.Has(index) then
        p.(entries := p.entries[index.value := p.entries[index.value].(status := MANUALLY_DISABLED)])
      else p
    case EnableKey(index) =>
      if p.Has(index) then p.(entries := p.entries[index.value := Fresh(p.entries[index.value].key)]) else p
    case EnableAll => if p.multi then p.(entries := Enabled(p.entries)) else p
    case DisableAll => if p.multi then p.(entries := Disabled(p.entries)) else p
    case DeleteKey(index) =>
      if p.Has(index) && |p.entries| > 1 then p.(entries := Without(p.entries, index.value)) else p
    case DeleteDisabled =>
      if p.multi && AnyAutoDisabled(p.entries) then p.(entries := Purged(p.entries)) else p
    case Report(key, status, why, now) =>
      var i := FirstIndex(KeysIn(p.entries), key);
      if p.multi && i >= 0 then p.(entries := Reported(p.entries, i, status, why, now)) else p
    case Append(input) =>
      var entries := p.entries + FreshAll(Added(KeysIn(p.entries), input));
      Pool(p.multi || |entries| > 1, entries)
  }

  function Run(p: Pool, actions: seq<Action>): Pool {
    if actions == [] then p else Step(Run(p, actions[..|actions| - 1]), actions[|actions| - 1])
  }

  function ExecAll(cipher: Cipher, row: Row, actions: seq<Action>): Row {
    if actions == [] then row
    else Exec(cipher, ExecAll(cipher, row, actions[..|actions| - 1]), actions[|actions| - 1])
  }

  function PoolOf(cipher: Cipher, row: Row): Pool {
    Pool(row.isMultiKey, Entries(cipher, row))
  }

  /** The metadata agrees with the key list, and a key string that is not empty has a key in it. */
  predicate Aligned(cipher: Cipher, row: Row) {
    var n := |Keys(cipher, row)|;
    && (row.isMultiKey ==> row.size == n)
    && InRange(row.status, n) && InRange(row.time, n) && InRange(row.reason, n)
    && (row.key != "" ==> n > 0)
  }

  // ----- when an action is carried out -----

  predicate AllAutoDisabled(entries: seq<Entry>) {
    forall i :: 0 <= i < |entries| ==> entries[i].status == AUTO_DISABLED
  }

  /** The action writes statuses, and with them the key string as it is stored. */
  predicate WritesStatus(p: Pool, a: Action) {
    match a
    case DisableKey(index) => p.Has(index)
    case EnableKey(index) => p.Has(index)
    case EnableAll => p.multi
    case DisableAll => p.multi && AnyEnabled(p.entries)
    case _ => false
  }

  predicate SaysAlready(e: Entry, status: int, why: string, now: int) {
    e.status == status && (status == ENABLED || (e.time == Some(now) && e.reason == Some(why)))
  }

  /**
   The exact condition.  Actions on statuses need a key string that is not a ciphertext, or a
   single key.  Deletions rewrite the key string from the keys, so they always work, unless
   nothing would remain or what remains is itself a ciphertext.  A report must not bring the
   status that the channel itself has, unless the key has it too.  An append needs a key string
   that is not a ciphertext, or has nothing to add to a single key.
   */
  predicate CarriedOut(cipher: Cipher, row: Row, a: Action) {
    var p := PoolOf(cipher, row);
    var sealed := Opens(cipher, row.key);
    match a
    case DeleteKey(index) =>
      p.Has(index) && |p.entries| > 1 ==> !Opens(cipher, Join(KeysIn(Without(p.entries, index.value)), '\n'))
    case DeleteDisabled =>
      p.multi && AnyAutoDisabled(p.entries) ==>
        !AllAutoDisabled(p.entries) && !Opens(cipher, Join(KeysIn(Purged(p.entries)), '\n'))
    case Report(key, status, why, now) =>
      var i := FirstIndex(KeysIn(p.entries), key);
      p.multi && i >= 0 && row.channelStatus == status ==> SaysAlready(p.entries[i], status, why, now)
    case Append(input) =>
      if row.key == "" then input == "" || (Fields(input, '\n') != [] && !Opens(cipher, input))
      else if sealed then Fields(input, '\n') == [] && |p.entries| == 1
      else !Opens(cipher, AppendedKey(row.key, input))
    case _ => WritesStatus(p, a) && sealed ==> |p.entries| == 1
  }

  // ----- statuses -----

  /** Writing a row with the key string it was read with. */
  lemma Rewritten(cipher: Cipher, row: Row)
    requires row.isMultiKey && (row.key != "" ==> Keys(cipher, row) != [])
    ensures var w := Written(cipher, row, row.key);
            && Keys(cipher, w) == Keys(cipher, row)
            && w.size == (if Opens(cipher, row.key) then 1 else |Keys(cipher, row)|)
            && w == row.(key := w.key, size := w.size, status := Prune(row.status, w.size))
            && (w.key == "" <==> row.key == "")
  {
    PlaintextOfEncrypted(cipher, row.key);
    if Opens(cipher, row.key) {
      CiphertextKeys(cipher, row.key);
    }
    hide GetKeys;
  }

  /** Statuses survive being written exactly if the keys are counted correctly. */
  lemma RewrittenPool(cipher: Cipher, row: Row)
    requires row.isMultiKey && Aligned(cipher, row.(size := |Keys(cipher, row)|))
    ensures var w := Written(cipher, row, row.key);
            var ok := Opens(cipher, row.key) ==> |Keys(cipher, row)| == 1;
            && (Aligned(cipher, w) <==> ok)
            && (ok ==> PoolOf(cipher, w) == PoolOf(cipher, row))
  {
    assert Keys(cipher, row.(size := |Keys(cipher, row)|)) == Keys(cipher, row);
    Rewritten(cipher, row);
    var w := Written(cipher, row, row.key);
    hide GetKeys, Plaintext, Written;
    if Opens(cipher, row.key) ==> |Keys(cipher, row)| == 1 {
      PruneInRange(row.status, |Keys(cipher, row)|, w.size);
    }
  }

  lemma StatusesCarriedOut(cipher: Cipher, row: Row, a: Action)
    requires Aligned(cipher, row) && (a.DisableKey? || a.EnableKey? || a.EnableAll? || a.DisableAll?)
    ensures Tracks(cipher, row, a) <==> CarriedOut(cipher, row, a)
  {
    var changed := Changed(row, a);
    ChangedPool(cipher, row, a);
    hide GetKeys, Plaintext, EntriesOf;
    if WritesStatus(PoolOf(cipher, row), a) {
      RewrittenPool(cipher, changed);
    }
  }

  /** The row with the new statuses, before it is written. */
  function Changed(row: Row, a: Action): Row {
    match a
    case DisableKey(index) => if index.Some? then row.(status := row.status[index.value := MANUALLY_DISABLED]) else row
    case EnableKey(index) =>
      if index.None? then row
      else
        var i := index.value;
        row.(status := row.status - {i}, time := row.time - {i}, reason := row.reason - {i})
    case EnableAll => Filled(row, [])
    case DisableAll => row.(status := row.status + Disabling(row.status, row.size))
    case _ => row
  }

  /** What an action on statuses comes to, before the row is written. */
  predicate ChangesPool(cipher: Cipher, row: Row, a: Action) {
    var p, changed := PoolOf(cipher, row), Changed(row, a);
    if WritesStatus(p, a) then
      && Exec(cipher, row, a) == Written(cipher, changed, row.key) && changed.key == row.key
      && Aligned(cipher, changed) && PoolOf(cipher, changed) == Step(p, a)
    else Exec(cipher, row, a) == row && Step(p, a) == p
  }

  lemma ChangedPool(cipher: Cipher, row: Row, a: Action)
    requires Aligned(cipher, row) && (a.DisableKey? || a.EnableKey? || a.EnableAll? || a.DisableAll?)
    ensures ChangesPool(cipher, row, a)
  {
    hide ChangesPool;
    match a
    case DisableKey(index) => ChangedByDisabling(cipher, row, index);
    case EnableKey(index) => ChangedByEnabling(cipher, row, index);
    case EnableAll => ChangedByEnablingAll(cipher, row);
    case DisableAll => ChangedByDisablingAll(cipher, row);
  }

  lemma ChangedByDisabling(cipher: Cipher, row: Row, index: Option<int>)
    requires Aligned(cipher, row)
    ensures ChangesPool(cipher, row, DisableKey(index))
  {
    hide GetKeys, Plaintext, Written;
    assert |Entries(cipher, row)| == |Keys(cipher, row)|;
  }

  lemma ChangedByEnabling(cipher: Cipher, row: Row, index: Option<int>)
    requires Aligned(cipher, row)
    ensures ChangesPool(cipher, row, EnableKey(index))
  {
    hide GetKeys, Plaintext, Written;
    assert |Entries(cipher, row)| == |Keys(cipher, row)|;
  }

  lemma ChangedByEnablingAll(cipher: Cipher, row: Row)
    requires Aligned(cipher, row)
    ensures ChangesPool(cipher, row, EnableAll)
  {
    hide GetKeys, Plaintext, Written;
    NoEntries();
  }

  lemma ChangedByDisablingAll(cipher: Cipher, row: Row)
    requires Aligned(cipher, row)
    ensures ChangesPool(cipher, row, DisableAll)
  {
    hide GetKeys, Plaintext, Written;
    if row.isMultiKey {
      DisablingMeaning(cipher, row);
    }
  }

  lemma DisablingMeaning(cipher: Cipher, row: Row)
    requires Aligned(cipher, row) && row.isMultiKey
    ensures Disabling(row.status, row.size) == map[] <==> !AnyEnabled(Entries(cipher, row))
    ensures !AnyEnabled(Entries(cipher, row)) ==> Disabled(Entries(cipher, row)) == Entries(cipher, row)
  {
    hide GetKeys, Plaintext;
    var entries, more := Entries(cipher, row), Disabling(row.status, row.size);
    if i :| 0 <= i < |entries| && entries[i].status == ENABLED {
      assert i in more;
    }
    if more != map[] {
      var i :| i in more;
      assert entries[i].status == ENABLED;
    }
  }

  /** The action does what it is meant to do, and the metadata agrees afterwards. */
  predicate Tracks(cipher: Cipher, row: Row, a: Action) {
    var next := Exec(cipher, row, a);
    Aligned(cipher, next) && PoolOf(cipher, next) == Step(PoolOf(cipher, row), a)
  }

  // ----- deletions -----

  lemma {:induction false} PurgedKeys(entries: seq<Entry>, k: string)
    requires k in KeysIn(Purged(entries))
    ensures k in KeysIn(entries)
  {
    if entries != [] {
      var n := |entries|;
      var front := entries[..n - 1];
      assert entries == front + [entries[n - 1]];
      PurgedStep(entries, n - 1);
      assert entries[..n] == entries;
      if k in KeysIn(Purged(front)) {
        PurgedKeys(front, k);
        var i :| 0 <= i < |front| && front[i].key == k;
        assert KeysIn(entries)[i] == k;
      } else {
        assert KeysIn(entries)[n - 1] == k;
      }
    }
  }

  /** Purging leaves nothing exactly if every key was automatically disabled. */
  lemma {:induction false} PurgedToNothing(entries: seq<Entry>)
    ensures Purged(entries) == [] <==> AllAutoDisabled(entries)
    ensures !AnyAutoDisabled(Purged(entries))
  {
    if entries != [] {
      var n := |entries|;
      var front, last := entries[..n - 1], entries[n - 1];
      PurgedToNothing(front);
      assert entries == front + [last];
    }
  }

  /** A key string rewritten from some of its keys says what was kept, unless that is itself a ciphertext. */
  lemma Replaced(cipher: Cipher, row: Row, rest: seq<Entry>)
    requires row.isMultiKey && rest != [] && AreFields(KeysIn(rest), '\n')
    ensures var newKey := Join(KeysIn(rest), '\n');
            var w := Written(cipher, Filled(row, rest), newKey);
            && w.isMultiKey
            && (!Opens(cipher, newKey) ==> Aligned(cipher, w) && Entries(cipher, w) == rest)
            && (Opens(cipher, newKey) ==> Entries(cipher, w) != rest)
  {
    var keys := KeysIn(rest);
    var newKey := Join(keys, '\n');
    var w := Written(cipher, Filled(row, rest), newKey);
    KeysRoundTrip(keys);
    EntriesRoundTrip(rest);
    PruneInRange(StatusIn(rest), |rest|, |rest|);
    PlaintextOfEncrypted(cipher, newKey);
    hide GetKeys, StatusIn, TimeIn, ReasonIn;
    if Opens(cipher, newKey) {
      CiphertextKeys(cipher, newKey);
      KeysOfEntries(cipher, w);
      assert keys[0] == newKey;
    }
  }

  lemma KeysOfEntries(cipher: Cipher, row: Row)
    ensures KeysIn(Entries(cipher, row)) == Keys(cipher, row) && |Entries(cipher, row)| == |Keys(cipher, row)|
    ensures AreFields(Keys(cipher, row), '\n')
  {
    GetKeysMeaning(Plaintext(cipher, row.key));
  }

  lemma DeletionCarriedOut(cipher: Cipher, row: Row, index: Option<int>)
    requires Aligned(cipher, row)
    ensures Tracks(cipher, row, DeleteKey(index)) <==> CarriedOut(cipher, row, DeleteKey(index))
  {
    KeysOfEntries(cipher, row);
    var p := PoolOf(cipher, row);
    hide GetKeys, Plaintext, Written, EntriesOf;
    if p.Has(index) && |p.entries| > 1 {
      WithoutFields(p.entries, index.value);
      Replaced(cipher, row, Without(p.entries, index.value));
    } else if p.Has(index) {
      assert Without(p.entries, index.value) == [];
    }
  }

  lemma WithoutFields(entries: seq<Entry>, index: int)
    requires 0 <= index < |entries| && AreFields(KeysIn(entries), '\n')
    ensures AreFields(KeysIn(Without(entries, index)), '\n')
  {
    var rest := Without(entries, index);
    forall i | 0 <= i < |rest|
      ensures IsField(KeysIn(rest)[i], '\n')
    {
      var j := if i < index then i else i + 1;
      assert rest[i] == entries[j] && IsField(KeysIn(entries)[j], '\n');
    }
  }

  lemma PurgeCarriedOut(cipher: Cipher, row: Row)
    requires Aligned(cipher, row)
    ensures Tracks(cipher, row, DeleteDisabled) <==> CarriedOut(cipher, row, DeleteDisabled)
  {
    KeysOfEntries(cipher, row);
    var entries := Entries(cipher, row);
    PurgedToNothing(entries);
    if row.isMultiKey && AnyAutoDisabled(entries) {
      var rest := Purged(entries);
      if rest != [] {
        forall i | 0 <= i < |rest|
          ensures IsField(KeysIn(rest)[i], '\n')
        {
          PurgedKeys(entries, KeysIn(rest)[i]);
        }
        Replaced(cipher, row, rest);
        hide GetKeys, Plaintext, Written, Entries, Purged;
      } else {
        PurgeOfEverything(cipher, row);
        hide GetKeys, Plaintext, Written, Purged;
      }
    }
  }

  /** Deleting every key keeps them all, and enables them. */
  lemma PurgeOfEverything(cipher: Cipher, row: Row)
    requires Aligned(cipher, row) && row.isMultiKey && Keys(cipher, row) != [] && AllAutoDisabled(Entries(cipher, row))
    ensures var next := Exec(cipher, row, DeleteDisabled);
            && next.key == row.key && Entries(cipher, next) == Enabled(Entries(cipher, row))
            && next.size == |GetKeys(row.key)|
  {
    hide GetKeys, Plaintext, Purged, Written, StatusIn, TimeIn, ReasonIn;
    var entries := Entries(cipher, row);
    PurgedToNothing(entries);
    assert entries[0].status == AUTO_DISABLED;
    NoEntries();
    assert Join(KeysIn([]), '\n') == "";
    WrittenEmpty(cipher, Filled(row, []));
  }

  lemma WrittenEmpty(cipher: Cipher, row: Row)
    requires row.isMultiKey && row.status == map[]
    ensures Written(cipher, row, "") == row.(size := |GetKeys(row.key)|)
  {
    hide GetKeys;
    PruneInRange(row.status, 0, |GetKeys(row.key)|);
  }

  // ----- reports -----

  lemma MarkedPool(cipher: Cipher, row: Row, i: int, status: int, why: string, now: int)
    requires Aligned(cipher, row) && 0 <= i < |Keys(cipher, row)|
    ensures var marked := Marked(row, i, status, why, now);
            && Aligned(cipher, marked) && marked.isMultiKey == row.isMultiKey && Keys(cipher, marked) == Keys(cipher,
                row)
            && Entries(cipher, marked) == Reported(Entries(cipher, row), i, status, why, now)
  {
    hide GetKeys, Plaintext;
  }

  /** A new status of the channel changes nothing about its keys. */
  lemma ChannelStatusApart(cipher: Cipher, row: Row, status: int)
    ensures var changed := row.(channelStatus := status);
            Aligned(cipher, changed) == Aligned(cipher, row) && PoolOf(cipher, changed) == PoolOf(cipher, row)
  {
  }

  lemma ReportCarriedOut(cipher: Cipher, row: Row, key: string, status: int, why: string, now: int)
    requires Aligned(cipher, row)
    ensures var a := Report(key, status, why, now); Tracks(cipher, row, a) <==> CarriedOut(cipher, row, a)
  {
    hide GetKeys, Plaintext, FirstIndex, Keys, Entries, Aligned, Marked, AnyEnabled;
    KeysOfEntries(cipher, row);
    var i := FirstIndex(Keys(cipher, row), key);
    ChannelStatusApart(cipher, row, status);
    if row.isMultiKey && i >= 0 {
      MarkedPool(cipher, row, i, status, why, now);
      var marked := Marked(row, i, status, why, now);
      ChannelStatusApart(cipher, marked, AUTO_DISABLED);
      ChannelStatusApart(cipher, marked, ENABLED);
      ReportedSame(Entries(cipher, row), i, status, why, now);
    }
  }

  lemma ReportedSame(entries: seq<Entry>, i: int, status: int, why: string, now: int)
    requires 0 <= i < |entries|
    ensures Reported(entries, i, status, why, now) == entries <==> SaysAlready(entries[i], status, why, now)
  {
    var after := Reported(entries, i, status, why, now);
    assert after == entries <==> after[i] == entries[i];
  }

  // ----- appending -----

  lemma ExtendEntries(keys: seq<string>, more: seq<string>, row: Row)
    requires InRange(row.status, |keys|) && InRange(row.time, |keys|) && InRange(row.reason, |keys|)
    ensures EntriesOf(keys + more, row.status, row.time, row.reason)
         == EntriesOf(keys, row.status, row.time, row.reason) + FreshAll(more)
  {
  }

  /** A new key string for the same metadata, with the keys it had and some more. */
  lemma Extended(cipher: Cipher, row: Row, newKey: string, more: seq<string>)
    requires Aligned(cipher, row) && newKey != "" && GetKeys(newKey) == Keys(cipher, row) + more != []
    ensures var w := Written(cipher, Reconciled(row, GetKeys(Plaintext(cipher, newKey))), newKey);
            var entries := Entries(cipher, row) + FreshAll(more);
            && (!Opens(cipher, newKey) ==>
                  Aligned(cipher, w) && PoolOf(cipher, w) == Pool(row.isMultiKey || |entries| > 1, entries))
            && (Opens(cipher, newKey) ==> Entries(cipher, w) != entries)
  {
    var keys := Keys(cipher, row) + more;
    var w := Written(cipher, Reconciled(row, GetKeys(Plaintext(cipher, newKey))), newKey);
    PlaintextOfEncrypted(cipher, newKey);
    KeysOfEntries(cipher, row);
    hide GetKeys;
    if Opens(cipher, newKey) {
      CiphertextKeys(cipher, newKey);
      KeysOfEntries(cipher, w);
      assert keys[0] == newKey;
      assert KeysIn(Entries(cipher, row) + FreshAll(more)) == keys;
    } else {
      assert Keys(cipher, w) == keys;
      ExtendEntries(Keys(cipher, row), more, row);
      PruneInRange(row.status, |Keys(cipher, row)|, |keys|);
      hide EntriesOf;
    }
  }

  lemma AppendToNothing(cipher: Cipher, row: Row, input: string)
    requires Aligned(cipher, row) && row.key == ""
    ensures Tracks(cipher, row, Append(input)) <==> CarriedOut(cipher, row, Append(input))
  {
    GetKeysOfNothing();
    hide GetKeys, Fields, NewKeys;
    KeysOfEntries(cipher, row);
    GetKeysMeaning(input);
    if input == "" {
      PruneInRange(row.status, 0, 0);
    } else if Fields(input, '\n') == [] {
      PlaintextOfEncrypted(cipher, input);
      if Opens(cipher, input) {
        CiphertextKeys(cipher, input);
      }
    } else {
      hide Written, EntriesOf;
      Extended(cipher, row, input, Fields(input, '\n'));
    }
  }

  lemma AppendToPlain(cipher: Cipher, row: Row, input: string)
    requires Aligned(cipher, row) && row.key != "" && !Opens(cipher, row.key)
    ensures Tracks(cipher, row, Append(input)) <==> CarriedOut(cipher, row, Append(input))
  {
    hide GetKeys, NewKeys, Written, EntriesOf, AppendedKey;
    AppendedKeys(row.key, input);
    KeysOfEntries(cipher, row);
    GetKeysOfNothing();
    Extended(cipher, row, AppendedKey(row.key, input), NewKeys(Keys(cipher, row), input));
  }

  /** An append to a ciphertext takes it for a key. */
  lemma AppendToCiphertext(cipher: Cipher, row: Row, input: string)
    requires row.key != "" && Opens(cipher, row.key)
    ensures var more := NewKeys([row.key], input);
            var newKey := AppendedKey(row.key, input);
            if more == [] then newKey == row.key
            else newKey != "" && !Opens(cipher, newKey) && GetKeys(newKey) == [row.key] + more
  {
    hide GetKeys, NewKeys, Split, Clean, TrimChar;
    var more, newKey := NewKeys([row.key], input), AppendedKey(row.key, input);
    CiphertextKeys(cipher, row.key);
    CiphertextLines(cipher, row.key);
    AppendedKeys(row.key, input);
    assert [row.key] + [] == [row.key];
    if more != [] {
      GetKeysOfNothing();
      if Opens(cipher, newKey) {
        CiphertextKeys(cipher, newKey);
      }
    }
  }

  lemma CiphertextLines(cipher: Cipher, stored: string)
    requires Opens(cipher, stored)
    ensures Split(TrimChar(stored, '\n'), '\n') == [stored] && Clean([stored]) == [stored]
  {
    CiphertextIsLine(cipher, stored);
    NoNewline(stored);
    SplitOfSeparatorFree(stored, '\n');
    CleanOfFields([stored], '\n');
  }

  lemma NoNewline(s: string)
    requires '\n' !in s
    ensures TrimChar(s, '\n') == s
  {
  }

  /** An append to a ciphertext with new keys leaves the ciphertext in place of the keys it held. */
  lemma AppendLosesKeys(cipher: Cipher, row: Row, input: string)
    requires row.key != "" && Opens(cipher, row.key)
    ensures var more := NewKeys([row.key], input);
            Keys(cipher, Appended(cipher, row, input)) == if more == [] then Keys(cipher, row) else [row.key] + more
  {
    hide GetKeys, NewKeys, AppendedKey;
    AppendToCiphertext(cipher, row, input);
    PlaintextOfEncrypted(cipher, AppendedKey(row.key, input));
  }

  lemma AppendToSealed(cipher: Cipher, row: Row, input: string)
    requires Aligned(cipher, row) && row.key != "" && Opens(cipher, row.key)
    ensures Tracks(cipher, row, Append(input)) <==> CarriedOut(cipher, row, Append(input))
  {
    hide Aligned, Appended, GetKeys, NewKeys, Fields, Entries, AppendedKey;
    var keys := Keys(cipher, row);
    KeysOfEntries(cipher, row);
    if Fields(input, '\n') == [] {
      NothingNew(keys, input);
      NothingNew([row.key], input);
      AppendToCiphertext(cipher, row, input);
      AppendOfNothing(cipher, row, input);
      assert Entries(cipher, row) + FreshAll([]) == Entries(cipher, row);
    } else {
      AppendOfSomething(cipher, row, input);
    }
  }

  lemma NothingNew(keys: seq<string>, input: string)
    requires Fields(input, '\n') == []
    ensures NewKeys(keys, input) == []
  {
    NewKeysMeaning(keys, input);
    EmptyIfNoMembers(NewKeys(keys, input));
  }

  lemma AppendOfSomething(cipher: Cipher, row: Row, input: string)
    requires Aligned(cipher, row) && row.key != "" && Opens(cipher, row.key) && Fields(input, '\n') != []
    ensures Entries(cipher, Appended(cipher, row, input))
         != Entries(cipher, row) + FreshAll(Added(KeysIn(Entries(cipher, row)), input))
  {
    hide Appended, GetKeys, NewKeys, Fields, Entries, AppendedKey, KeysIn, Keys, FreshAll;
    var next := Appended(cipher, row, input);
    KeysOfEntries(cipher, row);
    KeysOfEntries(cipher, next);
    AppendLosesKeys(cipher, row, input);
    OtherKeys(cipher, row, input);
    KeysOfConcat(Entries(cipher, row), NewKeys(Keys(cipher, row), input));
  }

  lemma KeysOfConcat(entries: seq<Entry>, more: seq<string>)
    ensures KeysIn(entries + FreshAll(more)) == KeysIn(entries) + more
  {
  }

  /** The keys that an append to a ciphertext leaves are not those it is meant to lead to. */
  lemma OtherKeys(cipher: Cipher, row: Row, input: string)
    requires Keys(cipher, row) != [] && Opens(cipher, row.key) && Fields(input, '\n') != []
    ensures var keys, more := Keys(cipher, row), NewKeys([row.key], input);
            (if more == [] then keys else [row.key] + more) != keys + NewKeys(keys, input)
  {
    hide GetKeys, NewKeys, Fields;
    var keys, more := Keys(cipher, row), NewKeys([row.key], input);
    CiphertextKeys(cipher, row.key);
    NewKeysMeaning(keys, input);
    NewKeysMeaning([row.key], input);
    if more == [] {
      assert Fields(input, '\n')[0] in Fields(input, '\n');
      assert row.key in NewKeys(keys, input);
      assert |keys + NewKeys(keys, input)| > |keys|;
    } else {
      assert keys[0] in keys;
      assert ([row.key] + more)[0] == row.key && (keys + NewKeys(keys, input))[0] == keys[0];
    }
  }

  lemma AppendOfNothing(cipher: Cipher, row: Row, input: string)
    requires Aligned(cipher, row) && row.key != "" && Opens(cipher, row.key) && AppendedKey(row.key, input) == row.key
    ensures var next := Appended(cipher, row, input);
            && (Aligned(cipher, next) <==> |Keys(cipher, row)| == 1)
            && (|Keys(cipher, row)| == 1 ==> PoolOf(cipher, next) == PoolOf(cipher, row))
  {
    hide GetKeys, EntriesOf, AppendedKey, Plaintext, Written;
    var r := Reconciled(row, Keys(cipher, row));
    assert Keys(cipher, r) == Keys(cipher, row);
    if r.isMultiKey {
      RewrittenPool(cipher, r);
    } else {
      WrittenBack(cipher, row);
    }
  }

  lemma WrittenBack(cipher: Cipher, row: Row)
    requires !row.isMultiKey && Opens(cipher, row.key)
    ensures Written(cipher, row, row.key) == row
  {
    CiphertextIsLine(cipher, row.key);
  }

  // ----- main results -----

  /** One action does what it is meant to do exactly under the condition. */
  lemma TracksIffCarriedOut(cipher: Cipher, row: Row, a: Action)
    requires Aligned(cipher, row)
    ensures Tracks(cipher, row, a) <==> CarriedOut(cipher, row, a)
  {
    hide Tracks, CarriedOut;
    match a
    case DeleteKey(index) => DeletionCarriedOut(cipher, row, index);
    case DeleteDisabled => PurgeCarriedOut(cipher, row);
    case Report(key, status, why, now) =>
      ReportCarriedOut(cipher, row, key, status, why, now);
    case Append(input) =>
      if row.key == "" {
        AppendToNothing(cipher, row, input);
      } else if Opens(cipher, row.key) {
        AppendToSealed(cipher, row, input);
      } else {
        AppendToPlain(cipher, row, input);
      }
    case _ => StatusesCarriedOut(cipher, row, a);
  }

  /** After k actions of the run, the row describes the entries that the run is meant to have led to. */
  predicate InStep(cipher: Cipher, row: Row, actions: seq<Action>, k: nat)
    requires k <= |actions|
  {
    var now := ExecAll(cipher, row, actions[..k]);
    Aligned(cipher, now) && PoolOf(cipher, now) == Run(PoolOf(cipher, row), actions[..k])
  }

  predicate CarriedAt(cipher: Cipher, row: Row, actions: seq<Action>, k: nat)
    requires k < |actions|
  {
    CarriedOut(cipher, ExecAll(cipher, row, actions[..k]), actions[k])
  }

  lemma StepTracks(cipher: Cipher, row: Row, actions: seq<Action>, k: nat)
    requires k < |actions| && InStep(cipher, row, actions, k)
    ensures CarriedAt(cipher, row, actions, k) <==> InStep(cipher, row, actions, k + 1)
  {
    hide Aligned, PoolOf, Exec, Step, CarriedOut;
    var front := actions[..k + 1];
    assert front[..|front| - 1] == actions[..k] && front[|front| - 1] == actions[k];
    TracksIffCarriedOut(cipher, ExecAll(cipher, row, actions[..k]), actions[k]);
  }

  lemma {:induction false} CarriedSoFar(cipher: Cipher, row: Row, actions: seq<Action>, k: nat)
    requires Aligned(cipher, row) && k <= |actions|
    requires forall j :: 0 <= j < k ==> CarriedAt(cipher, row, actions, j)
    ensures InStep(cipher, row, actions, k)
  {
    hide CarriedAt;
    if k > 0 {
      hide InStep;
      CarriedSoFar(cipher, row, actions, k - 1);
      StepTracks(cipher, row, actions, k - 1);
    } else {
      assert actions[..0] == [];
    }
  }

  /** A run keeps metadata and keys in step all the way exactly if every action in it is carried out. */
  lemma RunTracksIffCarriedOut(cipher: Cipher, row: Row, actions: seq<Action>)
    requires Aligned(cipher, row)
    ensures (forall k :: 0 <= k <= |actions| ==> InStep(cipher, row, actions, k))
       <==> (forall k :: 0 <= k < |actions| ==> CarriedAt(cipher, row, actions, k))
  {
    hide CarriedAt, InStep;
    if forall k :: 0 <= k <= |actions| ==> InStep(cipher, row, actions, k) {
      forall k | 0 <= k < |actions|
        ensures CarriedAt(cipher, row, actions, k)
      {
        assert InStep(cipher, row, actions, k + 1);
        StepTracks(cipher, row, actions, k);
      }
    }
    if forall k :: 0 <= k < |actions| ==> CarriedAt(cipher, row, actions, k) {
      forall k | 0 <= k <= |actions|
        ensures InStep(cipher, row, actions, k)
      {
        CarriedSoFar(cipher, row, actions, k);
      }
    }
  }

  method PerformAll(c: Channel, actions: seq<Action>)
    modifies c
    ensures c.Stored() == ExecAll(c.cipher, old(c.Stored()), actions)
  {
    hide Exec;
    for i := 0 to |actions|
      invariant c.Stored() == ExecAll(c.cipher, old(c.Stored()), actions[..i])
    {
      assert actions[..i + 1][..i] == actions[..i];
      match actions[i]
      case DisableKey(index) => c.DisableKey(index);
      case EnableKey(index) => c.EnableKey(index);
      case EnableAll => c.EnableAllKeys();
      case DisableAll => c.DisableAllKeys();
      case DeleteKey(index) => c.DeleteKey(index);
      case DeleteDisabled => c.DeleteDisabledKeys();
      case Report(key, status, why, now) => c.ReportKey(key, status, why, now);
      case Append(input) => c.AppendKeys(input);
    }
    assert actions[..|actions|] == actions;
  }

  // ----- what goes wrong -----

  /** Writing statuses encrypts a key string that was not encrypted; the action itself is carried out. */
  lemma StatusesSealKey(cipher: Cipher, row: Row, a: Action)
    requires Aligned(cipher, row) && row.key != "" && !(PREFIX <= row.key) && WritesStatus(PoolOf(cipher, row), a)
    ensures Opens(cipher, Exec(cipher, row, a).key) && Tracks(cipher, row, a)
  {
    hide GetKeys, Plaintext, EntriesOf;
    TracksIffCarriedOut(cipher, row, a);
    PlaintextOfEncrypted(cipher, row.key);
    ChangedPool(cipher, row, a);
    if Opens(cipher, row.key) {
      CiphertextIsLine(cipher, row.key);
    }
  }

  /** Writing statuses of several keys over a ciphertext counts one key, and forgets every status but the first. */
  lemma StatusesForgotten(cipher: Cipher, row: Row, a: Action)
    requires Aligned(cipher, row) && Opens(cipher, row.key) && WritesStatus(PoolOf(cipher, row), a)
    ensures var next := Exec(cipher, row, a);
            && next.isMultiKey && next.size == 1 && Keys(cipher, next) == Keys(cipher, row)
            && forall i :: 1 <= i < |Keys(cipher, row)| ==> Entries(cipher, next)[i].status == ENABLED
  {
    hide GetKeys, Plaintext;
    ChangedPool(cipher, row, a);
    Rewritten(cipher, Changed(row, a));
  }

  /**
   Two keys of a pool stored without encryption, disabled one after the other: the first is
   disabled by the first action, and with the second action both are enabled again.
   */
  lemma SecondDisablingEnables(cipher: Cipher, row: Row, i: int, j: int)
    requires Aligned(cipher, row) && row.isMultiKey && row.key != "" && !(PREFIX <= row.key)
    requires 0 < i < row.size && 0 < j < row.size
    ensures var first := Exec(cipher, row, DisableKey(Some(i)));
            var second := Exec(cipher, first, DisableKey(Some(j)));
            && first.size == row.size && Entries(cipher, first)[i].status == MANUALLY_DISABLED
            && second.size == 1 && |Entries(cipher, second)| == row.size
            && Entries(cipher, second)[i].status == ENABLED && Entries(cipher, second)[j].status == ENABLED
  {
    hide GetKeys, Plaintext, EntriesOf, Exec;
    KeysOfEntries(cipher, row);
    StatusesSealKey(cipher, row, DisableKey(Some(i)));
    var first := Exec(cipher, row, DisableKey(Some(i)));
    KeysOfEntries(cipher, first);
    StatusesForgotten(cipher, first, DisableKey(Some(j)));
    KeysOfEntries(cipher, Exec(cipher, first, DisableKey(Some(j))));
  }

  /** What an append that is carried out brings: each new key once, enabled, behind entries that stay as they are. */
  lemma AppendMeaning(cipher: Cipher, row: Row, input: string)
    requires Aligned(cipher, row) && row.key != "" && CarriedOut(cipher, row, Append(input))
    ensures var more := NewKeys(Keys(cipher, row), input);
            var next := Exec(cipher, row, Append(input));
            && Aligned(cipher, next) && Entries(cipher, next) == Entries(cipher, row) + FreshAll(more)
            && Distinct(more) && AreFields(more, '\n')
            && forall k :: k in more <==> k in Fields(input, '\n') && k !in Keys(cipher, row)
  {
    hide GetKeys, NewKeys, Fields, Exec, EntriesOf, CarriedOut;
    KeysOfEntries(cipher, row);
    TracksIffCarriedOut(cipher, row, Append(input));
    NewKeysMeaning(Keys(cipher, row), input);
  }

  /**
   Appending the same input again is meant to change nothing.  After an append that had a key
   string without encryption, the second one is carried out only if the input was blank and
   there is a single key; with any key in the input it puts the ciphertext in place of the keys.
   */
  lemma SecondAppend(cipher: Cipher, row: Row, input: string)
    requires Aligned(cipher, row) && row.key != "" && !Opens(cipher, row.key)
    requires !(PREFIX <= AppendedKey(row.key, input))
    ensures var first := Exec(cipher, row, Append(input));
            && Tracks(cipher, row, Append(input))
            && Step(PoolOf(cipher, first), Append(input)) == PoolOf(cipher, first)
            && (Tracks(cipher, first, Append(input)) <==> Fields(input, '\n') == [] && |Keys(cipher, row)| == 1)
            && (NewKeys([first.key], input) != [] ==>
                  Keys(cipher, Exec(cipher, first, Append(input))) == [first.key] + NewKeys([first.key], input))
  {
    hide GetKeys, NewKeys, Fields, Exec, Step, EntriesOf, AppendedKey, CarriedOut, Aligned, Appended, Tracks;
    var first := Exec(cipher, row, Append(input));
    SealedByAppend(cipher, row, input);
    TracksIffCarriedOut(cipher, row, Append(input));
    TracksMeans(cipher, row, Append(input));
    TracksIffCarriedOut(cipher, first, Append(input));
    AppendIsIdempotent(PoolOf(cipher, row), input);
    KeysOfEntries(cipher, first);
    AppendedOnce(cipher, row, input);
    SealedAppend(cipher, first, input);
    AppendLosesKeys(cipher, first, input);
    ExecAppend(cipher, first, input);
  }

  lemma TracksMeans(cipher: Cipher, row: Row, a: Action)
    requires Tracks(cipher, row, a)
    ensures var next := Exec(cipher, row, a);
            Aligned(cipher, next) && PoolOf(cipher, next) == Step(PoolOf(cipher, row), a)
  {
  }

  lemma SealedAppend(cipher: Cipher, row: Row, input: string)
    requires row.key != "" && Opens(cipher, row.key)
    ensures CarriedOut(cipher, row, Append(input)) <==> Fields(input, '\n') == [] && |Entries(cipher, row)| == 1
  {
  }

  lemma ExecAppend(cipher: Cipher, row: Row, input: string)
    ensures Exec(cipher, row, Append(input)) == Appended(cipher, row, input)
  {
  }

  lemma AppendedOnce(cipher: Cipher, row: Row, input: string)
    requires Aligned(cipher, row) && row.key != "" && CarriedOut(cipher, row, Append(input))
    ensures var next := Exec(cipher, row, Append(input));
            |Keys(cipher, next)| >= |Keys(cipher, row)| && (Fields(input, '\n') == [] ==>
                |Keys(cipher, next)| == |Keys(cipher, row)|)
  {
    hide GetKeys, NewKeys, Fields, Exec, EntriesOf, CarriedOut;
    AppendMeaning(cipher, row, input);
    KeysOfEntries(cipher, row);
    KeysOfEntries(cipher, Exec(cipher, row, Append(input)));
    if Fields(input, '\n') == [] {
      NothingNew(Keys(cipher, row), input);
    }
  }

  lemma SealedByAppend(cipher: Cipher, row: Row, input: string)
    requires Aligned(cipher, row) && row.key != "" && !Opens(cipher, row.key)
    requires !(PREFIX <= AppendedKey(row.key, input))
    ensures CarriedOut(cipher, row, Append(input))
    ensures var first := Exec(cipher, row, Append(input)); first.key != "" && Opens(cipher, first.key)
  {
    hide GetKeys, NewKeys, AppendedKey, EntriesOf;
    var newKey := AppendedKey(row.key, input);
    AppendedKeys(row.key, input);
    GetKeysOfNothing();
    PlaintextOfEncrypted(cipher, newKey);
    if Opens(cipher, newKey) {
      CiphertextIsLine(cipher, newKey);
    }
  }

  /** The intended append is idempotent. */
  lemma AppendIsIdempotent(p: Pool, input: string)
    ensures Step(Step(p, Append(input)), Append(input)) == Step(p, Append(input))
  {
    hide NewKeys, Fields;
    var p1 := Step(p, Append(input));
    var keys := KeysIn(p.entries);
    var more := Added(keys, input);
    assert KeysIn(p1.entries) == keys + more;
    NewKeysMeaning(keys, input);
    NewKeysMeaning(keys + more, input);
    if keys + more != [] {
      EmptyIfNoMembers(NewKeys(keys + more, input));
    }
  }
}
