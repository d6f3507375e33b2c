/**
 Runs on channels with ordinary keys, none of which looks like a ciphertext.  For these the
 exact condition of a run needs no stored strings: it can be read off the intended entries and
 off whether the key string has been written before.
 */
module OrdinaryKeys {
  import opened Basics
  import opened Text
  import opened ModelNames
  import opened KeyCipher
  import opened MultiKey
  import opened MultiKeyRuns

  // ----- strings without the prefix -----

  predicate Ordinary(keys: seq<string>) {
    forall i :: 0 <= i < |keys| ==> !(PREFIX <= keys[i])
  }

  predicate OrdinaryAction(a: Action) {
    a.Append? ==> Ordinary(Fields(a.input, '\n'))
  }

  lemma {:induction false} SplitHead(s: string, sep: char, q: string)
    requires q <= s && sep !in q
    ensures q <= Split(s, sep)[0]
    decreases |q|
  {
    if q != "" {
      SplitHead(s[1..], sep, q[1..]);
      assert q == [q[0]] + q[1..] && s[0] == q[0] && q[0] in q;
    }
  }

  lemma {:induction false} TrimRightKeeps(s: string, q: string)
    requires q <= s && q != "" && !IsSpace(q[|q| - 1])
    ensures q <= TrimRight(s)
  {
    if s != q && IsSpace(s[|s| - 1]) {
      TrimRightKeeps(s[..|s| - 1], q);
    }
  }

  /** A string with the prefix has a first field with the prefix. */
  lemma PrefixedField(s: string)
    requires PREFIX <= s
    ensures GetKeys(s) != [] && PREFIX <= GetKeys(s)[0]
  {
    GetKeysMeaning(s);
    var parts := Split(s, '\n');
    SplitHead(s, '\n', PREFIX);
    assert !IsSpace(PREFIX[0]) && !IsSpace(PREFIX[|PREFIX| - 1]);
    assert TrimLeft(parts[0]) == parts[0];
    TrimRightKeeps(parts[0], PREFIX);
    CleanConcat([parts[0]], parts[1..]);
    assert [parts[0]] + parts[1..] == parts;
    CleanOne(parts[0]);
  }

  lemma CleanOne(part: string)
    requires TrimSpace(part) != ""
    ensures Clean([part]) == [TrimSpace(part)]
  {
    hide TrimSpace;
    assert [part][..0] == [];
  }

  /** A string whose keys are ordinary has no prefix and is no ciphertext. */
  lemma OrdinaryString(cipher: Cipher, s: string)
    requires Ordinary(GetKeys(s))
    ensures !(PREFIX <= s) && !Opens(cipher, s)
  {
    hide GetKeys;
    if PREFIX <= s {
      PrefixedField(s);
    }
    if Opens(cipher, s) {
      CiphertextIsLine(cipher, s);
    }
  }

  // ----- the condition in terms of the intended entries -----

  /** The action writes the key string of a channel that has keys. */
  predicate Writes(p: Pool, a: Action) {
    && Step(p, a).entries != []
    && match a
       case DeleteKey(index) => p.Has(index) && |p.entries| > 1
       case DeleteDisabled => p.multi && AnyAutoDisabled(p.entries)
       case Report(_, _, _, _) => false
       case Append(input) => true
       case _ => WritesStatus(p, a)
  }

  /** The condition, given whether the key string has been written before. */
  predicate Allowed(written: bool, p: Pool, channelStatus: int, a: Action) {
    match a
    case DeleteKey(_) => true
    case DeleteDisabled => p.multi && AnyAutoDisabled(p.entries) ==> !AllAutoDisabled(p.entries)
    case Report(key, status, why, now) =>
      var i := FirstIndex(KeysIn(p.entries), key);
      p.multi && i >= 0 && channelStatus == status ==> SaysAlready(p.entries[i], status, why, now)
    case Append(input) =>
      if p.entries == [] then input == "" || Fields(input, '\n') != []
      else written ==> Fields(input, '\n') == [] && |p.entries| == 1
    case _ => WritesStatus(p, a) && written ==> |p.entries| == 1
  }

  /** Ordinary keys, and a key string that is a ciphertext exactly if it has been written. */
  predicate InForm(cipher: Cipher, row: Row, written: bool) {
    && Aligned(cipher, row) && Ordinary(Keys(cipher, row))
    && (written ==> Opens(cipher, row.key))
    && (!written ==> !(PREFIX <= row.key))
  }

  lemma FormOpens(cipher: Cipher, row: Row, written: bool)
    requires InForm(cipher, row, written)
    ensures Opens(cipher, row.key) <==> written
    ensures row.key == "" <==> Keys(cipher, row) == []
  {
    GetKeysOfNothing();
    if Opens(cipher, row.key) {
      CiphertextIsLine(cipher, row.key);
    }
  }

  lemma OrdinarySubset(keys: seq<string>, more: seq<string>)
    requires Ordinary(more) && forall k :: k in keys ==> k in more
    ensures Ordinary(keys)
  {
    forall i | 0 <= i < |keys|
      ensures !(PREFIX <= keys[i])
    {
      assert keys[i] in keys;
      var j :| 0 <= j < |more| && more[j] == keys[i];
    }
  }

  lemma OrdinaryConcat(a: seq<string>, b: seq<string>)
    requires Ordinary(a) && Ordinary(b)
    ensures Ordinary(a + b)
  {
  }

  /** The keys of some of the entries, joined, are ordinary too. */
  lemma OrdinaryJoined(cipher: Cipher, row: Row, rest: seq<Entry>)
    requires Ordinary(Keys(cipher, row)) && forall k :: k in KeysIn(rest) ==> k in Keys(cipher, row)
    ensures Ordinary(KeysIn(rest)) && !Opens(cipher, Join(KeysIn(rest), '\n')) && !(PREFIX <= Join(KeysIn(rest), '\n'))
  {
    hide GetKeys, KeysIn;
    KeysOfEntries(cipher, row);
    var keys := KeysIn(rest);
    OrdinarySubset(keys, Keys(cipher, row));
    forall i | 0 <= i < |keys|
      ensures IsField(keys[i], '\n')
    {
      assert keys[i] in keys;
      var j :| 0 <= j < |Keys(cipher, row)| && Keys(cipher, row)[j] == keys[i];
    }
    KeysRoundTrip(keys);
    OrdinaryString(cipher, Join(keys, '\n'));
  }

  lemma WithoutKeys(entries: seq<Entry>, index: int)
    requires 0 <= index < |entries|
    ensures forall k :: k in KeysIn(Without(entries, index)) ==> k in KeysIn(entries)
  {
    var rest := Without(entries, index);
    forall k | k in KeysIn(rest)
      ensures k in KeysIn(entries)
    {
      var i :| 0 <= i < |rest| && rest[i].key == k;
      var j := if i < index then i else i + 1;
      assert KeysIn(entries)[j] == k;
    }
  }

  lemma PurgedSubset(entries: seq<Entry>)
    ensures forall k :: k in KeysIn(Purged(entries)) ==> k in KeysIn(entries)
  {
    forall k | k in KeysIn(Purged(entries))
      ensures k in KeysIn(entries)
    {
      PurgedKeys(entries, k);
    }
  }

  lemma OrdinaryNewKeys(keys: seq<string>, input: string)
    requires Ordinary(Fields(input, '\n'))
    ensures Ordinary(NewKeys(keys, input))
  {
    hide NewKeys, Fields;
    NewKeysMeaning(keys, input);
    OrdinarySubset(NewKeys(keys, input), Fields(input, '\n'));
  }

  /** An append to a key string that is no ciphertext makes none. */
  lemma OrdinaryAppended(cipher: Cipher, row: Row, input: string)
    requires row.key != "" && !Opens(cipher, row.key) && Ordinary(Keys(cipher, row)) && Ordinary(Fields(input, '\n'))
    ensures var newKey := AppendedKey(row.key, input); !Opens(cipher, newKey) && !(PREFIX <= newKey)
  {
    hide GetKeys, NewKeys, Fields, AppendedKey;
    AppendedKeys(row.key, input);
    OrdinaryNewKeys(Keys(cipher, row), input);
    OrdinaryConcat(Keys(cipher, row), NewKeys(Keys(cipher, row), input));
    OrdinaryString(cipher, AppendedKey(row.key, input));
  }

  lemma OrdinaryInput(cipher: Cipher, input: string)
    requires Ordinary(Fields(input, '\n'))
    ensures !Opens(cipher, input) && !(PREFIX <= input)
  {
    hide GetKeys;
    GetKeysMeaning(input);
    OrdinaryString(cipher, input);
  }

  /** On ordinary keys the exact condition is the one in terms of entries. */
  lemma CarriedOutIffAllowed(cipher: Cipher, row: Row, written: bool, a: Action)
    requires InForm(cipher, row, written) && OrdinaryAction(a)
    ensures CarriedOut(cipher, row, a) <==> Allowed(written, PoolOf(cipher, row), row.channelStatus, a)
  {
    hide GetKeys, Fields, NewKeys, AppendedKey, EntriesOf, Purged, Aligned, KeysIn, Opens, Plaintext;
    FormOpens(cipher, row, written);
    KeysOfEntries(cipher, row);
    var entries := Entries(cipher, row);
    match a
    case DeleteKey(index) =>
      if PoolOf(cipher, row).Has(index) {
        WithoutKeys(entries, index.value);
        OrdinaryJoined(cipher, row, Without(entries, index.value));
      }
    case DeleteDisabled =>
      PurgedSubset(entries);
      OrdinaryJoined(cipher, row, Purged(entries));
    case Append(input) =>
      OrdinaryInput(cipher, input);
      if row.key != "" && !written {
        OrdinaryAppended(cipher, row, input);
      }
    case _ =>
  }

  // ----- what an action leaves -----

  /** The status of the channel itself, in terms of the intended entries. */
  function StatusAfter(p: Pool, channelStatus: int, a: Action): int {
    match a
    case Report(key, status, why, now) =>
      var i := FirstIndex(KeysIn(p.entries), key);
      if channelStatus == status then channelStatus
      else if !p.multi || p.entries == [] || (i < 0 && key == "") then status
      else if i < 0 then channelStatus
      else if !AnyEnabled(Step(p, a).entries) then AUTO_DISABLED
      else if status == ENABLED then ENABLED
      else channelStatus
    case _ => channelStatus
  }

  lemma StatusFollows(cipher: Cipher, row: Row, a: Action)
    requires Aligned(cipher, row)
    ensures Exec(cipher, row, a).channelStatus == StatusAfter(PoolOf(cipher, row), row.channelStatus, a)
  {
    hide GetKeys, Plaintext, EntriesOf, Aligned, FirstIndex, AppendedKey, Purged, AnyEnabled, KeysIn;
    if a.Report? {
      KeysOfEntries(cipher, row);
      var i := FirstIndex(Keys(cipher, row), a.key);
      if i >= 0 {
        MarkedPool(cipher, row, i, a.status, a.why, a.now);
      }
    }
  }

  /** The keys that are meant to be there after the action are ordinary again. */
  lemma StepStaysOrdinary(p: Pool, a: Action)
    requires Ordinary(KeysIn(p.entries)) && OrdinaryAction(a)
    ensures Ordinary(KeysIn(Step(p, a).entries))
  {
    hide Fields, NewKeys, Purged, FirstIndex;
    match a
    case DeleteKey(index) =>
      if p.Has(index) {
        WithoutKeys(p.entries, index.value);
        OrdinarySubset(KeysIn(Without(p.entries, index.value)), KeysIn(p.entries));
      }
    case DeleteDisabled =>
      PurgedSubset(p.entries);
      OrdinarySubset(KeysIn(Purged(p.entries)), KeysIn(p.entries));
    case Append(input) =>
      var keys := KeysIn(p.entries);
      OrdinaryNewKeys(keys, input);
      KeysOfConcat(p.entries, Added(keys, input));
      OrdinaryConcat(keys, Added(keys, input));
    case _ =>
  }

  /** The string that the action hands over to be written. */
  function HandedOver(cipher: Cipher, row: Row, a: Action): string {
    var entries := Entries(cipher, row);
    match a
    case DeleteKey(index) => if index.Some? then Join(KeysIn(Dropped(entries, index.value)), '\n') else ""
    case DeleteDisabled => Join(KeysIn(Purged(entries)), '\n')
    case Append(input) => AppendedKey(row.key, input)
    case _ => row.key
  }

  /** A write encrypts what is handed over, and an action that does not write leaves the key string alone. */
  lemma KeyAfter(cipher: Cipher, row: Row, a: Action)
    requires Aligned(cipher, row) && Tracks(cipher, row, a)
    ensures var p := PoolOf(cipher, row);
            Exec(cipher, row, a).key == if Writes(p, a) then Encrypted(cipher, HandedOver(cipher, row, a)) else row.key
  {
    hide GetKeys, EntriesOf, FirstIndex, AppendedKey, KeysIn, Opens, Tracks, Purged;
    KeysOfEntries(cipher, row);
    TracksMeans(cipher, row, a);
    var entries := Entries(cipher, row);
    match a
    case DeleteKey(index) =>
      if PoolOf(cipher, row).Has(index) && |entries| > 1 {
        WithoutKeys(entries, index.value);
        JoinedNotEmpty(cipher, row, Without(entries, index.value));
      }
    case DeleteDisabled =>
      if Purged(entries) != [] {
        PurgedSubset(entries);
        JoinedNotEmpty(cipher, row, Purged(entries));
      } else {
        NoEntries();
      }
    case Report(_, _, _, _) =>
    case Append(input) => AppendWrites(cipher, row, input);
    case _ => StatusWrites(cipher, row, a);
  }

  lemma StatusWrites(cipher: Cipher, row: Row, a: Action)
    requires Aligned(cipher, row) && (a.DisableKey? || a.EnableKey? || a.EnableAll? || a.DisableAll?)
    ensures Exec(cipher, row, a).key == if Writes(PoolOf(cipher, row), a) then Encrypted(cipher, row.key) else row.key
  {
    hide GetKeys, EntriesOf, Exec, Changed, Step, Opens;
    KeysOfEntries(cipher, row);
    ChangedPool(cipher, row, a);
    SameNumber(PoolOf(cipher, row), a);
    GetKeysOfNothing();
  }

  lemma SameNumber(p: Pool, a: Action)
    requires a.DisableKey? || a.EnableKey? || a.EnableAll? || a.DisableAll?
    ensures |Step(p, a).entries| == |p.entries|
  {
  }

  lemma AppendWrites(cipher: Cipher, row: Row, input: string)
    requires Aligned(cipher, row) && Tracks(cipher, row, Append(input))
    ensures Appended(cipher, row, input).key ==
      if Step(PoolOf(cipher, row), Append(input)).entries != [] then Encrypted(cipher, AppendedKey(row.key,
          input)) else row.key
  {
    hide GetKeys, EntriesOf, Fields, NewKeys, KeysIn, Opens;
    KeysOfEntries(cipher, row);
    KeysOfEntries(cipher, Appended(cipher, row, input));
    GetKeysOfNothing();
    GetKeysMeaning("");
    if row.key != "" {
      if Opens(cipher, row.key) {
        AppendToCiphertext(cipher, row, input);
      } else {
        PlainKeys(cipher, row);
        AppendedKeys(row.key, input);
      }
    }
  }

  lemma PlainKeys(cipher: Cipher, row: Row)
    requires !Opens(cipher, row.key)
    ensures Keys(cipher, row) == GetKeys(row.key)
  {
  }

  /** An action that is carried out leaves the channel in form, written if it was or if the action writes. */
  lemma FormKept(cipher: Cipher, row: Row, written: bool, a: Action)
    requires InForm(cipher, row, written) && OrdinaryAction(a) && CarriedOut(cipher, row, a)
    ensures InForm(cipher, Exec(cipher, row, a), written || Writes(PoolOf(cipher, row), a))
  {
    hide GetKeys, EntriesOf, Fields, KeysIn, CarriedOut, Aligned, Exec, Writes, HandedOver, Opens, Step;
    var p, next := PoolOf(cipher, row), Exec(cipher, row, a);
    TracksIffCarriedOut(cipher, row, a);
    TracksMeans(cipher, row, a);
    KeysOfEntries(cipher, row);
    KeysOfEntries(cipher, next);
    StepStaysOrdinary(p, a);
    KeyAfter(cipher, row, a);
    if Writes(p, a) {
      HandedOverForm(cipher, row, written, a);
      PlaintextOfEncrypted(cipher, HandedOver(cipher, row, a));
    }
  }

  /** What is handed over is a ciphertext that stays one, or a string that becomes one. */
  lemma HandedOverForm(cipher: Cipher, row: Row, written: bool, a: Action)
    requires InForm(cipher, row, written) && OrdinaryAction(a) && CarriedOut(cipher, row, a)
    requires Writes(PoolOf(cipher, row), a)
    ensures Opens(cipher, Encrypted(cipher, HandedOver(cipher, row, a)))
  {
    hide GetKeys, EntriesOf, Fields, NewKeys, KeysIn, Purged, Opens;
    FormOpens(cipher, row, written);
    KeysOfEntries(cipher, row);
    var entries, handed := Entries(cipher, row), HandedOver(cipher, row, a);
    PlaintextOfEncrypted(cipher, handed);
    match a
    case DeleteKey(index) =>
      WithoutKeys(entries, index.value);
      OrdinaryJoined(cipher, row, Without(entries, index.value));
      JoinedNotEmpty(cipher, row, Without(entries, index.value));
    case DeleteDisabled =>
      PurgedSubset(entries);
      OrdinaryJoined(cipher, row, Purged(entries));
      JoinedNotEmpty(cipher, row, Purged(entries));
    case Append(input) => AppendedForm(cipher, row, written, input);
    case _ => OwnForm(cipher, row, written);
  }

  lemma OwnForm(cipher: Cipher, row: Row, written: bool)
    requires InForm(cipher, row, written) && row.key != ""
    ensures Opens(cipher, Encrypted(cipher, row.key))
  {
    PlaintextOfEncrypted(cipher, row.key);
    if written {
      CiphertextIsLine(cipher, row.key);
    }
  }

  lemma JoinedNotEmpty(cipher: Cipher, row: Row, rest: seq<Entry>)
    requires rest != [] && forall k :: k in KeysIn(rest) ==> k in Keys(cipher, row)
    ensures Join(KeysIn(rest), '\n') != ""
  {
    KeysOfEntries(cipher, row);
    hide GetKeys;
    var keys := KeysIn(rest);
    forall i | 0 <= i < |keys|
      ensures IsField(keys[i], '\n')
    {
      assert keys[i] in keys;
      var j :| 0 <= j < |Keys(cipher, row)| && Keys(cipher, row)[j] == keys[i];
    }
    KeysRoundTrip(keys);
  }

  lemma AppendedForm(cipher: Cipher, row: Row, written: bool, input: string)
    requires InForm(cipher, row, written) && OrdinaryAction(Append(input)) && CarriedOut(cipher, row, Append(input))
    requires Step(PoolOf(cipher, row), Append(input)).entries != []
    ensures Opens(cipher, Encrypted(cipher, AppendedKey(row.key, input)))
  {
    hide GetKeys, EntriesOf, Fields, NewKeys, KeysIn, Opens;
    FormOpens(cipher, row, written);
    KeysOfEntries(cipher, row);
    GetKeysMeaning("");
    GetKeysOfNothing();
    var newKey := AppendedKey(row.key, input);
    PlaintextOfEncrypted(cipher, newKey);
    if row.key == "" {
      OrdinaryInput(cipher, input);
    } else if written {
      NothingNew([row.key], input);
      AppendToCiphertext(cipher, row, input);
      OwnForm(cipher, row, written);
    } else {
      OrdinaryAppended(cipher, row, input);
      PlainKeys(cipher, row);
      AppendedKeys(row.key, input);
    }
  }

  // ----- whole runs -----

  function StatusRun(p: Pool, channelStatus: int, actions: seq<Action>): int {
    if actions == [] then channelStatus
    else
      var n := |actions| - 1;
      StatusAfter(Run(p, actions[..n]), StatusRun(p, channelStatus, actions[..n]), actions[n])
  }

  predicate WrittenBefore(p: Pool, actions: seq<Action>, k: nat)
    requires k <= |actions|
  {
    exists j :: 0 <= j < k && Writes(Run(p, actions[..j]), actions[j])
  }

  /** The k-th action is allowed where the run is meant to be by then. */
  predicate AllowedAt(p: Pool, channelStatus: int, actions: seq<Action>, k: nat)
    requires k < |actions|
  {
    Allowed(WrittenBefore(p, actions, k), Run(p, actions[..k]), StatusRun(p, channelStatus, actions[..k]), actions[k])
  }

  predicate InFormAt(cipher: Cipher, row: Row, actions: seq<Action>, k: nat)
    requires k <= |actions|
  {
    var now, p := ExecAll(cipher, row, actions[..k]), PoolOf(cipher, row);
    && InForm(cipher, now, WrittenBefore(p, actions, k)) && PoolOf(cipher, now) == Run(p, actions[..k])
    && now.channelStatus == StatusRun(p, row.channelStatus, actions[..k])
  }

  lemma OneMore(cipher: Cipher, row: Row, actions: seq<Action>, k: nat)
    requires k < |actions| && OrdinaryAction(actions[k]) && InFormAt(cipher, row, actions, k)
    ensures CarriedAt(cipher, row, actions, k) <==> AllowedAt(PoolOf(cipher, row), row.channelStatus, actions, k)
    ensures CarriedAt(cipher, row, actions, k) ==> InFormAt(cipher, row, actions, k + 1)
  {
    hide InForm, PoolOf, Exec, Step, Allowed, CarriedOut, Writes, OrdinaryAction, Tracks;
    var p, now, a := PoolOf(cipher, row), ExecAll(cipher, row, actions[..k]), actions[k];
    var written := WrittenBefore(p, actions, k);
    CarriedOutIffAllowed(cipher, now, written, a);
    var front := actions[..k + 1];
    assert front[..|front| - 1] == actions[..k] && front[|front| - 1] == a;
    if CarriedOut(cipher, now, a) {
      FormKept(cipher, now, written, a);
      FormAligned(cipher, now, written);
      TracksIffCarriedOut(cipher, now, a);
      TracksMeans(cipher, now, a);
      StatusFollows(cipher, now, a);
      WrittenOneMore(p, actions, k);
    }
  }

  lemma FormAligned(cipher: Cipher, row: Row, written: bool)
    requires InForm(cipher, row, written)
    ensures Aligned(cipher, row)
  {
  }

  lemma WrittenOneMore(p: Pool, actions: seq<Action>, k: nat)
    requires k < |actions|
    ensures WrittenBefore(p, actions, k + 1) <==> WrittenBefore(p, actions, k) || Writes(Run(p, actions[..k]),
          actions[k])
  {
    hide Writes, Run;
  }

  lemma {:induction false} AllowedSoFar(cipher: Cipher, row: Row, actions: seq<Action>, k: nat)
    requires InForm(cipher, row, false) && k <= |actions| && forall j :: 0 <= j < k ==> OrdinaryAction(actions[j])
    requires forall j :: 0 <= j < k ==> AllowedAt(PoolOf(cipher, row), row.channelStatus, actions, j)
    ensures InFormAt(cipher, row, actions, k)
  {
    hide InForm, AllowedAt, OrdinaryAction;
    if k > 0 {
      hide InFormAt;
      AllowedSoFar(cipher, row, actions, k - 1);
      OneMore(cipher, row, actions, k - 1);
    } else {
      assert actions[..0] == [];
    }
  }

  lemma {:induction false} FormSoFar(cipher: Cipher, row: Row, actions: seq<Action>, k: nat)
    requires InForm(cipher, row, false) && k <= |actions| && forall j :: 0 <= j < k ==> OrdinaryAction(actions[j])
    requires forall j :: 0 <= j < k ==> CarriedAt(cipher, row, actions, j)
    ensures InFormAt(cipher, row, actions, k)
  {
    hide InForm, AllowedAt, OrdinaryAction, CarriedAt;
    if k > 0 {
      hide InFormAt;
      FormSoFar(cipher, row, actions, k - 1);
      OneMore(cipher, row, actions, k - 1);
    } else {
      assert actions[..0] == [];
    }
  }

  /**
   On a channel with ordinary keys that is not encrypted yet, a run keeps metadata and keys in
   step exactly if, in terms of the intended entries: every action on statuses and every append
   comes before any other write or finds a single key, no deletion takes everything, and no
   report is suppressed by the channel's own status.
   */
  lemma OrdinaryRunTracksIff(cipher: Cipher, row: Row, actions: seq<Action>)
    requires Aligned(cipher, row) && Ordinary(Keys(cipher, row)) && !(PREFIX <= row.key)
    requires forall j :: 0 <= j < |actions| ==> OrdinaryAction(actions[j])
    ensures (forall k :: 0 <= k <= |actions| ==> InStep(cipher, row, actions, k))
       <==> (forall k :: 0 <= k < |actions| ==> AllowedAt(PoolOf(cipher, row), row.channelStatus, actions, k))
  {
    hide AllowedAt, OrdinaryAction, CarriedAt, InFormAt, InStep, Aligned, PoolOf;
    RunTracksIffCarriedOut(cipher, row, actions);
    if forall k :: 0 <= k < |actions| ==> CarriedAt(cipher, row, actions, k) {
      forall k | 0 <= k < |actions|
        ensures AllowedAt(PoolOf(cipher, row), row.channelStatus, actions, k)
      {
        FormSoFar(cipher, row, actions, k);
        OneMore(cipher, row, actions, k);
      }
    }
    if forall k :: 0 <= k < |actions| ==> AllowedAt(PoolOf(cipher, row), row.channelStatus, actions, k) {
      forall k | 0 <= k < |actions|
        ensures CarriedAt(cipher, row, actions, k)
      {
        AllowedSoFar(cipher, row, actions, k);
        OneMore(cipher, row, actions, k);
      }
    }
  }
}
