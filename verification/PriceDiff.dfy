/**
 Comparing local prices with what upstream channels report.

 A first pass lists, for every model and pricing field, what each channel has; later passes
 drop channels that differ nowhere and items with nothing left to show.  The main result says
 what all the passes together compute, cell by cell.
 */
module PriceDiff {
  import opened Basics
  import opened Tolerance

  /** A pricing value; Null is a missing or null value. */
  datatype Value = Null | Num(n: real) | Str(s: string)

  const SAME := Str("same")
  const FIELDS: seq<string> := [
    "model_ratio", "completion_ratio", "cache_ratio", "create_cache_ratio", "image_ratio",
    "audio_ratio", "audio_completion_ratio", "model_price", "billing_mode", "billing_expr"]

  predicate ValuesEqual(a: Value, b: Value) {
    if a.Num? && b.Num? then NearlyEqual(a.n, b.n) else a == b
  }

  /** Prices by field and model. */
  type Prices = map<string, map<string, Value>>

  datatype Channel = Channel(name: string, data: Prices)

  function Get(data: Prices, field: string, model: string): Option<Value> {
    if field in data && model in data[field] then Some(data[field][model]) else None
  }

  function OrNull(v: Option<Value>): Value {
    if v.Some? then v.value else Null
  }

  datatype Item = Item(current: Value, upstreams: map<string, Value>, confidence: map<string, bool>)

  type Row = map<string, Item>
  type Table = map<string, Row>

  // ----- first pass: what each channel shows for one cell -----

  /** What is shown for a channel: its value, "same", or Null when only the channel lacks the value. */
  function Shown(local: Value, present: Option<Value>): Value {
    var shown :=
      if present.None? then Null
      else if !local.Null? && !ValuesEqual(local, present.value) then present.value
      else if ValuesEqual(local, present.value) then SAME
      else present.value;
    if shown.Null? && local.Null? then SAME else shown
  }

  /** A channel's value for a cell counts as a difference. */
  predicate MarksDifference(local: Value, present: Option<Value>) {
    || (present.Some? && !local.Null? && !ValuesEqual(local, present.value))
    || (local.Null? && !Shown(local, present).Null? && Shown(local, present) != SAME)
  }

  /** Prices with ratio 37.5 and completion ratio 1 are placeholders and not to be trusted. */
  predicate Trusted(c: Channel, model: string) {
    var ratio, completion := Get(c.data, "model_ratio", model), Get(c.data, "completion_ratio", model);
    var complete := "model_ratio" in c.data && c.data["model_ratio"] != map[]
                    && "completion_ratio" in c.data && c.data["completion_ratio"] != map[];
    !(complete && ratio.Some? && completion.Some? && ratio.value.Num? && completion.value.Num?
      && NearlyEqual(ratio.value.n, 37.5) && NearlyEqual(completion.value.n, 1.0))
  }

  function Upstreams(local: Value, channels: seq<Channel>, field: string, model: string): map<string, Value> {
    if channels == [] then map[]
    else
      var c := channels[|channels| - 1];
      Upstreams(local, channels[..|channels| - 1], field, model)[c.name := Shown(local, Get(c.data, field, model))]
  }

  function Confidence(channels: seq<Channel>, model: string): map<string, bool> {
    if channels == [] then map[]
    else
      var c := channels[|channels| - 1];
      Confidence(channels[..|channels| - 1], model)[c.name := Trusted(c, model)]
  }

  predicate AnyMarked(local: Value, channels: seq<Channel>, field: string, model: string) {
    exists i :: 0 <= i < |channels| && MarksDifference(local, Get(channels[i].data, field, model))
  }

  predicate AnyPresent(channels: seq<Channel>, field: string, model: string) {
    exists i :: 0 <= i < |channels| && Get(channels[i].data, field, model).Some?
  }

  predicate Included(local: Value, channels: seq<Channel>, field: string, model: string) {
    if local.Null? then AnyPresent(channels, field, model) else AnyMarked(local, channels, field, model)
  }

  function FullItem(local: Value, channels: seq<Channel>, field: string, model: string): Item {
    Item(local, Upstreams(local, channels, field, model), Confidence(channels, model))
  }

  /** What one channel shows for a cell, and whether that is a difference. */
  method CompareChannel(local: Value, present: Option<Value>) returns (value: Value, marked: bool)
    ensures value == Shown(local, present)
    ensures marked <==> MarksDifference(local, present)
  {
    value, marked := Null, false;
    if present.Some? {
      value := present.value;
      if !local.Null? && !ValuesEqual(local, value) {
        marked := true;
      } else if ValuesEqual(local, value) {
        value := SAME;
      }
    }
    if value.Null? && local.Null? {
      value := SAME;
    }
    if local.Null? && !value.Null? && value != SAME {
      marked := true;
    }
  }

  /** Visits the channels for one cell. */
  method CompareCell(local: Value, channels: seq<Channel>, field: string, model: string)
    returns (item: Item, wanted: bool)
    ensures item == FullItem(local, channels, field, model)
    ensures wanted <==> Included(local, channels, field, model)
  {
    hide Shown, MarksDifference, Trusted, AnyPresent, AnyMarked, Get;
    var upstreamValues: map<string, Value>, confidenceValues: map<string, bool> := map[], map[];
    var hasUpstreamValue, hasDifference := false, false;
    NoneYet(local, field, model);
    for i := 0 to |channels|
      invariant upstreamValues == Upstreams(local, channels[..i], field, model)
      invariant confidenceValues == Confidence(channels[..i], model)
      invariant hasUpstreamValue <==> AnyPresent(channels[..i], field, model)
      invariant hasDifference <==> AnyMarked(local, channels[..i], field, model)
    {
      var c := channels[i];
      assert channels[..i + 1] == channels[..i] + [c] && channels[..i + 1][..i] == channels[..i];
      AnyOneMore(local, channels[..i], c, field, model);
      var present := Get(c.data, field, model);
      var value, marked := CompareChannel(local, present);
      hasUpstreamValue := hasUpstreamValue || present.Some?;
      hasDifference := hasDifference || marked;
      upstreamValues := upstreamValues[c.name := value];
      confidenceValues := confidenceValues[c.name := Trusted(c, model)];
    }
    assert channels[..|channels|] == channels;
    item := Item(local, upstreamValues, confidenceValues);
    wanted := if !local.Null? then hasDifference else hasUpstreamValue;
  }

  lemma NoneYet(local: Value, field: string, model: string)
    ensures !AnyPresent([], field, model) && !AnyMarked(local, [], field, model)
  {
  }

  lemma AnyOneMore(local: Value, channels: seq<Channel>, c: Channel, field: string, model: string)
    ensures AnyPresent(channels + [c], field, model)
       <==> AnyPresent(channels, field, model) || Get(c.data, field, model).Some?
    ensures AnyMarked(local, channels + [c], field, model)
       <==> AnyMarked(local, channels, field, model) || MarksDifference(local, Get(c.data, field, model))
  {
    var more := channels + [c];
    assert more[|channels|] == c;
    if AnyPresent(channels, field, model) {
      var i :| 0 <= i < |channels| && Get(channels[i].data, field, model).Some?;
      assert more[i] == channels[i];
    }
    if AnyMarked(local, channels, field, model) {
      var i :| 0 <= i < |channels| && MarksDifference(local, Get(channels[i].data, field, model));
      assert more[i] == channels[i];
    }
  }

  // ----- all cells -----

  function LocalValue(local: Prices, field: string, model: string): Value {
    OrNull(Get(local, field, model))
  }

  predicate CellIncluded(local: Prices, channels: seq<Channel>, field: string, model: string) {
    Included(LocalValue(local, field, model), channels, field, model)
  }

  function CellItem(local: Prices, channels: seq<Channel>, field: string, model: string): Item {
    FullItem(LocalValue(local, field, model), channels, field, model)
  }

  function FullRow(local: Prices, channels: seq<Channel>, model: string): Row {
    map f | f in FIELDS && CellIncluded(local, channels, f, model) :: CellItem(local, channels, f, model)
  }

  function FullTable(local: Prices, channels: seq<Channel>, models: set<string>): Table {
    map m | m in models && FullRow(local, channels, m) != map[] :: FullRow(local, channels, m)
  }

  method CompareStored(local: Prices, channels: seq<Channel>, field: string, model: string)
      returns (item: Item, wanted: bool)
    ensures item == CellItem(local, channels, field, model)
    ensures wanted <==> CellIncluded(local, channels, field, model)
  {
    item, wanted := CompareCell(LocalValue(local, field, model), channels, field, model);
  }

  method BuildRow(local: Prices, channels: seq<Channel>, model: string) returns (row: Row)
    ensures row == FullRow(local, channels, model)
  {
    hide CellIncluded, CellItem;
    row := map[];
    for i := 0 to |FIELDS|
      invariant forall f :: f in row <==> f in FIELDS[..i] && CellIncluded(local, channels, f, model)
      invariant forall f :: f in row ==> row[f] == CellItem(local, channels, f, model)
    {
      var field := FIELDS[i];
      assert FIELDS[..i + 1] == FIELDS[..i] + [field];
      var item, wanted := CompareStored(local, channels, field, model);
      if wanted {
        row := row[field := item];
      }
    }
    assert FIELDS[..|FIELDS|] == FIELDS;
  }

  method BuildTable(local: Prices, channels: seq<Channel>, models: set<string>) returns (table: Table)
    ensures table == FullTable(local, channels, models)
  {
    hide FullRow;
    table := map[];
    var pending := models;
    while pending != {}
      invariant pending <= models
      invariant forall m :: m in table <==> m in models && m !in pending && FullRow(local, channels, m) != map[]
      invariant forall m :: m in table ==> table[m] == FullRow(local, channels, m)
    {
      var model :| model in pending;
      pending := pending - {model};
      var row := BuildRow(local, channels, model);
      if row != map[] {
        table := table[model := row];
      }
    }
  }

  // ----- pruning -----

  predicate ShowsDifference(item: Item, c: string) {
    c in item.upstreams && !item.upstreams[c].Null? && item.upstreams[c] != SAME
  }

  /** The channels that differ in some item of the table. */
  function DifferingChannels(table: Table): set<string> {
    set m, f, c | m in table && f in table[m] && c in table[m][f].upstreams && ShowsDifference(table[m][f], c) :: c
  }

  function Restrict<T>(m: map<string, T>, keep: set<string>): map<string, T> {
    map k | k in m && k in keep :: m[k]
  }

  function PrunedItem(item: Item, keep: set<string>): Item {
    item.(upstreams := Restrict(item.upstreams, keep), confidence := Restrict(item.confidence, keep))
  }

  predicate WorthShowing(item: Item) {
    exists c :: c in item.upstreams && item.upstreams[c] != SAME
  }

  function PrunedRow(row: Row, keep: set<string>): Row {
    map f | f in row && WorthShowing(PrunedItem(row[f], keep)) :: PrunedItem(row[f], keep)
  }

  function PrunedTable(table: Table, keep: set<string>): Table {
    map m | m in table && PrunedRow(table[m], keep) != map[] :: PrunedRow(table[m], keep)
  }

  /** Deletes the channels that differ nowhere, then looks for anything left to show. */
  method PruneItem(item: Item, keep: set<string>) returns (pruned: Item, show: bool)
    requires item.confidence.Keys == item.upstreams.Keys
    ensures pruned == PrunedItem(item, keep)
    ensures show <==> WorthShowing(pruned)
  {
    var upstreams, confidence := item.upstreams, item.confidence;
    var pending := item.upstreams.Keys;
    while pending != {}
      invariant pending <= item.upstreams.Keys
      invariant upstreams == Restrict(item.upstreams, keep + pending)
      invariant confidence == Restrict(item.confidence, keep + pending)
    {
      var c :| c in pending;
      pending := pending - {c};
      if c !in keep {
        upstreams, confidence := upstreams - {c}, confidence - {c};
      }
    }
    assert keep + {} == keep;
    pruned := item.(upstreams := upstreams, confidence := confidence);
    show := AnyNotSame(upstreams);
  }

  method AnyNotSame(upstreams: map<string, Value>) returns (found: bool)
    ensures found <==> exists c :: c in upstreams && upstreams[c] != SAME
  {
    found := false;
    var pending := upstreams.Keys;
    while pending != {}
      invariant pending <= upstreams.Keys
      invariant found <==> exists c :: c in upstreams && c !in pending && upstreams[c] != SAME
    {
      var c :| c in pending;
      pending := pending - {c};
      if upstreams[c] != SAME {
        found := true;
      }
    }
  }

  predicate Paired(row: Row) {
    forall f :: f in row ==> row[f].confidence.Keys == row[f].upstreams.Keys
  }

  method PruneRow(row: Row, keep: set<string>) returns (pruned: Row)
    requires Paired(row)
    ensures pruned == PrunedRow(row, keep)
  {
    hide PrunedItem, WorthShowing;
    pruned := row;
    var pending := row.Keys;
    while pending != {}
      invariant pending <= row.Keys
      invariant forall f :: f in pruned <==> f in row && (f in pending || WorthShowing(PrunedItem(row[f], keep)))
      invariant forall f :: f in pruned ==> pruned[f] == if f in pending then row[f] else PrunedItem(row[f], keep)
    {
      var f :| f in pending;
      pending := pending - {f};
      var item, show := PruneItem(row[f], keep);
      if show {
        pruned := pruned[f := item];
      } else {
        pruned := pruned - {f};
      }
    }
  }

  method PruneTable(table: Table, keep: set<string>) returns (pruned: Table)
    requires forall m :: m in table ==> Paired(table[m])
    ensures pruned == PrunedTable(table, keep)
  {
    hide PrunedRow, Paired;
    pruned := table;
    var pending := table.Keys;
    while pending != {}
      invariant pending <= table.Keys
      invariant forall m :: m in pruned <==> m in table && (m in pending || PrunedRow(table[m], keep) != map[])
      invariant forall m :: m in pruned ==> pruned[m] == if m in pending then table[m] else PrunedRow(table[m], keep)
    {
      var m :| m in pending;
      pending := pending - {m};
      var row := PruneRow(table[m], keep);
      if row == map[] {
        pruned := pruned - {m};
      } else {
        pruned := pruned[m := row];
      }
    }
  }

  method FindDifferingChannels(table: Table) returns (found: set<string>)
    ensures found == DifferingChannels(table)
  {
    found := {};
    var models := table.Keys;
    while models != {}
      invariant models <= table.Keys
      invariant forall c :: c in found <==>
        exists m, f :: m in table && m !in models && f in table[m] && ShowsDifference(table[m][f], c)
    {
      var m :| m in models;
      models := models - {m};
      var more := FindInRow(table[m]);
      ghost var before := found;
      found := found + more;
      forall c
        ensures c in found <==>
          exists m, f :: m in table && m !in models && f in table[m] && ShowsDifference(table[m][f], c)
      {
        if c in more {
          var f :| f in table[m] && ShowsDifference(table[m][f], c);
        }
      }
    }
  }

  method FindInRow(row: Row) returns (found: set<string>)
    ensures forall c :: c in found <==> exists f :: f in row && ShowsDifference(row[f], c)
  {
    found := {};
    var fields := row.Keys;
    while fields != {}
      invariant fields <= row.Keys
      invariant forall c :: c in found <==> exists f :: f in row && f !in fields && ShowsDifference(row[f], c)
    {
      var f :| f in fields;
      fields := fields - {f};
      found := found + set c | c in row[f].upstreams && ShowsDifference(row[f], c);
    }
  }

  // ----- the whole comparison -----

  function ModelsIn(data: Prices): set<string> {
    set f, m | f in FIELDS && f in data && m in data[f] :: m
  }

  /** Every model that has a price anywhere. */
  function AllModels(local: Prices, channels: seq<Channel>): set<string> {
    if channels == [] then ModelsIn(local)
    else AllModels(local, channels[..|channels| - 1]) + ModelsIn(channels[|channels| - 1].data)
  }

  method BuildDifferences(local: Prices, channels: seq<Channel>) returns (differences: Table)
    ensures differences == Differences(local, channels)
  {
    differences := BuildTable(local, channels, AllModels(local, channels));
    forall m | m in differences
      ensures Paired(differences[m])
    {
      forall f | f in differences[m]
        ensures differences[m][f].confidence.Keys == differences[m][f].upstreams.Keys
      {
        ItemMeaning(LocalValue(local, f, m), channels, f, m);
      }
    }
    var differing := FindDifferingChannels(differences);
    differences := PruneTable(differences, differing);
  }

  function Names(channels: seq<Channel>): set<string> {
    set i | 0 <= i < |channels| :: channels[i].name
  }

  lemma {:induction false} ItemMeaning(local: Value, channels: seq<Channel>, field: string, model: string)
    ensures Upstreams(local, channels, field, model).Keys == Confidence(channels, model).Keys == Names(channels)
  {
    if channels != [] {
      var n := |channels| - 1;
      ItemMeaning(local, channels[..n], field, model);
      assert Names(channels) == Names(channels[..n]) + {channels[n].name};
    }
  }

  // ----- what the result says -----

  predicate DistinctNames(channels: seq<Channel>) {
    forall i, j :: 0 <= i < j < |channels| ==> channels[i].name != channels[j].name
  }

  /** The channel has a value for this cell that the local prices lack or that is not nearly equal to the local one. */
  predicate Differs(local: Prices, c: Channel, field: string, model: string) {
    var present := Get(c.data, field, model);
    present.Some? && (LocalValue(local, field, model).Null? || !ValuesEqual(LocalValue(local, field, model),
        present.value))
  }

  /** A value that can be shown: neither null nor the word the result uses as a marker. */
  predicate Showable(v: Option<Value>) {
    v.Some? ==> !v.value.Null? && v.value != SAME
  }

  /** The difference can be seen in the table. */
  predicate Visible(local: Prices, c: Channel, field: string, model: string) {
    Differs(local, c, field, model) && Showable(Get(c.data, field, model))
  }

  ghost predicate VisibleSomewhere(local: Prices, c: Channel) {
    exists f, m :: f in FIELDS && Visible(local, c, f, m)
  }

  /** What is listed for the channel is not the marker: a missing value counts if there is a local one. */
  predicate Deviates(local: Prices, c: Channel, field: string, model: string) {
    var value, present := LocalValue(local, field, model), Get(c.data, field, model);
    if value.Null? then Visible(local, c, field, model)
    else present.None? || (Differs(local, c, field, model) && present.value != SAME)
  }

  /** The first pass lists a cell without a local value if any channel has one, and otherwise if any channel differs. */
  predicate Listed(local: Prices, channels: seq<Channel>, field: string, model: string) {
    exists i :: 0 <= i < |channels| && Differs(local, channels[i], field, model)
  }

  predicate InTable(table: Table, field: string, model: string) {
    model in table && field in table[model]
  }

  lemma ShownMeaning(local: Prices, c: Channel, field: string, model: string)
    ensures var value, present := LocalValue(local, field, model), Get(c.data, field, model);
            && (!value.Null? ==> (MarksDifference(value, present) <==> Differs(local, c, field, model)))
            && (value.Null? ==> (present.Some? <==> Differs(local, c, field, model)))
            && (!Shown(value, present).Null? && Shown(value, present) != SAME <==> Visible(local, c, field, model))
            && (Shown(value, present) != SAME <==> Deviates(local, c, field, model))
  {
  }

  lemma {:induction false} UpstreamsAt(local: Value, channels: seq<Channel>, field: string, model: string, i: int)
    requires DistinctNames(channels) && 0 <= i < |channels|
    ensures var c := channels[i];
            && c.name in Upstreams(local, channels, field, model) && c.name in Confidence(channels, model)
            && Upstreams(local, channels, field, model)[c.name] == Shown(local, Get(c.data, field, model))
            && Confidence(channels, model)[c.name] == Trusted(c, model)
  {
    hide Shown, Trusted;
    var n := |channels| - 1;
    if i < n {
      UpstreamsAt(local, channels[..n], field, model, i);
    }
  }

  /** A cell is listed in the first pass exactly if some channel differs there. */
  lemma IncludedMeaning(local: Prices, channels: seq<Channel>, field: string, model: string)
    ensures CellIncluded(local, channels, field, model) <==> Listed(local, channels, field, model)
  {
    hide Shown, MarksDifference, Differs, Get;
    forall i | 0 <= i < |channels|
      ensures var value, present := LocalValue(local, field, model), Get(channels[i].data, field, model);
              if value.Null? then present.Some? <==> Differs(local, channels[i], field, model)
              else MarksDifference(value, present) <==> Differs(local, channels[i], field, model)
    {
      ShownMeaning(local, channels[i], field, model);
    }
  }

  lemma {:induction false} ModelsAreCollected(local: Prices, channels: seq<Channel>, i: int, field: string,
      model: string)
    requires 0 <= i < |channels| && field in FIELDS && Get(channels[i].data, field, model).Some?
    ensures model in AllModels(local, channels)
  {
    var n := |channels| - 1;
    if i < n {
      ModelsAreCollected(local, channels[..n], i, field, model);
    }
  }

  /** The first-pass table has exactly the listed cells. */
  lemma FullTableMeaning(local: Prices, channels: seq<Channel>, field: string, model: string)
    requires field in FIELDS
    ensures var full := FullTable(local, channels, AllModels(local, channels));
            && (InTable(full, field, model) <==> Listed(local, channels, field, model))
            && (InTable(full, field, model) ==> full[model][field] == CellItem(local, channels, field, model))
  {
    hide CellIncluded, CellItem, AllModels;
    IncludedMeaning(local, channels, field, model);
    if i :| 0 <= i < |channels| && Differs(local, channels[i], field, model) {
      ModelsAreCollected(local, channels, i, field, model);
      assert field in FullRow(local, channels, model);
    }
  }

  /** An item of the first pass shows a difference for exactly the channels with a visible one there. */
  lemma ItemShows(local: Prices, channels: seq<Channel>, field: string, model: string, name: string)
    requires DistinctNames(channels) && field in FIELDS
    ensures ShowsDifference(CellItem(local, channels, field, model), name)
       <==> exists i :: 0 <= i < |channels| && channels[i].name == name && Visible(local, channels[i], field, model)
  {
    hide Shown, MarksDifference, Trusted, Visible, Deviates, Differs;
    var value := LocalValue(local, field, model);
    ItemMeaning(value, channels, field, model);
    if name in Names(channels) {
      var i :| 0 <= i < |channels| && channels[i].name == name;
      UpstreamsAt(value, channels, field, model, i);
      ShownMeaning(local, channels[i], field, model);
    }
  }

  /** The channels kept by pruning are those with a visible difference somewhere. */
  lemma KeptChannels(local: Prices, channels: seq<Channel>, name: string)
    requires DistinctNames(channels)
    ensures name in DifferingChannels(FullTable(local, channels, AllModels(local, channels)))
       <==> exists i :: 0 <= i < |channels| && channels[i].name == name && VisibleSomewhere(local, channels[i])
  {
    hide FullTable, CellItem, AllModels, Visible, ShowsDifference, Listed;
    var full := FullTable(local, channels, AllModels(local, channels));
    if name in DifferingChannels(full) {
      var m, f :| m in full && f in full[m] && ShowsDifference(full[m][f], name);
      FullTableField(local, channels, f, m);
      ItemShows(local, channels, f, m, name);
    }
    if i :| 0 <= i < |channels| && channels[i].name == name && VisibleSomewhere(local, channels[i]) {
      var f, m :| f in FIELDS && Visible(local, channels[i], f, m);
      VisibleIsListed(local, channels, f, m, i);
      FullTableMeaning(local, channels, f, m);
      ItemShows(local, channels, f, m, name);
      assert m in full && f in full[m] && ShowsDifference(full[m][f], name);
      ShowsMeansListed(full[m][f], name);
    }
  }

  lemma VisibleIsListed(local: Prices, channels: seq<Channel>, field: string, model: string, i: int)
    requires 0 <= i < |channels| && Visible(local, channels[i], field, model)
    ensures Listed(local, channels, field, model) && Deviates(local, channels[i], field, model)
  {
  }

  lemma ShowsMeansListed(item: Item, name: string)
    requires ShowsDifference(item, name)
    ensures name in item.upstreams
  {
  }

  lemma FullTableField(local: Prices, channels: seq<Channel>, field: string, model: string)
    requires InTable(FullTable(local, channels, AllModels(local, channels)), field, model)
    ensures field in FIELDS
    ensures FullTable(local, channels, AllModels(local, channels))[model][field]
         == CellItem(local, channels, field, model)
  {
  }

  /** The table that the comparison returns. */
  function Differences(local: Prices, channels: seq<Channel>): Table {
    var full := FullTable(local, channels, AllModels(local, channels));
    PrunedTable(full, DifferingChannels(full))
  }

  /** The channel is kept by pruning, and what it shows in this cell is not the marker. */
  ghost predicate KeepsCell(local: Prices, c: Channel, field: string, model: string) {
    VisibleSomewhere(local, c) && Deviates(local, c, field, model)
  }

  /**
   The final table has exactly the listed cells in which some channel that has a visible
   difference anywhere shows something else than the marker.
   */
  lemma CellsOfTheResult(local: Prices, channels: seq<Channel>, field: string, model: string)
    requires DistinctNames(channels) && field in FIELDS
    ensures InTable(Differences(local, channels), field, model)
       <==> Listed(local, channels, field, model)
            && exists i :: 0 <= i < |channels| && KeepsCell(local, channels[i], field, model)
    ensures var full := FullTable(local, channels, AllModels(local, channels));
            InTable(Differences(local, channels), field, model) ==>
              Differences(local, channels)[model][field]
              == PrunedItem(CellItem(local, channels, field, model), DifferingChannels(full))
  {
    hide FullTable, CellItem, AllModels, DifferingChannels, PrunedItem, Listed, KeepsCell, WorthShowing;
    var full := FullTable(local, channels, AllModels(local, channels));
    var keep := DifferingChannels(full);
    FullTableMeaning(local, channels, field, model);
    if Listed(local, channels, field, model) {
      ItemKept(local, channels, field, model);
      if WorthShowing(PrunedItem(full[model][field], keep)) {
        assert field in PrunedRow(full[model], keep);
      }
    }
  }

  lemma ItemKept(local: Prices, channels: seq<Channel>, field: string, model: string)
    requires DistinctNames(channels) && field in FIELDS
    ensures var keep := DifferingChannels(FullTable(local, channels, AllModels(local, channels)));
            WorthShowing(PrunedItem(CellItem(local, channels, field, model), keep)) <==>
              exists i :: 0 <= i < |channels| && KeepsCell(local, channels[i], field, model)
  {
    hide FullTable, AllModels, DifferingChannels, Shown, Trusted, Deviates, VisibleSomewhere, Visible;
    var value, item := LocalValue(local, field, model), CellItem(local, channels, field, model);
    var keep := DifferingChannels(FullTable(local, channels, AllModels(local, channels)));
    var pruned := PrunedItem(item, keep);
    ItemMeaning(value, channels, field, model);
    if WorthShowing(pruned) {
      var name :| name in pruned.upstreams && pruned.upstreams[name] != SAME;
      KeptChannels(local, channels, name);
      var i :| 0 <= i < |channels| && channels[i].name == name && VisibleSomewhere(local, channels[i]);
      UpstreamsAt(value, channels, field, model, i);
      ShownMeaning(local, channels[i], field, model);
      assert KeepsCell(local, channels[i], field, model);
    }
    if i :| 0 <= i < |channels| && KeepsCell(local, channels[i], field, model) {
      var name := channels[i].name;
      KeptChannels(local, channels, name);
      UpstreamsAt(value, channels, field, model, i);
      ShownMeaning(local, channels[i], field, model);
      assert pruned.upstreams[name] != SAME;
    }
  }

  ghost predicate AllShowable(channels: seq<Channel>) {
    forall i, f, m :: 0 <= i < |channels| && f in FIELDS ==> Showable(Get(channels[i].data, f, m))
  }

  /** With real values throughout, the cells are exactly those in which some channel differs: pruning loses none. */
  lemma CellsOfRealValues(local: Prices, channels: seq<Channel>, field: string, model: string)
    requires DistinctNames(channels) && AllShowable(channels) && field in FIELDS
    ensures InTable(Differences(local, channels), field, model) <==> Listed(local, channels, field, model)
  {
    hide Differences, Differs, Get;
    CellsOfTheResult(local, channels, field, model);
    if i :| 0 <= i < |channels| && Differs(local, channels[i], field, model) {
      assert Visible(local, channels[i], field, model);
      VisibleIsListed(local, channels, field, model, i);
      assert KeepsCell(local, channels[i], field, model);
    }
  }

  /** The table is empty exactly if no channel has a visible difference anywhere. */
  lemma NothingToShowIff(local: Prices, channels: seq<Channel>)
    requires DistinctNames(channels)
    ensures (forall f, m :: f in FIELDS ==> !InTable(Differences(local, channels), f, m))
       <==> (forall i :: 0 <= i < |channels| ==> !VisibleSomewhere(local, channels[i]))
  {
    hide Differences, Deviates, Visible, Listed, InTable;
    if i :| 0 <= i < |channels| && VisibleSomewhere(local, channels[i]) {
      var f, m :| f in FIELDS && Visible(local, channels[i], f, m);
      CellsOfTheResult(local, channels, f, m);
      VisibleIsListed(local, channels, f, m, i);
      assert KeepsCell(local, channels[i], f, m);
    } else {
      forall f, m | f in FIELDS
        ensures !InTable(Differences(local, channels), f, m)
      {
        CellsOfTheResult(local, channels, f, m);
      }
    }
  }

  /** Each item of the result lists exactly the channels with a visible difference somewhere, with what they show. */
  lemma ChannelsOfAnItem(local: Prices, channels: seq<Channel>, field: string, model: string, i: int)
    requires DistinctNames(channels) && field in FIELDS && 0 <= i < |channels|
    requires InTable(Differences(local, channels), field, model)
    ensures var item, c := Differences(local, channels)[model][field], channels[i];
            && item.current == LocalValue(local, field, model)
            && item.upstreams.Keys == item.confidence.Keys <= Names(channels)
            && (c.name in item.upstreams <==> VisibleSomewhere(local, c))
            && (c.name in item.upstreams ==>
                  && item.upstreams[c.name] == Shown(item.current, Get(c.data, field, model))
                  && item.confidence[c.name] == Trusted(c, model))
  {
    hide FullTable, AllModels, Differences, DifferingChannels, Shown, Trusted, VisibleSomewhere, Listed, KeepsCell;
    var value := LocalValue(local, field, model);
    CellsOfTheResult(local, channels, field, model);
    UpstreamsAt(value, channels, field, model, i);
    ItemMeaning(value, channels, field, model);
    KeptChannels(local, channels, channels[i].name);
  }

  /** A null over a local value is listed as such, once the channel has a visible difference anywhere. */
  lemma NullIsListed(local: Prices, channels: seq<Channel>, field: string, model: string, i: int)
    requires DistinctNames(channels) && field in FIELDS && 0 <= i < |channels|
    requires !LocalValue(local, field, model).Null? && Get(channels[i].data, field, model) == Some(Null)
    requires VisibleSomewhere(local, channels[i])
    ensures InTable(Differences(local, channels), field, model)
    ensures var item := Differences(local, channels)[model][field];
            channels[i].name in item.upstreams && item.upstreams[channels[i].name] == Null
  {
    hide Differences, VisibleSomewhere, Trusted;
    assert Differs(local, channels[i], field, model);
    assert KeepsCell(local, channels[i], field, model);
    CellsOfTheResult(local, channels, field, model);
    ChannelsOfAnItem(local, channels, field, model, i);
  }

  /** The marker word as a value makes an item, once another channel without a value there has a visible difference. */
  lemma MarkerMakesItem(local: Prices, channels: seq<Channel>, field: string, model: string, i: int, j: int)
    requires DistinctNames(channels) && field in FIELDS && 0 <= i < |channels| && 0 <= j < |channels|
    requires !LocalValue(local, field, model).Null? && LocalValue(local, field, model) != SAME
    requires Get(channels[i].data, field, model) == Some(SAME) && Get(channels[j].data, field, model) == None
    requires VisibleSomewhere(local, channels[j])
    ensures InTable(Differences(local, channels), field, model)
  {
    hide Differences, VisibleSomewhere;
    assert Differs(local, channels[i], field, model);
    assert KeepsCell(local, channels[j], field, model);
    CellsOfTheResult(local, channels, field, model);
  }

  // ----- what the entries of an item are -----

  predicate Close(a: Value, b: Value) {
    if a.Num? && b.Num? then -0.000000001 < a.n - b.n < 0.000000001 else a == b
  }

  predicate HasValue(data: Prices, field: string, model: string) {
    field in data && model in data[field]
  }

  /**
   What an item says, in terms of the data alone: the local value or null; for a channel with a
   value that is not close to it that very value, and for one with a close value the marker; for
   a channel without a value, null if there is a local value and the marker if not.
   */
  lemma ListedValues(local: Prices, channels: seq<Channel>, field: string, model: string, i: int)
    requires DistinctNames(channels) && field in FIELDS && 0 <= i < |channels|
    requires InTable(Differences(local, channels), field, model)
    requires VisibleSomewhere(local, channels[i])
    ensures var item, c := Differences(local, channels)[model][field], channels[i];
            && item.current == (if HasValue(local, field, model) then local[field][model] else Null)
            && c.name in item.upstreams
            && item.upstreams[c.name] ==
                 if HasValue(c.data, field, model) then
                   (if Close(item.current, c.data[field][model]) then Str("same") else c.data[field][model])
                 else if item.current.Null? then Str("same") else Null
  {
    hide Differences, VisibleSomewhere, Trusted;
    ChannelsOfAnItem(local, channels, field, model, i);
    if HasValue(channels[i].data, field, model) {
      CloseMeaning(LocalValue(local, field, model), channels[i].data[field][model]);
    }
  }

  lemma CloseMeaning(a: Value, b: Value)
    ensures ValuesEqual(a, b) <==> Close(a, b)
  {
    if a.Num? && b.Num? {
      NearlyEqualMeaning(a.n, b.n);
    }
  }

  predicate HasNumber(data: Prices, field: string, model: string, n: real) {
    HasValue(data, field, model) && data[field][model].Num? && -0.000000001 < data[field][model].n - n < 0.000000001
  }

  /** A channel is distrusted for a model exactly if it reports the placeholder ratio 37.5 with completion ratio 1. */
  lemma TrustMeaning(c: Channel, model: string)
    ensures Trusted(c, model) <==>
      !(HasNumber(c.data, "model_ratio", model, 37.5) && HasNumber(c.data, "completion_ratio", model, 1.0))
  {
    if HasNumber(c.data, "model_ratio", model, 37.5) {
      NearlyEqualMeaning(c.data["model_ratio"][model].n, 37.5);
    }
  }
}
