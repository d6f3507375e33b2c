/**
 Choosing a storage for a request body, the interchangeability of the two kinds of storage,
 and the global counters over whole runs of creations and closes.
 */
module BodyCache {
  import opened Basics
  import opened BodyStorage

  // ----- interchangeability -----

  /** The one request that the two kinds of storage answer differently: an empty read at the end. */
  predicate Differs(v: View, op: Op) {
    op.Read? && op.n == 0 && !v.closed && v.pos >= |v.data|
  }

  lemma SameAnswerIff(v: View, op: Op)
    ensures OpStep(v, op, true) == OpStep(v, op, false) <==> !Differs(v, op)
    ensures OpStep(v, op, true).0 == OpStep(v, op, false).0
  {
    if op.Read? && op.n == 0 && !v.closed && v.pos < |v.data| {
      assert Chunk(v, 0) == [];
    }
  }

  function ViewAfter(v: View, ops: seq<Op>, disk: bool): View {
    if ops == [] then v else OpStep(ViewAfter(v, ops[..|ops| - 1], disk), ops[|ops| - 1], disk).0
  }

  function Replies(v: View, ops: seq<Op>, disk: bool): seq<Reply> {
    if ops == [] then []
    else Replies(v, ops[..|ops| - 1], disk) + [OpStep(ViewAfter(v, ops[..|ops| - 1], disk), ops[|ops| - 1], disk).1]
  }

  /** No operation of the sequence is an empty read at the end. */
  predicate NeverDiffers(v: View, ops: seq<Op>) {
    ops != [] ==>
      NeverDiffers(v, ops[..|ops| - 1]) && !Differs(ViewAfter(v, ops[..|ops| - 1], false), ops[|ops| - 1])
  }

  /** Over every sequence of operations both kinds give the same replies, except for empty reads at the end. */
  lemma {:induction false} SameRepliesIff(v: View, ops: seq<Op>)
    ensures ViewAfter(v, ops, true) == ViewAfter(v, ops, false)
    ensures Replies(v, ops, true) == Replies(v, ops, false) <==> NeverDiffers(v, ops)
    ensures |Replies(v, ops, true)| == |Replies(v, ops, false)| == |ops|
  {
    hide OpStep, Differs;
    if ops != [] {
      var n := |ops| - 1;
      var before := ops[..n];
      SameRepliesIff(v, before);
      SameAnswerIff(ViewAfter(v, before, false), ops[n]);
      LastDecides(Replies(v, before, true), Replies(v, before, false),
                  OpStep(ViewAfter(v, before, true), ops[n], true).1,
                  OpStep(ViewAfter(v, before, false), ops[n], false).1);
    }
  }

  lemma LastDecides(a: seq<Reply>, b: seq<Reply>, x: Reply, y: Reply)
    requires |a| == |b|
    ensures a + [x] == b + [y] <==> a == b && x == y
  {
    if a + [x] == b + [y] {
      assert (a + [x])[..|a|] == (b + [y])[..|b|];
      assert (a + [x])[|a|] == (b + [y])[|b|];
    }
  }

  lemma {:induction false} RepliesConcat(v: View, a: seq<Op>, b: seq<Op>, disk: bool)
    ensures ViewAfter(v, a + b, disk) == ViewAfter(ViewAfter(v, a, disk), b, disk)
    ensures Replies(v, a + b, disk) == Replies(v, a, disk) + Replies(ViewAfter(v, a, disk), b, disk)
    ensures |Replies(v, a, disk)| == |a|
    decreases |a| + |b|
  {
    hide OpStep;
    SameRepliesIff(v, a);
    if b == [] {
      assert a + b == a;
    } else {
      var n := |b| - 1;
      assert (a + b)[..|a + b| - 1] == a + b[..n];
      RepliesConcat(v, a, b[..n], disk);
    }
  }

  /**
   Fetching the contents at any point of any sequence of operations returns the whole body (or
   fails on a closed storage) and is invisible otherwise: all other replies stay as they were.
   */
  lemma BytesIsInvisible(v: View, before: seq<Op>, after: seq<Op>, disk: bool)
    ensures var replies := Replies(v, before + [Bytes] + after, disk);
            && |replies| == |before| + 1 + |after|
            && replies[..|before|] + replies[|before| + 1..] == Replies(v, before + after, disk)
            && replies[|before|] == if ViewAfter(v, before, disk).closed then Closed else Data(v.data)
  {
    var x := ViewAfter(v, before, disk);
    OnlyBytes(x, disk);
    DataStays(v, before, disk);
    hide OpStep;
    RepliesConcat(v, before, after, disk);
    RepliesConcat(v, before + [Bytes], after, disk);
    RepliesConcat(v, before, [Bytes], disk);
    RepliesConcat(x, after, [], disk);
    var first, rest := Replies(v, before, disk), Replies(x, after, disk);
    var r := Replies(x, [Bytes], disk)[0];
    assert Replies(v, before + [Bytes] + after, disk) == first + [r] + rest;
    assert (first + [r] + rest)[..|before|] == first && (first + [r] + rest)[|before| + 1..] == rest;
  }

  lemma OnlyBytes(v: View, disk: bool)
    ensures ViewAfter(v, [Bytes], disk) == v
    ensures Replies(v, [Bytes], disk) == [if v.closed then Closed else Data(v.data)]
  {
    assert [Bytes][..0] == [];
  }

  lemma {:induction false} DataStays(v: View, ops: seq<Op>, disk: bool)
    ensures ViewAfter(v, ops, disk).data == v.data
  {
    if ops != [] {
      DataStays(v, ops[..|ops| - 1], disk);
    }
  }

  // ----- what reading returns -----

  function ReadOps(sizes: seq<nat>): seq<Op> {
    if sizes == [] then [] else ReadOps(sizes[..|sizes| - 1]) + [Read(sizes[|sizes| - 1])]
  }

  function Total(sizes: seq<nat>): nat {
    if sizes == [] then 0 else Total(sizes[..|sizes| - 1]) + sizes[|sizes| - 1]
  }

  /** The bytes in the replies, one after the other. */
  function Collected(replies: seq<Reply>): seq<byte> {
    if replies == [] then []
    else
      var last := replies[|replies| - 1];
      Collected(replies[..|replies| - 1]) + if last.Data? then last.bytes else []
  }

  lemma OneRead(v: View, n: nat, disk: bool)
    requires !v.closed && v.pos <= |v.data| && n > 0
    ensures var (v', reply) := OpStep(v, Read(n), disk);
            var end := if v.pos + n <= |v.data| then v.pos + n else |v.data|;
            && v' == v.(pos := end)
            && reply == if v.pos == |v.data| then Eof else Data(v.data[v.pos..end])
  {
  }

  /** Reads into buffers that are not empty return the bytes from the cursor on, each once and in order. */
  lemma {:induction false} ReadsCollect(v: View, sizes: seq<nat>, disk: bool)
    requires !v.closed && v.pos <= |v.data| && forall i :: 0 <= i < |sizes| ==> sizes[i] > 0
    ensures var ops, end := ReadOps(sizes), v.pos + Total(sizes);
            var stop := if end <= |v.data| then end else |v.data|;
            && ViewAfter(v, ops, disk) == v.(pos := stop)
            && Collected(Replies(v, ops, disk)) == v.data[v.pos..stop]
  {
    hide OpStep, ViewAfter, Replies, Collected;
    if sizes == [] {
      NothingDone(v, disk);
    } else {
      var n := |sizes| - 1;
      var ops := ReadOps(sizes[..n]);
      ReadsCollect(v, sizes[..n], disk);
      OneMoreOp(v, ops, Read(sizes[n]), disk);
      OneRead(ViewAfter(v, ops, disk), sizes[n], disk);
    }
  }

  lemma NothingDone(v: View, disk: bool)
    ensures ViewAfter(v, [], disk) == v && Collected(Replies(v, [], disk)) == []
  {
  }

  lemma OneMoreOp(v: View, ops: seq<Op>, op: Op, disk: bool)
    ensures var (next, reply) := OpStep(ViewAfter(v, ops, disk), op, disk);
            && ViewAfter(v, ops + [op], disk) == next
            && Collected(Replies(v, ops + [op], disk)) ==
              Collected(Replies(v, ops, disk)) + if reply.Data? then reply.bytes else []
  {
    hide OpStep;
    assert (ops + [op])[..|ops|] == ops;
    var replies := Replies(v, ops + [op], disk);
    assert replies[..|replies| - 1] == Replies(v, ops, disk);
  }

  /**
   A storage that is rewound and read into non-empty buffers until they have held as much as the
   body returns exactly the body, wherever the cursor was, and the next read finds the end.
   */
  lemma RewoundBodyIsRead(v: View, sizes: seq<nat>, n: nat, disk: bool)
    requires !v.closed && n > 0 && forall i :: 0 <= i < |sizes| ==> sizes[i] > 0
    requires Total(sizes) >= |v.data|
    ensures var (rewound, reply) := OpStep(v, Seek(0, Start), disk);
            && reply == Position(0)
            && Collected(Replies(rewound, ReadOps(sizes), disk)) == v.data
            && OpStep(ViewAfter(rewound, ReadOps(sizes), disk), Read(n), disk).1 == Eof
  {
    var rewound := v.(pos := 0);
    ReadsCollect(rewound, sizes, disk);
    OneRead(ViewAfter(rewound, ReadOps(sizes), disk), n, disk);
  }

  /** A seek goes to the offset from the start, the cursor or the end, and is refused before the start. */
  lemma SeekMeaning(v: View, offset: int, whence: Whence, disk: bool)
    requires !v.closed
    ensures var base := if whence == Start then 0 else if whence == Current then v.pos else |v.data|;
            OpStep(v, Seek(offset, whence), disk) ==
              if base + offset < 0 then (v, BadSeek) else (v.(pos := base + offset), Position(base + offset))
  {
  }

  /** Once closed, a storage answers everything but its size and another close with an error. */
  lemma {:induction false} ClosedForGood(v: View, before: seq<Op>, after: seq<Op>, op: Op, disk: bool)
    requires op.Read? || op.Seek? || op.Bytes?
    ensures var closed := ViewAfter(v, before + [Close] + after, disk);
            closed.closed && OpStep(closed, op, disk) == (closed, Closed)
    decreases |after|
  {
    var ops := before + [Close] + after;
    if after == [] {
      assert ops == before + [Close];
      assert ops[..|ops| - 1] == before;
    } else {
      var front := after[..|after| - 1];
      ClosedForGood(v, before, front, op, disk);
      assert ops[..|ops| - 1] == before + [Close] + front;
    }
  }

  /** Runs the same operations on a storage of each kind. */
  method RunBoth(m: MemoryStorage, d: DiskStorage, ops: seq<Op>) returns (fromMemory: seq<Reply>, fromDisk: seq<Reply>)
    requires m.Valid() && d.Valid() && m.AsView() == d.AsView()
    modifies m, d, d.file, m.cache`stats, d.cache`stats
    ensures (forall i :: 0 <= i < |ops| ==> ops[i] != Read(0)) ==> fromMemory == fromDisk
    ensures m.AsView() == d.AsView()
    ensures fromMemory == Replies(old(m.AsView()), ops, false) && fromDisk == Replies(old(m.AsView()), ops, true)
  {
    ghost var v := m.AsView();
    fromMemory, fromDisk := [], [];
    for i := 0 to |ops|
      invariant m.Valid() && d.Valid()
      invariant m.AsView() == ViewAfter(v, ops[..i], false) && d.AsView() == ViewAfter(v, ops[..i], true)
      invariant fromMemory == Replies(v, ops[..i], false) && fromDisk == Replies(v, ops[..i], true)
    {
      assert ops[..i + 1][..i] == ops[..i];
      var x := m.Perform(ops[i]);
      var y := d.Perform(ops[i]);
      fromMemory, fromDisk := fromMemory + [x], fromDisk + [y];
    }
    assert ops[..|ops|] == ops;
    SameRepliesIff(v, ops);
    if forall i :: 0 <= i < |ops| ==> ops[i] != Read(0) {
      RealReadsNeverDiffer(v, ops);
    }
  }

  lemma {:induction false} RealReadsNeverDiffer(v: View, ops: seq<Op>)
    requires forall i :: 0 <= i < |ops| ==> ops[i] != Read(0)
    ensures NeverDiffers(v, ops)
  {
    if ops != [] {
      RealReadsNeverDiffer(v, ops[..|ops| - 1]);
    }
  }

  // ----- creation -----

  datatype Storage = Memory(memory: MemoryStorage) | Disk(disk: DiskStorage) {
    function AsView(): View
      reads if Memory? then {memory} else {disk, disk.file}
    {
      if Memory? then memory.AsView() else disk.AsView()
    }
  }

  /** A request body as it arrives; ok says whether reading it meets no error. */
  datatype Reader = Reader(body: seq<byte>, ok: bool)

  datatype Created = Failed(tooLarge: bool) | Stored(onDisk: bool, data: seq<byte>)

  predicate UsesDisk(config: Config, stats: Stats, size: int) {
    config.enabled && size >= config.ThresholdBytes() && DiskAvailable(config, stats, size)
  }

  /** A body that is in memory already goes to disk if it is large and fits; a failing disk falls back to memory. */
  function CreateStep(config: Config, stats: Stats, data: seq<byte>, diskOk: bool): (Stats, Created) {
    if UsesDisk(config, stats, |data|) && diskOk then (stats.WithDisk(|data|), Stored(true, data))
    else (stats.WithMemory(|data|), Stored(false, data))
  }

  function CountHit(stats: Stats, onDisk: bool): Stats {
    if onDisk then stats.(diskHits := stats.diskHits + 1) else stats.(memoryHits := stats.memoryHits + 1)
  }

  /** At most limit bytes of a body. */
  function Limited(body: seq<byte>, limit: int): seq<byte> {
    if limit <= 0 then [] else if |body| <= limit then body else body[..limit]
  }

  /** A streamed body goes to disk if its declared length is large and fits. */
  function StreamStep(config: Config, stats: Stats, r: Reader, contentLength: int, maxBytes: int,
      diskOk: bool): (Stats, Created) {
    var data := Limited(r.body, maxBytes + 1);
    if contentLength > 0 && UsesDisk(config, stats, contentLength) then
      if !diskOk || !r.ok then (stats, Failed(false))
      else if |data| > maxBytes then (stats, Failed(true))
      else (CountHit(stats.WithDisk(|data|), true), Stored(true, data))
    else if !r.ok then (stats, Failed(false))
    else if |data| > maxBytes then (stats, Failed(true))
    else
      var (stats', created) := CreateStep(config, stats, data, diskOk);
      (CountHit(stats', created.onDisk), created)
  }

  method CreateBodyStorage(cache: DiskCache, data: seq<byte>, diskOk: bool) returns (storage: Storage)
    modifies cache`stats
    ensures storage.AsView() == View(data, 0, false)
    ensures (cache.stats, Stored(storage.Disk?, data)) == CreateStep(cache.config, old(cache.stats), data, diskOk)
  {
    var size := |data|;
    if cache.config.enabled && size >= cache.config.ThresholdBytes() && DiskAvailable(cache.config, cache.stats, size) {
      if !diskOk {
        var fallback := new MemoryStorage(data, cache);
        return Memory(fallback);
      }
      var d := new DiskStorage(data, cache);
      return Disk(d);
    }
    var m := new MemoryStorage(data, cache);
    return Memory(m);
  }

  datatype Result = Error(tooLarge: bool) | Ok(storage: Storage)

  method CreateBodyStorageFromReader(cache: DiskCache, r: Reader, contentLength: int, maxBytes: int, diskOk: bool)
    returns (result: Result)
    modifies cache`stats
    ensures var (stats, created) := StreamStep(cache.config, old(cache.stats), r, contentLength, maxBytes, diskOk);
            && cache.stats == stats
            && (result.Error? <==> created.Failed?)
            && (created.Failed? ==> result.tooLarge == created.tooLarge)
            && (created.Stored? ==>
                  && result.storage.Disk? == created.onDisk
                  && result.storage.AsView() == View(created.data, 0, false))
  {
    if cache.config.enabled && contentLength > 0 && contentLength >= cache.config.ThresholdBytes()
       && DiskAvailable(cache.config, cache.stats, contentLength) {
      if !diskOk || !r.ok {
        return Error(false);
      }
      var written := Limited(r.body, maxBytes + 1);
      if |written| > maxBytes {
        return Error(true);
      }
      var d := new DiskStorage(written, cache);
      cache.stats := CountHit(cache.stats, true);
      return Ok(Disk(d));
    }
    if !r.ok {
      return Error(false);
    }
    var data := Limited(r.body, maxBytes + 1);
    if |data| > maxBytes {
      return Error(true);
    }
    var storage := CreateBodyStorage(cache, data, diskOk);
    cache.stats := CountHit(cache.stats, storage.Disk?);
    return Ok(storage);
  }

  /** Without errors, creation succeeds exactly if the body is not too large, and stores it unchanged. */
  lemma CreationStoresBody(config: Config, stats: Stats, body: seq<byte>, contentLength: int, maxBytes: int)
    ensures var created := StreamStep(config, stats, Reader(body, true), contentLength, maxBytes, true).1;
            && (created.Stored? <==> |body| <= maxBytes)
            && (created.Stored? ==> created.data == body)
            && (created.Failed? ==> created.tooLarge)
  {
    if 0 < maxBytes + 1 < |body| {
      assert |Limited(body, maxBytes + 1)| == maxBytes + 1;
    }
  }

  /** A body of this size goes to disk: caching is on, it is not below the threshold, and it fits, in megabytes. */
  predicate FitsDisk(config: Config, stats: Stats, size: int) {
    config.enabled && size >= config.thresholdMB * 1048576 && stats.diskBytes + size <= config.maxSizeMB * 1048576
  }

  /**
   Where a streamed body goes.  The declared length decides first; an error, or a failing disk on
   that way, is final.  A body that is too large is refused.  Any other is stored unchanged, on
   disk if its declared length led there or its own size does and the disk works; and the
   counters go up by one storage of its size and by one hit of that kind.
   */
  lemma StreamMeaning(config: Config, stats: Stats, r: Reader, contentLength: int, maxBytes: int, diskOk: bool)
    ensures var (stats', created) := StreamStep(config, stats, r, contentLength, maxBytes, diskOk);
            var direct := contentLength > 0 && FitsDisk(config, stats, contentLength);
            var onDisk := direct || (FitsDisk(config, stats, |r.body|) && diskOk);
            var size := |r.body|;
      if !r.ok || (direct && !diskOk) then created == Failed(false) && stats' == stats
      else if size > maxBytes then created == Failed(true) && stats' == stats
      else if onDisk then
        && created == Stored(true, r.body)
        && stats' == stats.(diskFiles := stats.diskFiles + 1, diskBytes := stats.diskBytes + size,
                            diskHits := stats.diskHits + 1)
      else
        && created == Stored(false, r.body)
        && stats' == stats.(memoryBuffers := stats.memoryBuffers + 1, memoryBytes := stats.memoryBytes + size,
                            memoryHits := stats.memoryHits + 1)
  {
    if 0 < maxBytes + 1 < |r.body| {
      assert |Limited(r.body, maxBytes + 1)| == maxBytes + 1;
    }
  }

  // ----- the counters over whole runs -----

  /** A storage that has been handed out. */
  datatype Handle = Handle(onDisk: bool, size: nat, open: bool)

  datatype State = State(stats: Stats, handles: seq<Handle>)

  datatype Step =
    | Create(data: seq<byte>, diskOk: bool)
    | Stream(reader: Reader, contentLength: int, maxBytes: int, diskOk: bool)
    | CloseHandle(i: nat)

  function HandOut(handles: seq<Handle>, c: Created): seq<Handle> {
    if c.Failed? then handles else handles + [Handle(c.onDisk, |c.data|, true)]
  }

  function After(config: Config, s: State, step: Step): State {
    match step
    case Create(data, diskOk) =>
      var (stats, created) := CreateStep(config, s.stats, data, diskOk);
      State(stats, HandOut(s.handles, created))
    case Stream(r, contentLength, maxBytes, diskOk) =>
      var (stats, created) := StreamStep(config, s.stats, r, contentLength, maxBytes, diskOk);
      State(stats, HandOut(s.handles, created))
    case CloseHandle(i) =>
      if i >= |s.handles| || !s.handles[i].open then s
      else
        var h := s.handles[i];
        State(if h.onDisk then s.stats.WithoutDisk(h.size) else s.stats.WithoutMemory(h.size),
              s.handles[i := h.(open := false)])
  }

  function Run(config: Config, s: State, steps: seq<Step>): State {
    if steps == [] then s else After(config, Run(config, s, steps[..|steps| - 1]), steps[|steps| - 1])
  }

  const IDLE := State(Stats(0, 0, 0, 0, 0, 0), [])

  function Number(handles: seq<Handle>, onDisk: bool): nat {
    if handles == [] then 0
    else
      var h := handles[|handles| - 1];
      Number(handles[..|handles| - 1], onDisk) + if h.open && h.onDisk == onDisk then 1 else 0
  }

  function Volume(handles: seq<Handle>, onDisk: bool): nat {
    if handles == [] then 0
    else
      var h := handles[|handles| - 1];
      Volume(handles[..|handles| - 1], onDisk) + if h.open && h.onDisk == onDisk then h.size else 0
  }

  /** The four counters are the number and the total size of the open storages of each kind. */
  predicate Accurate(s: State) {
    && s.stats.diskFiles == Number(s.handles, true) && s.stats.diskBytes == Volume(s.handles, true)
    && s.stats.memoryBuffers == Number(s.handles, false) && s.stats.memoryBytes == Volume(s.handles, false)
  }

  lemma {:induction false} CloseOne(handles: seq<Handle>, i: int, onDisk: bool)
    requires 0 <= i < |handles| && handles[i].open
    ensures var h, closed := handles[i], handles[i := handles[i].(open := false)];
            && Number(closed, onDisk) == Number(handles, onDisk) - (if h.onDisk == onDisk then 1 else 0)
            && Volume(closed, onDisk) == Volume(handles, onDisk) - (if h.onDisk == onDisk then h.size else 0)
  {
    var n := |handles| - 1;
    var closed := handles[i := handles[i].(open := false)];
    if i < n {
      CloseOne(handles[..n], i, onDisk);
      assert closed[..n] == handles[..n][i := handles[i].(open := false)];
    } else {
      assert closed[..n] == handles[..n];
    }
  }

  lemma HandOutOne(handles: seq<Handle>, c: Created, onDisk: bool)
    requires c.Stored?
    ensures Number(HandOut(handles, c), onDisk) == Number(handles, onDisk) + (if c.onDisk == onDisk then 1 else 0)
    ensures Volume(HandOut(handles, c), onDisk) == Volume(handles, onDisk) + (if c.onDisk == onDisk then |c.data|
          else 0)
  {
    var more := HandOut(handles, c);
    assert more[..|more| - 1] == handles;
  }

  /** Closing never takes a counter below zero, so the clamp at zero never fires. */
  predicate ClampIdle(s: State, step: Step) {
    step.CloseHandle? && step.i < |s.handles| && s.handles[step.i].open && s.handles[step.i].onDisk ==>
      s.stats.diskFiles - 1 >= 0 && s.stats.diskBytes - s.handles[step.i].size >= 0
  }

  lemma CreationKeepsAccurate(s: State, stats: Stats, c: Created)
    requires Accurate(s) && c.Stored?
    requires var grown := if c.onDisk then s.stats.WithDisk(|c.data|) else s.stats.WithMemory(|c.data|);
             stats == grown || stats == CountHit(grown, c.onDisk)
    ensures Accurate(State(stats, HandOut(s.handles, c)))
  {
    HandOutOne(s.handles, c, true);
    HandOutOne(s.handles, c, false);
  }

  lemma CloseKeepsAccurate(s: State, i: nat)
    requires Accurate(s) && i < |s.handles| && s.handles[i].open
    ensures ClampIdle(s, CloseHandle(i))
    ensures var h := s.handles[i];
            Accurate(State(if h.onDisk then s.stats.WithoutDisk(h.size) else s.stats.WithoutMemory(h.size),
                           s.handles[i := h.(open := false)]))
  {
    CloseOne(s.handles, i, true);
    CloseOne(s.handles, i, false);
  }

  lemma StepKeepsAccurate(config: Config, s: State, step: Step)
    requires Accurate(s)
    ensures Accurate(After(config, s, step)) && ClampIdle(s, step)
  {
    hide Accurate, UsesDisk, Limited, HandOut;
    match step
    case Create(data, diskOk) =>
      var (stats, created) := CreateStep(config, s.stats, data, diskOk);
      CreationKeepsAccurate(s, stats, created);
    case Stream(r, contentLength, maxBytes, diskOk) =>
      var (stats, created) := StreamStep(config, s.stats, r, contentLength, maxBytes, diskOk);
      if created.Stored? {
        CreationKeepsAccurate(s, stats, created);
      } else {
        assert HandOut(s.handles, created) == s.handles by { FailedHandsOutNothing(s.handles, created); }
      }
    case CloseHandle(i) =>
      if i < |s.handles| && s.handles[i].open {
        CloseKeepsAccurate(s, i);
      }
  }

  lemma FailedHandsOutNothing(handles: seq<Handle>, c: Created)
    requires c.Failed?
    ensures HandOut(handles, c) == handles
  {
  }

  predicate ClampNeverFires(config: Config, steps: seq<Step>) {
    steps != [] ==>
      ClampNeverFires(config, steps[..|steps| - 1])
      && ClampIdle(Run(config, IDLE, steps[..|steps| - 1]), steps[|steps| - 1])
  }

  /** In every run of creations and (repeated) closes the counters are accurate and the clamp is idle. */
  lemma {:induction false} CountersStayAccurate(config: Config, steps: seq<Step>)
    ensures Accurate(Run(config, IDLE, steps))
    ensures ClampNeverFires(config, steps)
  {
    hide Accurate, ClampIdle, After;
    assert Accurate(IDLE) by { IdleIsAccurate(); }
    if steps != [] {
      var n := |steps| - 1;
      CountersStayAccurate(config, steps[..n]);
      StepKeepsAccurate(config, Run(config, IDLE, steps[..n]), steps[n]);
    }
  }

  lemma IdleIsAccurate()
    ensures Accurate(IDLE)
  {
  }

  /** The body is not longer than declared, or not streamed straight to disk. */
  predicate Honest(step: Step) {
    step.Stream? && step.contentLength > 0 ==> |step.reader.body| <= step.contentLength
  }

  predicate WithinLimit(config: Config, s: State) {
    s.stats.diskBytes <= 0 || s.stats.diskBytes <= config.MaxBytes()
  }

  /** With bodies no longer than declared, the disk space in use never exceeds the configured maximum. */
  lemma {:induction false} DiskUsageStaysWithinLimit(config: Config, steps: seq<Step>)
    requires forall i :: 0 <= i < |steps| ==> Honest(steps[i])
    ensures WithinLimit(config, Run(config, IDLE, steps))
  {
    if steps != [] {
      var n := |steps| - 1;
      DiskUsageStaysWithinLimit(config, steps[..n]);
      assert Honest(steps[n]);
      LimitKept(config, Run(config, IDLE, steps[..n]), steps[n]) by {
        CountersStayAccurate(config, steps[..n]);
      }
    }
  }

  lemma LimitKept(config: Config, s: State, step: Step)
    requires WithinLimit(config, s) && Honest(step) && Accurate(s)
    ensures WithinLimit(config, After(config, s, step))
  {
    if step.CloseHandle? {
      StepKeepsAccurate(config, s, step);
    }
  }

  /** Every body streamed with a declared length has a declared and an actual length of the given class. */
  predicate Declared(possible: (int, nat) -> bool, steps: seq<Step>) {
    forall i :: 0 <= i < |steps| && steps[i].Stream? ==> possible(steps[i].contentLength, |steps[i].reader.body|)
  }

  /** Under every configuration, no run exceeds the maximum. */
  ghost predicate StaysWithin(possible: (int, nat) -> bool) {
    forall config, steps :: Declared(possible, steps) ==> WithinLimit(config, Run(config, IDLE, steps))
  }

  function Zeros(n: nat): (r: seq<byte>)
    ensures |r| == n
  {
    if n == 0 then [] else Zeros(n - 1) + [0]
  }

  /** A maximum that has room for the declared length. */
  function Roomy(declared: nat): Config {
    Config(true, 0, declared)
  }

  /** The disk is filled up to what the body declares; then the body arrives. */
  function Overfill(declared: nat, actual: nat): seq<Step> {
    [Create(Zeros(Roomy(declared).MaxBytes() - declared), true),
     Stream(Reader(Zeros(actual), true), declared, actual, true)]
  }

  /** Every body longer than declared exceeds the limit of a disk that has room for no more than it declares. */
  lemma LongerBodyExceedsLimit(declared: nat, actual: nat)
    requires 0 < declared < actual
    ensures var config := Roomy(declared);
            && WithinLimit(config, Run(config, IDLE, Overfill(declared, actual)[..1]))
            && !WithinLimit(config, Run(config, IDLE, Overfill(declared, actual)))
  {
    var config, steps := Roomy(declared), Overfill(declared, actual);
    var body := Zeros(actual);
    assert Limited(body, actual + 1) == body;
    assert steps[..1][..0] == [];
    assert Run(config, IDLE, steps[..1]) == After(config, IDLE, steps[0]);
    assert Run(config, IDLE, steps) == After(config, After(config, IDLE, steps[0]), steps[1]);
  }

  /**
   Whatever lengths bodies may have: no run under any configuration exceeds the maximum exactly
   if no body that declares a length is longer than that.
   */
  lemma StaysWithinIff(possible: (int, nat) -> bool)
    ensures StaysWithin(possible) <==>
      forall declared, actual: nat :: possible(declared, actual) && declared > 0 ==> actual <= declared
  {
    hide Run, WithinLimit;
    if forall declared, actual: nat :: possible(declared, actual) && declared > 0 ==> actual <= declared {
      forall config, steps | Declared(possible, steps)
        ensures WithinLimit(config, Run(config, IDLE, steps))
      {
        DiskUsageStaysWithinLimit(config, steps);
      }
    }
    if declared, actual: nat :| possible(declared, actual) && declared > 0 && actual > declared {
      LongerBodyExceedsLimit(declared, actual);
      assert Declared(possible, Overfill(declared, actual));
    }
  }
}
