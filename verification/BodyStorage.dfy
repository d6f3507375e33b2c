/**
 Storage of request bodies, in memory or in a temporary file, behind one interface, with
 global counters of what is open and a limit on the disk space used.
 */
module BodyStorage {
  import opened Basics

  // ----- configuration and counters -----

  datatype Config = Config(enabled: bool, thresholdMB: int, maxSizeMB: int) {
    function ThresholdBytes(): int { thresholdMB * 0x10_0000 }
    function MaxBytes(): int { maxSizeMB * 0x10_0000 }
  }

  datatype Stats = Stats(diskFiles: int, diskBytes: int, memoryBuffers: int, memoryBytes: int, diskHits: int,
      memoryHits: int) {
    function WithDisk(size: int): Stats { this.(diskFiles := diskFiles + 1, diskBytes := diskBytes + size) }

    /** Counters that would become negative are set to zero. */
    function WithoutDisk(size: int): Stats {
      this.(diskFiles := if diskFiles - 1 < 0 then 0 else diskFiles - 1,
            diskBytes := if diskBytes - size < 0 then 0 else diskBytes - size)
    }

    function WithMemory(size: int): Stats { this.(memoryBuffers := memoryBuffers + 1,
        memoryBytes := memoryBytes + size) }

    function WithoutMemory(size: int): Stats { this.(memoryBuffers := memoryBuffers - 1,
        memoryBytes := memoryBytes - size) }
  }

  predicate DiskAvailable(config: Config, stats: Stats, size: int) {
    config.enabled && stats.diskBytes + size <= config.MaxBytes()
  }

  class DiskCache {
    var config: Config
    var stats: Stats

    constructor (config: Config)
      ensures this.config == config && stats == Stats(0, 0, 0, 0, 0, 0)
    {
      this.config, stats := config, Stats(0, 0, 0, 0, 0, 0);
    }

    method IncrementDiskFiles(size: int)
      modifies this`stats
      ensures stats == old(stats).WithDisk(size)
    {
      stats := stats.(diskFiles := stats.diskFiles + 1);
      stats := stats.(diskBytes := stats.diskBytes + size);
    }

    method DecrementDiskFiles(size: int)
      modifies this`stats
      ensures stats == old(stats).WithoutDisk(size)
    {
      stats := stats.(diskFiles := stats.diskFiles - 1);
      if stats.diskFiles < 0 {
        stats := stats.(diskFiles := 0);
      }
      stats := stats.(diskBytes := stats.diskBytes - size);
      if stats.diskBytes < 0 {
        stats := stats.(diskBytes := 0);
      }
    }

    method IncrementMemoryBuffers(size: int)
      modifies this`stats
      ensures stats == old(stats).WithMemory(size)
    {
      stats := stats.(memoryBuffers := stats.memoryBuffers + 1, memoryBytes := stats.memoryBytes + size);
    }

    method DecrementMemoryBuffers(size: int)
      modifies this`stats
      ensures stats == old(stats).WithoutMemory(size)
    {
      stats := stats.(memoryBuffers := stats.memoryBuffers - 1, memoryBytes := stats.memoryBytes - size);
    }
  }

  // ----- what an open storage does -----

  datatype Whence = Start | Current | End

  datatype Op = Read(n: nat) | Seek(offset: int, whence: Whence) | Bytes | Size | Close

  datatype Reply = Data(bytes: seq<byte>) | Eof | Position(at: int) | Length(size: int) | Done | Closed | BadSeek

  /** A storage as its user sees it: contents, cursor, closed or not. */
  datatype View = View(data: seq<byte>, pos: nat, closed: bool)

  function Chunk(v: View, n: nat): seq<byte>
    requires v.pos <= |v.data|
  {
    v.data[v.pos..if v.pos + n <= |v.data| then v.pos + n else |v.data|]
  }

  function SeekTarget(v: View, offset: int, whence: Whence): int {
    match whence
    case Start => offset
    case Current => v.pos + offset
    case End => |v.data| + offset
  }

  /** The two kinds of storage differ only in how they answer a read into an empty buffer. */
  function OpStep(v: View, op: Op, disk: bool): (View, Reply) {
    match op
    case Size => (v, Length(|v.data|))
    case Close => (v.(closed := true), Done)
    case Read(n) =>
      if v.closed then (v, Closed)
      else if disk && n == 0 then (v, Data([]))
      else if v.pos >= |v.data| then (v, Eof)
      else (v.(pos := v.pos + |Chunk(v, n)|), Data(Chunk(v, n)))
    case Seek(offset, whence) =>
      if v.closed then (v, Closed)
      else if SeekTarget(v, offset, whence) < 0 then (v, BadSeek)
      else (v.(pos := SeekTarget(v, offset, whence)), Position(SeekTarget(v, offset, whence)))
    case Bytes => (v, if v.closed then Closed else Data(v.data))
  }

  // ----- memory storage -----

  class MemoryStorage {
    const data: seq<byte>
    const size: int
    var pos: nat
    var closed: bool
    const cache: DiskCache

    constructor (data: seq<byte>, cache: DiskCache)
      modifies cache`stats
      ensures this.cache == cache && Valid() && AsView() == View(data, 0, false)
      ensures cache.stats == old(cache.stats).WithMemory(|data|)
    {
      this.data, this.size, this.cache := data, |data|, cache;
      pos, closed := 0, false;
      new;
      cache.IncrementMemoryBuffers(size);
    }

    predicate Valid() reads this { size == |data| }

    function AsView(): View reads this { View(data, pos, closed) }

    method Perform(op: Op) returns (reply: Reply)
      requires Valid()
      modifies this, cache`stats
      ensures Valid() && (AsView(), reply) == OpStep(old(AsView()), op, false)
      ensures cache.stats == if op.Close? && !old(closed) then old(cache.stats).WithoutMemory(|data|)
            else old(cache.stats)
    {
      match op
      case Read(n) => reply := Read(n);
      case Seek(offset, whence) => reply := Seek(offset, whence);
      case Bytes => reply := Bytes();
      case Size => reply := Length(size);
      case Close => Close(); reply := Done;
    }

    method Read(n: nat) returns (reply: Reply)
      modifies this`pos
      ensures (AsView(), reply) == OpStep(old(AsView()), Op.Read(n), false)
    {
      if closed {
        return Closed;
      }
      if pos >= |data| {
        return Eof;
      }
      var end := if pos + n <= |data| then pos + n else |data|;
      reply := Data(data[pos..end]);
      pos := end;
    }

    method Seek(offset: int, whence: Whence) returns (reply: Reply)
      modifies this`pos
      ensures (AsView(), reply) == OpStep(old(AsView()), Op.Seek(offset, whence), false)
    {
      if closed {
        return Closed;
      }
      var target := match whence
        case Start => offset
        case Current => pos + offset
        case End => |data| + offset;
      if target < 0 {
        return BadSeek;
      }
      pos := target;
      reply := Position(target);
    }

    method Bytes() returns (reply: Reply)
      ensures (AsView(), reply) == OpStep(AsView(), Op.Bytes, false)
    {
      reply := if closed then Closed else Data(data);
    }

    /** The counters go down on the first close only. */
    method Close()
      requires Valid()
      modifies this`closed, cache`stats
      ensures closed
      ensures cache.stats == if old(closed) then old(cache.stats) else old(cache.stats).WithoutMemory(|data|)
    {
      if !closed {
        closed := true;
        cache.DecrementMemoryBuffers(size);
      }
    }
  }

  // ----- disk storage -----

  /** A temporary file open for reading, with its offset. */
  class File {
    const content: seq<byte>
    var pos: nat

    constructor (content: seq<byte>)
      ensures this.content == content && pos == 0
    {
      this.content, pos := content, 0;
    }

    function AsView(): View reads this { View(content, pos, false) }

    method Read(n: nat) returns (reply: Reply)
      modifies this`pos
      ensures (AsView(), reply) == OpStep(old(AsView()), Op.Read(n), true)
    {
      if n == 0 {
        return Data([]);
      }
      if pos >= |content| {
        return Eof;
      }
      var end := if pos + n <= |content| then pos + n else |content|;
      reply := Data(content[pos..end]);
      pos := end;
    }

    method Seek(offset: int, whence: Whence) returns (reply: Reply)
      modifies this`pos
      ensures (AsView(), reply) == OpStep(old(AsView()), Op.Seek(offset, whence), true)
    {
      var target := match whence
        case Start => offset
        case Current => pos + offset
        case End => |content| + offset;
      if target < 0 {
        return BadSeek;
      }
      pos := target;
      reply := Position(target);
    }
  }

  class DiskStorage {
    const file: File
    const size: int
    var closed: bool
    const cache: DiskCache

    constructor (data: seq<byte>, cache: DiskCache)
      modifies cache`stats
      ensures this.cache == cache && fresh(file) && Valid() && AsView() == View(data, 0, false)
      ensures cache.stats == old(cache.stats).WithDisk(|data|)
    {
      file := new File(data);
      this.size, this.cache, closed := |data|, cache, false;
      new;
      cache.IncrementDiskFiles(size);
    }

    predicate Valid() reads this { size == |file.content| }

    function AsView(): View reads this, file { View(file.content, file.pos, closed) }

    method Perform(op: Op) returns (reply: Reply)
      requires Valid()
      modifies this, file, cache`stats
      ensures Valid() && (AsView(), reply) == OpStep(old(AsView()), op, true)
      ensures cache.stats == if op.Close? && !old(closed) then old(cache.stats).WithoutDisk(|file.content|)
            else old(cache.stats)
    {
      match op
      case Read(n) => reply := Read(n);
      case Seek(offset, whence) => reply := Seek(offset, whence);
      case Bytes => reply := Bytes();
      case Size => reply := Length(size);
      case Close => Close(); reply := Done;
    }

    method Read(n: nat) returns (reply: Reply)
      modifies file`pos
      ensures (AsView(), reply) == OpStep(old(AsView()), Op.Read(n), true)
    {
      if closed {
        return Closed;
      }
      reply := file.Read(n);
    }

    method Seek(offset: int, whence: Whence) returns (reply: Reply)
      modifies file`pos
      ensures (AsView(), reply) == OpStep(old(AsView()), Op.Seek(offset, whence), true)
    {
      if closed {
        return Closed;
      }
      reply := file.Seek(offset, whence);
    }

    /** Remembers the cursor, reads the whole file from its start, and puts the cursor back. */
    method Bytes() returns (reply: Reply)
      requires Valid()
      modifies file`pos
      ensures (AsView(), reply) == OpStep(old(AsView()), Op.Bytes, true)
    {
      if closed {
        return Closed;
      }
      var current := file.Seek(0, Current);
      if current.BadSeek? {
        return current;
      }
      var start := file.Seek(0, Start);
      if start.BadSeek? {
        return start;
      }
      reply := file.Read(size);
      assert file.content[0..|file.content|] == file.content;
      if !reply.Data? {
        return;
      }
      var restored := file.Seek(current.at, Start);
    }

    method Close()
      requires Valid()
      modifies this`closed, cache`stats
      ensures closed
      ensures cache.stats == if old(closed) then old(cache.stats) else old(cache.stats).WithoutDisk(|file.content|)
    {
      if !closed {
        closed := true;
        cache.DecrementDiskFiles(size);
      }
    }
  }
}
