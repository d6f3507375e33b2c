/**
 The Ogg page scanner that finds the duration of an Opus file.

 The scanner walks a byte stream header by header: it resynchronises one byte at a time
 until it sees the capture pattern, takes the granule position from the fixed part of the
 header, sums the segment table and jumps over the payload.  Pages are laid out as in
 section 6 of RFC 3533.
 */
module OggScanner {
  import opened Basics

  const HEADER_SIZE: nat := 27
  const CAPTURE: seq<byte> := [0x4F, 0x67, 0x67, 0x53] // "OggS"

  // ----- little-endian numbers -----

  /** An unsigned 64-bit number from eight bytes, least significant byte first. */
  function Uint64At(bytes: seq<byte>, i: nat): nat
    requires i + 8 <= |bytes|
  {
    Uint32At(bytes, i) + 0x1_0000_0000 * Uint32At(bytes, i + 4)
  }

  function Uint32At(bytes: seq<byte>, i: nat): (r: nat)
    requires i + 4 <= |bytes|
    ensures r < 0x1_0000_0000
  {
    var b0: int, b1: int, b2: int, b3: int := bytes[i], bytes[i + 1], bytes[i + 2], bytes[i + 3];
    b0 + 0x100 * b1 + 0x1_0000 * b2 + 0x100_0000 * b3
  }

  /** The two's complement reading of an unsigned 64-bit number. */
  function AsInt64(u: nat): int {
    if u < 0x8000_0000_0000_0000 then u else u - 0x1_0000_0000_0000_0000
  }

  function Sum(sizes: seq<byte>): nat {
    if sizes == [] then 0 else Sum(sizes[..|sizes| - 1]) + sizes[|sizes| - 1]
  }

  // ----- what the scanner computes -----

  predicate HeaderAt(data: seq<byte>, pos: nat) {
    pos + HEADER_SIZE <= |data| && data[pos..pos + 4] == CAPTURE
  }

  function GranuleAt(data: seq<byte>, pos: nat): int
    requires HeaderAt(data, pos)
  {
    AsInt64(Uint64At(data, pos + 6))
  }

  /** A page header the scanner has taken: where it starts and the granule position it carries. */
  datatype Header = Header(at: nat, granule: int)

  /** The headers taken by a scan that starts at pos, in order. */
  function Headers(data: seq<byte>, pos: nat): seq<Header>
    decreases |data| - pos
  {
    if pos + HEADER_SIZE > |data| then []
    else if !HeaderAt(data, pos) then Headers(data, pos + 1)
    else
      var header := Header(pos, GranuleAt(data, pos));
      if !TableFits(data, pos) then [header]
      else [header] + Headers(data, PageEnd(data, pos))
  }

  predicate TableFits(data: seq<byte>, pos: nat)
    requires HeaderAt(data, pos)
  {
    pos + HEADER_SIZE + data[pos + 26] <= |data|
  }

  /** Where the page at pos ends, once its segment table has been read. */
  function PageEnd(data: seq<byte>, pos: nat): (end: nat)
    requires HeaderAt(data, pos) && TableFits(data, pos)
    ensures end >= pos + HEADER_SIZE
  {
    var table := pos + HEADER_SIZE + data[pos + 26];
    table + Sum(data[pos + HEADER_SIZE..table])
  }

  /** total is the larger of zero and the largest granule position. */
  ghost predicate IsTotal(total: int, headers: seq<Header>) {
    && total >= 0
    && (forall i :: 0 <= i < |headers| ==> headers[i].granule <= total)
    && (total == 0 || exists i :: 0 <= i < |headers| && headers[i].granule == total)
  }

  // ----- the scanner -----

  /** A seekable reader over bytes in memory or in a regular file: reads are never short before the end. */
  class SeekableReader {
    const data: seq<byte>
    var pos: nat

    constructor (bytes: seq<byte>)
      ensures data == bytes && pos == 0
    {
      data := bytes;
      pos := 0;
    }

    method Read(buf: array<byte>) returns (n: nat, eof: bool)
      modifies this`pos, buf
      ensures eof <==> old(pos) >= |data|
      ensures eof ==> n == 0 && pos == old(pos)
      ensures !eof ==> n == (if old(pos) + buf.Length <= |data| then buf.Length else |data| - old(pos))
      ensures !eof ==> pos == old(pos) + n <= |data| && buf[..n] == data[old(pos)..pos]
    {
      if pos >= |data| {
        return 0, true;
      }
      n := if pos + buf.Length <= |data| then buf.Length else |data| - pos;
      forall i | 0 <= i < n {
        buf[i] := data[pos + i];
      }
      assert buf[..n] == data[pos..pos + n];
      pos := pos + n;
      eof := false;
    }

    /** Fills the whole buffer or reports failure; an empty buffer is always full. */
    method ReadFull(buf: array<byte>) returns (ok: bool)
      modifies this`pos, buf
      ensures ok <==> buf.Length == 0 || old(pos) + buf.Length <= |data|
      ensures ok ==> pos == old(pos) + buf.Length
      ensures ok && old(pos) <= |data| ==> buf[..] == data[old(pos)..pos]
    {
      if buf.Length == 0 {
        return true;
      }
      var n, eof := Read(buf);
      ok := !eof && n == buf.Length;
      if ok {
        assert buf[..] == buf[..n];
      }
    }

    method SeekCurrent(offset: int) returns (ok: bool)
      modifies this`pos
      ensures ok <==> old(pos) + offset >= 0
      ensures pos == if ok then old(pos) + offset else old(pos)
    {
      ok := pos + offset >= 0;
      if ok {
        pos := pos + offset;
      }
    }

    method SeekStart()
      modifies this`pos
      ensures pos == 0
    {
      pos := 0;
    }
  }

  method SumSegments(table: array<byte>) returns (size: nat)
    ensures size == Sum(table[..])
  {
    size := 0;
    for i := 0 to table.Length
      invariant size == Sum(table[..i])
    {
      assert table[..i + 1][..i] == table[..i];
      size := size + table[i];
    }
    assert table[..] == table[..table.Length];
  }

  /** Reads the segment table of the page at pos and jumps over the payload it describes. */
  method SkipPage(r: SeekableReader, segments: byte, ghost pos: nat) returns (ok: bool)
    requires HeaderAt(r.data, pos) && r.pos == pos + HEADER_SIZE && segments == r.data[pos + 26]
    modifies r`pos
    ensures ok <==> TableFits(r.data, pos)
    ensures ok ==> r.pos == PageEnd(r.data, pos)
  {
    var table := new byte[segments];
    ok := r.ReadFull(table);
    if !ok {
      return;
    }
    var size := SumSegments(table);
    ok := r.SeekCurrent(size);
  }

  /** A scan that has reached pos after taking the headers in taken, with the given running total. */
  ghost predicate Reached(data: seq<byte>, taken: seq<Header>, pos: nat, total: int) {
    && Headers(data, 0) == taken + Headers(data, pos)
    && IsTotal(total, taken)
  }

  lemma ReachedHeader(data: seq<byte>, taken: seq<Header>, pos: nat, total: int, total': int)
    requires Reached(data, taken, pos, total)
    requires HeaderAt(data, pos)
    requires total' == if GranuleAt(data, pos) > total then GranuleAt(data, pos) else total
    ensures var taken' := taken + [Header(pos, GranuleAt(data, pos))];
            if TableFits(data, pos) then Reached(data, taken', PageEnd(data, pos), total')
            else taken' == Headers(data, 0) && IsTotal(total', taken')
  {
    var header := Header(pos, GranuleAt(data, pos));
    TotalExtends(total, taken, header);
    if TableFits(data, pos) {
      var rest := Headers(data, PageEnd(data, pos));
      assert taken + ([header] + rest) == (taken + [header]) + rest;
    }
  }

  lemma TotalExtends(total: int, headers: seq<Header>, header: Header)
    requires IsTotal(total, headers)
    ensures IsTotal(if header.granule > total then header.granule else total, headers + [header])
  {
    var headers' := headers + [header];
    assert headers'[|headers|] == header;
    if header.granule <= total && total != 0 {
      var i :| 0 <= i < |headers| && headers[i].granule == total;
      assert headers'[i].granule == total;
    }
  }

  lemma HeaderFields(data: seq<byte>, pos: nat, head: seq<byte>)
    requires pos + HEADER_SIZE <= |data| && head == data[pos..pos + HEADER_SIZE]
    ensures head[0..4] == data[pos..pos + 4]
    ensures Uint64At(head, 6) == Uint64At(data, pos + 6)
    ensures head[26] == data[pos + 26]
  {
    assert forall i :: 0 <= i < HEADER_SIZE ==> head[i] == data[pos + i];
  }

  /** Scans a whole stream: the total is the largest granule position of the headers taken, or zero. */
  method OpusGranulePosition(r: SeekableReader) returns (total: int)
    modifies r`pos
    ensures IsTotal(total, Headers(r.data, 0))
  {
    r.SeekStart();
    total := 0;
    var buf := new byte[HEADER_SIZE];
    ghost var taken: seq<Header> := [];
    while true
      invariant fresh(buf) && buf.Length == HEADER_SIZE
      invariant Reached(r.data, taken, r.pos, total)
      decreases |r.data| - r.pos
    {
      ghost var at := r.pos;
      var n, eof := r.Read(buf);
      if eof || n < HEADER_SIZE {
        assert taken == Headers(r.data, 0);
        break;
      }
      var head := buf[..n];
      HeaderFields(r.data, at, head);
      if head[0..4] != CAPTURE {
        var ok := r.SeekCurrent(-26);
        continue;
      }
      ghost var total0 := total;
      var granule := AsInt64(Uint64At(head, 6));
      if granule > total {
        total := granule;
      }
      ReachedHeader(r.data, taken, at, total0, total);
      taken := taken + [Header(at, granule)];
      var ok := SkipPage(r, head[26], at);
      if !ok {
        break;
      }
    }
  }
}
