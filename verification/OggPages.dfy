/**
 The page encoder of section 6 of RFC 3533, and what the scanner makes of encoded pages:
 pages separated by arbitrary junk, and a stream cut off in the middle of a page.
 */
module OggPages {
  import opened Basics
  import opened OggScanner

  // ----- encoding -----

  function EncodeUint32(n: nat): (r: seq<byte>)
    requires n < 0x1_0000_0000
    ensures |r| == 4
    ensures Uint32At(r, 0) == n
  {
    var n1 := n / 0x100;
    var n2 := n1 / 0x100;
    [n % 0x100, n1 % 0x100, n2 % 0x100, n2 / 0x100]
  }

  function EncodeUint64(n: nat): (r: seq<byte>)
    requires n < 0x1_0000_0000_0000_0000
    ensures |r| == 8
    ensures Uint64At(r, 0) == n
  {
    EncodeUint32(n % 0x1_0000_0000) + EncodeUint32(n / 0x1_0000_0000)
  }

  /** The unsigned 64-bit pattern of a signed number. */
  function ToUint64(i: int): (u: nat)
    requires -0x8000_0000_0000_0000 <= i < 0x8000_0000_0000_0000
    ensures u < 0x1_0000_0000_0000_0000 && AsInt64(u) == i
  {
    if i >= 0 then i else i + 0x1_0000_0000_0000_0000
  }

  /** The payload of a page: its segments one after the other. */
  function Flatten(segments: seq<seq<byte>>): seq<byte> {
    if segments == [] then [] else segments[0] + Flatten(segments[1..])
  }

  /** A page: the fixed fields of its header, and up to 255 segments of up to 255 bytes each. */
  datatype Page = Page(version: byte, flags: byte, granule: int, serial: nat, sequence: nat, checksum: nat,
                       segments: seq<seq<byte>>)
  {
    predicate WellFormed() {
      && -0x8000_0000_0000_0000 <= granule < 0x8000_0000_0000_0000
      && serial < 0x1_0000_0000 && sequence < 0x1_0000_0000 && checksum < 0x1_0000_0000
      && |segments| <= 0xFF
      && forall i :: 0 <= i < |segments| ==> |segments[i]| <= 0xFF
    }

    /** The segment table: the length of each segment. */
    function Table(): (r: seq<byte>)
      requires WellFormed()
      ensures |r| == |segments| && forall i :: 0 <= i < |r| ==> r[i] == |segments[i]|
    {
      seq(|segments|, i requires 0 <= i < |segments| => |segments[i]|)
    }

    function FixedFields(): (r: seq<byte>)
      requires WellFormed()
      ensures |r| == HEADER_SIZE - 4
    {
      [version, flags] + EncodeUint64(ToUint64(granule)) + EncodeUint32(serial)
      + EncodeUint32(sequence) + EncodeUint32(checksum) + [|segments|]
    }

    function Encode(): (r: seq<byte>)
      requires WellFormed()
      ensures |r| == HEADER_SIZE + |segments| + |Flatten(segments)|
      ensures r[..4] == CAPTURE
    {
      CAPTURE + FixedFields() + Table() + Flatten(segments)
    }
  }

  /** The bytes of exactly one page: header, segment table and the payload the table announces. */
  predicate PageBytes(bytes: seq<byte>) {
    && HeaderAt(bytes, 0)
    && TableFits(bytes, 0)
    && PageEnd(bytes, 0) == |bytes|
  }

  /** The segment lengths add up to the length of the payload. */
  lemma {:induction false} TableSum(segments: seq<seq<byte>>, table: seq<byte>)
    requires |table| == |segments| && forall i :: 0 <= i < |table| ==> table[i] == |segments[i]|
    ensures Sum(table) == |Flatten(segments)|
    decreases |segments|
  {
    if segments != [] {
      TableSum(segments[1..], table[1..]);
      SumHead(table);
    }
  }

  lemma {:induction false} SumHead(table: seq<byte>)
    requires table != []
    ensures Sum(table) == table[0] + Sum(table[1..])
  {
    var n := |table| - 1;
    if n > 0 {
      SumHead(table[..n]);
      assert table[..n][1..] == table[1..][..n - 1];
    }
  }

  /** Every well-formed page encodes to page bytes that carry its granule position. */
  lemma EncodedPage(page: Page)
    requires page.WellFormed()
    ensures PageBytes(page.Encode())
    ensures GranuleAt(page.Encode(), 0) == page.granule
  {
    var e, table := page.Encode(), page.Table();
    var header := CAPTURE + page.FixedFields();
    assert e[..HEADER_SIZE] == header;
    var granule := EncodeUint64(ToUint64(page.granule));
    assert forall i :: 0 <= i < 8 ==> e[6 + i] == page.FixedFields()[2 + i] == granule[i];
    assert e[26] == page.FixedFields()[22] == |table|;
    assert e[HEADER_SIZE..HEADER_SIZE + |table|] == table;
    TableSum(page.segments, table);
  }

  // ----- one page in a longer stream -----

  /** Slicing data through a window that starts at pos. */
  lemma Window(data: seq<byte>, pos: nat, view: seq<byte>, from: nat, to: nat)
    requires pos <= |data| && view <= data[pos..]
    requires from <= to <= |view|
    ensures data[pos + from..pos + to] == view[from..to]
    ensures from < |view| ==> data[pos + from] == view[from]
  {
    assert forall i :: 0 <= i < |view| ==> view[i] == data[pos..][i] == data[pos + i];
  }

  lemma HeaderInWindow(data: seq<byte>, pos: nat, view: seq<byte>)
    requires pos <= |data| && view <= data[pos..]
    requires HeaderAt(view, 0)
    ensures HeaderAt(data, pos) && GranuleAt(data, pos) == GranuleAt(view, 0)
    ensures data[pos + 26] == view[26]
    ensures TableFits(view, 0) ==> TableFits(data, pos) && PageEnd(data, pos) == pos + PageEnd(view, 0)
  {
    Window(data, pos, view, 0, 4);
    assert forall i :: 6 <= i < 14 ==> data[pos + i] == data[pos..][i] == view[i];
    Window(data, pos, view, 26, 27);
    if TableFits(view, 0) {
      Window(data, pos, view, HEADER_SIZE, HEADER_SIZE + view[26]);
    }
  }

  /** At the start of a page the scanner takes the header and jumps exactly to the page's end. */
  lemma PageIsTaken(data: seq<byte>, pos: nat, page: seq<byte>)
    requires PageBytes(page)
    requires pos <= |data| && page <= data[pos..]
    ensures Headers(data, pos) == [Header(pos, GranuleAt(page, 0))] + Headers(data, pos + |page|)
  {
    hide HeaderAt, GranuleAt, TableFits, PageEnd;
    HeaderInWindow(data, pos, page);
  }

  /** A page cut off anywhere still yields its granule if the fixed header survived, and nothing otherwise. */
  lemma CutPage(data: seq<byte>, pos: nat, page: seq<byte>)
    requires PageBytes(page)
    requires pos <= |data| && data[pos..] < page
    ensures Headers(data, pos) == if |data| - pos < HEADER_SIZE then [] else [Header(pos, GranuleAt(page, 0))]
  {
    var tail := data[pos..];
    if |tail| >= HEADER_SIZE {
      assert page[0..] == page && tail[0..4] == page[0..4];
      HeaderInWindow(page, 0, tail);
      HeaderInWindow(data, pos, tail);
    }
  }

  // ----- resynchronisation -----

  predicate CaptureAt(bytes: seq<byte>, i: nat) {
    i + 4 <= |bytes| && bytes[i..i + 4] == CAPTURE
  }

  predicate NoCapture(bytes: seq<byte>) {
    forall i :: 0 <= i < |bytes| ==> !CaptureAt(bytes, i)
  }

  /** What follows the junk is empty or begins like a page. */
  predicate BeginsLikePage(bytes: seq<byte>) {
    if |bytes| < 4 then bytes <= CAPTURE else bytes[..4] == CAPTURE
  }

  /** No capture pattern straddles the end of capture-free junk and the beginning of a page. */
  lemma NoStraddle(junk: seq<byte>, rest: seq<byte>, i: nat)
    requires NoCapture(junk) && BeginsLikePage(rest)
    requires i < |junk|
    ensures !CaptureAt(junk + rest, i)
  {
    var both := junk + rest;
    if i + 4 <= |junk| {
      assert both[i..i + 4] == junk[i..i + 4];
      assert !CaptureAt(junk, i);
    } else if i + 4 <= |both| {
      // the page's first byte is 'O', which the pattern does not repeat
      var k := |junk| - i;
      assert both[i..i + 4][k] == rest[0] == CAPTURE[0];
      assert CAPTURE[k] != CAPTURE[0];
    }
  }

  lemma {:induction false} JunkIsSkipped(data: seq<byte>, pos: nat, junk: seq<byte>, rest: seq<byte>, i: nat)
    requires NoCapture(junk) && BeginsLikePage(rest)
    requires pos <= |data| && data[pos..] == junk + rest
    requires i <= |junk|
    ensures Headers(data, pos + i) == Headers(data, pos + |junk|)
    decreases |junk| - i
  {
    if i < |junk| {
      JunkIsSkipped(data, pos, junk, rest, i + 1);
      if pos + i + HEADER_SIZE <= |data| {
        NoStraddle(junk, rest, i);
        Window(data, pos, junk + rest, i, i + 4);
      }
    }
  }

  // ----- whole streams -----

  /** Some bytes followed by one page. */
  datatype Chunk = Chunk(junk: seq<byte>, page: Page) {
    predicate Valid() { NoCapture(junk) && page.WellFormed() }
  }

  predicate AllValid(chunks: seq<Chunk>) {
    forall i :: 0 <= i < |chunks| ==> chunks[i].Valid()
  }

  function Concat(chunks: seq<Chunk>): seq<byte>
    requires AllValid(chunks)
  {
    if chunks == [] then [] else chunks[0].junk + chunks[0].page.Encode() + Concat(chunks[1..])
  }

  /** The page headers of chunks placed at offset pos. */
  function PageHeaders(chunks: seq<Chunk>, pos: nat): (r: seq<Header>)
    requires AllValid(chunks)
  {
    if chunks == [] then [] else
      var start := pos + |chunks[0].junk|;
      [Header(start, chunks[0].page.granule)] + PageHeaders(chunks[1..], start + |chunks[0].page.Encode()|)
  }

  /** Where the parts of a chunk placed at pos begin. */
  lemma Slices(data: seq<byte>, pos: nat, junk: seq<byte>, page: seq<byte>, tail: seq<byte>)
    requires pos <= |data| && data[pos..] == junk + page + tail
    ensures data[pos..] == junk + (page + tail)
    ensures pos + |junk| + |page| <= |data|
    ensures data[pos + |junk|..] == page + tail
    ensures data[pos + |junk| + |page|..] == tail
  {
    assert junk + page + tail == junk + (page + tail);
    assert data[pos + |junk|..] == data[pos..][|junk|..];
    assert data[pos + |junk| + |page|..] == data[pos..][|junk| + |page|..];
  }

  lemma BytesAreTaken(data: seq<byte>, pos: nat, junk: seq<byte>, page: seq<byte>, tail: seq<byte>)
    requires NoCapture(junk) && PageBytes(page)
    requires pos <= |data| && data[pos..] == junk + page + tail
    ensures var start := pos + |junk|;
            Headers(data, pos) == [Header(start, GranuleAt(page, 0))] + Headers(data, start + |page|)
  {
    hide Headers;
    Slices(data, pos, junk, page, tail);
    JunkIsSkipped(data, pos, junk, page + tail, 0);
    PageIsTaken(data, pos + |junk|, page);
  }

  lemma ChunkIsTaken(data: seq<byte>, pos: nat, chunk: Chunk, tail: seq<byte>)
    requires chunk.Valid()
    requires pos <= |data| && data[pos..] == chunk.junk + chunk.page.Encode() + tail
    ensures var start := pos + |chunk.junk|;
            Headers(data, pos) == [Header(start, chunk.page.granule)] + Headers(data, start + |chunk.page.Encode()|)
  {
    hide Headers, Page.Encode, Page.WellFormed, NoCapture, GranuleAt, PageEnd;
    EncodedPage(chunk.page);
    BytesAreTaken(data, pos, chunk.junk, chunk.page.Encode(), tail);
  }

  lemma {:induction false} ChunksAreTaken(data: seq<byte>, pos: nat, chunks: seq<Chunk>, rest: seq<byte>)
    requires AllValid(chunks)
    requires pos <= |data| && data[pos..] == Concat(chunks) + rest
    ensures Headers(data, pos) == PageHeaders(chunks, pos) + Headers(data, pos + |Concat(chunks)|)
    decreases |chunks|
  {
    hide Headers, Page.Encode;
    if chunks != [] {
      var more, page := chunks[1..], chunks[0].page.Encode();
      var tail := Concat(more) + rest;
      assert Concat(chunks) + rest == chunks[0].junk + page + tail;
      Slices(data, pos, chunks[0].junk, page, tail);
      ChunkIsTaken(data, pos, chunks[0], tail);
      ChunksAreTaken(data, pos + |chunks[0].junk| + |page|, more, rest);
    }
  }

  /**
   Pages separated by capture-free junk and followed by capture-free junk: the scanner takes
   exactly the pages, at their own offsets, whatever the payloads contain.
   */
  lemma StreamIsScannedPageByPage(chunks: seq<Chunk>, tail: seq<byte>)
    requires AllValid(chunks) && NoCapture(tail)
    ensures Headers(Concat(chunks) + tail, 0) == PageHeaders(chunks, 0)
  {
    hide Headers, Page.Encode, NoCapture;
    var data := Concat(chunks) + tail;
    Slices(data, 0, [], Concat(chunks), tail);
    ChunksAreTaken(data, 0, chunks, tail);
    JunkToTheEnd(data, |Concat(chunks)|, tail);
  }

  lemma JunkToTheEnd(data: seq<byte>, pos: nat, junk: seq<byte>)
    requires NoCapture(junk)
    requires pos <= |data| && data[pos..] == junk
    ensures Headers(data, pos) == []
  {
    assert junk + [] == junk;
    JunkIsSkipped(data, pos, junk, [], 0);
  }

  lemma CutBeginsLikePage(page: seq<byte>, cut: seq<byte>)
    requires PageBytes(page) && cut <= page
    ensures BeginsLikePage(cut)
  {
    if |cut| >= 4 {
      assert cut[..4] == page[0..4];
    }
  }

  lemma CutTail(data: seq<byte>, pos: nat, junk: seq<byte>, page: seq<byte>, cut: seq<byte>)
    requires NoCapture(junk) && PageBytes(page) && cut < page
    requires pos <= |data| && data[pos..] == junk + cut
    ensures Headers(data, pos) ==
            if |cut| < HEADER_SIZE then [] else [Header(pos + |junk|, GranuleAt(page, 0))]
  {
    hide Headers, GranuleAt, NoCapture, PageEnd;
    CutBeginsLikePage(page, cut);
    JunkIsSkipped(data, pos, junk, cut, 0);
    assert data[pos + |junk|..] == cut by { Slices(data, pos, [], junk, cut); }
    CutPage(data, pos + |junk|, page);
  }

  /** The same stream cut off inside a further page: that page counts exactly if its fixed header survived. */
  lemma CutStreamIsScanned(chunks: seq<Chunk>, last: Chunk, kept: nat)
    requires AllValid(chunks) && last.Valid() && kept < |last.page.Encode()|
    ensures Headers(Concat(chunks) + (last.junk + last.page.Encode()[..kept]), 0)
            == PageHeaders(if kept < HEADER_SIZE then chunks else chunks + [last], 0)
  {
    hide Headers, Page.Encode, Page.WellFormed, GranuleAt, NoCapture, PageEnd, Concat, PageHeaders;
    EncodedPage(last.page);
    var page := last.page.Encode();
    var front, tail := Concat(chunks), last.junk + page[..kept];
    Slices(front + tail, 0, [], front, tail);
    ChunksAreTaken(front + tail, 0, chunks, tail);
    CutTail(front + tail, |front|, last.junk, page, page[..kept]);
    HeadersOfMore(chunks, last, 0);
  }

  lemma {:induction false} HeadersOfMore(chunks: seq<Chunk>, last: Chunk, pos: nat)
    requires AllValid(chunks) && last.Valid()
    ensures AllValid(chunks + [last])
    ensures PageHeaders(chunks + [last], pos)
            == PageHeaders(chunks, pos) + [Header(pos + |Concat(chunks)| + |last.junk|, last.page.granule)]
    decreases |chunks|
  {
    hide Page.Encode;
    if chunks != [] {
      HeadersOfMore(chunks[1..], last, pos + |chunks[0].junk| + |chunks[0].page.Encode()|);
      assert (chunks + [last])[1..] == chunks[1..] + [last];
    }
  }

  function Granules(chunks: seq<Chunk>): set<int> {
    set i | 0 <= i < |chunks| :: chunks[i].page.granule
  }

  /** The scanned total of a stream is the larger of zero and its largest granule; junk never matters. */
  lemma TotalOfStream(chunks: seq<Chunk>, tail: seq<byte>, total: int)
    requires AllValid(chunks) && NoCapture(tail)
    requires IsTotal(total, Headers(Concat(chunks) + tail, 0))
    ensures total >= 0 && total in Granules(chunks) + {0}
    ensures forall g :: g in Granules(chunks) ==> g <= total
  {
    StreamIsScannedPageByPage(chunks, tail);
    HeaderGranules(chunks, 0);
  }

  lemma {:induction false} HeaderGranules(chunks: seq<Chunk>, pos: nat)
    requires AllValid(chunks)
    ensures |PageHeaders(chunks, pos)| == |chunks|
    ensures forall i :: 0 <= i < |chunks| ==> PageHeaders(chunks, pos)[i].granule == chunks[i].page.granule
    decreases |chunks|
  {
    if chunks != [] {
      HeaderGranules(chunks[1..], pos + |chunks[0].junk| + |chunks[0].page.Encode()|);
    }
  }
}
