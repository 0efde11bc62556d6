/**
The Ogg page scanner behind `getOpusDuration` (common/audio.go). The input is the whole byte
string behind an in-memory reader. Page layout: section 6 of RFC 3533; granule position in
48 kHz samples: section 4 of RFC 7845.
*/
module Ogg {

  type byte = x: int | 0 <= x < 256

  const CAPTURE: seq<byte> := [0x4F, 0x67, 0x67, 0x53]  // "OggS"
  const TWO_63: int := 0x8000_0000_0000_0000
  const TWO_64: int := 0x1_0000_0000_0000_0000

  function Unsigned(bs: seq<byte>): nat {
    if bs == [] then 0 else bs[0] + 256 * Unsigned(bs[1..])
  }

  /** int64(binary.LittleEndian.Uint64(bs)). */
  function Signed64(bs: seq<byte>): int
    requires |bs| == 8
  {
    var u := Unsigned(bs);
    if u >= TWO_63 then u - TWO_64 else u
  }

  function Sum(bs: seq<byte>): nat {
    if bs == [] then 0 else Sum(bs[..|bs| - 1]) + bs[|bs| - 1]
  }

  function Max(a: int, b: int): int {
    if a < b then b else a
  }

  /** One turn of the scan: it stops with a granule position, or goes on at a later place. */
  datatype Turn = Stop(granule: int) | Go(pos: nat, granule: int)

  function TurnAt(data: seq<byte>, pos: nat, total: int): (t: Turn)
    ensures t.Go? ==> pos < t.pos && pos < |data|
  {
    if |data| < pos + 27 then Stop(total)
    else if data[pos..pos + 4] != CAPTURE then Go(pos + 1, total)
    else
      var seen := Max(total, Signed64(data[pos + 6..pos + 14]));
      var table := pos + 27 + data[pos + 26];
      if |data| < table then Stop(seen) else Go(table + Sum(data[pos + 27..table]), seen)
  }

  /** The largest granule position seen when scanning from `pos`, starting from `total`. */
  function Scan(data: seq<byte>, pos: nat, total: int): int
    decreases |data| - pos
  {
    match TurnAt(data, pos, total)
    case Stop(granule) => granule
    case Go(next, granule) => Scan(data, next, granule)
  }

  method PageSize(segmentTable: seq<byte>) returns (size: nat)
    ensures size == Sum(segmentTable)
  {
    size := 0;
    for i := 0 to |segmentTable|
      invariant size == Sum(segmentTable[..i])
    {
      size := size + segmentTable[i];
      assert segmentTable[..i + 1][..i] == segmentTable[..i];
    }
    assert segmentTable[..|segmentTable|] == segmentTable;
  }

  lemma SubSlice(data: seq<byte>, a: nat, n: nat, i: nat, j: nat)
    requires a + n <= |data| && i <= j <= n
    ensures data[a..a + n][i..j] == data[a + i..a + j]
  {
    var inner, outer := data[a..a + n], data[a + i..a + j];
    forall k | 0 <= k < j - i ensures inner[i..j][k] == outer[k] {
      assert inner[i..j][k] == inner[i + k] == data[a + i + k];
    }
    assert inner[i..j] == outer;
  }

  /** One turn as the source takes it: read 27 bytes, step back 26 on a miss, otherwise skip the page. */
  method ReadPage(data: seq<byte>, start: nat, total: int) returns (turn: Turn)
    ensures turn == TurnAt(data, start, total)
  {
    if start >= |data| { return Stop(total); }                       // io.EOF
    var n := if |data| - start < 27 then |data| - start else 27;
    var buf := data[start..start + n];
    var pos := start + n;
    if n < 27 { return Stop(total); }
    assert buf[0..4] == data[start..start + 4] by { SubSlice(data, start, 27, 0, 4); }
    if buf[0..4] != CAPTURE {
      pos := pos - 26;
      return Go(pos, total);
    }
    assert buf[6..14] == data[start + 6..start + 14] by { SubSlice(data, start, 27, 6, 14); }
    var granulePos := Signed64(buf[6..14]);
    var totalGranulePos := total;
    if granulePos > totalGranulePos { totalGranulePos := granulePos; }
    var numSegments := buf[26];
    if |data| - pos < numSegments { return Stop(totalGranulePos); }
    var segmentTable := data[pos..pos + numSegments];
    pos := pos + numSegments;
    var pageSize := PageSize(segmentTable);
    pos := pos + pageSize;
    turn := Go(pos, totalGranulePos);
  }

  method GetOpusDuration(data: seq<byte>) returns (seconds: real)
    ensures seconds == Scan(data, 0, 0) as real / 48000.0
  {
    var turn := Go(0, 0);
    while turn.Go?
      invariant Scan(data, 0, 0) == if turn.Go? then Scan(data, turn.pos, turn.granule) else turn.granule
      decreases turn.Go?, if turn.Go? then |data| - turn.pos else 0
    {
      turn := ReadPage(data, turn.pos, turn.granule);
    }
    seconds := turn.granule as real / 48000.0;
  }

  // ---- Well-formed pages ----

  function Bytes(u: nat, n: nat): (bs: seq<byte>)
    ensures |bs| == n
  {
    if n == 0 then [] else [u % 256] + Bytes(u / 256, n - 1)
  }

  function Power256(n: nat): (p: nat)
    ensures p > 0
  {
    if n == 0 then 1 else 256 * Power256(n - 1)
  }

  lemma {:induction false} UnsignedBytes(u: nat, n: nat)
    requires u < Power256(n)
    ensures Unsigned(Bytes(u, n)) == u
  {
    if n > 0 {
      UnsignedBytes(u / 256, n - 1);
      assert Bytes(u, n)[1..] == Bytes(u / 256, n - 1);
    }
  }

  predicate IsInt64(g: int) {
    -TWO_63 <= g < TWO_63
  }

  /** Two's complement, little endian. */
  function Bytes64(g: int): (bs: seq<byte>)
    requires IsInt64(g)
    ensures |bs| == 8
  {
    Bytes(if g < 0 then g + TWO_64 else g, 8)
  }

  lemma GranuleRoundTrip(g: int)
    requires IsInt64(g)
    ensures Signed64(Bytes64(g)) == g
  {
    Power256Of8();
    UnsignedBytes(if g < 0 then g + TWO_64 else g, 8);
  }

  /** `serials` stands for the stream serial number, page sequence number and checksum. */
  datatype Page = Page(version: byte, flags: byte, granule: int, serials: seq<byte>, lacing: seq<byte>, body: seq<byte>)

  predicate WellFormed(p: Page) {
    IsInt64(p.granule) && |p.serials| == 12 && |p.lacing| < 256 && |p.body| == Sum(p.lacing)
  }

  function Header(p: Page): (bs: seq<byte>)
    requires WellFormed(p)
    ensures |bs| == 27
  {
    CAPTURE + [p.version, p.flags] + Bytes64(p.granule) + p.serials + [|p.lacing|]
  }

  function Encode(p: Page): seq<byte>
    requires WellFormed(p)
  {
    Header(p) + p.lacing + p.body
  }

  /** A page preceded by bytes that belong to no page. */
  datatype Chunk = Chunk(junk: seq<byte>, page: Page)

  function Stream(cs: seq<Chunk>, tail: seq<byte>): seq<byte>
    requires forall c | c in cs :: WellFormed(c.page)
  {
    if cs == [] then tail else cs[0].junk + (Encode(cs[0].page) + Stream(cs[1..], tail))
  }

  ghost predicate NoCapture(data: seq<byte>, n: nat) {
    forall i | 0 <= i < n :: !CaptureAt(data, i)
  }

  predicate CaptureAt(data: seq<byte>, i: nat) {
    i + 4 <= |data| && data[i..i + 4] == CAPTURE
  }

  /** No capture pattern starts inside any stretch of junk, the tail included. */
  ghost predicate Resynchronisable(cs: seq<Chunk>, tail: seq<byte>)
    requires forall c | c in cs :: WellFormed(c.page)
  {
    if cs == [] then NoCapture(tail, |tail|)
    else NoCapture(Stream(cs, tail), |cs[0].junk|) && Resynchronisable(cs[1..], tail)
  }

  function Peak(cs: seq<Chunk>, total: int): int {
    if cs == [] then total else Peak(cs[1..], Max(total, cs[0].page.granule))
  }

  lemma SliceShift(pre: seq<byte>, data: seq<byte>, i: nat, j: nat)
    requires i <= j <= |data|
    ensures (pre + data)[|pre| + i..|pre| + j] == data[i..j]
  {}

  lemma TurnShift(pre: seq<byte>, data: seq<byte>, pos: nat, total: int)
    ensures TurnAt(pre + data, |pre| + pos, total) ==
            match TurnAt(data, pos, total) case Stop(granule) => Stop(granule) case Go(next, granule) => Go(|pre| + next, granule)
  {
    if |data| >= pos + 27 {
      SliceShift(pre, data, pos, pos + 4);
      SliceShift(pre, data, pos + 6, pos + 14);
      var table := pos + 27 + data[pos + 26];
      assert (pre + data)[|pre| + pos + 26] == data[pos + 26];
      if |data| >= table { SliceShift(pre, data, pos + 27, table); }
    }
  }

  /** Scanning looks forward only. */
  lemma {:induction false} ScanShift(pre: seq<byte>, data: seq<byte>, pos: nat, total: int)
    ensures Scan(pre + data, |pre| + pos, total) == Scan(data, pos, total)
    decreases |data| - pos
  {
    TurnShift(pre, data, pos, total);
    var turn := TurnAt(data, pos, total);
    if turn.Go? { ScanShift(pre, data, turn.pos, turn.granule); }
  }

  lemma {:induction false} SkipJunk(data: seq<byte>, pos: nat, n: nat, total: int)
    requires pos <= n && NoCapture(data, n)
    ensures Scan(data, pos, total) == Scan(data, n, total)
    decreases n - pos
  {
    if pos < n && |data| >= pos + 27 {
      assert !CaptureAt(data, pos);
      SkipJunk(data, pos + 1, n, total);
    }
  }

  /** The fields of a header lie where the scan looks for them. */
  lemma HeaderFields(p: Page)
    requires WellFormed(p)
    ensures var h := Header(p); h[0..4] == CAPTURE && h[6..14] == Bytes64(p.granule) && h[26] == |p.lacing|
  {
    var h := Header(p);
    assert h == CAPTURE + ([p.version, p.flags] + Bytes64(p.granule) + p.serials + [|p.lacing|]);
  }

  /** A page at the front is read and skipped in one turn. */
  lemma TurnOnPage(p: Page, rest: seq<byte>, total: int)
    requires WellFormed(p)
    ensures TurnAt(Encode(p) + rest, 0, total) == Go(|Encode(p)|, Max(total, p.granule))
  {
    var h, data := Header(p), Encode(p) + rest;
    HeaderFields(p);
    GranuleRoundTrip(p.granule);
    assert data == h + (p.lacing + p.body + rest);
    assert data[0..4] == h[0..4] && data[6..14] == h[6..14] && data[26] == h[26];
    assert data[27..27 + |p.lacing|] == p.lacing;
  }

  lemma ScanPage(p: Page, rest: seq<byte>, total: int)
    requires WellFormed(p)
    ensures Scan(Encode(p) + rest, 0, total) == Scan(rest, 0, Max(total, p.granule))
  {
    TurnOnPage(p, rest, total);
    ScanShift(Encode(p), rest, 0, Max(total, p.granule));
  }

  /** On any stream of well-formed pages, with junk before, between and after them in which no
      capture pattern starts, the scan finds every page and returns the largest granule. */
  lemma {:induction false} ScanStream(cs: seq<Chunk>, tail: seq<byte>, total: int)
    requires forall c | c in cs :: WellFormed(c.page)
    requires Resynchronisable(cs, tail)
    ensures Scan(Stream(cs, tail), 0, total) == Peak(cs, total)
  {
    if cs == [] {
      SkipJunk(tail, 0, |tail|, total);
    } else {
      var c, rest := cs[0], Stream(cs[1..], tail);
      SkipJunk(Stream(cs, tail), 0, |c.junk|, total);
      ScanShift(c.junk, Encode(c.page) + rest, 0, total);
      ScanPage(c.page, rest, total);
      ScanStream(cs[1..], tail, Max(total, c.page.granule));
    }
  }

  /** The peak is the largest granule, floored at the starting value. */
  lemma {:induction false} PeakIsMaximum(cs: seq<Chunk>, total: int)
    ensures Peak(cs, total) >= total
    ensures forall c | c in cs :: c.page.granule <= Peak(cs, total)
    ensures Peak(cs, total) == total || exists c :: c in cs && c.page.granule == Peak(cs, total)
  {
    if cs != [] {
      PeakIsMaximum(cs[1..], Max(total, cs[0].page.granule));
      assert cs == [cs[0]] + cs[1..];
    }
  }

  /** A page that completes no packet carries an all-ones granule, which is never the answer. */
  lemma AllOnesNeverCounts(bs: seq<byte>, total: nat)
    requires bs == [255, 255, 255, 255, 255, 255, 255, 255]
    ensures Signed64(bs) == -1 && Max(total, Signed64(bs)) == total
  {
    UnsignedAllOnes(bs, 8);
    Power256Of8();
  }

  lemma {:induction false} UnsignedAllOnes(bs: seq<byte>, n: nat)
    requires |bs| == n && forall i | 0 <= i < n :: bs[i] == 255
    ensures Unsigned(bs) == Power256(n) - 1
  {
    if n > 0 { UnsignedAllOnes(bs[1..], n - 1); }
  }

  lemma Power256Of8()
    ensures Power256(8) == TWO_64
  {
    assert Power256(4) == 0x1_0000_0000;
  }
}
