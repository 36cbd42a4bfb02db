/** The PNG check: skipping from chunk to chunk until an IEND header, against the chunk layout of
    section 3.2 of RFC 2083. */
module PngScan {

  type Byte = b: int | 0 <= b < 256

  const SIGNATURE: seq<Byte> := [0x89, 0x50, 0x4E, 0x47, 0x0D, 0x0A, 0x1A, 0x0A]
  const IEND: seq<Byte> := [0x49, 0x45, 0x4E, 0x44]
  const MAX_LENGTH: int := 0x1_0000_0000

  // ---------------------------------------------------------------- big-endian lengths

  /** The k bytes of a length, the most significant first. */
  function BigEndian(n: nat, k: nat): (s: seq<Byte>)
    ensures |s| == k
  {
    if k == 0 then [] else BigEndian(n / 256, k - 1) + [n % 256]
  }

  function Value(s: seq<Byte>): nat {
    if s == [] then 0 else Value(s[..|s| - 1]) * 256 + s[|s| - 1]
  }

  /** How many lengths k bytes can tell apart. */
  function Width(k: nat): nat {
    if k == 0 then 1 else Width(k - 1) * 256
  }

  lemma {:induction false} ValueFits(s: seq<Byte>)
    ensures Value(s) < Width(|s|)
  {
    if s != [] {
      ValueFits(s[..|s| - 1]);
    }
  }

  lemma LengthFits(s: seq<Byte>)
    requires |s| == 4
    ensures Value(s) < MAX_LENGTH
  {
    ValueFits(s);
    FourBytes();
  }

  lemma FourBytes()
    ensures Width(4) == MAX_LENGTH
  {
    assert Width(2) == 0x1_0000;
  }

  lemma {:induction false} PrintThenRead(n: nat, k: nat)
    requires n < Width(k)
    ensures Value(BigEndian(n, k)) == n
  {
    if k > 0 {
      PrintThenRead(n / 256, k - 1);
      assert BigEndian(n, k)[..k - 1] == BigEndian(n / 256, k - 1);
    }
  }

  lemma {:induction false} ReadThenPrint(s: seq<Byte>)
    ensures BigEndian(Value(s), |s|) == s
  {
    if s != [] {
      var high, low: int := s[..|s| - 1], s[|s| - 1];
      ReadThenPrint(high);
      assert Value(s) / 256 == Value(high) && Value(s) % 256 == low;
    }
  }

  // ---------------------------------------------------------------- printing

  datatype Chunk = Chunk(kind: seq<Byte>, body: seq<Byte>, crc: seq<Byte>)

  predicate WellFormed(c: Chunk) {
    |c.kind| == 4 && |c.body| < MAX_LENGTH && |c.crc| == 4
  }

  function Header(c: Chunk): (s: seq<Byte>)
    requires WellFormed(c)
    ensures |s| == 8
  {
    BigEndian(|c.body|, 4) + c.kind
  }

  function Printed(c: Chunk): (s: seq<Byte>)
    requires WellFormed(c)
    ensures |s| == 12 + |c.body|
  {
    Header(c) + c.body + c.crc
  }

  /** Chunks that a reader passes over. */
  predicate Inner(chunks: seq<Chunk>) {
    forall i :: 0 <= i < |chunks| ==> WellFormed(chunks[i]) && chunks[i].kind != IEND
  }

  function PrintedAll(chunks: seq<Chunk>): seq<Byte>
    requires Inner(chunks)
  {
    if chunks == [] then [] else Printed(chunks[0]) + PrintedAll(chunks[1..])
  }

  // ---------------------------------------------------------------- scanning

  function Scan(data: seq<Byte>, pos: nat): bool
    decreases |data| - pos
  {
    if pos + 8 > |data| then false
    else if data[pos + 4..pos + 8] == IEND then true
    else Scan(data, pos + 12 + Value(data[pos..pos + 4]))
  }

  predicate Accepted(data: seq<Byte>) {
    SIGNATURE <= data && Scan(data, 8)
  }

  method FindEnd(data: seq<Byte>) returns (found: bool)
    ensures found == Scan(data, 8)
  {
    var pos := 8;
    found := false;
    while pos + 8 <= |data|
      invariant pos >= 8 && !found && Scan(data, 8) == Scan(data, pos)
      decreases |data| - pos
    {
      var length := Value(data[pos..pos + 4]);
      if data[pos + 4..pos + 8] == IEND {
        found := true;
        break;
      }
      pos := pos + 12 + length;
    }
  }

  method Validate(data: seq<Byte>) returns (found: bool)
    ensures found <==> HasEnd(data)
  {
    AcceptedExactly(data);
    found := SIGNATURE <= data;
    if found {
      found := FindEnd(data);
    }
  }

  // ---------------------------------------------------------------- what is accepted

  ghost predicate Layout(data: seq<Byte>, chunks: seq<Chunk>, length: seq<Byte>, rest: seq<Byte>) {
    Inner(chunks) && |length| == 4 && data == PrintedAll(chunks) + length + IEND + rest
  }

  /** The bytes are the signature, whole chunks none of which is IEND, and then an IEND header. */
  ghost predicate HasEnd(data: seq<Byte>) {
    && SIGNATURE <= data
    && exists chunks, length, rest :: Layout(data[8..], chunks, length, rest)
  }

  /** The scan of a byte string from its beginning. */
  predicate Ends(s: seq<Byte>)
    decreases |s|, 1
  {
    |s| >= 8 && (s[4..8] == IEND || EndsAfter(s, 12 + Value(s[..4])))
  }

  /** The scan goes on k bytes further, if there are as many. */
  predicate EndsAfter(s: seq<Byte>, k: nat)
    requires k > 0
    decreases |s|, 0
  {
    k <= |s| && Ends(s[k..])
  }

  lemma {:induction false} ScanIsEnds(data: seq<Byte>, pos: nat)
    requires pos <= |data|
    ensures Scan(data, pos) <==> Ends(data[pos..])
    decreases |data| - pos
  {
    if pos + 8 <= |data| {
      var s := data[pos..];
      assert data[pos..pos + 4] == s[..4] && data[pos + 4..pos + 8] == s[4..8];
      var next := pos + 12 + Value(s[..4]);
      if next <= |data| {
        ScanIsEnds(data, next);
        assert data[next..] == s[next - pos..];
      }
    }
  }

  lemma HeadStep(s: seq<Byte>, n: nat)
    requires |s| >= 8 && Value(s[..4]) == n && s[4..8] != IEND
    ensures Ends(s) <==> EndsAfter(s, 12 + n)
  {
  }

  lemma LastStep(s: seq<Byte>)
    requires |s| >= 8 && s[4..8] == IEND
    ensures Ends(s)
  {
  }

  /** Bytes that begin like others have the same slices. */
  lemma SameSlice(s: seq<Byte>, whole: seq<Byte>, lo: nat, hi: nat)
    requires lo <= hi <= |s| && s <= whole
    ensures s[lo..hi] == whole[lo..hi] && s[lo..] <= whole[lo..]
  {
  }

  /** The bytes of a chunk followed by anything. */
  lemma HeaderParts(c: Chunk, tail: seq<Byte>)
    requires WellFormed(c)
    ensures var whole := Printed(c) + tail;
            && |whole| >= 12 + |c.body|
            && Value(whole[..4]) == |c.body| && whole[4..8] == c.kind && whole[12 + |c.body|..] == tail
  {
    assert Printed(c) + tail == BigEndian(|c.body|, 4) + (c.kind + c.body + c.crc + tail);
    assert (Printed(c) + tail)[..4] == BigEndian(|c.body|, 4);
    FourBytes();
    PrintThenRead(|c.body|, 4);
  }

  /** The bytes of a list of chunks followed by anything. */
  lemma ChunksHead(chunks: seq<Chunk>, tail: seq<Byte>)
    requires Inner(chunks) && chunks != []
    ensures Inner(chunks[1..])
    ensures var whole, k := PrintedAll(chunks) + tail, 12 + |chunks[0].body|;
            && |whole| >= k
            && Value(whole[..4]) == |chunks[0].body| && whole[4..8] != IEND
            && whole[k..] == PrintedAll(chunks[1..]) + tail
  {
    var rest := PrintedAll(chunks[1..]) + tail;
    assert PrintedAll(chunks) + tail == Printed(chunks[0]) + rest;
    HeaderParts(chunks[0], rest);
  }

  lemma FirstLength(chunks: seq<Chunk>)
    requires Inner(chunks) && chunks != []
    ensures Inner(chunks[1..]) && |PrintedAll(chunks)| == 12 + |chunks[0].body| + |PrintedAll(chunks[1..])|
  {
  }

  /** One step over the first of the chunks, as far as the bytes go. */
  lemma PassOne(s: seq<Byte>, chunks: seq<Chunk>, tail: seq<Byte>)
    requires Inner(chunks) && chunks != [] && |s| >= 8 && s <= PrintedAll(chunks) + tail
    ensures var k := 12 + |chunks[0].body|;
            && Inner(chunks[1..])
            && (Ends(s) <==> EndsAfter(s, k))
            && (k <= |s| ==> s[k..] <= PrintedAll(chunks[1..]) + tail)
  {
    var whole, k := PrintedAll(chunks) + tail, 12 + |chunks[0].body|;
    ChunksHead(chunks, tail);
    SameSlice(s, whole, 0, 4);
    SameSlice(s, whole, 4, 8);
    HeadStep(s, k - 12);
    if k <= |s| {
      SameSlice(s, whole, k, k);
    }
  }

  /** The scan passes over the chunks and ends as the scan of what follows them does. */
  lemma {:induction false} PassAll(s: seq<Byte>, chunks: seq<Chunk>, tail: seq<Byte>)
    requires Inner(chunks) && s <= PrintedAll(chunks) + tail
    ensures var n := |PrintedAll(chunks)|; Ends(s) <==> n <= |s| && Ends(s[n..])
    decreases |chunks|
  {
    if chunks == [] {
      assert s[0..] == s;
    } else {
      FirstLength(chunks);
      if |s| >= 8 {
        PassOne(s, chunks, tail);
        var k := 12 + |chunks[0].body|;
        if k <= |s| {
          PassAll(s[k..], chunks[1..], tail);
          assert |PrintedAll(chunks)| <= |s| ==> s[k..][|PrintedAll(chunks)| - k..] == s[|PrintedAll(chunks)|..];
        }
      }
    }
  }

  lemma {:induction false} EndsHasLayout(s: seq<Byte>)
    returns (chunks: seq<Chunk>, length: seq<Byte>, rest: seq<Byte>)
    requires Ends(s)
    ensures Layout(s, chunks, length, rest)
    decreases |s|
  {
    if s[4..8] == IEND {
      chunks, length, rest := [], s[..4], s[8..];
      assert s == s[..4] + s[4..8] + s[8..];
      assert PrintedAll(chunks) + length == length;
    } else {
      var n := Value(s[..4]);
      var inner: seq<Chunk>;
      inner, length, rest := EndsHasLayout(s[12 + n..]);
      var c := FirstChunk(s);
      chunks := [c] + inner;
      LayoutGrows(s, c, s[12 + n..], inner, length, rest);
    }
  }

  /** A header and as many bytes as it says are a printed chunk. */
  lemma FirstChunk(s: seq<Byte>) returns (c: Chunk)
    requires |s| >= 8 && 12 + Value(s[..4]) <= |s|
    ensures WellFormed(c) && c.kind == s[4..8] && s == Printed(c) + s[12 + Value(s[..4])..]
  {
    var n := Value(s[..4]);
    LengthFits(s[..4]);
    ReadThenPrint(s[..4]);
    c := Chunk(s[4..8], s[8..8 + n], s[8 + n..12 + n]);
    CutChunk(s, n);
  }

  lemma LayoutGrows(whole: seq<Byte>, c: Chunk, tail: seq<Byte>, inner: seq<Chunk>, length: seq<Byte>, rest: seq<Byte>)
    requires WellFormed(c) && c.kind != IEND && Layout(tail, inner, length, rest)
    requires whole == Printed(c) + tail
    ensures Layout(whole, [c] + inner, length, rest)
  {
    var chunks := [c] + inner;
    assert chunks[1..] == inner;
    assert PrintedAll(chunks) == Printed(c) + PrintedAll(inner);
    assert Printed(c) + (PrintedAll(inner) + length + IEND + rest) == PrintedAll(chunks) + length + IEND + rest;
  }

  lemma CutChunk(s: seq<Byte>, n: nat)
    requires 12 + n <= |s|
    ensures s == s[..4] + s[4..8] + s[8..8 + n] + s[8 + n..12 + n] + s[12 + n..]
  {
  }

  /** THE SCAN accepts a byte string exactly when it is the signature, whole printed chunks other than
      IEND, and an IEND header; what follows the header is not looked at. */
  lemma AcceptedExactly(data: seq<Byte>)
    ensures Accepted(data) <==> HasEnd(data)
  {
    if Accepted(data) {
      ScanIsEnds(data, 8);
      var chunks, length, rest := EndsHasLayout(data[8..]);
    }
    if HasEnd(data) {
      var chunks, length, rest :| Layout(data[8..], chunks, length, rest);
      LayoutEnds(data[8..], chunks, length, rest);
      ScanIsEnds(data, 8);
    }
  }

  lemma LayoutEnds(s: seq<Byte>, chunks: seq<Chunk>, length: seq<Byte>, rest: seq<Byte>)
    requires Layout(s, chunks, length, rest)
    ensures Ends(s)
  {
    var tail := length + IEND + rest;
    assert s == PrintedAll(chunks) + tail;
    PassAll(s, chunks, tail);
    assert s[|PrintedAll(chunks)|..] == tail;
    assert tail[4..8] == IEND;
    LastStep(tail);
  }

  lemma EndHeader(end: Chunk)
    requires WellFormed(end)
    ensures Printed(end)[4..8] == end.kind
  {
    assert Printed(end) + [] == Printed(end);
    HeaderParts(end, []);
  }

  lemma EndEnds(s: seq<Byte>, end: Chunk)
    requires WellFormed(end) && end.kind == IEND && s <= Printed(end)
    ensures Ends(s) <==> |s| >= 8
  {
    if |s| >= 8 {
      EndHeader(end);
      SameSlice(s, Printed(end), 4, 8);
      LastStep(s);
    }
  }

  lemma PrefixEnds(s: seq<Byte>, chunks: seq<Chunk>, end: Chunk)
    requires Inner(chunks) && WellFormed(end) && end.kind == IEND && s <= PrintedAll(chunks) + Printed(end)
    ensures Ends(s) <==> |s| >= |PrintedAll(chunks)| + 8
  {
    var inner := PrintedAll(chunks);
    PassAll(s, chunks, Printed(end));
    if |inner| <= |s| {
      SameSlice(s, inner + Printed(end), |inner|, |inner|);
      assert (inner + Printed(end))[|inner|..] == Printed(end);
      EndEnds(s[|inner|..], end);
    }
  }

  /** A printed image cut anywhere is accepted exactly when the cut leaves the 8 header bytes of IEND. */
  lemma PrefixAccepted(chunks: seq<Chunk>, end: Chunk, cut: nat)
    requires Inner(chunks) && WellFormed(end) && end.kind == IEND
    requires cut <= |SIGNATURE + PrintedAll(chunks) + Printed(end)|
    ensures Accepted((SIGNATURE + PrintedAll(chunks) + Printed(end))[..cut])
            <==> cut >= 8 + |PrintedAll(chunks)| + 8
  {
    var whole := PrintedAll(chunks) + Printed(end);
    var image := SIGNATURE + PrintedAll(chunks) + Printed(end);
    assert image == SIGNATURE + whole;
    var data := image[..cut];
    if cut >= 8 {
      assert data[..8] == SIGNATURE;
      assert data[8..] == whole[..cut - 8];
      PrefixEnds(data[8..], chunks, end);
      ScanIsEnds(data, 8);
    }
  }
}
