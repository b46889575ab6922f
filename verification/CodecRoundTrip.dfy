// Decoding undoes encoding, the wire form is printable and the end mark is unambiguous.
module CodecRoundTrip {
  import opened SixBit
  import opened DecodeSpec
  import opened Decoder
  import Encoder

  // ----- one block -----

  lemma {:induction false} PairCharsAt(p: seq<sextet>, last: sextet, k: nat, j: nat)
    requires |p| == 13 && j < k <= 6
    ensures PairChars(p, last, k)[2 * j] == Pair(p, last, j) / 91 + SPACE
    ensures PairChars(p, last, k)[2 * j + 1] == Pair(p, last, j) % 91 + SPACE
  {
    if j < k - 1 { PairCharsAt(p, last, k - 1, j); }
  }

  // Every printed character lies in 0x20..0x7A, and a data pair is never the end mark.
  lemma {:induction false} PairCharsPrintable(p: seq<sextet>, last: sextet, k: nat)
    requires |p| == 13 && k <= 6
    ensures forall i :: 0 <= i < 2 * k ==> SPACE <= PairChars(p, last, k)[i] < SPACE + 91
    ensures forall j :: 0 <= j < k ==> PairChars(p, last, k)[2 * j..2 * j + 2] != [ENDMARK1, ENDMARK2]
  {
    if k > 0 {
      PairCharsPrintable(p, last, k - 1);
      var w := PairChars(p, last, k);
      forall j | 0 <= j < k
        ensures w[2 * j..2 * j + 2] != [ENDMARK1, ENDMARK2]
      {
        PairCharsAt(p, last, k, j);
        var c := Pair(p, last, j);
        assert w[2 * j..2 * j + 2] == [w[2 * j], w[2 * j + 1]];
        assert c / 91 < 90 || c % 91 < 90;
      }
    }
  }

  // The block whose first digits are the dump of n sextets.
  function DumpBlock(p: seq<sextet>, n: nat): (b: block)
    requires |p| == 13 && n <= 13
  {
    PairCharsPrintable(p, Carry(p, n), PairCount(n));
    Digits(DumpChars(p, n)) + seq(12 - 2 * PairCount(n), _ => 0)
  }

  lemma NumberIsPair(p: seq<sextet>, n: nat, j: nat)
    requires |p| == 13 && n <= 13 && j < PairCount(n)
    ensures Number(DumpBlock(p, n), j) == Pair(p, Carry(p, n), j)
  {
    PairCharsAt(p, Carry(p, n), PairCount(n), j);
  }

  lemma PairHalves(p: seq<sextet>, last: sextet, j: nat)
    requires |p| == 13 && j < 6
    ensures (Pair(p, last, j) / 64) % 64 == p[2 * j] && Pair(p, last, j) % 64 == p[2 * j + 1]
    ensures (Pair(p, last, j) / 4096) % 2 == Bit5(Shift(last, j))
  {
  }

  lemma {:induction false} HalvesOfDump(p: seq<sextet>, n: nat, k: nat)
    requires |p| == 13 && n <= 13 && k <= PairCount(n)
    ensures Halves(DumpBlock(p, n), k) == p[..2 * k]
  {
    if k > 0 {
      HalvesOfDump(p, n, k - 1);
      NumberIsPair(p, n, k - 1);
      PairHalves(p, Carry(p, n), k - 1);
    }
  }

  // The value of the top k bits of a sextet.
  function TopPart(v: sextet, k: nat): (r: nat)
  {
    if k == 0 then 0 else 2 * TopPart(v, k - 1) + Bit5(Shift(v, k - 1))
  }

  lemma ShiftedBits(v: sextet)
    ensures Bit5(Shift(v, 0)) == v / 32 && Bit5(Shift(v, 1)) == v / 16 % 2 && Bit5(Shift(v, 2)) == v / 8 % 2
    ensures Bit5(Shift(v, 3)) == v / 4 % 2 && Bit5(Shift(v, 4)) == v / 2 % 2 && Bit5(Shift(v, 5)) == v % 2
  {
    assert Shift(v, 2) == 4 * v && Shift(v, 4) == 16 * v;
  }

  lemma TopPartAll(v: sextet)
    ensures TopPart(v, 6) == v
  {
    ShiftedBits(v);
    hide Bit5, Shift;
    assert TopPart(v, 1) == v / 32;
    assert TopPart(v, 2) == v / 16;
    assert TopPart(v, 3) == v / 8;
    assert TopPart(v, 4) == v / 4;
    assert TopPart(v, 5) == v / 2;
  }

  lemma {:induction false} TopBitsOfDump(p: seq<sextet>, n: nat, k: nat)
    requires |p| == 13 && n <= 13 && k <= PairCount(n)
    ensures TopBits(DumpBlock(p, n), k) == TopPart(Carry(p, n), k)
  {
    if k > 0 {
      TopBitsOfDump(p, n, k - 1);
      NumberIsPair(p, n, k - 1);
      PairHalves(p, Carry(p, n), k - 1);
    }
  }

  // Unpacking the dump of n sextets gives those n sextets back.
  lemma UnpackDump(p: seq<sextet>, n: nat)
    requires |p| == 13 && 1 <= n <= 13
    ensures n <= |Unpack(DumpBlock(p, n), 2 * PairCount(n))|
    ensures Unpack(DumpBlock(p, n), 2 * PairCount(n))[..n] == p[..n]
  {
    var k := PairCount(n);
    assert PairsOf(2 * k) == k;
    HalvesOfDump(p, n, k);
    TopBitsOfDump(p, n, k);
    if n == 13 {
      TopPartAll(p[12]);
      assert Unpack(DumpBlock(p, n), 12) == p[..12] + [p[12]];
    }
  }

  // ----- reading the wire -----

  // Reading the first digits of a block that does not start with the end mark.
  lemma {:induction false} ReadRun(w: seq<digit>, b: seq<digit>)
    requires |b| <= 12 && ReadAll(w).cur == []
    requires |b| >= 2 ==> b[..2] != [MARK, MARK]
    ensures var r := ReadAll(w);
      ReadAll(w + b) == if |b| == 12 then Parse(r.blocks + [b], [], r.cnt) else Parse(r.blocks, b, r.cnt)
  {
    hide ReadAll;
    if b == [] {
      assert w + b == w;
    } else {
      var c, d := b[..|b| - 1], b[|b| - 1];
      if |c| >= 2 { assert c[..2] == b[..2]; }
      ReadRun(w, c);
      assert w + b == w + c + [d];
      ReadOne(w + c, d);
      assert c + [d] == b;
      if |c| == 2 { assert c == b[..2]; }
    }
  }

  lemma ReadOne(w: seq<digit>, d: digit)
    ensures ReadAll(w + [d]) == Read(ReadAll(w), d)
  {
    assert (w + [d])[..|w|] == w;
  }

  lemma ReadMark(w: seq<digit>, n: digit)
    requires ReadAll(w).cur == []
    ensures ReadAll(w + [MARK, MARK, n]) == Parse(ReadAll(w).blocks, [], n)
  {
    var w1, w2, w3 := w + [MARK], w + [MARK, MARK], w + [MARK, MARK, n];
    assert w1[..|w1| - 1] == w && w2[..|w2| - 1] == w1 && w3[..|w3| - 1] == w2;
    assert ReadAll(w1).cur == [MARK];
    assert ReadAll(w2).cur == [MARK, MARK];
  }

  // The digits of the first q blocks, as the decoder sees them.
  function BlockDigits(s: seq<sextet>, q: nat): (d: seq<digit>)
    requires 13 * q <= |s|
  {
    if q == 0 then [] else BlockDigits(s, q - 1) + DumpBlock(s[13 * q - 13..13 * q], 13)
  }

  function BlockList(s: seq<sextet>, q: nat): (bs: seq<block>)
    requires 13 * q <= |s|
    ensures |bs| == q
  {
    if q == 0 then [] else BlockList(s, q - 1) + [DumpBlock(s[13 * q - 13..13 * q], 13)]
  }

  lemma DumpBlockStart(p: seq<sextet>, n: nat)
    requires |p| == 13 && 1 <= n <= 13
    ensures DumpBlock(p, n)[..2] != [MARK, MARK]
  {
    PairCharsPrintable(p, Carry(p, n), PairCount(n));
    var w := DumpChars(p, n);
    assert w[2 * 0..2 * 0 + 2] == [w[0], w[1]];
    assert DumpBlock(p, n)[..2] == [w[0] - SPACE, w[1] - SPACE];
  }

  lemma {:induction false} ReadBlocks(s: seq<sextet>, q: nat)
    requires 13 * q <= |s|
    ensures ReadAll(BlockDigits(s, q)) == Parse(BlockList(s, q), [], 0)
  {
    if q > 0 {
      ReadBlocks(s, q - 1);
      DumpBlockStart(s[13 * q - 13..13 * q], 13);
      ReadRun(BlockDigits(s, q - 1), DumpBlock(s[13 * q - 13..13 * q], 13));
    }
  }

  lemma {:induction false} JoinedBlocks(s: seq<sextet>, q: nat)
    requires 13 * q <= |s|
    ensures Joined(BlockList(s, q)) == s[..13 * q]
  {
    if q > 0 {
      JoinedBlocks(s, q - 1);
      var p := s[13 * q - 13..13 * q];
      UnpackDump(p, 13);
      assert BlockList(s, q)[..q - 1] == BlockList(s, q - 1);
      assert Unpack(DumpBlock(p, 13), 12) == Unpack(DumpBlock(p, 13), 12)[..13];
      assert p[..13] == p;
      assert s[..13 * q] == s[..13 * q - 13] + p;
    }
  }

  lemma {:induction false} BlocksPrintable(s: seq<sextet>, q: nat)
    requires 13 * q <= |s|
    ensures forall i :: 0 <= i < 12 * q ==> SPACE <= Blocks(s, q)[i] < SPACE + 91
    ensures Digits(Blocks(s, q)) == BlockDigits(s, q)
  {
    if q > 0 {
      BlocksPrintable(s, q - 1);
      var p := s[13 * q - 13..13 * q];
      PairCharsPrintable(p, Carry(p, 13), 6);
      assert Blocks(s, q) == Blocks(s, q - 1) + DumpChars(p, 13);
      assert BlockDigits(s, q) == BlockDigits(s, q - 1) + Digits(DumpChars(p, 13));
      hide Blocks, BlockDigits, Digits, DumpChars;
      DigitsAppend(Blocks(s, q - 1), DumpChars(p, 13));
    }
  }

  // The digits of the flushed tail.
  function TailDigits(s: seq<sextet>): (d: seq<digit>)
    requires s != []
    ensures |d| == 2 * PairCount(Rest(s))
  {
    DumpBlock(BufferOf(s, Full(s)), Rest(s))[..2 * PairCount(Rest(s))]
  }

  predicate Printable(w: seq<int>) {
    forall i :: 0 <= i < |w| ==> SPACE <= w[i] < SPACE + 91
  }

  lemma DigitsAppend(v: seq<int>, w: seq<int>)
    requires Printable(v) && Printable(w)
    ensures Printable(v + w) && Digits(v + w) == Digits(v) + Digits(w)
  {
  }

  lemma DumpPrintable(p: seq<sextet>, n: nat)
    requires |p| == 13 && n <= 13
    ensures Printable(DumpChars(p, n)) && Digits(DumpChars(p, n)) == DumpBlock(p, n)[..2 * PairCount(n)]
  {
    PairCharsPrintable(p, Carry(p, n), PairCount(n));
  }

  // Every character of the wire form lies in 0x20..0x7A.
  lemma WirePrintable(x: seq<byte>)
    ensures Printable(Wire(x))
    ensures var s := Sextets(x);
      Digits(Wire(x)) == BlockDigits(s, Full(s)) + [MARK, MARK, Rest(s)] + TailDigits(s)
  {
    hide Sextets, Blocks, BufferOf, DumpChars, DumpBlock, BlockDigits;
    var s := Sextets(x);
    var mark := [ENDMARK1, ENDMARK2, Rest(s) + SPACE];
    var tail := DumpChars(BufferOf(s, Full(s)), Rest(s));
    BlocksPrintable(s, Full(s));
    DumpPrintable(BufferOf(s, Full(s)), Rest(s));
    DigitsAppend(Blocks(s, Full(s)), mark);
    DigitsAppend(Blocks(s, Full(s)) + mark, tail);
    assert Digits(mark) == [MARK, MARK, Rest(s)];
  }

  // Three bytes and their four sextets are one number of 24 bits; the last group ends with
  // its length instead.
  lemma QuadMeans(a: byte, b: byte, c: byte, n: nat)
    requires n <= 3
    ensures var q := Quad(a, b, c, n); var q0: int, q1: int, q2: int, q3: int := q[0], q[1], q[2], q[3];
      && ((q0 * 64 + q1) * 64 + q2) * 64 + (if n == 3 then q3 else c % 64) == (a * 256 + b) * 256 + c
      && (n < 3 ==> q3 == n)
  {
  }

  // The bit that a pair carries: of a full buffer one of the thirteenth sextet, the highest
  // first; of an odd tail the first pair carries a 1 and the others none.
  function CarryBit(p: seq<sextet>, n: nat, j: nat): (b: nat)
    requires |p| == 13 && j < 6
  {
    if n == 13 then [p[12] / 32, p[12] / 16 % 2, p[12] / 8 % 2, p[12] / 4 % 2, p[12] / 2 % 2, p[12] % 2][j]
    else if n % 2 == 1 && j == 0 then 1 else 0
  }

  lemma CarriedIs(p: seq<sextet>, n: nat, j: nat)
    requires |p| == 13 && n <= 13 && j < 6
    ensures Bit5(Shift(Carry(p, n), j)) == CarryBit(p, n, j)
  {
    ShiftedBits(Carry(p, n));
    hide Shift, Bit5;
    assert j == 0 || j == 1 || j == 2 || j == 3 || j == 4 || j == 5;
  }

  // Two printed characters from ' ' to 'z' say, in base 91, two sextets and the carried bit.
  lemma PairMeans(p: seq<sextet>, n: nat, j: nat)
    requires |p| == 13 && n <= 13 && j < PairCount(n)
    ensures var w := DumpChars(p, n); var hi: int, lo: int := p[2 * j], p[2 * j + 1];
      && 0x20 <= w[2 * j] <= 0x7A && 0x20 <= w[2 * j + 1] <= 0x7A
      && (w[2 * j] - 0x20) * 91 + (w[2 * j + 1] - 0x20) == 4096 * CarryBit(p, n, j) + 64 * hi + lo
  {
    PairCharsAt(p, Carry(p, n), PairCount(n), j);
    PairCharsPrintable(p, Carry(p, n), PairCount(n));
    CarriedIs(p, n, j);
  }

  // Every character that is printed is one from ' ' to 'z', and the end mark is "zz".
  lemma WireRange(x: seq<byte>)
    ensures forall i :: 0 <= i < |Wire(x)| ==> 0x20 <= Wire(x)[i] <= 0x7A
    ensures ENDMARK1 == ENDMARK2 == 0x7A
  {
    hide Wire;
    WirePrintable(x);
  }

  // How the decoder parses the wire form.
  lemma ReadWire(x: seq<byte>)
    ensures Printable(Wire(x))
    ensures
      var s := Sextets(x);
      var bs, d, r := BlockList(s, Full(s)), TailDigits(s), Rest(s);
      ReadAll(Digits(Wire(x))) == if |d| == 12 then Parse(bs + [d], [], r) else Parse(bs, d, r)
  {
    hide BlockDigits, BlockList, DumpBlock, Sextets, Wire, ReadAll, Digits;
    WirePrintable(x);
    var s := Sextets(x);
    var w := BlockDigits(s, Full(s));
    ReadBlocks(s, Full(s));
    ReadMark(w, Rest(s));
    DumpBlockStart(BufferOf(s, Full(s)), Rest(s));
    assert TailDigits(s)[..2] == DumpBlock(BufferOf(s, Full(s)), Rest(s))[..2];
    ReadRun(w + [MARK, MARK, Rest(s)], TailDigits(s));
  }

  // ----- bytes and sextets -----

  lemma UnquadQuad(a: byte, b: byte, c: byte)
    ensures Unquad(Quad(a, b, c, 3)) == [a, b, c]
  {
  }

  lemma UnquadLast(a: byte, b: byte, c: byte, n: nat)
    requires n < 3
    ensures Unquad(Quad(a, b, c, n))[..n] == [a, b, c][..n]
  {
  }

  lemma LastFour(t: seq<sextet>, q: seq<sextet>)
    requires |q| == 4
    ensures (t + q)[|t|..|t| + 4] == q
  {
  }

  // One more group of four sextets makes three more bytes.
  lemma BytesOfMore(t: seq<sextet>, q: seq<sextet>, k: nat)
    requires |t| == 4 * k && |q| == 4
    ensures Bytes(t + q, k + 1) == Bytes(t, k) + Unquad(q)
  {
    hide Unquad;
    BytesPrefix(t, q, k);
    LastFour(t, q);
  }

  lemma {:induction false} BytesOfTriples(x: seq<byte>, k: nat)
    requires 3 * k <= |x|
    ensures Bytes(Triples(x, k), k) == x[..3 * k]
  {
    if k > 0 {
      hide Quad, Unquad;
      BytesOfTriples(x, k - 1);
      var q := Quad(x[3 * k - 3], x[3 * k - 2], x[3 * k - 1], 3);
      var t := Triples(x, k - 1);
      assert Triples(x, k) == t + q;
      hide Triples, Bytes;
      BytesOfMore(t, q, k - 1);
      UnquadQuad(x[3 * k - 3], x[3 * k - 2], x[3 * k - 1]);
      ThreeMore(x, 3 * k);
    }
  }

  lemma ThreeMore(x: seq<byte>, n: nat)
    requires 3 <= n <= |x|
    ensures x[..n] == x[..n - 3] + [x[n - 3], x[n - 2], x[n - 1]]
  {
  }

  // The sextets of x end with the count that cuts them back to x.
  lemma FinalOfSextets(x: seq<byte>)
    ensures Final(Sextets(x)) == x
    ensures Sextets(x)[|Sextets(x)| - 1] < 3
  {
    hide Bytes, Final, Unquad;
    var k, n := |x| / 3, |x| % 3;
    var s, b := Sextets(x), Slots(x, k, n);
    var q := Quad(b[0], b[1], b[2], n);
    FinalIs(s, k);
    BytesPrefix(Triples(x, k), q, k);
    BytesOfTriples(x, k);
    UnquadLast(b[0], b[1], b[2], n);
    assert s[4 * k..] == q && Slots4(s, k) == q;
    assert b[..n] == x[3 * k..];
    assert [b[0], b[1], b[2]] == b;
  }

  // ----- the round trip -----

  // The flushed tail unpacks to the sextets that were pending.
  lemma TailPiece(t: seq<sextet>)
    requires t != []
    ensures var d, n, q := TailDigits(t), Rest(t), Full(t);
      && (|d| == 12 ==> n <= |Unpack(d, 12)| && Unpack(d, 12)[..n] == t[13 * q..])
      && (|d| < 12 ==> n <= |Unpack(Pad(d), |d|)| && Unpack(Pad(d), |d|)[..n] == t[13 * q..])
  {
    hide BufferOf, Unpack, DumpBlock, Full, Pad, Rest, PairCount, Stale;
    BufferFront(t);
    PieceBack(BufferOf(t, Full(t)), Rest(t), TailDigits(t));
  }

  lemma PieceBack(p: seq<sextet>, n: nat, d: seq<digit>)
    requires |p| == 13 && 1 <= n <= 13 && d == DumpBlock(p, n)[..2 * PairCount(n)]
    ensures |d| == 12 ==> n <= |Unpack(d, 12)| && Unpack(d, 12)[..n] == p[..n]
    ensures |d| < 12 ==> n <= |Unpack(Pad(d), |d|)| && Unpack(Pad(d), |d|)[..n] == p[..n]
  {
    hide Unpack, DumpBlock, Pad, PairCount;
    UnpackDump(p, n);
    PieceOf(DumpBlock(p, n), d);
  }

  lemma BufferFront(t: seq<sextet>)
    requires t != []
    ensures BufferOf(t, Full(t))[..Rest(t)] == t[13 * Full(t)..]
  {
  }

  // The digits at the front of a block unpack as the block does.
  lemma PieceOf(b: block, d: seq<digit>)
    requires |d| <= 12 && |d| % 2 == 0 && d == b[..|d|]
    ensures |d| == 12 ==> d == b
    ensures |d| < 12 ==> Unpack(Pad(d), |d|) == Unpack(b, |d|)
  {
    hide Unpack, Pad;
    if |d| < 12 {
      EvenUnpack(b, d);
    }
  }

  // For every input the decoder, whatever its buffering, gets exactly the input back,
  // needs no more sextets than the last piece has, and finds the file well terminated.
  lemma RoundTrip(x: seq<byte>)
    ensures Printable(Wire(x))
    ensures
      var s := ReadAll(Digits(Wire(x)));
      !TooMany(s) && |s.cur| % 2 == 0 && Output(s) == x && !BadlyTerminated(s)
  {
    hide Sextets, Wire, ReadAll, Unpack, Joined, Final, Bytes, DumpBlock, BlockList, BufferOf, Quad;
    ReadWire(x);
    var t := Sextets(x);
    var q, n := Full(t), Rest(t);
    var s := ReadAll(Digits(Wire(x)));
    JoinedBlocks(t, q);
    TailPiece(t);
    if s.cur == [] {
      assert s.blocks[..|s.blocks| - 1] == BlockList(t, q);
    }
    assert Before(s) + LastPiece(s)[..n] == t[..13 * q] + t[13 * q..] == t;
    FinalOfSextets(x);
  }

  // The exact length of the encoding.
  lemma WireLength(x: seq<byte>)
    ensures var s := Sextets(x);
      |Wire(x)| == 12 * Full(s) + 3 + 2 * (((if Rest(s) < 12 then Rest(s) else 12) + 1) / 2)
    ensures 4 * (|x| / 3 + 1) == 13 * Full(Sextets(x)) + Rest(Sextets(x))
  {
    hide Blocks, DumpChars, Sextets, BufferOf;
  }

  // The two programs in sequence give back every input.
  method EncodeThenDecode(x: seq<byte>) returns (y: seq<int>, status: Status, warned: bool)
    ensures y == x && status == Done && !warned
  {
    hide Wire, ReadAll, Output, TooMany, BadlyTerminated, Encoder.Encoder.Valid, Reader.Valid;
    var encoder := new Encoder.Encoder();
    encoder.EncodeAll(x);
    var reader := new Reader();
    RoundTrip(x);
    status := reader.DecodeAll(encoder.out);
    y, warned := reader.decoder.out, reader.decoder.warned;
  }
}
