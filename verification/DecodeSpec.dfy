// What a string of printable characters decodes to, independently of how
// frontends/decode.c buffers it: the characters are cut into blocks of 12, an end
// mark at the start of a block is dropped and its count kept, the blocks turn into
// sextets and the sextets into bytes.
module DecodeSpec {
  import opened SixBit

  type digit = x: int | 0 <= x < 91
  type block = b: seq<digit> | |b| == 12 witness seq(12, _ => 0)

  const MARK: digit := 90  // both characters of the end mark, less the space

  // The characters read so far: whole blocks, the block being read, the last end-mark count.
  datatype Parse = Parse(blocks: seq<block>, cur: seq<digit>, cnt: nat)

  function Read(s: Parse, d: digit): (r: Parse)
    requires |s.cur| < 12
    ensures |r.cur| < 12
  {
    if s.cur == [MARK, MARK] then Parse(s.blocks, [], d)
    else if |s.cur| == 11 then Parse(s.blocks + [s.cur + [d]], [], s.cnt)
    else Parse(s.blocks, s.cur + [d], s.cnt)
  }

  function ReadAll(ds: seq<digit>): (r: Parse)
    ensures |r.cur| < 12
  {
    if ds == [] then Parse([], [], 0) else Read(ReadAll(ds[..|ds| - 1]), ds[|ds| - 1])
  }

  // The 13-bit number of digit pair k.
  function Number(p: block, k: nat): (c: nat)
    requires k < 6
  {
    var hi: int, lo: int := p[2 * k], p[2 * k + 1];
    hi * 91 + lo
  }

  // The twelve-bit halves of the first k numbers ...
  function Halves(p: block, k: nat): (s: seq<sextet>)
    requires k <= 6
    ensures |s| == 2 * k
  {
    if k == 0 then []
    else Halves(p, k - 1) + [(Number(p, k - 1) / 64) % 64, Number(p, k - 1) % 64]
  }

  // ... and their thirteenth bits, most significant first.
  function TopBits(p: block, k: nat): (v: nat)
    requires k <= 6
  {
    if k == 0 then 0 else 2 * TopBits(p, k - 1) + (Number(p, k - 1) / 4096) % 2
  }

  lemma {:induction false} TopBitsSmall(p: block, k: nat)
    requires k <= 6
    ensures TopBits(p, k) < Shift(1, k) <= 64
  {
    if k > 0 { TopBitsSmall(p, k - 1); }
    assert Shift(1, k) == if k == 0 then 1 else 2 * Shift(1, k - 1);
    ShiftSmall(k);
  }

  lemma ShiftSmall(k: nat)
    requires k <= 6
    ensures Shift(1, k) <= 64
  {
    assert Shift(1, 2) == 4;
    assert Shift(1, 4) == 16;
    assert Shift(1, 6) == 64;
    assert k == 0 || k == 1 || k == 2 || k == 3 || k == 4 || k == 5 || k == 6;
  }

  // How many digit pairs n digits fill.
  function PairsOf(n: nat): (k: nat)
    requires n <= 12
    ensures k <= 6
  {
    (n + 1) / 2
  }

  // The sextets carried by the first n digits of a block.
  function Unpack(p: block, n: nat): (s: seq<sextet>)
    requires n <= 12
    ensures |s| == 2 * PairsOf(n) + 1
  {
    var k := PairsOf(n);
    TopBitsSmall(p, k);
    Halves(p, k) + [TopBits(p, k)]
  }

  // The sextets of a run of whole blocks.
  function Joined(bs: seq<block>): (s: seq<sextet>)
    ensures |s| == 13 * |bs|
  {
    if bs == [] then [] else Joined(bs[..|bs| - 1]) + Unpack(bs[|bs| - 1], 12)
  }

  // The bytes of the first g sextet groups.
  function Bytes(t: seq<sextet>, g: nat): (b: seq<byte>)
    requires 4 * g <= |t|
    ensures |b| == 3 * g
  {
    if g == 0 then [] else Bytes(t, g - 1) + Unquad(t[4 * g - 4..4 * g])
  }

  // The four slots of the decoder's buffer after g groups: the pending sextets,
  // then what the previous group left behind.
  function Slots4(t: seq<sextet>, g: nat): (q: seq<sextet>)
    requires 4 * g <= |t| <= 4 * g + 4
    ensures |q| == 4
  {
    t[4 * g..] + (if g == 0 then [0, 0, 0, 0] else t[4 * g - 4..4 * g])[|t| - 4 * g..]
  }

  // A stream of sextets that ends here: the last sextet says how many bytes the
  // last group holds (at most three).
  function Final(t: seq<sextet>): (b: seq<byte>)
    requires t != []
  {
    var g := (|t| - 1) / 4;
    var n: int := t[|t| - 1];
    Bytes(t, g) + Unquad(Slots4(t, g))[..if n >= 3 then 3 else n]
  }

  // The output for sextets t followed by the sextets b of the last piece.
  function Finish(t: seq<sextet>, b: seq<sextet>, cnt: nat): (r: seq<byte>)
    requires cnt <= |b|
  {
    if cnt == 0 then Bytes(t + b, |t + b| / 4) else Final(t + b[..cnt])
  }

  // The last piece: the block being read or, when there is none, the last whole block.
  function Pad(cur: seq<digit>): (p: block)
    requires |cur| < 12
  {
    cur + seq(12 - |cur|, _ => 0)
  }

  function LastPiece(s: Parse): (b: seq<sextet>)
    requires |s.cur| < 12 && (s.cur != [] || s.blocks != [])
  {
    if s.cur == [] then Unpack(s.blocks[|s.blocks| - 1], 12) else Unpack(Pad(s.cur), |s.cur|)
  }

  function Before(s: Parse): (t: seq<sextet>)
    requires s.cur != [] || s.blocks != []
  {
    if s.cur == [] then Joined(s.blocks[..|s.blocks| - 1]) else Joined(s.blocks)
  }

  // The end mark announces more sextets than the last piece holds.
  predicate TooMany(s: Parse)
    requires |s.cur| < 12
  {
    (s.cur != [] || s.blocks != []) && s.cnt > |LastPiece(s)|
  }

  // The decoded bytes.
  function Output(s: Parse): (b: seq<byte>)
    requires |s.cur| < 12 && !TooMany(s)
  {
    if s.cur == [] && s.blocks == [] then [] else Finish(Before(s), LastPiece(s), s.cnt)
  }

  // The last group claims more than two bytes.
  predicate BadlyTerminated(s: Parse)
    requires |s.cur| < 12 && !TooMany(s)
  {
    (s.cur != [] || s.blocks != []) && s.cnt > 0 && LastPiece(s)[s.cnt - 1] >= 3
  }
}
