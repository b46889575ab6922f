// The number systems of the news encoding: 8-bit bytes, 6-bit "sextets", 13-bit
// numbers and pairs of base-91 digits.  Shifts and masks of the C code are
// written as division and remainder by powers of two; every operand is
// non-negative, so both readings agree.
module SixBit {

  type byte = x: int | 0 <= x < 256
  type sextet = x: int | 0 <= x < 64

  const SPACE := 32
  // The two characters of the end mark: (90 * 91 + 90) / 91 and its remainder, printable.
  const ENDMARK1 := (90 * 91 + 90) / 91 + SPACE
  const ENDMARK2 := (90 * 91 + 90) % 91 + SPACE

  // `last` shifted left k times.
  function Shift(last: nat, k: nat): (r: nat)
  {
    if k == 0 then last else 2 * Shift(last, k - 1)
  }

  // Bit 5 of a number.
  function Bit5(v: nat): (b: nat)
    ensures b <= 1
  {
    (v / 32) % 2
  }

  // Three bytes as four sextets; the last sextet of the final group is the byte count.
  function Quad(a: byte, b: byte, c: byte, n: nat): (q: seq<sextet>)
    requires n <= 3
  {
    [a / 4, (a % 4) * 16 + b / 16, (b % 16) * 4 + c / 64, if n == 3 then c % 64 else n]
  }

  function Unquad(q: seq<sextet>): (b: seq<byte>)
    requires |q| == 4
  {
    var a: int, b: int, c: int, d: int := q[0], q[1], q[2], q[3];
    [a * 4 + b / 16, (b % 16) * 16 + c / 4, (c % 4) * 64 + d]
  }

  // The sextets of the first k complete byte triples.
  function Triples(x: seq<byte>, k: nat): (s: seq<sextet>)
    requires 3 * k <= |x|
    ensures |s| == 4 * k
  {
    if k == 0 then []
    else Triples(x, k - 1) + Quad(x[3 * k - 3], x[3 * k - 2], x[3 * k - 1], 3)
  }

  // The three input slots after k triples and p more bytes: the bytes that arrived,
  // then what the previous triple left behind (zeros before the first triple).
  function Slots(x: seq<byte>, k: nat, p: nat): (b: seq<byte>)
    requires p < 3 && 3 * k + p <= |x|
    ensures |b| == 3
  {
    x[3 * k..3 * k + p] + (if k == 0 then [0, 0, 0] else x[3 * k - 3..3 * k])[p..]
  }

  // Every sextet the encoder produces for input x.
  function Sextets(x: seq<byte>): (s: seq<sextet>)
    ensures |s| == 4 * (|x| / 3 + 1)
  {
    var b := Slots(x, |x| / 3, |x| % 3);
    Triples(x, |x| / 3) + Quad(b[0], b[1], b[2], |x| % 3)
  }

  // The carry bits spread over the pairs when n sextets are dumped.
  function Carry(p: seq<sextet>, n: nat): (last: sextet)
    requires |p| == 13
  {
    if n == 13 then p[12] else if n % 2 == 1 then 32 else 0
  }

  // The 13-bit number made of pair k.
  function Pair(p: seq<sextet>, last: sextet, k: nat): (c: nat)
    requires |p| == 13 && k < 6
    ensures c < 8192
  {
    p[2 * k] * 64 + p[2 * k + 1] + 4096 * Bit5(Shift(last, k))
  }

  // The characters of the first k pairs.
  function PairChars(p: seq<sextet>, last: sextet, k: nat): (w: seq<int>)
    requires |p| == 13 && k <= 6
    ensures |w| == 2 * k
  {
    if k == 0 then []
    else
      var c := Pair(p, last, k - 1);
      PairChars(p, last, k - 1) + [c / 91 + SPACE, c % 91 + SPACE]
  }

  // How many pairs n sextets need: the 13th sextet travels in the carry bits.
  function PairCount(n: nat): (k: nat)
    requires n <= 13
    ensures k <= 6
  {
    if n == 13 then 6 else (n + 1) / 2
  }

  // The characters for the first n sextets of a 13-sextet buffer.
  function DumpChars(p: seq<sextet>, n: nat): (w: seq<int>)
    requires |p| == 13 && n <= 13
    ensures |w| == 2 * PairCount(n)
  {
    PairChars(p, Carry(p, n), PairCount(n))
  }

  // The characters of the first q blocks of 13 sextets.
  function Blocks(s: seq<sextet>, q: nat): (w: seq<int>)
    requires 13 * q <= |s|
    ensures |w| == 12 * q
  {
    if q == 0 then []
    else Blocks(s, q - 1) + DumpChars(s[13 * q - 13..13 * q], 13)
  }

  // How many whole blocks leave the buffer before the final flush, and how many
  // sextets (1 to 13) stay for it.
  function Full(s: seq<sextet>): (q: nat)
    requires s != []
  {
    (|s| - 1) / 13
  }

  function Rest(s: seq<sextet>): (r: nat)
    requires s != []
    ensures 1 <= r <= 13 && |s| == 13 * Full(s) + r
  {
    |s| - 13 * Full(s)
  }

  // What block q - 1 left in the 13 slots of the buffer; zeros before the first block.
  function Stale(s: seq<sextet>, q: nat): (p: seq<sextet>)
    requires 13 * q <= |s|
    ensures |p| == 13
  {
    if q == 0 then seq(13, _ => 0) else s[13 * q - 13..13 * q]
  }

  // The 13 slots of the encoder's buffer after all of s went through it.
  function BufferOf(s: seq<sextet>, q: nat): (p: seq<sextet>)
    requires 13 * q <= |s| <= 13 * q + 13
    ensures |p| == 13
  {
    s[13 * q..] + Stale(s, q)[|s| - 13 * q..]
  }

  // Everything the encoder prints for input x.
  function Wire(x: seq<byte>): (w: seq<int>)
  {
    var s := Sextets(x);
    Blocks(s, Full(s)) + [ENDMARK1, ENDMARK2, Rest(s) + SPACE]
      + DumpChars(BufferOf(s, Full(s)), Rest(s))
  }
}
