// The stateful encoder of frontends/encode.c.
module Encoder {
  import opened SixBit

  lemma {:induction false} BlocksPrefix(s: seq<sextet>, t: seq<sextet>, q: nat)
    requires 13 * q <= |s|
    ensures Blocks(s + t, q) == Blocks(s, q)
  {
    if q > 0 {
      BlocksPrefix(s, t, q - 1);
      assert (s + t)[13 * q - 13..13 * q] == s[13 * q - 13..13 * q];
    }
  }

  // Once a block is dumped, the buffer holds only stale sextets.
  lemma BufferFull(s: seq<sextet>, q: nat)
    requires |s| == 13 * q + 13
    ensures BufferOf(s, q) == s[13 * q..13 * q + 13] == BufferOf(s, q + 1)
  {
    assert s[13 * q + 13..] == [];
    assert Stale(s, q)[13..] == [];
  }

  lemma BufferPush(s: seq<sextet>, q: nat, x: sextet)
    requires 13 * q <= |s| < 13 * q + 13
    ensures BufferOf(s + [x], q) == BufferOf(s, q)[|s| - 13 * q := x]
  {
    assert Stale(s + [x], q) == Stale(s, q);
    assert (s + [x])[13 * q..] == s[13 * q..] + [x];
  }

  lemma SlotsStep(x: seq<byte>, k: nat, p: nat)
    requires p < 3 && 3 * k + p < |x|
    ensures Slots(x, k, p)[p := x[3 * k + p]] == if p < 2 then Slots(x, k, p + 1) else x[3 * k..3 * k + 3]
    ensures p == 2 ==> Slots(x, k + 1, 0) == x[3 * k..3 * k + 3]
  {
    assert x[3 * k..3 * k + p + 1] == x[3 * k..3 * k + p] + [x[3 * k + p]];
  }

  lemma TriplesNext(x: seq<byte>, k: nat)
    requires 3 * k + 3 <= |x|
    ensures Triples(x, k + 1) == Triples(x, k) + Quad(x[3 * k], x[3 * k + 1], x[3 * k + 2], 3)
  {
  }

  lemma NothingYet(x: seq<byte>)
    ensures Triples(x, 0) == [] && Slots(x, 0, 0) == [0, 0, 0]
  {
    assert x[0..0] == [];
  }

  lemma OneMore(s: seq<sextet>, t: seq<sextet>, j: nat)
    requires j < |t|
    ensures s + t[..j] + [t[j]] == s + t[..j + 1]
  {
  }

  // The pieces left when the input ends add up to the sextets and the wire form of x.
  lemma SextetsAre(x: seq<byte>, k: nat, p: nat)
    requires p < 3 && |x| == 3 * k + p
    ensures Sextets(x) == Triples(x, k) + Quad(Slots(x, k, p)[0], Slots(x, k, p)[1], Slots(x, k, p)[2], p)
  {
    assert |x| / 3 == k && |x| % 3 == p;
  }

  lemma WireIs(x: seq<byte>, q: nat, n: nat)
    requires 1 <= n <= 13 && |Sextets(x)| == 13 * q + n
    ensures Wire(x) == Blocks(Sextets(x), q) + [ENDMARK1, ENDMARK2, n + SPACE] + DumpChars(BufferOf(Sextets(x), q), n)
  {
    assert Full(Sextets(x)) == q;
  }

  class Encoder {
    var buffer: array<sextet>    // `Buffer`
    var count: nat               // `Count`
    var out: seq<int>            // standard output
    ghost var pushed: seq<sextet>  // every sextet that went into the buffer so far
    ghost var full: nat          // how many blocks of 13 were dumped

    ghost predicate Valid()
      reads this, buffer
    {
      && buffer.Length == 13
      && count <= 13
      && |pushed| == 13 * full + count
      && buffer[..] == BufferOf(pushed, full)
      && out == Blocks(pushed, full)
    }

    constructor ()
      ensures Valid() && pushed == [] && fresh(buffer)
    {
      buffer := new sextet[13](_ => 0);
      count, out, pushed, full := 0, [], [], 0;
    }

    // Two sextets and one of the carry bits.
    static method Number(hi: sextet, lo: sextet, last: nat) returns (c: nat)
      ensures c == hi * 64 + lo + 4096 * Bit5(last)
    {
      var h: int := hi;
      c := h * 64 + lo;
      if last / 32 % 2 == 1 {
        c := c + 4096;
      }
    }

    // `dumpcode`
    method DumpCode(n: nat)
      requires buffer.Length == 13 && n <= 13
      modifies this`out
      ensures out == old(out) + DumpChars(buffer[..], n)
    {
      var m: int, last: nat := n, 0;
      if n == 13 {
        m := 12;
        last := buffer[12];
      } else if n % 2 == 1 {
        last := 32;
      }
      ghost var carry: sextet := last;
      ghost var p := buffer[..];
      var k := 0;
      hide Bit5;
      while m > 0
        invariant -1 <= m && m + 2 * k == (if n == 13 then 12 else n)
        invariant 0 <= k <= PairCount(n)
        invariant last == Shift(carry, k)
        invariant out == old(out) + PairChars(p, carry, k)
        decreases m
      {
        var c := Number(buffer[2 * k], buffer[2 * k + 1], last);
        assert c == Pair(p, carry, k);
        last := last * 2;
        out := out + [c / 91 + SPACE, c % 91 + SPACE];
        k, m := k + 1, m - 2;
      }
      assert k == PairCount(n);
    }

    // A full buffer is printed before the next sextet is stored.
    method Spill()
      requires Valid() && count == 13
      modifies this
      ensures Valid() && buffer == old(buffer) && pushed == old(pushed) && count == 0
    {
      hide DumpChars, Stale, BufferOf;
      BufferFull(pushed, full);
      DumpCode(13);
      assert Blocks(pushed, full + 1) == Blocks(pushed, full) + DumpChars(pushed[13 * full..13 * full + 13], 13);
      hide Blocks;
      full := full + 1;
      count := 0;
    }

    // A sextet goes into a buffer that has room.
    method Store(x: sextet)
      requires Valid() && count < 13
      modifies this, buffer
      ensures Valid() && buffer == old(buffer) && pushed == old(pushed) + [x] && count > 0
    {
      hide Blocks, BufferOf, DumpChars, Stale;
      BlocksPrefix(pushed, [x], full);
      BufferPush(pushed, full, x);
      ghost var p := buffer[..];
      buffer[count] := x;
      assert buffer[..] == p[count := x];
      count := count + 1;
      pushed := pushed + [x];
    }

    // The loop of `encode` that moves one sextet into the buffer.
    method Push(x: sextet)
      requires Valid()
      modifies this, buffer
      ensures Valid() && buffer == old(buffer) && pushed == old(pushed) + [x] && count > 0
    {
      if count == 13 {
        Spill();
      }
      hide Blocks, BufferOf;
      assert count < 13;
      Store(x);
    }

    // The four sextets of three bytes.
    static method Group(a: byte, b: byte, c: byte, n: nat) returns (b4: seq<sextet>)
      requires n <= 3
      ensures b4 == Quad(a, b, c, n)
    {
      b4 := [a / 4, (a % 4) * 16 + b / 16, (b % 16) * 4 + c / 64, if n == 3 then c % 64 else n];
    }

    // `encode`
    method Encode(a: byte, b: byte, c: byte, n: nat)
      requires Valid() && n <= 3
      modifies this, buffer
      ensures Valid() && buffer == old(buffer) && count > 0
      ensures pushed == old(pushed) + Quad(a, b, c, n)
    {
      var b4 := Group(a, b, c, n);
      hide Quad, Blocks, BufferOf, DumpChars;
      ghost var before := pushed;
      for j := 0 to 4
        invariant Valid() && buffer == old(buffer)
        invariant pushed == before + b4[..j]
        invariant j > 0 ==> count > 0
      {
        OneMore(before, b4, j);
        Push(b4[j]);
      }
      assert b4[..4] == b4;
    }

    // `flushout`
    method FlushOut()
      requires buffer.Length == 13 && count <= 13
      modifies this`out
      ensures out == old(out) + [ENDMARK1, ENDMARK2, count + SPACE] + DumpChars(buffer[..], count)
    {
      out := out + [ENDMARK1, ENDMARK2, count + SPACE];
      DumpCode(count);
    }

    // `main`: encode a whole input.
    method EncodeAll(x: seq<byte>)
      requires Valid() && pushed == []
      modifies this, buffer
      ensures out == Wire(x)
    {
      hide Wire, Sextets, Quad, DumpChars, Blocks, BufferOf, Stale, Triples, Slots;
      NothingYet(x);
      var b3: seq<byte> := [0, 0, 0];
      var p := 0;
      ghost var k := 0;
      for i := 0 to |x|
        invariant Valid() && buffer == old(buffer)
        invariant i == 3 * k + p && p < 3
        invariant pushed == Triples(x, k)
        invariant b3 == Slots(x, k, p)
      {
        SlotsStep(x, k, p);
        if p == 2 {
          TriplesNext(x, k);
        }
        b3 := b3[p := x[i]];
        p := p + 1;
        if p == 3 {
          Encode(b3[0], b3[1], b3[2], 3);
          p, k := 0, k + 1;
        }
      }
      Encode(b3[0], b3[1], b3[2], p);
      SextetsAre(x, k, p);
      WireIs(x, full, count);
      FlushOut();
    }
  }
}
