// The stateful decoder of frontends/decode.c: double buffering and one block of delay.
module Decoder {
  import opened SixBit
  import opened DecodeSpec

  datatype Status =
    | Done      // exit(0)
    | BadData   // die("bad data")
    | Overrun   // the end mark names sextets the last piece does not have: undefined in C

  lemma {:induction false} BytesPrefix(t: seq<sextet>, u: seq<sextet>, g: nat)
    requires 4 * g <= |t|
    ensures Bytes(t + u, g) == Bytes(t, g)
  {
    if g > 0 {
      BytesPrefix(t, u, g - 1);
      assert (t + u)[4 * g - 4..4 * g] == t[4 * g - 4..4 * g];
    }
  }

  lemma SlotsPush(t: seq<sextet>, g: nat, x: sextet)
    requires 4 * g <= |t| < 4 * g + 4
    ensures Slots4(t + [x], g) == Slots4(t, g)[|t| - 4 * g := x]
  {
    assert (t + [x])[4 * g..] == t[4 * g..] + [x];
    if g > 0 { assert (t + [x])[4 * g - 4..4 * g] == t[4 * g - 4..4 * g]; }
  }

  // A full group of four: its bytes extend the output, and its sextets become the leftovers.
  lemma SlotsFull(t: seq<sextet>, g: nat)
    requires |t| == 4 * g + 4
    ensures Slots4(t, g) == t[4 * g..4 * g + 4] == Slots4(t, g + 1)
    ensures Bytes(t, g + 1) == Bytes(t, g) + Unquad(Slots4(t, g))
  {
    assert t[4 * g + 4..] == [];
  }

  lemma FinalIs(t: seq<sextet>, g: nat)
    requires 4 * g < |t| <= 4 * g + 4
    ensures Slots4(t, g)[|t| - 4 * g - 1] == t[|t| - 1]
    ensures Final(t) == Bytes(t, g) + Unquad(Slots4(t, g))[..if t[|t| - 1] >= 3 then 3 else t[|t| - 1] as int]
  {
    assert (|t| - 1) / 4 == g;
  }

  // Shifting left and truncating to a byte keeps the low bits.
  lemma UnquadIs(a: sextet, b: sextet, c: sextet, d: sextet)
    ensures var x: int, y: int, z: int, u: int := a, b, c, d;
      Unquad([a, b, c, d]) == [(x * 4 + y / 16) % 256, (y * 16 + z / 4) % 256, (z * 64 + u) % 256]
  {
    var x: int, y: int, z: int, u: int := a, b, c, d;
    ByteOf(x, y / 16, 4, 64);
    ByteOf(y, z / 4, 16, 16);
    ByteOf(z, u, 64, 4);
  }

  // A byte made of the low bits of one sextet and the high bits of the next.
  lemma ByteOf(x: int, low: int, f: int, m: int)
    requires 0 <= x < 64 && 0 <= low < f
    requires (f == 4 && m == 64) || (f == 16 && m == 16) || (f == 64 && m == 4)
    ensures (x * f + low) % 256 == (x % m) * f + low
  {
    if f == 4 {
      assert x % 64 == x;
    } else if f == 16 {
      var k, r := x / 16, x % 16;
      assert x * 16 + low == 256 * k + (r * 16 + low);
    } else {
      var k, r := x / 4, x % 4;
      assert x * 64 + low == 256 * k + (r * 64 + low);
    }
  }

  class Decoder {
    var quad: array<sextet>     // `Buffer`
    var count: nat              // `count`
    var out: seq<int>           // standard output
    var warned: bool            // "badly-terminated file" was printed
    ghost var seen: seq<sextet> // every sextet that went into the buffer so far
    ghost var groups: nat       // how many groups of four were printed

    ghost predicate Holds()
      reads this, quad
    {
      && quad.Length == 4
      && count <= 4
      && |seen| == 4 * groups + count
      && quad[..] == Slots4(seen, groups)
      && out == Bytes(seen, groups)
    }

    ghost predicate Valid()
      reads this, quad
    {
      Holds() && count < 4 && !warned
    }

    constructor ()
      ensures Valid() && seen == [] && fresh(quad)
    {
      quad := new sextet[4](_ => 0);
      count, out, warned, seen, groups := 0, [], false, [], 0;
    }

    // `pack6`
    method Pack6(n: nat, last: nat)
      requires quad.Length == 4 && 1 <= n <= 4
      modifies this`out, this`warned
      ensures last == 0 ==> out == old(out) + Unquad(quad[..]) && warned == old(warned)
      ensures last != 0 ==>
        var i: int := quad[n - 1];
        && out == old(out) + Unquad(quad[..])[..if i >= 3 then 3 else i]
        && warned == (old(warned) || i >= 3)
    {
      var i: int := 3;
      if last != 0 {
        i := quad[n - 1];
        if i >= 3 {
          warned := true;
          i := 3;
        }
      }
      var a: int, b: int, c: int, d: int := quad[0], quad[1], quad[2], quad[3];
      var b3 := [(a * 4 + b / 16) % 256, (b * 16 + c / 4) % 256, (c * 64 + d) % 256];
      UnquadIs(quad[0], quad[1], quad[2], quad[3]);
      assert quad[..] == [quad[0], quad[1], quad[2], quad[3]];
      out := out + b3[..i];
    }

    // Store one sextet in the buffer.
    method Store(x: sextet)
      requires Holds() && count < 4
      modifies this`count, this`seen, quad
      ensures Holds() && count == old(count) + 1 && seen == old(seen) + [x]
    {
      SlotsPush(seen, groups, x);
      BytesPrefix(seen, [x], groups);
      ghost var p := quad[..];
      quad[count] := x;
      assert quad[..] == p[count := x];
      count := count + 1;
      seen := seen + [x];
    }

    // Print a complete group.
    method Emit()
      requires Holds() && count == 4
      modifies this`out, this`count, this`groups, this`warned
      ensures Holds() && count == 0 && warned == old(warned)
    {
      SlotsFull(seen, groups);
      hide Bytes, Slots4, Unquad;
      Pack6(4, 0);
      groups := groups + 1;
      count := 0;
    }

    // `pack12`
    method Pack12(p: array<digit>, n: nat, last: nat)
      requires Valid() && p.Length == 12 && n <= 12 && last <= |Unpack(p[..], n)|
      modifies this, quad
      ensures quad == old(quad)
      ensures last == 0 ==> Valid() && seen == old(seen) + Unpack(p[..], n)
      ensures last != 0 ==>
        var t := old(seen) + Unpack(p[..], n)[..last];
        out == Final(t) && warned == (t[|t| - 1] >= 3)
    {
      hide Bytes, Slots4, Unpack, Final, Unquad;
      var b13 := UnpackBlock(p, n);
      if last != 0 {
        b13 := b13[..last];
      }
      for j := 0 to |b13| - 1
        invariant Valid() && quad == old(quad)
        invariant seen == old(seen) + b13[..j]
      {
        Store(b13[j]);
        if count == 4 {
          Emit();
        }
      }
      // The last octet.
      Store(b13[|b13| - 1]);
      assert seen == old(seen) + b13;
      if last != 0 || count == 4 {
        if last == 0 {
          SlotsFull(seen, groups);
        } else {
          FinalIs(seen, groups);
        }
        Pack6(count, last);
        count := 0;
        groups := groups + 1;
      }
    }

    // The first loop of `pack12`: digits to sextets.
    static method UnpackBlock(p: array<digit>, n: nat) returns (b13: seq<sextet>)
      requires p.Length == 12 && n <= 12
      ensures b13 == Unpack(p[..], n)
    {
      var c13, i := 0, 0;
      b13 := [];
      while i < n
        invariant i % 2 == 0 && i / 2 <= PairsOf(n) && (i < n ==> i / 2 < PairsOf(n))
        invariant i >= n ==> i / 2 == PairsOf(n)
        invariant b13 == Halves(p[..], i / 2)
        invariant c13 == TopBits(p[..], i / 2)
      {
        var hi: int, lo: int := p[i], p[i + 1];
        var c := hi * 91 + lo;
        assert c == Number(p[..], i / 2);
        c13 := 2 * c13 + (c / 4096) % 2;
        b13 := b13 + [(c / 64) % 64, c % 64];
        i := i + 2;
      }
      TopBitsSmall(p[..], PairsOf(n));
      b13 := b13 + [c13];
    }
  }

  function Digits(w: seq<int>): (d: seq<digit>)
    requires forall i :: 0 <= i < |w| ==> SPACE <= w[i] < SPACE + 91
    ensures |d| == |w|
  {
    seq(|w|, i requires 0 <= i < |w| => w[i] - SPACE)
  }

  lemma DigitsStep(w: seq<int>, k: nat)
    requires k < |w| && forall i :: 0 <= i <= k ==> SPACE <= w[i] < SPACE + 91
    ensures ReadAll(Digits(w[..k + 1])) == Read(ReadAll(Digits(w[..k])), w[k] - SPACE)
  {
    var d := Digits(w[..k + 1]);
    assert d[..|d| - 1] == Digits(w[..k]);
  }

  lemma JoinedStep(bs: seq<block>)
    requires bs != []
    ensures Joined(bs) == Joined(bs[..|bs| - 1]) + Unpack(bs[|bs| - 1], 12)
  {
  }

  lemma JoinedNone()
    ensures Joined([]) == []
  {
  }

  predicate Distinct(a: object, b: object) {
    a != b
  }

  // `main` with its two alternating blocks.
  class Reader {
    const b12: array<digit>
    const c12: array<digit>
    const decoder: Decoder
    var onB: bool        // `base` is b12
    var i: nat           // free characters in the base block
    var cnt: nat
    var first: bool      // no block is waiting
    ghost var s: Parse   // what was read so far

    ghost predicate Separate()
      reads decoder
    {
      b12 != c12 && Distinct(decoder.quad, b12) && Distinct(decoder.quad, c12) && b12.Length == c12.Length == 12
    }

    ghost predicate Valid()
      reads this, decoder, decoder.quad, b12, c12
    {
      var base, other := if onB then b12 else c12, if onB then c12 else b12;
      && Separate() && decoder.Valid()
      && 1 <= i <= 12 && cnt == s.cnt && |s.cur| == 12 - i && base[..12 - i] == s.cur
      && (first <==> s.blocks == [])
      && (first ==> onB && decoder.seen == [])
      && (!first ==> other[..] == s.blocks[|s.blocks| - 1]
                     && decoder.seen == Joined(s.blocks[..|s.blocks| - 1]))
    }

    constructor ()
      ensures Valid() && s == Parse([], [], 0) && fresh(decoder) && fresh(decoder.quad) && fresh(b12) && fresh(c12)
    {
      hide Joined, Unpack, Bytes, Slots4, Decoder.Valid;
      b12 := new digit[12](_ => 0);
      c12 := new digit[12](_ => 0);
      decoder := new Decoder();
      onB, i, cnt, first, s := true, 12, 0, true, Parse([], [], 0);
    }

    // The base block is full: decode the block that waits, and let this one wait instead.
    method Turn()
      requires Separate() && decoder.Valid() && s.cur == [] && s.blocks != []
      requires var base, other := if onB then b12 else c12, if onB then c12 else b12;
        && base[..] == s.blocks[|s.blocks| - 1]
        && (first <==> |s.blocks| == 1)
        && (first ==> onB && decoder.seen == [])
        && (!first ==> other[..] == s.blocks[|s.blocks| - 2]
                       && decoder.seen == Joined(s.blocks[..|s.blocks| - 2]))
      requires cnt == s.cnt
      modifies this`i, this`onB, this`first, decoder, decoder.quad
      ensures Valid() && decoder.quad == old(decoder.quad)
    {
      ghost var bs := s.blocks[..|s.blocks| - 1];
      hide Joined, Unpack;
      if !first {
        assert bs[..|bs| - 1] == s.blocks[..|s.blocks| - 2];
        JoinedStep(bs);
      } else {
        assert bs == [];
        JoinedNone();
      }
      if onB {
        if !first {
          decoder.Pack12(c12, 12, 0);
        } else {
          first := false;
        }
        onB := false;
      } else {
        decoder.Pack12(b12, 12, 0);
        onB := true;
      }
      i := 12;
    }

    // One character that is in range.
    method Take(c: digit)
      requires Valid()
      modifies this, decoder, decoder.quad, b12, c12
      ensures Valid() && decoder.quad == old(decoder.quad) && s == Read(old(s), c)
    {
      hide Joined, Unpack, Decoder.Valid, Decoder.Holds;
      var base := if onB then b12 else c12;
      ghost var p := base[..];
      assert i == 10 ==> s.cur == [base[0], base[1]];
      if i == 10 && base[1] == MARK && base[0] == MARK {
        s := Read(s, c);
        cnt := c;
        i := 12;
      } else {
        base[12 - i] := c;
        assert base[..] == p[12 - i := c];
        ghost var s0 := s;
        s := Read(s, c);
        i := i - 1;
        if i == 0 {
          assert first || s.blocks[..|s.blocks| - 2] == s0.blocks[..|s0.blocks| - 1];
          Turn();
        }
      }
    }

    // End of input: decode what waits and what was begun.
    method AtEnd() returns (status: Status)
      requires Valid()
      modifies decoder, decoder.quad
      ensures decoder.quad == old(decoder.quad)
      ensures status == (if TooMany(s) then Overrun else Done)
      ensures status == Done && |s.cur| % 2 == 0 ==>
        decoder.out == Output(s) && decoder.warned == BadlyTerminated(s)
    {
      if i == 12 && first {
        return Done;
      }
      if i == 12 {
        status := EndAfterBlock();
      } else {
        status := EndInBlock();
      }
    }

    // The input ends behind a whole block.
    method EndAfterBlock() returns (status: Status)
      requires Valid() && i == 12 && !first
      modifies decoder, decoder.quad
      ensures decoder.quad == old(decoder.quad)
      ensures status == (if TooMany(s) then Overrun else Done)
      ensures status == Done && |s.cur| % 2 == 0 ==>
        decoder.out == Output(s) && decoder.warned == BadlyTerminated(s)
    {
      hide Joined, Unpack, Final, Bytes, Unquad, Slots4, Number;
      if cnt > 13 {
        return Overrun;
      }
      decoder.Pack12(if onB then c12 else b12, 12, cnt);
      status := Done;
    }

    // The input ends within a block.
    method EndInBlock() returns (status: Status)
      requires Valid() && i < 12
      modifies decoder, decoder.quad
      ensures decoder.quad == old(decoder.quad)
      ensures status == (if TooMany(s) then Overrun else Done)
      ensures status == Done && |s.cur| % 2 == 0 ==>
        decoder.out == Output(s) && decoder.warned == BadlyTerminated(s)
    {
      hide Joined, Unpack, Final, Bytes, Unquad, Slots4, Number;
      var base := if onB then b12 else c12;
      var other := if onB then c12 else b12;
      EvenUnpack(base[..], s.cur);
      if cnt > 2 * PairsOf(12 - i) + 1 {
        return Overrun;
      }
      if !first {
        JoinedStep(s.blocks);
        decoder.Pack12(other, 12, 0);
      }
      assert decoder.seen == Joined(s.blocks);
      decoder.Pack12(base, 12 - i, cnt);
      status := Done;
    }

    // `main`: decode a whole input.
    method DecodeAll(w: seq<int>) returns (status: Status)
      requires Valid() && s == Parse([], [], 0)
      modifies this, decoder, decoder.quad, b12, c12
      ensures status == BadData <==> exists k :: 0 <= k < |w| && !(SPACE <= w[k] < SPACE + 91)
      ensures status != BadData ==>
        var r := ReadAll(Digits(w));
        && (status == Overrun <==> TooMany(r))
        && (status == Done && |r.cur| % 2 == 0 ==>
              decoder.out == Output(r) && decoder.warned == BadlyTerminated(r))
    {
      for k := 0 to |w|
        invariant Valid() && decoder.quad == old(decoder.quad)
        invariant forall j :: 0 <= j < k ==> SPACE <= w[j] < SPACE + 91
        invariant s == ReadAll(Digits(w[..k]))
      {
        if w[k] < SPACE || w[k] >= SPACE + 91 {
          return BadData;
        }
        DigitsStep(w, k);
        Take(w[k] - SPACE);
      }
      assert w[..|w|] == w;
      status := AtEnd();
    }
  }

  // An even number of digits fills whole pairs, so the rest of the block does not matter.
  lemma EvenUnpack(p: block, cur: seq<digit>)
    requires |cur| < 12 && p[..|cur|] == cur
    ensures |cur| % 2 == 0 ==> Unpack(p, |cur|) == Unpack(Pad(cur), |cur|)
  {
    if |cur| % 2 == 0 {
      SamePairs(p, Pad(cur), |cur| / 2);
    }
  }

  lemma {:induction false} SamePairs(p: block, q: block, k: nat)
    requires k <= 6 && p[..2 * k] == q[..2 * k]
    ensures Halves(p, k) == Halves(q, k) && TopBits(p, k) == TopBits(q, k)
  {
    if k > 0 {
      assert p[2 * k - 2] == p[..2 * k][2 * k - 2] && p[2 * k - 1] == p[..2 * k][2 * k - 1];
      assert q[2 * k - 2] == q[..2 * k][2 * k - 2] && q[2 * k - 1] == q[..2 * k][2 * k - 1];
      assert p[..2 * k - 2] == p[..2 * k][..2 * k - 2] == q[..2 * k][..2 * k - 2] == q[..2 * k - 2];
      SamePairs(p, q, k - 1);
    }
  }
}
