// The history cache (history/his.c): a direct-mapped table of what is in the history
// file and what is not, in front of the method that knows.
module HistoryCache {

  newtype Byte = b: int | 0 <= b < 256

  type Hash = h: seq<Byte> | |h| == 16 witness [0, 0, 0, 0, 0, 0, 0, 0, 0, 0, 0, 0, 0, 0, 0, 0]

  const ZERO: Hash := [0, 0, 0, 0, 0, 0, 0, 0, 0, 0, 0, 0, 0, 0, 0, 0]

  // sizeof(struct hiscache): the hash and a bool.
  const ENTRY_SIZE := 17

  datatype Entry = Entry(hash: Hash, found: bool)

  datatype Answer = Hit | Miss | DoesNotExist

  datatype Stats = Stats(hitpos: nat, hitneg: nat, misses: nat, dne: nat)
  {
    function Yes(): nat { hitpos + misses }
    function No(): nat { hitneg + dne }
  }

  const NULLHIST := Stats(0, 0, 0, 0)

  // The last four bytes of a hash, as the machine reads them.
  function Loc(h: Hash, bigEndian: bool): nat {
    if bigEndian then ((h[12] as nat * 256 + h[13] as nat) * 256 + h[14] as nat) * 256 + h[15] as nat
    else ((h[15] as nat * 256 + h[14] as nat) * 256 + h[13] as nat) * 256 + h[12] as nat
  }

  // The number that bytes spell, the first one counting most.
  function Spelled(b: seq<Byte>): (n: nat) {
    if b == [] then 0 else 256 * Spelled(b[..|b| - 1]) + b[|b| - 1] as nat
  }

  function Backwards(b: seq<Byte>): (r: seq<Byte>)
    ensures |r| == |b| && forall i :: 0 <= i < |b| ==> r[i] == b[|b| - 1 - i]
  {
    if b == [] then [] else Backwards(b[1..]) + [b[0]]
  }

  lemma SpelledFour(b: seq<Byte>)
    requires |b| == 4
    ensures Spelled(b) == ((b[0] as nat * 256 + b[1] as nat) * 256 + b[2] as nat) * 256 + b[3] as nat
  {
    var b3, b2, b1 := b[..3], b[..2], b[..1];
    assert b3[..2] == b2 && b2[..1] == b1 && b1[..0] == [];
    assert Spelled(b1) == b[0] as nat;
    assert Spelled(b2) == 256 * Spelled(b1) + b[1] as nat;
    assert Spelled(b3) == 256 * Spelled(b2) + b[2] as nat;
  }

  // Where a hash goes is what its last four bytes spell, forwards or backwards, and
  // nothing else of it.
  lemma LocMeans(h: Hash, bigEndian: bool)
    ensures Loc(h, bigEndian) == Spelled(if bigEndian then h[12..] else Backwards(h[12..])) < 0x1_0000_0000
  {
    SpelledFour(if bigEndian then h[12..] else Backwards(h[12..]));
  }

  lemma LocTells(g: Hash, h: Hash, bigEndian: bool)
    ensures Loc(g, bigEndian) == Loc(h, bigEndian) <==> g[12..] == h[12..]
  {
    LocMeans(g, bigEndian);
    LocMeans(h, bigEndian);
    var b, c := if bigEndian then g[12..] else Backwards(g[12..]), if bigEndian then h[12..] else Backwards(h[12..]);
    hide Loc, Spelled;
    SpelledTells(b, c);
    if b == c {
      forall i | 12 <= i < 16
        ensures g[i] == h[i]
      {
        assert if bigEndian then b[i - 12] == g[i] && c[i - 12] == h[i] else b[15 - i] == g[i] && c[15 - i] == h[i];
      }
    }
  }

  lemma {:induction false} SpelledTells(b: seq<Byte>, c: seq<Byte>)
    requires |b| == |c|
    ensures Spelled(b) == Spelled(c) <==> b == c
  {
    if b != [] {
      var n := |b| - 1;
      SpelledTells(b[..n], c[..n]);
      assert b == b[..n] + [b[n]] && c == c[..n] + [c[n]];
    }
  }

  // The counter for a check: whether the cache knew, and what the answer was.
  function Bumped(st: Stats, cached: bool, r: bool): Stats {
    if cached then if r then st.(hitpos := st.hitpos + 1) else st.(hitneg := st.hitneg + 1)
    else if r then st.(misses := st.misses + 1) else st.(dne := st.dne + 1)
  }

  // What a caller can do; done tells whether the method under the cache succeeded.
  datatype Op =
    | Check(key: string)
    | Write(key: string, done: bool)
    | Remember(key: string, done: bool)
    | Replace(key: string, done: bool)
    | SetCache(size: nat)
    | TakeStats

  // The history file without the cache: the ids it holds, and the answers it gives.
  function Stored(ids: set<Hash>, op: Op, hash: string -> Hash): set<Hash> {
    if (op.Write? || op.Remember? || op.Replace?) && op.done then ids + {hash(op.key)} else ids
  }

  function Answered(ids: set<Hash>, op: Op, hash: string -> Hash): bool {
    match op
    case Check(key) => hash(key) in ids
    case Write(_, done) => done
    case Remember(_, done) => done
    case Replace(_, done) => done
    case SetCache(_) => true
    case TakeStats => true
  }

  function StoredAll(ids: set<Hash>, ops: seq<Op>, hash: string -> Hash): set<Hash> {
    if ops == [] then ids
    else Stored(StoredAll(ids, ops[..|ops| - 1], hash), ops[|ops| - 1], hash)
  }

  function AnsweredAll(ids: set<Hash>, ops: seq<Op>, hash: string -> Hash): (r: seq<bool>)
    ensures |r| == |ops|
  {
    if ops == [] then [] else
      var before := ops[..|ops| - 1];
      AnsweredAll(ids, before, hash) + [Answered(StoredAll(ids, before, hash), ops[|ops| - 1], hash)]
  }

  // How many checks had this answer since the counters were last cleared.
  function Tally(ops: seq<Op>, answers: seq<bool>, yes: bool, start: nat): nat
    requires |answers| == |ops|
  {
    if ops == [] then start else
      var n := |ops| - 1;
      var before := Tally(ops[..n], answers[..n], yes, start);
      if ops[n].SetCache? || ops[n].TakeStats? then 0
      else if ops[n].Check? && answers[n] == yes then before + 1
      else before
  }

  // The method under the cache: it is keyed by the hash, and a call that fails changes nothing.
  class Store {
    var ids: set<Hash>
    const hash: string -> Hash

    constructor (hash: string -> Hash)
      ensures this.hash == hash && ids == {}
    {
      this.hash := hash;
      ids := {};
    }

    method Check(key: string) returns (r: bool)
      ensures r == (hash(key) in ids)
    {
      r := hash(key) in ids;
    }

    method Put(key: string, done: bool)
      modifies this
      ensures ids == if done then old(ids) + {hash(key)} else old(ids)
    {
      if done {
        ids := ids + {hash(key)};
      }
    }
  }

  class History {
    const store: Store
    const bigEndian: bool
    var cache: array?<Entry>
    var cachesize: nat
    var stats: Stats

    ghost predicate Shape()
      reads this
    {
      if cachesize == 0 then cache == null else cache != null && cache.Length == cachesize
    }

    // A slot that is in use says what the store says; one that is not says nothing wrong.
    ghost predicate Valid()
      reads this, cache, store
    {
      ValidBut(cachesize)
    }

    // Valid but for one slot.
    ghost predicate ValidBut(slot: nat)
      reads this, cache, store
    {
      Shape()
      && (cache != null ==> forall i :: 0 <= i < cache.Length && i != slot ==> Honest(cache[i], store.ids) && Placed(i))
    }

    // No hash is anywhere but in its slot.
    ghost predicate Placed(i: nat)
      requires cache != null && Shape() && i < cache.Length
      reads this, cache
    {
      cache[i].hash != ZERO ==> Slot(cache[i].hash) == i
    }

    function Slot(h: Hash): (i: nat)
      requires cachesize != 0
      reads this
      ensures i < cachesize
    {
      Loc(h, bigEndian) % cachesize
    }

    // The table has an answer for the key.
    ghost predicate Cached(key: string)
      requires Shape()
      reads this, cache
    {
      cache != null && cache[Slot(store.hash(key))].hash == store.hash(key)
    }

    // Where the all-zero hash is taken for an entry although nobody has put it there.
    ghost predicate Blind(key: string)
      requires Shape()
      reads this, cache, store
    {
      store.hash(key) == ZERO && cache != null && cache[Slot(ZERO)] == Entry(ZERO, false)
    }

    constructor (store: Store, bigEndian: bool)
      ensures Valid() && this.store == store && this.bigEndian == bigEndian && cache == null && stats == NULLHIST
    {
      this.store := store;
      this.bigEndian := bigEndian;
      cache := null;
      cachesize := 0;
      stats := NULLHIST;
    }

    method CacheAdd(h: Hash, found: bool)
      requires Shape() && ValidBut(if cachesize == 0 then 0 else Slot(h)) && found == (h in store.ids)
      modifies cache
      ensures Valid()
      ensures cache != null ==> cache[..] == old(cache[..])[Slot(h) := Entry(h, found)]
    {
      if cache != null {
        var i := Slot(h);
        cache[i] := Entry(h, found);
      }
    }

    method CacheLookup(h: Hash) returns (r: Answer)
      requires Valid()
      ensures r.Hit? ==> h in store.ids
      ensures r.Miss? ==> h !in store.ids || (h == ZERO && cache != null && cache[Slot(ZERO)] == Entry(ZERO, false))
      ensures r.DoesNotExist? <==> !(cache != null && cache[Slot(h)].hash == h)
      ensures h == ZERO && cache != null && cache[Slot(ZERO)] == Entry(ZERO, false) ==> r.Miss?
    {
      if cache == null {
        return DoesNotExist;
      }
      var i := Slot(h);
      if cache[i].hash == h {
        return if cache[i].found then Hit else Miss;
      }
      return DoesNotExist;
    }

    // Whether the key is in the history file: wrong only for an id that hashes to all zeroes.
    method Check(key: string) returns (r: bool)
      requires Valid()
      modifies this`stats, cache
      ensures Valid()
      ensures r == (store.hash(key) in store.ids) <==> !(old(Blind(key)) && store.hash(key) in store.ids)
      ensures stats == Bumped(old(stats), old(Cached(key)), r)
      ensures cache != null ==>
        var h := store.hash(key);
        cache[..] == if old(Cached(key)) then old(cache[..]) else old(cache[..])[Slot(h) := Entry(h, r)]
    {
      var h := store.hash(key);
      var found := CacheLookup(h);
      match found {
        case Hit =>
          stats := stats.(hitpos := stats.hitpos + 1);
          r := true;
        case Miss =>
          stats := stats.(hitneg := stats.hitneg + 1);
          r := false;
        case DoesNotExist =>
          r := store.Check(key);
          CacheAdd(h, r);
          if r {
            stats := stats.(misses := stats.misses + 1);
          } else {
            stats := stats.(dne := stats.dne + 1);
          }
      }
    }

    // HISwrite, HISremember and HISreplace: what is written is put into the cache.
    method Put(key: string, done: bool) returns (r: bool)
      requires Valid()
      modifies store, cache
      ensures Valid() && r == done
      ensures cache != null ==>
        var h := store.hash(key);
        cache[..] == if done then old(cache[..])[Slot(h) := Entry(h, true)] else old(cache[..])
      ensures store.ids == if done then old(store.ids) + {store.hash(key)} else old(store.ids)
    {
      ghost var before := store.ids;
      store.Put(key, done);
      r := done;
      if r {
        CacheAdd(store.hash(key), true);
      }
    }

    // HISsetcache: a new and empty cache, or none.
    method SetCache(size: nat)
      requires Valid()
      modifies this`cache, this`cachesize, this`stats
      ensures Valid() && (cache == null || fresh(cache)) && stats == NULLHIST
      ensures cachesize == size / ENTRY_SIZE
      ensures cache != null ==> forall i :: 0 <= i < cache.Length ==> cache[i] == Entry(ZERO, false)
    {
      cache := null;
      cachesize := size / ENTRY_SIZE;
      if cachesize != 0 {
        cache := new Entry[cachesize](_ => Entry(ZERO, false));
      }
      stats := NULLHIST;
    }

    method TakeStats() returns (r: Stats)
      requires Valid()
      modifies this`stats
      ensures Valid() && r == old(stats) && stats == NULLHIST
    {
      r := stats;
      stats := NULLHIST;
    }

    method Do(op: Op) returns (r: bool)
      requires Valid()
      modifies this`cache, this`cachesize, this`stats, cache, store
      ensures Valid() && (cache == null || cache == old(cache) || fresh(cache))
      ensures Agrees(r, old(store.ids), op, store.hash)
      ensures store.ids == Stored(old(store.ids), op, store.hash)
      ensures Counted(op, r, old(stats), stats)
    {
      match op {
        case Check(key) =>
          r := Check(key);
        case Write(key, done) =>
          r := Put(key, done);
        case Remember(key, done) =>
          r := Put(key, done);
        case Replace(key, done) =>
          r := Put(key, done);
        case SetCache(size) =>
          SetCache(size);
          r := true;
        case TakeStats =>
          var taken := TakeStats();
          r := true;
      }
    }

    // Whatever is done, the cache is not to be noticed: what is in the file, and the
    // answers, are those of the history file alone, but for ids that hash to all zeroes,
    // of which one that is there may be denied; the counters count all checks.
    method Run(ops: seq<Op>) returns (answers: seq<bool>)
      requires Valid()
      modifies this`cache, this`cachesize, this`stats, cache, store
      ensures Valid()
      ensures |answers| == |ops| && AllAgree(answers, old(store.ids), ops, store.hash)
      ensures store.ids == StoredAll(old(store.ids), ops, store.hash)
      ensures stats.Yes() == Tally(ops, answers, true, old(stats.Yes()))
      ensures stats.No() == Tally(ops, answers, false, old(stats.No()))
    {
      answers := [];
      var i := 0;
      ghost var ids0, yes0, no0 := store.ids, stats.Yes(), stats.No();
      assert ops[..0] == [] && ops[..|ops|] == ops;
      hide Agrees, Counted, Stored, Tally;
      while i < |ops|
        invariant 0 <= i <= |ops|
        invariant Valid() && (cache == null || cache == old(cache) || fresh(cache))
        invariant Done(ids0, yes0, no0, ops, i, answers, store.hash, store.ids, stats)
      {
        ghost var ids, st := store.ids, stats;
        var r := Do(ops[i]);
        DoneOne(ids0, yes0, no0, ops, i, answers, store.hash, ids, st, r, store.ids, stats);
        answers := answers + [r];
        i := i + 1;
      }
    }
  }

  // A new cache is blind for an id that hashes to all zeroes,
  method NewlyBlind(history: History, key: string)
    requires history.Valid() && history.store.hash(key) == ZERO
    modifies history`cache, history`cachesize, history`stats
    ensures history.Valid() && history.cache != null && fresh(history.cache) && history.Blind(key)
  {
    hide Loc;
    history.SetCache(ENTRY_SIZE);
  }

  // and denies it when it is in the file.
  method Overlooked(history: History, key: string) returns (r: bool)
    requires history.Valid() && history.store.hash(key) == ZERO && ZERO in history.store.ids
    modifies history`cache, history`cachesize, history`stats
    ensures !r && history.store.hash(key) in history.store.ids
  {
    NewlyBlind(history, key);
    r := history.Check(key);
  }

  // There is such a file.
  method ZeroInFile(key: string, bigEndian: bool) returns (history: History)
    ensures history.Valid() && history.store.hash(key) == ZERO && ZERO in history.store.ids
  {
    var zero := (x: string) => ZERO;
    var store := new Store(zero);
    history := new History(store, bigEndian);
    var done := history.Put(key, true);
  }

  // The answer is that of the history file; of an id that hashes to all zeroes it may be
  // a no for a yes.
  ghost predicate Agrees(r: bool, ids: set<Hash>, op: Op, hash: string -> Hash) {
    r == Answered(ids, op, hash) || (op.Check? && hash(op.key) == ZERO && !r)
  }

  ghost predicate AllAgree(answers: seq<bool>, ids: set<Hash>, ops: seq<Op>, hash: string -> Hash)
    requires |answers| == |ops|
  {
    forall i :: 0 <= i < |ops| ==> Agrees(answers[i], StoredAll(ids, ops[..i], hash), ops[i], hash)
  }

  ghost predicate Counted(op: Op, r: bool, st0: Stats, st: Stats) {
    if op.SetCache? || op.TakeStats? then st.Yes() == st.No() == 0 else
      && st.Yes() == st0.Yes() + (if op.Check? && r then 1 else 0)
      && st.No() == st0.No() + (if op.Check? && !r then 1 else 0)
  }

  // The first i operations are done.
  ghost predicate Done(ids0: set<Hash>, yes0: nat, no0: nat, ops: seq<Op>, i: nat, answers: seq<bool>,
                       hash: string -> Hash, ids: set<Hash>, st: Stats)
  {
    && i <= |ops| && |answers| == i && AllAgree(answers, ids0, ops[..i], hash)
    && ids == StoredAll(ids0, ops[..i], hash)
    && st.Yes() == Tally(ops[..i], answers, true, yes0)
    && st.No() == Tally(ops[..i], answers, false, no0)
  }

  lemma DoneOne(ids0: set<Hash>, yes0: nat, no0: nat, ops: seq<Op>, i: nat, answers: seq<bool>,
                hash: string -> Hash, ids: set<Hash>, st: Stats, r: bool, ids1: set<Hash>, st1: Stats)
    requires i < |ops| && Done(ids0, yes0, no0, ops, i, answers, hash, ids, st)
    requires Agrees(r, ids, ops[i], hash) && ids1 == Stored(ids, ops[i], hash) && Counted(ops[i], r, st, st1)
    ensures Done(ids0, yes0, no0, ops, i + 1, answers + [r], hash, ids1, st1)
  {
    hide Agrees, Stored;
    var some, more, all := ops[..i], ops[..i + 1], answers + [r];
    assert more[..i] == some && all[..i] == answers && more[i] == ops[i] && all[i] == r;
    forall k | 0 <= k < |more|
      ensures Agrees(all[k], StoredAll(ids0, more[..k], hash), more[k], hash)
    {
      if k < i {
        assert more[..k] == some[..k] && all[k] == answers[k] && more[k] == some[k];
      }
    }
  }

  lemma {:induction false} AgreeExactly(answers: seq<bool>, ids: set<Hash>, ops: seq<Op>, hash: string -> Hash)
    requires |answers| == |ops| && AllAgree(answers, ids, ops, hash)
    requires forall op :: op in ops && op.Check? ==> hash(op.key) != ZERO
    ensures answers == AnsweredAll(ids, ops, hash)
  {
    if ops != [] {
      var n := |ops| - 1;
      hide StoredAll, Answered, Agrees;
      SomeAgree(answers, ids, ops, hash);
      LastAgrees(answers, ids, ops, hash);
      assert answers == answers[..n] + [answers[n]];
      AgreeExactly(answers[..n], ids, ops[..n], hash);
    }
  }

  lemma SomeAgree(answers: seq<bool>, ids: set<Hash>, ops: seq<Op>, hash: string -> Hash)
    requires |answers| == |ops| > 0 && AllAgree(answers, ids, ops, hash)
    ensures AllAgree(answers[..|ops| - 1], ids, ops[..|ops| - 1], hash)
  {
    hide StoredAll, Agrees;
    assert forall i :: 0 <= i < |ops| - 1 ==> ops[..|ops| - 1][..i] == ops[..i];
  }

  lemma LastAgrees(answers: seq<bool>, ids: set<Hash>, ops: seq<Op>, hash: string -> Hash)
    requires |answers| == |ops| > 0 && AllAgree(answers, ids, ops, hash)
    requires forall op :: op in ops && op.Check? ==> hash(op.key) != ZERO
    ensures var n := |ops| - 1; answers[n] == Answered(StoredAll(ids, ops[..n], hash), ops[n], hash)
  {
    hide StoredAll, Answered;
    assert ops[|ops| - 1] in ops;
  }

  ghost predicate Honest(e: Entry, ids: set<Hash>) {
    (e.found ==> e.hash in ids) && (e.hash in ids && e.hash != ZERO ==> e.found)
  }
}
