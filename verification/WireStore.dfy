// Storing a stream of wire-format articles: `store_wire_articles` of frontends/sm.c.
module WireStore {
  import opened WireSplit

  const CHUNK := 0x10000  // WIRE_CHUNK_SIZE

  // The largest buffer the growth rule reaches: the first multiple of the chunk size
  // that is not below the configured maximum, and at least one chunk.
  function Cap(maxArticle: nat): (c: nat)
    ensures c >= CHUNK && c >= maxArticle && c % CHUNK == 0
    ensures c > CHUNK ==> c - CHUNK < maxArticle
  {
    if maxArticle <= CHUNK then CHUNK else (maxArticle + CHUNK - 1) / CHUNK * CHUNK
  }

  // The growth rule stops exactly at the cap.
  lemma CapReached(size: nat, maxArticle: nat)
    requires CHUNK <= size <= Cap(maxArticle) && size % CHUNK == 0
    ensures size >= maxArticle ==> size == Cap(maxArticle)
    ensures size < maxArticle ==>
      && (size + CHUNK + 1023) / 1024 * 1024 == size + CHUNK <= Cap(maxArticle)
      && (size + CHUNK) % CHUNK == 0
  {
    var k, c, cap := size / CHUNK, Cap(maxArticle) / CHUNK, Cap(maxArticle);
    assert size == k * CHUNK && cap == c * CHUNK;
    assert cap > CHUNK ==> cap - CHUNK < maxArticle;
    hide Cap;
    if size < maxArticle {
      Rounded(size + CHUNK, (k + 1) * 64);
    }
  }

  lemma Rounded(n: nat, m: nat)
    requires n == m * 1024
    ensures (n + 1023) / 1024 * 1024 == n
  {
  }

  // lib/buffer.c: `size` bytes of storage, of which `left` from `used` on are data.
  class Buffer {
    var data: array<char>
    var used: nat
    var left: nat
    ghost var errors: nat     // how many reads have failed

    ghost predicate Valid()
      reads this, data
    {
      used + left <= data.Length
    }

    ghost function Contents(): (s: string)
      requires Valid()
      reads this, data
      ensures |s| == left
    {
      data[used..used + left]
    }

    constructor ()
      ensures Valid() && fresh(data) && data.Length == 0 && used == left == errors == 0
    {
      data := new char[0];
      used, left, errors := 0, 0, 0;
    }

    // `buffer_resize`: never shrinks, and rounds up to a multiple of 1024.
    method Resize(size: nat)
      requires Valid()
      modifies this`data
      ensures Valid() && Contents() == old(Contents())
      ensures data.Length == if size < old(data.Length) then old(data.Length) else (size + 1023) / 1024 * 1024
      ensures data == old(data) || fresh(data)
    {
      if size < data.Length {
        return;
      }
      var bigger := new char[(size + 1023) / 1024 * 1024](_ => '\0');
      forall i | 0 <= i < data.Length {
        bigger[i] := data[i];
      }
      assert bigger[used..used + left] == data[used..used + left];
      data := bigger;
    }

    // `buffer_compact`: move the data to the front.
    method Compact()
      requires Valid()
      modifies this`used, data
      ensures Valid() && Contents() == old(Contents()) && used == 0
    {
      if used == 0 {
        return;
      }
      ghost var before := data[..];
      MoveDown(data, used, left);
      assert data[..left] == before[used..used + left];
      used := 0;
    }

    // memmove to the front
    static method MoveDown(data: array<char>, used: nat, left: nat)
      requires used + left <= data.Length
      modifies data
      ensures forall j :: 0 <= j < left ==> data[j] == old(data[used + j])
    {
      for i := 0 to left
        invariant forall j :: 0 <= j < i ==> data[j] == old(data[used + j])
        invariant forall j :: i <= j < data.Length ==> data[j] == old(data[j])
      {
        data[i] := data[used + i];
      }
    }

    // The first bytes of the data.
    method Front(size: nat) returns (text: string)
      requires Valid() && size <= left
      ensures text == Contents()[..size]
    {
      text := data[used..used + size];
      SliceSlice(data[..], used, used + left, 0, size);
    }

    // Drop bytes from the front of the data.
    method Consume(size: nat)
      requires Valid() && size <= left
      modifies this`used, this`left
      ensures Valid() && left == old(left) - size && used == old(used) + size
      ensures Contents() == old(Contents())[size..]
    {
      SliceSlice(data[..], used, used + left, size, left);
      used := used + size;
      left := left - size;
    }

    // `buffer_find_string` for the terminator: search the data from offset `start` on.
    method Find(start: nat) returns (found: bool, offset: nat)
      requires Valid() && start <= left
      ensures found ==> start <= offset && At(Contents(), offset) && NoneIn(Contents(), start, offset)
      ensures !found ==> NoneIn(Contents(), start, left)
    {
      ghost var s := Contents();
      offset := start;
      while offset < left
        invariant start <= offset <= left && NoneIn(s, start, offset)
      {
        if data[used + offset] == TERMINATOR[0] {
          if left - offset < 5 {
            return false, offset;
          }
          SliceSlice(data[..], used, used + left, offset, offset + 5);
          assert s[offset..offset + 5] == data[used + offset..used + offset + 5];
          if data[used + offset..used + offset + 5] == TERMINATOR {
            return true, offset;
          }
        } else if offset + 5 <= left {
          assert s[offset..offset + 5][0] != TERMINATOR[0];
        }
        offset := offset + 1;
      }
      found := false;
    }

    // read(2) into the storage from `at` on
    static method Fill(data: array<char>, at: nat, part: string)
      requires at + |part| <= data.Length
      modifies data
      ensures data[at..at + |part|] == part
      ensures data[..at] == old(data[..at])
    {
      forall i | 0 <= i < |part| {
        data[at + i] := part[i];
      }
    }

    // `buffer_read`: at most as many bytes as there is room for.  -1 is a read error;
    // 0 means that the stream is at its end or that there was no room.
    method Read(stream: string, pos: nat) returns (got: int)
      requires Valid() && pos <= |stream|
      modifies this`left, this`errors, data
      ensures Valid() && errors == old(errors) + if got < 0 then 1 else 0
      ensures -1 <= got <= |stream| - pos
      ensures got == 0 ==> pos == |stream| || used + old(left) == data.Length
      ensures got >= 0 ==> Contents() == old(Contents()) + stream[pos..pos + got]
      ensures got < 0 ==> Contents() == old(Contents())
    {
      var fails: bool := *;
      if fails {
        errors := errors + 1;
        return -1;
      }
      var room := data.Length - (used + left);
      var most := if room < |stream| - pos then room else |stream| - pos;
      if most == 0 {
        return 0;
      }
      got :| 1 <= got <= most;
      var at := used + left;
      assert data[used..at] == data[..at][used..at];
      Fill(data, at, stream[pos..pos + got]);
      assert data[used..at] == data[..at][used..at];
      assert data[used..used + left + got] == data[used..used + left] + data[used + left..used + left + got];
      left := left + got;
    }
  }

  class Store {
    var stored: seq<string>  // articles handed to the storage manager
    var accepted: bool          // it accepted all of them

    constructor ()
      ensures stored == [] && accepted
    {
      stored, accepted := [], true;
    }

    // `store_article_common`: the storage manager may refuse an article.
    method StoreArticle(text: string) returns (ok: bool)
      modifies this
      ensures stored == old(stored) + [text] && accepted == (old(accepted) && ok)
    {
      ok := *;
      stored := stored + [text];
      accepted := accepted && ok;
    }
  }

  ghost predicate AllFit(articles: seq<string>, cap: nat) {
    forall a :: a in articles ==> |a| <= cap
  }

  // A terminator at k ends the article that began at `start`.
  lemma Advance(v: string, start: nat, k: nat)
    requires start <= k && At(v, k) && NoneIn(v, start, k) && Tail(v[..start]) == []
    ensures Tail(v[..k + 5]) == []
    ensures Split(v[..k + 5]) == Split(v[..start]) + [v[start..k + 5]]
  {
    var a := v[start..k + 5];
    AtDrop(v, start, k - start);
    NoneDrop(v, start, 0, k - start);
    SliceSlice(v, start, |v|, 0, k - start + 5);
    FirstArticle(v[start..], k - start);
    assert Head(v[start..], k - start) == a;
    hide At, NoneIn, Head, Article;
    SplitOne(a);
    assert v[..k + 5] == v[..start] + a;
    SplitAppend(v[..start], a);
  }

  // Without a further terminator the rest is the tail.
  lemma NoMore(v: string, start: nat)
    requires start <= |v| && NoneIn(v, start, |v|) && Tail(v[..start]) == []
    ensures Split(v) == Split(v[..start]) && Tail(v) == v[start..]
  {
    NoneDrop(v, start, 0, |v| - start);
    var done, t := v[..start], v[start..];
    assert v == done + t;
    assert Concat([]) + t == t;
    SplitUnique(t, [], t);
    SplitAppend(done, t);
    hide NoneIn, Split, Tail, Concat;
    assert Split(done) + [] == Split(done);
  }

  // Terminators of a prefix are terminators of the whole; new data brings new ones
  // only where a terminator was not yet whole.
  lemma MoreData(v: string, w: string, lo: nat, hi: nat)
    requires NoneIn(v, lo, hi) && (hi <= lo || hi + 4 <= |v|)
    ensures NoneIn(v + w, lo, hi)
  {
    forall j | lo <= j < hi
      ensures !At(v + w, j)
    {
      assert !At(v, j);
      assert (v + w)[j..j + 5] == v[j..j + 5];
    }
  }

  lemma {:induction false} KeepSnoc(articles: seq<string>, a: string, cap: nat)
    ensures Keep(articles + [a], cap) == Keep(articles, cap) + (if |a| <= cap then [a] else [])
    ensures AllFit(articles + [a], cap) <==> AllFit(articles, cap) && |a| <= cap
  {
    var all := articles + [a];
    assert all[..|all| - 1] == articles && all[|all| - 1] == a;
    assert forall b :: b in articles ==> b in all;
    assert a in all;
  }

  // What must be on record when exactly `done` was split off the stream.
  ghost predicate Books(done: string, stored: seq<string>, accepted: bool, result: bool, skipping: bool, cap: nat) {
    && Tail(done) == []
    && stored == Keep(Split(done), cap)
    && (result <==> accepted && AllFit(Split(done), cap) && !skipping)
  }

  // One more article: skipped when it is longer than the cap, stored when it is not.
  lemma BooksStep(v: string, start: nat, k: nat, stored: seq<string>, accepted: bool, result: bool, skipping: bool,
                  cap: nat, ok: bool)
    requires start <= k && At(v, k) && NoneIn(v, start, k)
    requires Books(v[..start], stored, accepted, result, skipping, cap)
    requires skipping <==> k + 5 - start > cap
    ensures skipping ==> Books(v[..k + 5], stored, accepted, result, false, cap)
    ensures !skipping ==> Books(v[..k + 5], stored + [v[start..k + 5]], accepted && ok, result && ok, false, cap)
  {
    Advance(v, start, k);
    KeepSnoc(Split(v[..start]), v[start..k + 5], cap);
  }

  // `store_wire_articles` and its local variables.
  class Session {
    const input: Buffer
    const store: Store
    const maxArticle: nat     // innconf->maxartsize
    var offset: nat
    var skipping: bool
    var result: bool
    ghost var v: string       // the bytes read so far
    ghost var start: nat      // where the article being read begins

    ghost predicate Inv()
      reads this, input, input.data, store
    {
      InvBut(4)
    }

    // What is skipped has outgrown the buffer but for its last bytes.
    ghost predicate InvBut(last: nat)
      reads this, input, input.data, store
    {
      var cap := Cap(maxArticle);
      var r := |v| - input.left;
      && input.Valid() && offset <= input.left <= |v|
      && CHUNK <= input.data.Length <= cap && input.data.Length % CHUNK == 0
      && start <= r && v[r..] == input.Contents()
      && (skipping ==> r + last - start >= cap && input.left >= 4)
      && (!skipping ==> r == start)
      && NoneIn(v, start, r + offset)
      && Books(v[..start], store.stored, store.accepted, result, skipping, cap)
    }

    constructor (maxArticle: nat)
      ensures Inv() && fresh(input) && fresh(input.data) && fresh(store) && v == "" && !skipping
      ensures input.used == input.left == offset == 0 && this.maxArticle == maxArticle && store.accepted
    {
      input := new Buffer();
      store := new Store();
      this.maxArticle := maxArticle;
      offset, skipping, result := 0, false, true;
      v, start := "", 0;
      new;
      input.Resize(CHUNK);
    }

    // The article that ends behind the terminator at k.
    method FileArticle(size: nat, ghost k: nat)
      requires input.Valid() && size <= input.left && start <= k && At(v, k) && NoneIn(v, start, k)
      requires Books(v[..start], store.stored, store.accepted, result, skipping, Cap(maxArticle))
      requires skipping <==> k + 5 - start > Cap(maxArticle)
      requires !skipping ==> input.Contents()[..size] == v[start..k + 5]
      modifies this`skipping, this`result, store
      ensures Books(v[..k + 5], store.stored, store.accepted, result, false, Cap(maxArticle)) && !skipping
    {
      hide Books, Cap, Buffer.Contents, At, NoneIn;
      ghost var stored, accepted, result0 := store.stored, store.accepted, result;
      if skipping {
        BooksStep(v, start, k, stored, accepted, result, skipping, Cap(maxArticle), true);
        skipping := false;
      } else {
        var text := input.Front(size);
        var ok := store.StoreArticle(text);
        BooksStep(v, start, k, stored, accepted, result0, skipping, Cap(maxArticle), ok);
        if !ok {
          result := false;
        }
      }
    }

    // An article is complete: store it, or finish skipping it.
    method StoreOne()
      requires Inv() && At(input.Contents(), offset)
      modifies this, input`used, input`left, store
      ensures Inv() && v == old(v) && input.left < old(input.left)
    {
      hide Books, Cap, Buffer.Contents;
      ghost var r := |v| - input.left;
      ghost var k := r + offset;
      var size := offset + 5;
      assert At(v, k) by { SliceSlice(v, r, |v|, offset, size); }
      SliceSlice(v, r, |v|, 0, size);
      SliceSlice(v, r, |v|, size, input.left);
      FileArticle(size, k);
      hide At, NoneIn;
      NoneEmpty(v, k + 5);
      input.Consume(size);
      offset := 0;
      start := k + 5;
      assert v[start..] == input.Contents();
    }

    // The inner loop: store or skip every article that is complete.
    method StoreComplete()
      requires Inv()
      modifies this, input`used, input`left, store
      ensures Inv() && v == old(v) && NoneIn(v, start, |v|)
    {
      hide Books, At;
      while true
        invariant Inv() && v == old(v)
        decreases input.left
      {
        var found, at := input.Find(offset);
        NoneDrop(v, |v| - input.left, offset, if found then at else input.left);
        if !found {
          break;
        }
        offset := at;
        StoreOne();
      }
    }

    // Only a terminator that begins in the last four bytes can still be completed.
    method Rewind()
      requires Inv() && NoneIn(v, start, |v|)
      modifies this`offset, input`used, input.data
      ensures Inv() && input.used == 0 && input.left == old(input.left)
      ensures offset == if input.left >= 4 then input.left - 4 else 0
    {
      hide At, Cap, Books, Buffer.Contents, NoneIn;
      if input.left >= 4 {
        offset := input.left - 4;
      } else {
        offset := 0;
      }
      NoneLess(v, start, |v| - input.left + offset, |v|);
      if input.used > 0 {
        input.Compact();
      }
    }

    // After the inner loop: grow the buffer, or start or continue skipping.
    method Settle()
      requires Inv() && NoneIn(v, start, |v|)
      modifies this, input, input.data
      ensures Inv() && v == old(v) && NoneIn(v, start, |v|)
      ensures input.used == 0 && input.left < input.data.Length
      ensures input.data == old(input.data) || fresh(input.data)
      ensures offset + 4 <= input.left || (offset == 0 && !skipping)
      ensures input.errors == old(input.errors)
    {
      Grow();
      Trim();
      Rewind();
    }

    // Of what is skipped only the last bytes are kept.
    method Trim()
      requires InvBut(input.left) && NoneIn(v, start, |v|)
      requires !skipping ==> input.used > 0 || input.left < input.data.Length
      modifies this`offset, input`used, input`left
      ensures Inv() && NoneIn(v, start, |v|)
      ensures skipping ==> input.left == 4
      ensures !skipping ==> input.left == old(input.left) && input.used == old(input.used)
    {
      hide At, Cap, Keep, Split, Tail, AllFit, Buffer.Contents, NoneIn;
      if skipping && input.left > 4 {
        SliceSlice(v, |v| - input.left, |v|, input.left - 4, input.left);
        input.Consume(input.left - 4);
        offset := 0;
        NoneLess(v, start, |v| - input.left, |v|);
      }
    }

    // A full buffer grows; one that may not grow any more makes the article be skipped.
    method Grow()
      requires Inv() && NoneIn(v, start, |v|)
      modifies this`skipping, this`result, input`data
      ensures InvBut(input.left) && NoneIn(v, start, |v|)
      ensures !skipping ==> input.used > 0 || input.left < input.data.Length
      ensures input.data == old(input.data) || fresh(input.data)
    {
      hide At, Cap, Keep, Split, Tail, AllFit, Buffer.Contents, NoneIn;
      CapReached(input.data.Length, maxArticle);
      if !skipping && input.used <= 0 && input.left >= input.data.Length {
        if input.data.Length >= maxArticle {
          skipping := true;
          result := false;
        } else {
          input.Resize(input.data.Length + CHUNK);
        }
      }
    }

    // Read some more of the stream.
    method Receive(stream: string, read: nat) returns (got: int)
      requires Inv() && read <= |stream| && v == stream[..read] && NoneIn(v, start, |v|)
      requires input.used == 0 && input.left < input.data.Length
      requires offset + 4 <= input.left || (offset == 0 && !skipping)
      modifies this`v, input, input.data
      ensures Inv() && input.data == old(input.data)
      ensures input.errors == old(input.errors) + if got < 0 then 1 else 0
      ensures got <= 0 ==> v == old(v) && (got == 0 ==> read == |stream|)
      ensures got > 0 ==> read + got <= |stream| && v == stream[..read + got]
    {
      hide Books, At, Cap, Buffer.Contents, NoneIn;
      label R:
      got := input.Read(stream, read);
      if got > 0 {
        ghost var more := stream[read..read + got];
        MoreData(v, more, start, |v| - old@R(input.left) + offset);
        assert (v + more)[..start] == v[..start];
        v := v + more;
      }
    }

    // Store every article of a stream, however the reads cut it.  It fails when a read
    // does, and then what was read so far counts; `garbage` is what the program warns of.
    method StoreWireArticles(stream: string) returns (failed: bool, read: nat, garbage: bool)
      requires Inv() && v == "" && input.used == input.left == 0 && !skipping && store.accepted
      modifies this, input, input.data, store
      ensures failed <==> input.errors > old(input.errors)
      ensures read <= |stream| && (!failed ==> read == |stream|)
      ensures store.stored == Keep(Split(stream[..read]), Cap(maxArticle))
      ensures result <==>
        && !failed && store.accepted
        && AllFit(Split(stream[..read]), Cap(maxArticle)) && |Tail(stream[..read])| < Cap(maxArticle)
      ensures garbage <==> Tail(stream[..read]) != []
    {
      hide Split, Tail, Keep, AllFit, At, Cap, Buffer.Contents;
      failed, read := false, 0;
      while true
        invariant Inv() && read <= |stream| && v == stream[..read] && NoneIn(v, start, |v|)
        invariant input.used == 0 && input.left < input.data.Length
        invariant offset + 4 <= input.left || (offset == 0 && !skipping)
        invariant input.data == old(input.data) || fresh(input.data)
        invariant input.errors == old(input.errors)
        decreases |stream| - read
      {
        var got := Receive(stream, read);
        if got < 0 {
          result := false;
          failed := true;
          break;
        }
        if got == 0 {
          break;
        }
        read := read + got;
        StoreComplete();
        Settle();
      }
      NoMore(v, start);
      garbage := input.left > 0;
    }
  }

  lemma NoneLess(v: string, lo: nat, mid: nat, hi: nat)
    requires NoneIn(v, lo, hi) && mid <= hi
    ensures NoneIn(v, lo, mid)
  {
  }

  lemma NoneEmpty(v: string, i: nat)
    ensures NoneIn(v, i, i)
  {
  }
}
