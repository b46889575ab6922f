// Wire-format framing (section 3.1.1 of RFC 3977): a byte stream is the articles it
// holds, each ending at the first CRLF "." CRLF, followed by an unfinished tail.
module WireSplit {

  const TERMINATOR := "\r\n.\r\n"

  predicate At(s: string, i: nat) {
    i + 5 <= |s| && s[i..i + 5] == TERMINATOR
  }

  ghost predicate NoneIn(s: string, lo: nat, hi: nat) {
    forall j :: lo <= j < hi ==> !At(s, j)
  }

  // The first terminator at or after position i; the length of s when there is none.
  function First(s: string, i: nat): (k: nat)
    requires i <= |s|
    ensures i <= k <= |s| && NoneIn(s, i, k)
    ensures k < |s| ==> At(s, k)
    decreases |s| - i
  {
    if i == |s| || At(s, i) then i else First(s, i + 1)
  }

  // The stream cut after the terminator at k.
  function Head(s: string, k: nat): (a: string)
    requires k + 5 <= |s|
  {
    s[..k + 5]
  }

  function Rest(s: string, k: nat): (r: string)
    requires k + 5 <= |s|
    ensures |r| == |s| - k - 5 && s == Head(s, k) + r
  {
    s[k + 5..]
  }

  // The articles of a stream, in order, each with its terminator.
  function Split(s: string): (articles: seq<string>)
    decreases |s|
  {
    var k := First(s, 0);
    if k == |s| then [] else [Head(s, k)] + Split(Rest(s, k))
  }

  // What follows the last terminator.
  function Tail(s: string): (t: string)
    decreases |s|
  {
    var k := First(s, 0);
    if k == |s| then s else Tail(Rest(s, k))
  }

  // The articles that fit in `cap` bytes.
  function Keep(articles: seq<string>, cap: nat): (kept: seq<string>)
  {
    if articles == [] then []
    else
      var a := articles[|articles| - 1];
      Keep(articles[..|articles| - 1], cap) + (if |a| <= cap then [a] else [])
  }

  function Concat(articles: seq<string>): (s: string)
  {
    if articles == [] then [] else articles[0] + Concat(articles[1..])
  }

  // ----- Split is the leftmost non-overlapping split, and the only one -----

  // An article ends with a terminator and holds no earlier one.
  ghost predicate Article(a: string) {
    |a| >= 5 && At(a, |a| - 5) && NoneIn(a, 0, |a| - 5)
  }

  lemma {:induction false} FirstIs(s: string, i: nat, k: nat)
    requires i <= k <= |s| && NoneIn(s, i, k) && (At(s, k) || k == |s|)
    ensures First(s, i) == k
    decreases k - i
  {
    if i < k {
      assert !At(s, i);
      FirstIs(s, i + 1, k);
    }
  }

  lemma FirstArticle(s: string, k: nat)
    requires At(s, k) && NoneIn(s, 0, k)
    ensures Article(Head(s, k))
  {
    var a := Head(s, k);
    assert a[k..k + 5] == s[k..k + 5];
    forall j | 0 <= j < k
      ensures !At(a, j)
    {
      assert !At(s, j);
      assert j + 5 <= |a| ==> a[j..j + 5] == s[j..j + 5];
    }
  }

  ghost predicate AllArticles(articles: seq<string>) {
    forall a :: a in articles ==> Article(a)
  }

  lemma {:induction false} SplitSound(s: string)
    ensures AllArticles(Split(s))
    ensures Concat(Split(s)) + Tail(s) == s
    ensures NoneIn(Tail(s), 0, |Tail(s)|)
    decreases |s|
  {
    var k := First(s, 0);
    if k < |s| {
      FirstArticle(s, k);
      SplitSound(Rest(s, k));
      hide First, Article, NoneIn, At, Head, Rest;
      Cons(Head(s, k), Rest(s, k), Split(Rest(s, k)), Tail(Rest(s, k)));
    }
  }

  lemma Cons(a: string, rest: string, articles: seq<string>, t: string)
    requires Article(a) && AllArticles(articles) && Concat(articles) + t == rest
    ensures AllArticles([a] + articles) && Concat([a] + articles) + t == a + rest
  {
    hide Article;
    ConcatCons(a, articles);
    assert a + (Concat(articles) + t) == a + Concat(articles) + t;
  }

  lemma ConcatCons(a: string, rest: seq<string>)
    ensures Concat([a] + rest) == a + Concat(rest)
  {
    assert ([a] + rest)[1..] == rest;
  }

  lemma SliceSlice(s: string, lo: nat, hi: nat, i: nat, j: nat)
    requires lo <= hi <= |s| && i <= j <= hi - lo
    ensures s[lo..hi][i..j] == s[lo + i..lo + j]
  {
    assert forall k :: 0 <= k < j - i ==> s[lo..hi][i..j][k] == s[lo + i..lo + j][k];
  }

  // Terminators of a suffix are those of the whole, shifted.
  lemma AtDrop(s: string, start: nat, j: nat)
    requires start <= |s|
    ensures At(s[start..], j) <==> At(s, start + j)
  {
    if start + j + 5 <= |s| { SliceSlice(s, start, |s|, j, j + 5); }
  }

  lemma NoneDrop(s: string, start: nat, lo: nat, hi: nat)
    requires start <= |s|
    ensures NoneIn(s[start..], lo, hi) <==> NoneIn(s, start + lo, start + hi)
  {
    forall j | start + lo <= j < start + hi
      ensures At(s[start..], j - start) <==> At(s, j)
    {
      AtDrop(s, start, j - start);
    }
    forall j | lo <= j < hi
      ensures At(s[start..], j) <==> At(s, start + j)
    {
      AtDrop(s, start, j);
    }
    hide At;
    if NoneIn(s[start..], lo, hi) {
      forall j | start + lo <= j < start + hi
        ensures !At(s, j)
      {
        assert !At(s[start..], j - start);
      }
    }
  }

  // A terminator that is whole in a prefix is the same terminator in the whole.
  lemma FirstAppend(a: string, b: string, k: nat)
    requires At(a, k) && NoneIn(a, 0, k)
    ensures First(a + b, 0) == k
  {
    forall j | 0 <= j <= k
      ensures At(a + b, j) <==> At(a, j)
    {
      assert (a + b)[j..j + 5] == a[j..j + 5];
    }
    FirstIs(a + b, 0, k);
  }

  // Any cutting of s into articles and a tail without terminator is Split and Tail.
  lemma {:induction false} SplitUnique(s: string, articles: seq<string>, t: string)
    requires AllArticles(articles)
    requires NoneIn(t, 0, |t|) && s == Concat(articles) + t
    ensures Split(s) == articles && Tail(s) == t
    decreases |articles|
  {
    if articles == [] {
      assert s == t;
      FirstIs(s, 0, |s|);
    } else {
      var a, rest := articles[0], articles[1..];
      var s' := Concat(rest) + t;
      assert a in articles && s == a + s';
      FirstAppend(a, s', |a| - 5);
      assert Head(s, |a| - 5) == a && Rest(s, |a| - 5) == s';
      SplitUnique(s', rest, t);
      assert articles == [a] + rest;
    }
  }

  // One more article at the end of a stream without tail.
  lemma {:induction false} SplitAppend(s: string, b: string)
    requires Tail(s) == []
    ensures Split(s + b) == Split(s) + Split(b) && Tail(s + b) == Tail(b)
  {
    SplitSound(s);
    SplitSound(b);
    hide Article, NoneIn, Split, Tail;
    ConcatAppend(Split(s), Split(b));
    assert AllArticles(Split(s) + Split(b));
    assert Concat(Split(s)) + "" == Concat(Split(s)) == s;
    assert s + b == Concat(Split(s) + Split(b)) + Tail(b);
    SplitUnique(s + b, Split(s) + Split(b), Tail(b));
  }

  lemma {:induction false} ConcatAppend(a: seq<string>, b: seq<string>)
    ensures Concat(a + b) == Concat(a) + Concat(b)
  {
    if a == [] {
      assert a + b == b;
    } else {
      ConcatAppend(a[1..], b);
      assert (a + b)[0] == a[0] && (a + b)[1..] == a[1..] + b;
      assert a[0] + (Concat(a[1..]) + Concat(b)) == a[0] + Concat(a[1..]) + Concat(b);
    }
  }

  lemma SplitOne(a: string)
    requires Article(a)
    ensures Split(a) == [a] && Tail(a) == []
  {
    assert Concat([a]) + [] == a;
    SplitUnique(a, [a], []);
  }

  // What was split off a prefix of a stream is a prefix of what the stream splits into.
  lemma SplitPrefix(s: string, n: nat)
    requires n <= |s|
    ensures Split(s[..n]) <= Split(s)
  {
    hide Split, Tail, Article, Concat, First, At;
    var p := s[..n];
    SplitSound(p);
    var done := Concat(Split(p));
    assert done + "" == done;
    SplitUnique(done, Split(p), "");
    hide NoneIn;
    assert done + Tail(p) + s[n..] == done + (Tail(p) + s[n..]);
    assert p + s[n..] == s;
    SplitAppend(done, Tail(p) + s[n..]);
  }
}
