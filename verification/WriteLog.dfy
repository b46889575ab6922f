// What the kernel answers to the writes of innd/chan.c, and what `CHANwrite` makes of a
// series of answers.
module WriteLog {
  // What write(2) says.
  datatype Errno = NoError | Eintr | Emsgsize | Eagain | Epipe | Eother

  // One write(2): the descriptor, how many bytes it was given, and the answer.
  datatype Io = Io(fd: nat, want: nat, n: int, e: Errno)

  predicate Interrupted(i: Io) {
    i.n < 0 && i.e == Eintr
  }

  // Nothing went out, perhaps because it was too much at once.
  predicate TooLong(i: Io) {
    i.n == 0 || (i.n < 0 && i.e == Emsgsize)
  }

  function Last(ios: seq<Io>): (i: Io)
    requires ios != []
  {
    ios[|ios| - 1]
  }

  function Front(ios: seq<Io>): (r: seq<Io>)
    requires ios != []
  {
    ios[..|ios| - 1]
  }

  // How many bytes the kernel took.
  function Gone(ios: seq<Io>): (n: nat)
    decreases |ios|
  {
    if ios == [] then 0
    else Gone(Front(ios)) + if Last(ios).n < 0 then 0 else Last(ios).n
  }

  // The same bytes again and again while a signal interrupts.
  predicate Tries(ios: seq<Io>, fd: nat, want: nat) {
    && ios != []
    && (forall k :: 0 <= k < |ios| ==> ios[k].fd == fd && ios[k].want == want)
    && (forall k :: 0 <= k < |ios| - 1 ==> Interrupted(ios[k]))
  }

  lemma TriesMore(ios: seq<Io>, i: Io, fd: nat, want: nat)
    requires ios == [] || (Tries(ios, fd, want) && Interrupted(Last(ios)))
    requires i.fd == fd && i.want == want
    ensures Tries(ios + [i], fd, want) && Last(ios + [i]) == i
  {
  }

  // The next piece of the data, of at most so many bytes.
  predicate Piece(before: seq<Io>, i: Io, fd: nat, want: nat, bufsiz: nat) {
    && i.fd == fd && Gone(before) < want && i.n <= i.want
    && i.want == if want - Gone(before) > bufsiz then bufsiz else want - Gone(before)
  }

  // Pieces that all went out, or were interrupted.
  predicate Going(ios: seq<Io>, fd: nat, want: nat, bufsiz: nat)
    decreases |ios|
  {
    ios == []
    || (Going(Front(ios), fd, want, bufsiz) && Piece(Front(ios), Last(ios), fd, want, bufsiz)
        && (Last(ios).n > 0 || Interrupted(Last(ios))))
  }

  // In pieces until all is out or one of them fails; a failure only shows when nothing went
  // out before it.
  predicate InPieces(ios: seq<Io>, fd: nat, want: nat, bufsiz: nat, count: int, e: Errno) {
    if Going(ios, fd, want, bufsiz) then Gone(ios) >= want && count == Gone(ios)
    else
      && ios != [] && Going(Front(ios), fd, want, bufsiz) && Piece(Front(ios), Last(ios), fd, want, bufsiz)
      && if Gone(Front(ios)) > 0 then count == Gone(Front(ios)) else count == Last(ios).n && e == Last(ios).e
  }

  lemma PieceMore(ios: seq<Io>, i: Io, fd: nat, want: nat, bufsiz: nat)
    requires Going(ios, fd, want, bufsiz) && Piece(ios, i, fd, want, bufsiz)
    ensures i.n > 0 || Interrupted(i) ==>
      Going(ios + [i], fd, want, bufsiz) && Gone(ios + [i]) == Gone(ios) + if i.n < 0 then 0 else i.n
    ensures !(i.n > 0 || Interrupted(i)) ==>
      InPieces(ios + [i], fd, want, bufsiz, if Gone(ios) > 0 then Gone(ios) else i.n, i.e)
  {
    assert Front(ios + [i]) == ios && Last(ios + [i]) == i;
  }

  lemma AllGone(ios: seq<Io>, fd: nat, want: nat, bufsiz: nat, e: Errno)
    requires Going(ios, fd, want, bufsiz) && Gone(ios) >= want
    ensures InPieces(ios, fd, want, bufsiz, Gone(ios), e)
  {
  }

  // All at once until no signal interrupts and then, if it was too long, in pieces.
  ghost predicate Attempt(ios: seq<Io>, fd: nat, want: nat, bufsiz: nat, count: int, e: Errno) {
    exists k :: 0 < k <= |ios| && Tries(ios[..k], fd, want) && Ended(ios, k, fd, want, bufsiz, count, e)
  }

  predicate Ended(ios: seq<Io>, k: nat, fd: nat, want: nat, bufsiz: nat, count: int, e: Errno)
    requires 0 < k <= |ios|
  {
    var i := ios[k - 1];
    !Interrupted(i)
    && if TooLong(i) then InPieces(ios[k..], fd, want, bufsiz, count, e)
       else k == |ios| && count == i.n && e == i.e
  }

  lemma {:induction false} GoneSum(a: seq<Io>, b: seq<Io>)
    ensures Gone(a + b) == Gone(a) + Gone(b)
    decreases |b|
  {
    if b == [] {
      assert a + b == a;
    } else {
      GoneSum(a, Front(b));
      assert Front(a + b) == a + Front(b);
    }
  }

  lemma {:induction false} TriesTakeNothing(ios: seq<Io>, fd: nat, want: nat)
    requires Tries(ios, fd, want)
    ensures Gone(Front(ios)) == 0
    decreases |ios|
  {
    var t := Front(ios);
    if t != [] {
      assert forall k :: 0 <= k < |t| ==> ios[k] == t[k];
      TriesTakeNothing(t, fd, want);
    }
  }

  lemma PiecesMean(ios: seq<Io>, fd: nat, want: nat, bufsiz: nat, count: int, e: Errno)
    requires InPieces(ios, fd, want, bufsiz, count, e)
    ensures Gone(ios) == if count < 0 then 0 else count
    ensures count <= 0 && want > 0 ==>
      ios != [] && Last(ios) == Io(fd, Last(ios).want, count, e) && !Interrupted(Last(ios))
  {
  }

  // What is reported is what the kernel took; and when it took nothing, it is the last
  // answer, which no signal caused.
  lemma AttemptMeans(ios: seq<Io>, fd: nat, want: nat, bufsiz: nat, count: int, e: Errno)
    requires Attempt(ios, fd, want, bufsiz, count, e) && want > 0
    ensures ios != [] && ios[0].fd == fd && Gone(ios) == if count < 0 then 0 else count
    ensures count <= 0 ==> Last(ios) == Io(fd, Last(ios).want, count, e) && !Interrupted(Last(ios))
  {
    var k :| 0 < k <= |ios| && Tries(ios[..k], fd, want) && Ended(ios, k, fd, want, bufsiz, count, e);
    var a, b := ios[..k], ios[k..];
    assert ios == a + b && a[0] == ios[0] && Last(a) == ios[k - 1];
    GoneSum(a, b);
    TriesTakeNothing(a, fd, want);
    if TooLong(Last(a)) {
      PiecesMean(b, fd, want, bufsiz, count, e);
      hide Going, Piece;
      if count <= 0 {
        assert Last(b) == Last(ios);
      }
    }
  }
}
