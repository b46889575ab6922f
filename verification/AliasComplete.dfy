// When mark_eq_probs (backends/actsync.c) is right about the "=" groups it marks.
module AliasComplete {
  import opened ActiveFile
  import opened AliasSpec
  import opened AliasChains
  import opened AliasExact
  import opened AliasMarks

  // ---- chains, line by line ----

  // The line that n links lead to from line k; |gs| when the name is not there, or when
  // there was no link to follow.
  function Reach(gs: seq<Group>, hostid: int, k: nat, n: nat): (m: nat)
    ensures k <= |gs| ==> m <= |gs|
  {
    if n == 0 then k else
      var before := Reach(gs, hostid, k, n - 1);
      if before < |gs| && Candidate(gs[before], hostid) then Lookup(gs, hostid, gs[before].Target(), 0) else |gs|
  }

  predicate ArrivesAt(gs: seq<Group>, hostid: int, k: nat, n: nat) {
    var m := Reach(gs, hostid, k, n);
    m < |gs| && !gs[m].IsAlias()
  }

  // Within so many links the chain ends at a group that is no alias, comes back to its
  // line, or comes to a name that is not there.
  ghost predicate Arrives(gs: seq<Group>, hostid: int, k: nat, most: nat) {
    exists n :: 1 <= n <= most && ArrivesAt(gs, hostid, k, n)
  }

  ghost predicate Loops(gs: seq<Group>, hostid: int, k: nat, most: nat) {
    exists n :: 1 <= n <= most && Reach(gs, hostid, k, n) == k
  }

  ghost predicate Lost(gs: seq<Group>, hostid: int, k: nat, most: nat) {
    exists n: nat :: n < most && StuckAt(gs, hostid, k, n)
  }

  predicate StuckAt(gs: seq<Group>, hostid: int, k: nat, n: nat) {
    var m := Reach(gs, hostid, k, n);
    m < |gs| && Candidate(gs[m], hostid) && Reach(gs, hostid, k, n + 1) == |gs|
  }

  // A loop that the chain runs into without being part of it.
  ghost predicate Snared(gs: seq<Group>, hostid: int, k: nat, most: nat) {
    !Loops(gs, hostid, k, most)
    && exists n :: 1 <= n <= most && LoopAhead(gs, hostid, k, n, most)
  }

  ghost predicate LoopAhead(gs: seq<Group>, hostid: int, k: nat, n: nat, most: nat) {
    var m := Reach(gs, hostid, k, n);
    m < |gs| && Candidate(gs[m], hostid) && Loops(gs, hostid, m, most)
  }

  ghost predicate Unrepeated(gs: seq<Group>, hostid: int) {
    forall i, j :: 0 <= i < j < |gs| && Clean(gs[i], hostid) && Clean(gs[j], hostid) ==> gs[i].name != gs[j].name
  }

  // Some "=" group stands for a name that is not there, or runs into a loop that it is
  // not part of; or a name is there twice.
  ghost predicate Stray(gs: seq<Group>, hostid: int) {
    !Unrepeated(gs, hostid)
    || exists k: nat :: k < |gs| && Candidate(gs[k], hostid)
         && (Lost(gs, hostid, k, EQ_LOOP) || Snared(gs, hostid, k, EQ_LOOP))
  }

  lemma {:induction false} ReachOn(gs: seq<Group>, hostid: int, k: nat, a: nat, b: nat)
    requires k <= |gs|
    ensures Reach(gs, hostid, Reach(gs, hostid, k, a), b) == Reach(gs, hostid, k, a + b)
  {
    hide Lookup, IsError;
    if b > 0 {
      ReachOn(gs, hostid, k, a, b - 1);
      assert Reach(gs, hostid, k, a + (b - 1)) == Reach(gs, hostid, k, (a + b) - 1);
    }
  }

  // From every line of a loop the way leads back.
  lemma {:induction false} LoopBack(gs: seq<Group>, hostid: int, k: nat, n: nat, c: nat) returns (d: nat)
    requires k < |gs| && n >= 1 && Reach(gs, hostid, k, n) == k
    ensures Reach(gs, hostid, Reach(gs, hostid, k, c), d) == k
  {
    hide Reach;
    NoLink(gs, hostid, k);
    d := 0;
    if c > 0 {
      d := LoopBack(gs, hostid, k, n, c - 1);
      d := if d == 0 then n - 1 else d - 1;
      ReachOn(gs, hostid, Reach(gs, hostid, k, c - 1), 1, d);
      OneLink(gs, hostid, k, c);
      NoLink(gs, hostid, Reach(gs, hostid, k, c - 1));
    }
  }

  lemma NoLink(gs: seq<Group>, hostid: int, k: nat)
    ensures Reach(gs, hostid, k, 0) == k
  {
  }

  lemma OneLink(gs: seq<Group>, hostid: int, k: nat, c: nat)
    requires k <= |gs| && c > 0
    ensures Reach(gs, hostid, Reach(gs, hostid, k, c - 1), 1) == Reach(gs, hostid, k, c)
  {
    ReachOn(gs, hostid, k, c - 1, 1);
  }

  // Lines of one loop come back after the same numbers of links.
  lemma OneLoop(gs: seq<Group>, hostid: int, k: nat, n: nat, m: nat, c: nat, l: nat)
    requires k < |gs| && n >= 1 && Reach(gs, hostid, k, n) == k && m == Reach(gs, hostid, k, c) && m < |gs|
    requires Reach(gs, hostid, m, l) == m
    ensures Reach(gs, hostid, k, l) == k
  {
    var d := LoopBack(gs, hostid, k, n, c);
    hide Reach;
    ReachOn(gs, hostid, m, d, l);
    ReachOn(gs, hostid, m, l, d);
    assert d + l == l + d;
  }

  // A chain that has ended, or has lost its way, is over.
  lemma {:induction false} Over(gs: seq<Group>, hostid: int, k: nat, a: nat, b: nat)
    requires k <= |gs| && a < b
    requires var m := Reach(gs, hostid, k, a); m == |gs| || !Candidate(gs[m], hostid)
    ensures Reach(gs, hostid, k, b) == |gs|
  {
    if b > a + 1 {
      Over(gs, hostid, k, a, b - 1);
    }
  }

  // A chain does not end and come back.
  lemma ArrivesOrLoops(gs: seq<Group>, hostid: int, k: nat, a: nat, b: nat)
    requires k < |gs| && Candidate(gs[k], hostid) && 1 <= b && Reach(gs, hostid, k, b) == k
    ensures !ArrivesAt(gs, hostid, k, a)
  {
    if ArrivesAt(gs, hostid, k, a) {
      var d := LoopBack(gs, hostid, k, b, a);
      if d > 0 {
        Over(gs, hostid, Reach(gs, hostid, k, a), 0, d);
      }
    }
  }

  // ---- the two ways to say that a chain is good ----

  lemma LookupOne(gs: seq<Group>, hostid: int, k: nat)
    requires Unrepeated(gs, hostid) && k < |gs| && Clean(gs[k], hostid)
    ensures Lookup(gs, hostid, gs[k].name, 0) == k
  {
  }

  ghost predicate ArrivesBetween(gs: seq<Group>, hostid: int, k: nat, lo: nat, hi: nat) {
    exists a :: lo < a <= hi && ArrivesAt(gs, hostid, k, a)
  }

  lemma ArrivesNext(gs: seq<Group>, hostid: int, k: nat, lo: nat, hi: nat)
    requires lo < hi
    ensures ArrivesBetween(gs, hostid, k, lo, hi)
      <==> ArrivesAt(gs, hostid, k, lo + 1) || ArrivesBetween(gs, hostid, k, lo + 1, hi)
  {
    hide ArrivesAt;
  }

  // A chain that is lost, or back at its line, does not arrive.
  lemma NeverArrives(gs: seq<Group>, hostid: int, k: nat, n: nat, hi: nat)
    requires k < |gs| && Candidate(gs[k], hostid) && n >= 1
    requires Reach(gs, hostid, k, n) == |gs| || Reach(gs, hostid, k, n) == k
    ensures !ArrivesBetween(gs, hostid, k, n, hi)
  {
    forall a | n < a <= hi
      ensures !ArrivesAt(gs, hostid, k, a)
    {
      if Reach(gs, hostid, k, n) == |gs| {
        Over(gs, hostid, k, n, a);
      } else {
        ArrivesOrLoops(gs, hostid, k, a, n);
      }
    }
  }

  lemma {:induction false} GoodArrives(gs: seq<Group>, hostid: int, k: nat, n: nat, left: nat)
    requires Unrepeated(gs, hostid) && k < |gs| && Candidate(gs[k], hostid)
    requires var m := Reach(gs, hostid, k, n); m < |gs| && Candidate(gs[m], hostid)
    ensures var m := Reach(gs, hostid, k, n);
      Good(gs, hostid, gs[k].name, gs[m].Target(), left) <==> ArrivesBetween(gs, hostid, k, n, n + left)
    decreases left
  {
    var m := Reach(gs, hostid, k, n);
    var next := Reach(gs, hostid, k, n + 1);
    GoodStep(gs, hostid, k, gs[m].Target(), left);
    assert next == Lookup(gs, hostid, gs[m].Target(), 0);
    hide Lookup, IsError, Unrepeated, Good, Reach, ArrivesBetween;
    if left == 0 {
      assert !ArrivesBetween(gs, hostid, k, n, n) by { NoneBetween(gs, hostid, k, n); }
    } else {
      ArrivesNext(gs, hostid, k, n, n + left);
      if next == |gs| || next == k {
        NeverArrives(gs, hostid, k, n + 1, n + left);
      } else if gs[next].IsAlias() {
        GoodArrives(gs, hostid, k, n + 1, left - 1);
      }
    }
  }

  lemma NoneBetween(gs: seq<Group>, hostid: int, k: nat, n: nat)
    ensures !ArrivesBetween(gs, hostid, k, n, n)
  {
  }

  // Without repeated names the name of a chain's own is that of its own line.
  lemma GoodStep(gs: seq<Group>, hostid: int, k: nat, eq: string, left: nat)
    requires Unrepeated(gs, hostid) && k < |gs| && Candidate(gs[k], hostid)
    ensures var next := Lookup(gs, hostid, eq, 0);
      Good(gs, hostid, gs[k].name, eq, left)
      <==> left > 0 && next < |gs| && next != k
           && (gs[next].IsAlias() ==> Good(gs, hostid, gs[k].name, gs[next].Target(), left - 1))
  {
    LookupOne(gs, hostid, k);
    hide IsError;
  }

  lemma GoodIsArrival(gs: seq<Group>, hostid: int, k: nat)
    requires Unrepeated(gs, hostid) && k < |gs| && Candidate(gs[k], hostid)
    ensures GoodAlias(gs, hostid, k) <==> Arrives(gs, hostid, k, EQ_LOOP)
  {
    GoodArrives(gs, hostid, k, 0, EQ_LOOP);
    if GoodAlias(gs, hostid, k) {
      var a :| 0 < a <= EQ_LOOP && ArrivesAt(gs, hostid, k, a);
      assert 1 <= a;
    }
    if Arrives(gs, hostid, k, EQ_LOOP) {
      var a :| 1 <= a <= EQ_LOOP && ArrivesAt(gs, hostid, k, a);
      assert 0 < a <= 0 + EQ_LOOP;
    }
  }

  // ---- an array without strays ----

  // A record after n lookups: at the line that so many links lead to.
  ghost predicate Tracks(gs0: seq<Group>, gs: seq<Group>, hostid: int, a: Alias, n: nat) {
    !a.skip ==>
      && a.g < |gs0| == |gs| && Candidate(gs0[a.g], hostid) && gs[a.g] == gs0[a.g]
      && Reach(gs0, hostid, a.g, n) < |gs0| && Candidate(gs0[Reach(gs0, hostid, a.g, n)], hostid)
      && a.eq == gs0[Reach(gs0, hostid, a.g, n)].Target()
      && !Loops(gs0, hostid, a.g, n)
  }

  ghost predicate AllTrack(gs0: seq<Group>, gs: seq<Group>, hostid: int, eqs: seq<Alias>, j: nat, n: nat) {
    forall x :: 0 <= x < |eqs| ==> Tracks(gs0, gs, hostid, eqs[x], if x < j then n + 1 else n)
  }

  // The only marks are those of loops of at most n links.
  ghost predicate OnlyLoops(gs0: seq<Group>, gs: seq<Group>, hostid: int, n: nat) {
    |gs| == |gs0|
    && forall k: nat :: k < |gs| && gs[k] != gs0[k] ==>
      gs[k] == gs0[k].Marked(EqLoop) && Candidate(gs0[k], hostid) && Loops(gs0, hostid, k, n)
  }

  ghost predicate Straight(gs0: seq<Group>, p: Pass, hostid: int, n: nat) {
    p.Valid() && Distinct(p.eqs) && OnlyLoops(gs0, p.gs, hostid, n + 1)
    && AllTrack(gs0, p.gs, hostid, p.eqs, p.j, n) && Ascending(p.eqs, p.j) && Passed(p, hostid)
  }

  // A chain that has come to an alias goes on to a line that is there.
  lemma NotLost(gs: seq<Group>, hostid: int, k: nat, n: nat)
    requires k < |gs| && n < EQ_LOOP && !Lost(gs, hostid, k, EQ_LOOP)
    requires var m := Reach(gs, hostid, k, n); m < |gs| && Candidate(gs[m], hostid)
    ensures var m := Reach(gs, hostid, k, n + 1);
      m < |gs| && Clean(gs[m], hostid) && gs[m].name == gs[Reach(gs, hostid, k, n)].Target()
  {
    assert !StuckAt(gs, hostid, k, n);
  }

  // A loop ahead is the chain's own.
  lemma OwnLoop(gs: seq<Group>, hostid: int, k: nat, n: nat)
    requires k < |gs| && n < EQ_LOOP && !Snared(gs, hostid, k, EQ_LOOP) && !Loops(gs, hostid, k, n)
    requires var m := Reach(gs, hostid, k, n + 1);
      m < |gs| && Candidate(gs[m], hostid) && Loops(gs, hostid, m, n + 1)
    ensures Reach(gs, hostid, k, n + 1) == k
  {
    hide Reach;
    var m := Reach(gs, hostid, k, n + 1);
    assert LoopAhead(gs, hostid, k, n + 1, EQ_LOOP);
    var b :| 1 <= b <= EQ_LOOP && Reach(gs, hostid, k, b) == k;
    var l :| 1 <= l <= n + 1 && Reach(gs, hostid, m, l) == m;
    OneLoop(gs, hostid, k, b, m, n + 1, l);
  }

  // The line that a record looks for is there, and free of marks.
  lemma Found(gs0: seq<Group>, gs: seq<Group>, hostid: int, a: Alias, n: nat)
    requires !Stray(gs0, hostid) && n < EQ_LOOP && OnlyLoops(gs0, gs, hostid, n + 1)
    requires Tracks(gs0, gs, hostid, a, n) && !a.skip
    ensures var m := Reach(gs0, hostid, a.g, n + 1);
      m < |gs| && Clean(gs0[m], hostid) && gs[m] == gs0[m] && gs0[m].name == a.eq
  {
    var k, m := a.g, Reach(gs0, hostid, a.g, n + 1);
    hide Reach, IsError, Unrepeated, Lost, Snared, Loops;
    NotLost(gs0, hostid, k, n);
    if gs[m] != gs0[m] {
      OwnLoop(gs0, hostid, k, n);
    }
  }

  // The scan has not gone past the line that the record at hand looks for.
  lemma Meets(gs0: seq<Group>, p: Pass, hostid: int, n: nat)
    requires !Stray(gs0, hostid) && NameSorted(gs0) && n < EQ_LOOP
    requires Straight(gs0, p, hostid, n) && p.j < |p.eqs|
    ensures var a := p.eqs[p.j]; var m := Reach(gs0, hostid, a.g, n + 1);
      && !a.skip && p.i <= m < |p.gs| && p.gs[m] == gs0[m] && Clean(gs0[m], hostid) && gs0[m].name == a.eq
      && (Clean(p.gs[p.i], hostid) && p.gs[p.i].name == a.eq ==> p.i == m)
      && (Clean(p.gs[p.i], hostid) && p.gs[p.i].name != a.eq ==> Strcmp(p.gs[p.i].name, a.eq) < 0)
  {
    var a := p.eqs[p.j];
    assert Tracks(gs0, p.gs, hostid, a, n);
    hide Tracks, AllTrack, Reach, Loops, Lost, Snared, IsError;
    Found(gs0, p.gs, hostid, a, n);
    var m := Reach(gs0, hostid, a.g, n + 1);
    StrcmpZero(a.eq, a.eq);
    assert p.i <= m;
    StrcmpZero(p.gs[p.i].name, a.eq);
    assert p.gs[p.i] == gs0[p.i] || !Clean(p.gs[p.i], hostid);
  }

  // From p to q the record at hand is done with: all others stay as they are, and of
  // the groups only its own may have got a mark.
  ghost predicate Next(p: Pass, q: Pass) {
    && p.Valid() && p.j < |p.eqs| == |q.eqs| && |q.gs| == |p.gs| && q.i == p.i && q.j == p.j + 1
    && q.eqs[p.j].g == p.eqs[p.j].g
    && (forall x :: 0 <= x < |p.eqs| && x != p.j ==> q.eqs[x] == p.eqs[x])
    && (forall m :: 0 <= m < |p.gs| && m != p.eqs[p.j].g ==> q.gs[m] == p.gs[m])
    && (q.gs[p.eqs[p.j].g] == p.gs[p.eqs[p.j].g] || q.gs[p.eqs[p.j].g] == p.gs[p.eqs[p.j].g].Marked(EqLoop))
  }

  lemma NextPlaces(p: Pass, q: Pass)
    requires Next(p, q) && Distinct(p.eqs)
    ensures q.Valid() && Distinct(q.eqs)
  {
    forall c | c in q.eqs
      ensures c.g < |q.gs|
    {
      var x :| 0 <= x < |q.eqs| && q.eqs[x] == c;
      assert p.eqs[x] in p.eqs;
    }
  }

  lemma NextTracks(gs0: seq<Group>, p: Pass, q: Pass, hostid: int, n: nat)
    requires Next(p, q) && Distinct(p.eqs) && AllTrack(gs0, p.gs, hostid, p.eqs, p.j, n)
    requires Tracks(gs0, q.gs, hostid, q.eqs[p.j], n + 1)
    ensures AllTrack(gs0, q.gs, hostid, q.eqs, q.j, n)
  {
    hide Reach, Loops, Candidate;
    forall x | 0 <= x < |q.eqs| && x != p.j
      ensures Tracks(gs0, q.gs, hostid, q.eqs[x], if x < q.j then n + 1 else n)
    {
      assert Tracks(gs0, p.gs, hostid, p.eqs[x], if x < p.j then n + 1 else n);
    }
  }

  // A mark does not bring back a line that was passed over.
  lemma NextPassed(p: Pass, q: Pass, hostid: int)
    requires Next(p, q) && q.Valid() && Passed(p, hostid) && Ascending(p.eqs, p.j)
    ensures Passed(q, hostid) && Ascending(q.eqs, q.j)
  {
    PassedNext(p, hostid, p.gs, q.eqs);
    hide Strcmp;
  }

  // The record at hand is done with.
  lemma NextRecord(gs0: seq<Group>, p: Pass, q: Pass, hostid: int, n: nat)
    requires Straight(gs0, p, hostid, n) && Next(p, q)
    requires OnlyLoops(gs0, q.gs, hostid, n + 1) && Tracks(gs0, q.gs, hostid, q.eqs[p.j], n + 1)
    ensures Straight(gs0, q, hostid, n)
  {
    hide AllTrack, Tracks, OnlyLoops, Distinct, Ascending, Passed, Next;
    NextPlaces(p, q);
    NextTracks(gs0, p, q, hostid, n);
    NextPassed(p, q, hostid);
  }

  lemma NextLine(gs0: seq<Group>, p: Pass, hostid: int, n: nat)
    requires Straight(gs0, p, hostid, n) && p.j < |p.eqs| && p.i < |p.gs|
    requires Clean(p.gs[p.i], hostid) ==> Strcmp(p.gs[p.i].name, p.eqs[p.j].eq) < 0
    ensures Straight(gs0, p.(i := p.i + 1), hostid, n)
  {
    hide AllTrack, OnlyLoops, Distinct, Ascending, Strcmp, Clean;
  }

  lemma TurnAtMatch(p: Pass, hostid: int)
    requires p.Valid() && p.j < |p.eqs| && !p.eqs[p.j].skip
    requires p.i < |p.gs| && Clean(p.gs[p.i], hostid) && p.gs[p.i].name == p.eqs[p.j].eq
    ensures var a, g := p.eqs[p.j], p.gs[p.i];
      Turn(p, hostid) ==
      if g.name == p.gs[a.g].name then p.Reject(EqLoop)
      else Pass(p.gs, p.eqs[p.j := if g.IsAlias() then a.(eq := g.Target()) else a.(skip := true)], p.i, p.j + 1)
  {
    hide IsError, Strcmp;
  }

  lemma TurnBefore(p: Pass, hostid: int)
    requires p.Valid() && p.j < |p.eqs| && !p.eqs[p.j].skip && p.i < |p.gs|
    requires Clean(p.gs[p.i], hostid) ==> p.gs[p.i].name != p.eqs[p.j].eq && Strcmp(p.gs[p.i].name, p.eqs[p.j].eq) < 0
    ensures Turn(p, hostid) == p.(i := p.i + 1)
  {
    hide IsError, Strcmp;
  }

  lemma MatchNext(p: Pass, hostid: int)
    requires p.Valid() && p.j < |p.eqs| && !p.eqs[p.j].skip
    requires p.i < |p.gs| && Clean(p.gs[p.i], hostid) && p.gs[p.i].name == p.eqs[p.j].eq
    ensures Next(p, Turn(p, hostid))
  {
    TurnAtMatch(p, hostid);
    hide Turn, Clean;
  }

  lemma LoopMarked(gs0: seq<Group>, gs: seq<Group>, hostid: int, k: nat, n: nat)
    requires OnlyLoops(gs0, gs, hostid, n) && k < |gs| && gs[k] == gs0[k] && Candidate(gs0[k], hostid) && n > 0
    requires Reach(gs0, hostid, k, n) == k
    ensures OnlyLoops(gs0, gs[k := gs[k].Marked(EqLoop)], hostid, n)
  {
    hide Reach, Candidate;
    assert Loops(gs0, hostid, k, n);
  }

  // One more link takes the record on, back to its own line, or to its end.
  lemma MatchTracks(gs0: seq<Group>, p: Pass, hostid: int, n: nat)
    requires Unrepeated(gs0, hostid) && p.Valid() && p.j < |p.eqs| && !p.eqs[p.j].skip
    requires OnlyLoops(gs0, p.gs, hostid, n + 1) && Tracks(gs0, p.gs, hostid, p.eqs[p.j], n)
    requires p.i < |p.gs| && Clean(p.gs[p.i], hostid) && p.gs[p.i].name == p.eqs[p.j].eq && p.gs[p.i] == gs0[p.i]
    requires p.i == Reach(gs0, hostid, p.eqs[p.j].g, n + 1)
    ensures var q := Turn(p, hostid);
      q.j == p.j + 1 && OnlyLoops(gs0, q.gs, hostid, n + 1) && Tracks(gs0, q.gs, hostid, q.eqs[p.j], n + 1)
  {
    var m, k := p.i, p.eqs[p.j].g;
    TurnAtMatch(p, hostid);
    hide Reach, Turn, IsError;
    if m == k {
      LoopMarked(gs0, p.gs, hostid, k, n + 1);
    }
  }

  // The record at hand finds the line it looks for.
  lemma MatchStraight(gs0: seq<Group>, p: Pass, hostid: int, n: nat)
    requires !Stray(gs0, hostid) && n < EQ_LOOP
    requires Straight(gs0, p, hostid, n) && p.j < |p.eqs| && !p.eqs[p.j].skip
    requires p.i < |p.gs| && Clean(p.gs[p.i], hostid) && p.gs[p.i].name == p.eqs[p.j].eq && p.gs[p.i] == gs0[p.i]
    requires p.i == Reach(gs0, hostid, p.eqs[p.j].g, n + 1)
    ensures Straight(gs0, Turn(p, hostid), hostid, n)
  {
    assert Tracks(gs0, p.gs, hostid, p.eqs[p.j], n);
    hide Reach, Loops, Unrepeated, Lost, Snared, Turn, Clean, Ascending, Passed, Distinct, OnlyLoops, Next, Tracks;
    MatchNext(p, hostid);
    MatchTracks(gs0, p, hostid, n);
    NextRecord(gs0, p, Turn(p, hostid), hostid, n);
  }

  // A turn of the scan of an array without strays never misses.
  lemma TurnStraight(gs0: seq<Group>, p: Pass, hostid: int, n: nat)
    requires !Stray(gs0, hostid) && NameSorted(gs0) && n < EQ_LOOP
    requires Straight(gs0, p, hostid, n) && p.j < |p.eqs|
    ensures Straight(gs0, Turn(p, hostid), hostid, n)
  {
    Meets(gs0, p, hostid, n);
    assert p.Valid();
    hide Straight, NameSorted, Strcmp, Reach, IsError, Stray, Turn;
    if Clean(p.gs[p.i], hostid) && p.gs[p.i].name == p.eqs[p.j].eq {
      MatchStraight(gs0, p, hostid, n);
    } else {
      TurnBefore(p, hostid);
      NextLine(gs0, p, hostid, n);
    }
  }

  lemma {:induction false} ScanStraight(gs0: seq<Group>, p: Pass, hostid: int, n: nat)
    requires !Stray(gs0, hostid) && NameSorted(gs0) && n < EQ_LOOP
    requires Straight(gs0, p, hostid, n)
    ensures Straight(gs0, Scan(p, hostid), hostid, n)
    decreases |p.gs| - p.i + |p.eqs| - p.j
  {
    assert p.Valid();
    hide Stray, NameSorted, Straight, Turn;
    if p.j < |p.eqs| {
      TurnStraight(gs0, p, hostid, n);
      ScanStraight(gs0, Turn(p, hostid), hostid, n);
    }
  }

  lemma PendingTrack(gs0: seq<Group>, gs: seq<Group>, hostid: int, eqs: seq<Alias>, n: nat)
    requires Points(gs, eqs) && Distinct(eqs) && AllTrack(gs0, gs, hostid, eqs, 0, n)
    ensures var r := Pending(gs, eqs);
      Distinct(r) && AllTrack(gs0, gs, hostid, r, 0, n) && Ascending(r, 0)
  {
    hide Sort, Live, Strcmp, Tracks;
    SortKept((a: Alias) requires a.g < |gs| => AliasKey(gs, a), eqs);
    PendingIs(gs, eqs);
    var r := Pending(gs, eqs);
    forall x | 0 <= x < |r|
      ensures Tracks(gs0, gs, hostid, r[x], n) && !r[x].skip
    {
      assert r[x] in eqs;
      var y :| 0 <= y < |eqs| && eqs[y] == r[x];
      assert Tracks(gs0, gs, hostid, eqs[y], n);
    }
  }

  lemma LongerLoops(gs0: seq<Group>, gs: seq<Group>, hostid: int, n: nat)
    requires OnlyLoops(gs0, gs, hostid, n)
    ensures OnlyLoops(gs0, gs, hostid, n + 1)
  {
    hide Reach, Candidate;
  }

  lemma PassStraight(gs0: seq<Group>, gs: seq<Group>, hostid: int, eqs: seq<Alias>, n: nat)
    requires !Stray(gs0, hostid) && NameSorted(gs0) && n < EQ_LOOP
    requires Points(gs, eqs) && Distinct(eqs) && OnlyLoops(gs0, gs, hostid, n)
    requires AllTrack(gs0, gs, hostid, eqs, 0, n) && Ascending(eqs, 0)
    ensures var r := Scan(Pass(gs, eqs, 0, 0), hostid);
      Distinct(r.eqs) && OnlyLoops(gs0, r.gs, hostid, n + 1) && AllTrack(gs0, r.gs, hostid, r.eqs, 0, n + 1)
  {
    hide Stray, NameSorted, Scan, Tracks, OnlyLoops, Distinct, Ascending;
    LongerLoops(gs0, gs, hostid, n);
    var p := Pass(gs, eqs, 0, 0);
    ScanStraight(gs0, p, hostid, n);
    var r := Scan(p, hostid);
    forall x | 0 <= x < |r.eqs|
      ensures Tracks(gs0, r.gs, hostid, r.eqs[x], n + 1)
    {
      assert x < r.j;
    }
  }

  lemma {:induction false} StepsStraight(gs0: seq<Group>, gs: seq<Group>, hostid: int, eqs: seq<Alias>, step: nat)
    requires !Stray(gs0, hostid) && NameSorted(gs0) && step <= EQ_LOOP
    requires Points(gs, eqs) && Distinct(eqs) && OnlyLoops(gs0, gs, hostid, step)
    requires AllTrack(gs0, gs, hostid, eqs, 0, step)
    ensures var r := Steps(gs, hostid, eqs, step);
      Distinct(r.eqs) && OnlyLoops(gs0, r.gs, hostid, EQ_LOOP) && AllTrack(gs0, r.gs, hostid, r.eqs, 0, EQ_LOOP)
    decreases EQ_LOOP - step
  {
    hide Stray, NameSorted, Scan, Pending, AllTrack, OnlyLoops, Distinct, Ascending;
    if step < EQ_LOOP {
      PendingTrack(gs0, gs, hostid, eqs, step);
      var live := Pending(gs, eqs);
      PassStraight(gs0, gs, hostid, live, step);
      var pass := Scan(Pass(gs, live, 0, 0), hostid);
      StepsStraight(gs0, pass.gs, hostid, pass.eqs, step + 1);
    }
  }

  lemma {:induction false} CollectedTrack(gs: seq<Group>, hostid: int, n: nat)
    requires n <= |gs|
    ensures AllTrack(gs, gs, hostid, Collect(gs, hostid, n), 0, 0)
  {
    if n > 0 {
      CollectedTrack(gs, hostid, n - 1);
      hide IsError;
      var before, after := Collect(gs, hostid, n - 1), Collect(gs, hostid, n);
      forall x | 0 <= x < |after|
        ensures Tracks(gs, gs, hostid, after[x], 0)
      {
        assert x < |before| ==> Tracks(gs, gs, hostid, before[x], 0);
      }
    }
  }

  // A chain too long to be followed neither arrives nor comes back.
  ghost predicate GoesTooFar(gs: seq<Group>, hostid: int, k: nat) {
    var m := Reach(gs, hostid, k, EQ_LOOP);
    m < |gs| && Candidate(gs[m], hostid) && !Loops(gs, hostid, k, EQ_LOOP)
  }

  lemma TooFar(gs: seq<Group>, hostid: int, k: nat)
    requires k < |gs| && GoesTooFar(gs, hostid, k)
    ensures !Arrives(gs, hostid, k, EQ_LOOP)
  {
    if Arrives(gs, hostid, k, EQ_LOOP) {
      var a :| 1 <= a <= EQ_LOOP && ArrivesAt(gs, hostid, k, a);
      if a < EQ_LOOP {
        hide Reach;
        Over(gs, hostid, k, a, EQ_LOOP);
      }
    }
  }

  ghost predicate LongOrSame(gs0: seq<Group>, gs: seq<Group>, r: seq<Group>, hostid: int) {
    |gs0| == |gs| == |r|
    && forall k: nat :: k < |r| && r[k] != gs[k] ==> r[k] == gs0[k].Marked(LongLoop) && GoesTooFar(gs0, hostid, k)
  }

  lemma {:induction false} GiveUpLong(gs0: seq<Group>, gs: seq<Group>, hostid: int, eqs: seq<Alias>, n: nat)
    requires Points(gs, eqs) && Distinct(eqs) && AllTrack(gs0, gs, hostid, eqs, 0, EQ_LOOP) && Ascending(eqs, 0)
    requires |gs0| == |gs| && n <= |eqs|
    ensures LongOrSame(gs0, gs, GiveUp(gs, eqs, n), hostid)
    ensures forall x :: n <= x < |eqs| ==> GiveUp(gs, eqs, n)[eqs[x].g] == gs[eqs[x].g]
  {
    hide Loops, Reach, Candidate;
    if n > 0 {
      GiveUpLong(gs0, gs, hostid, eqs, n - 1);
      assert Tracks(gs0, gs, hostid, eqs[n - 1], EQ_LOOP);
      var k := eqs[n - 1].g;
      assert GoesTooFar(gs0, hostid, k) && gs[k] == gs0[k];
      hide Tracks, AllTrack, GoesTooFar, LongOrSame;
      OneMoreLong(gs0, gs, GiveUp(gs, eqs, n - 1), hostid, k);
    }
  }

  lemma OneMoreLong(gs0: seq<Group>, gs: seq<Group>, r: seq<Group>, hostid: int, k: nat)
    requires LongOrSame(gs0, gs, r, hostid) && k < |gs| && GoesTooFar(gs0, hostid, k) && gs[k] == gs0[k]
    ensures LongOrSame(gs0, gs, r[k := r[k].Marked(LongLoop)], hostid)
  {
    hide GoesTooFar;
  }

  // What becomes of a "=" group: left alone, or marked for the loop or the length of
  // its chain.
  ghost function Verdict(gs: seq<Group>, hostid: int, k: nat): Group
    requires k < |gs| && gs[k].IsAlias()
  {
    if GoodAlias(gs, hostid, k) then gs[k]
    else gs[k].Marked(if Loops(gs, hostid, k, EQ_LOOP) then EqLoop else LongLoop)
  }

  lemma Outcome(gs: seq<Group>, hostid: int)
    requires hostid != NOHOST && NameSorted(gs) && !Stray(gs, hostid)
    ensures exists mid :: OnlyLoops(gs, mid, hostid, EQ_LOOP) && LongOrSame(gs, mid, MarkProblems(gs, hostid), hostid)
  {
    var eqs := Collect(gs, hostid, |gs|);
    CollectedTrack(gs, hostid, |gs|);
    AliasMarks.CollectedKept(gs, hostid, |gs|);
    assert OnlyLoops(gs, gs, hostid, 0);
    hide Stray, NameSorted, Collect, Steps, Pending, GiveUp, AllTrack, OnlyLoops, LongOrSame, Ascending, Distinct;
    StepsStraight(gs, gs, hostid, eqs, 0);
    var end := Steps(gs, hostid, eqs, 0);
    PendingTrack(gs, end.gs, hostid, end.eqs, EQ_LOOP);
    var pending := Pending(end.gs, end.eqs);
    GiveUpLong(gs, end.gs, hostid, pending, |pending|);
  }

  // What leads to a real group is good.
  lemma {:induction false} TrailFollow(gs: seq<Group>, hostid: int, path: seq<nat>, n: nat)
    requires Unrepeated(gs, hostid) && Trail(gs, hostid, path) && n < |path|
    ensures Reach(gs, hostid, path[0], n) == path[n]
  {
    hide IsError;
    if n > 0 {
      TrailFollow(gs, hostid, path, n - 1);
      LookupOne(gs, hostid, path[n]);
    }
  }

  lemma ResolvesGood(gs: seq<Group>, hostid: int, k: nat)
    requires Unrepeated(gs, hostid) && Resolves(gs, hostid, k)
    ensures k < |gs| && Candidate(gs[k], hostid) && GoodAlias(gs, hostid, k)
  {
    var path, m: nat :| AliasChains.Ends(gs, hostid, path, m) && path[0] == k && |path| <= EQ_LOOP;
    TrailFollow(gs, hostid, path, |path| - 1);
    LookupOne(gs, hostid, m);
    assert ArrivesAt(gs, hostid, k, |path|);
    hide IsError, Unrepeated, Reach;
    GoodIsArrival(gs, hostid, k);
  }

  lemma MarkedIsError(g: Group, reason: Reason)
    requires reason in {NonEq, EqLoop, LongLoop}
    ensures IsError(g.Marked(reason).ignore)
  {
    assert reason in g.Marked(reason).ignore;
  }

  lemma OneVerdict(gs: seq<Group>, mid: seq<Group>, r: seq<Group>, hostid: int, k: nat)
    requires Unrepeated(gs, hostid) && OnlyLoops(gs, mid, hostid, EQ_LOOP) && LongOrSame(gs, mid, r, hostid)
    requires k < |gs| && Candidate(gs[k], hostid)
    requires Candidate(r[k], hostid) ==> Resolves(gs, hostid, k)
    ensures r[k] == Verdict(gs, hostid, k)
  {
    GoodIsArrival(gs, hostid, k);
    hide Reach, IsError, Resolves, Unrepeated;
    if r[k] == gs[k] {
      ResolvesGood(gs, hostid, k);
    } else if r[k] == mid[k] {
      var b :| 1 <= b <= EQ_LOOP && Reach(gs, hostid, k, b) == k;
      forall a | 1 <= a <= EQ_LOOP
        ensures !ArrivesAt(gs, hostid, k, a)
      {
        ArrivesOrLoops(gs, hostid, k, a, b);
      }
    } else {
      TooFar(gs, hostid, k);
    }
  }

  // On a sorted array without strays every "=" group that is good is left alone, and
  // every other one is marked, for a loop exactly when its chain is one.
  lemma Complete(gs: seq<Group>, hostid: int)
    requires hostid != NOHOST && NameSorted(gs) && !Stray(gs, hostid)
    ensures forall k :: 0 <= k < |gs| && Candidate(gs[k], hostid) ==>
      && MarkProblems(gs, hostid)[k] == Verdict(gs, hostid, k)
      && (IsError(MarkProblems(gs, hostid)[k].ignore) <==> !GoodAlias(gs, hostid, k))
  {
    Outcome(gs, hostid);
    Soundness(gs, hostid);
    var r := MarkProblems(gs, hostid);
    hide MarkProblems, GoodAlias, Marks, OnlyLoops, LongOrSame, IsError, Resolves, Loops, Lost, Snared, Unrepeated;
    var mid :| OnlyLoops(gs, mid, hostid, EQ_LOOP) && LongOrSame(gs, mid, r, hostid);
    forall k | 0 <= k < |gs| && Candidate(gs[k], hostid)
      ensures r[k] == Verdict(gs, hostid, k) && (IsError(r[k].ignore) <==> !GoodAlias(gs, hostid, k))
    {
      OneVerdict(gs, mid, r, hostid, k);
      MarkedIsError(gs[k], EqLoop);
      MarkedIsError(gs[k], LongLoop);
    }
  }

  // Only strays get a good group marked; nor does anything else get any group the mark
  // of a name that is not there.
  lemma StraysToBlame(gs: seq<Group>, hostid: int, k: nat)
    requires hostid != NOHOST && NameSorted(gs) && k < |gs| && Candidate(gs[k], hostid)
    ensures GoodAlias(gs, hostid, k) && MarkProblems(gs, hostid)[k] != gs[k] ==> Stray(gs, hostid)
    ensures NonEq in MarkProblems(gs, hostid)[k].ignore ==> Stray(gs, hostid)
  {
    hide MarkProblems, Stray, GoodAlias, NameSorted, Loops;
    if !Stray(gs, hostid) {
      Complete(gs, hostid);
    }
  }
}
