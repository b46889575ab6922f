// When mark_eq_probs (backends/actsync.c) marks nothing, and what it marks too much.
module AliasExact {
  import opened ActiveFile
  import opened AliasSpec
  import opened AliasChains

  // The first line from the n'th on that an "=name" can refer to.
  function Lookup(gs: seq<Group>, hostid: int, name: string, n: nat): (k: nat)
    requires n <= |gs|
    ensures n <= k <= |gs|
    ensures k < |gs| ==> Clean(gs[k], hostid) && gs[k].name == name
    ensures forall i :: n <= i < k ==> !(Clean(gs[i], hostid) && gs[i].name == name)
    decreases |gs| - n
  {
    if n == |gs| || (Clean(gs[n], hostid) && gs[n].name == name) then n
    else Lookup(gs, hostid, name, n + 1)
  }

  // Following names for at most n links, each to the first line that has it, comes to
  // a group that is no alias and never back to the name the chain belongs to.
  predicate Good(gs: seq<Group>, hostid: int, own: string, eq: string, n: nat)
    decreases n
  {
    n > 0 && eq != own &&
    var k := Lookup(gs, hostid, eq, 0);
    k < |gs| && (gs[k].IsAlias() ==> Good(gs, hostid, own, gs[k].Target(), n - 1))
  }

  predicate GoodAlias(gs: seq<Group>, hostid: int, k: nat)
    requires k < |gs| && gs[k].IsAlias()
  {
    Good(gs, hostid, gs[k].name, gs[k].Target(), EQ_LOOP)
  }

  ghost predicate AllGood(gs: seq<Group>, hostid: int) {
    forall k :: 0 <= k < |gs| && Candidate(gs[k], hostid) ==> GoodAlias(gs, hostid, k)
  }

  ghost predicate NameSorted(gs: seq<Group>) {
    forall i, j :: 0 <= i < j < |gs| ==> Strcmp(gs[i].name, gs[j].name) <= 0
  }

  // What is left of the chain is good exactly when the whole of it is.
  ghost predicate Faithful(gs: seq<Group>, hostid: int, a: Alias, n: nat) {
    a.g < |gs| && Candidate(gs[a.g], hostid) && n <= EQ_LOOP + 1
    && if a.skip then GoodAlias(gs, hostid, a.g)
       else GoodAlias(gs, hostid, a.g) <==> Good(gs, hostid, gs[a.g].name, a.eq, EQ_LOOP + 1 - n)
  }

  ghost predicate AllFaithful(gs: seq<Group>, hostid: int, eqs: seq<Alias>, j: nat, n: nat) {
    forall x :: 0 <= x < |eqs| ==> Faithful(gs, hostid, eqs[x], if x < j then n + 1 else n)
  }

  // The records from the j'th on: names ascending, none skipped.
  ghost predicate Ascending(eqs: seq<Alias>, j: nat) {
    (forall x :: j <= x < |eqs| ==> !eqs[x].skip)
    && forall x, y :: j <= x < y < |eqs| ==> Strcmp(eqs[x].eq, eqs[y].eq) <= 0
  }

  // All lines that were passed over come before the name at hand.
  ghost predicate Passed(p: Pass, hostid: int)
    requires p.Valid()
  {
    p.j < |p.eqs| ==>
      forall k :: 0 <= k < p.i && Clean(p.gs[k], hostid) ==> Strcmp(p.gs[k].name, p.eqs[p.j].eq) < 0
  }

  ghost predicate NewError(gs: seq<Group>, gs1: seq<Group>) {
    |gs| == |gs1| && exists k :: 0 <= k < |gs| && !IsError(gs[k].ignore) && IsError(gs1[k].ignore)
  }

  // Nothing marked so far, and every record faithful.
  ghost predicate Exact(p: Pass, hostid: int, n: nat) {
    p.Valid() && AllFaithful(p.gs, hostid, p.eqs, p.j, n)
    && Ascending(p.eqs, p.j) && Passed(p, hostid)
  }

  lemma LookupPassed(p: Pass, hostid: int)
    requires p.Valid() && p.j < |p.eqs| && Passed(p, hostid) && NameSorted(p.gs)
    ensures var eq := p.eqs[p.j].eq; var k := Lookup(p.gs, hostid, eq, 0);
      && (p.i < |p.gs| && Clean(p.gs[p.i], hostid) && p.gs[p.i].name == eq ==> k == p.i)
      && (p.i < |p.gs| && Clean(p.gs[p.i], hostid) && Strcmp(p.gs[p.i].name, eq) > 0 ==> k == |p.gs|)
      && (p.i == |p.gs| ==> k == |p.gs|)
  {
    var eq := p.eqs[p.j].eq;
    var k := Lookup(p.gs, hostid, eq, 0);
    StrcmpZero(eq, eq);
    if p.i < k < |p.gs| {
      assert Strcmp(p.gs[p.i].name, p.gs[k].name) <= 0;
    }
  }

  lemma PassedNext(p: Pass, hostid: int, gs: seq<Group>, eqs: seq<Alias>)
    requires p.Valid() && p.j < |p.eqs| && Passed(p, hostid) && Ascending(p.eqs, p.j)
    requires Points(p.gs, eqs) && |eqs| == |p.eqs| && forall x :: p.j < x < |eqs| ==> eqs[x] == p.eqs[x]
    ensures Passed(Pass(p.gs, eqs, p.i, p.j + 1), hostid)
    ensures Ascending(eqs, p.j + 1)
  {
    hide Clean;
    if p.j + 1 < |eqs| {
      forall k | 0 <= k < p.i && Clean(p.gs[k], hostid)
        ensures Strcmp(p.gs[k].name, eqs[p.j + 1].eq) < 0
      {
        StrcmpTrans(p.gs[k].name, p.eqs[p.j].eq, eqs[p.j + 1].eq);
      }
    }
  }

  lemma RejectExact(p: Pass, hostid: int, n: nat, reason: Reason)
    requires Exact(p, hostid, n) && p.j < |p.eqs| && reason in {NonEq, EqLoop}
    requires var a := p.eqs[p.j]; !Good(p.gs, hostid, p.gs[a.g].name, a.eq, EQ_LOOP + 1 - n)
    requires n <= EQ_LOOP
    ensures NewError(p.gs, p.Reject(reason).gs) && !AllGood(p.gs, hostid)
  {
    var a := p.eqs[p.j];
    assert Faithful(p.gs, hostid, a, n);
    hide Good;
    var g := p.Reject(reason).gs[a.g];
    assert reason in g.ignore;
    assert !IsError(p.gs[a.g].ignore) && IsError(g.ignore);
  }

  // A line that does not concern the record at hand is passed over.
  lemma LineExact(p: Pass, hostid: int, n: nat)
    requires Exact(p, hostid, n) && p.j < |p.eqs| && p.i < |p.gs|
    requires Clean(p.gs[p.i], hostid) ==> Strcmp(p.gs[p.i].name, p.eqs[p.j].eq) < 0
    ensures Exact(p.(i := p.i + 1), hostid, n)
  {
    hide AllFaithful, Ascending, Clean, Strcmp;
  }

  // A line with the name that the record at hand has come to.
  lemma MatchExact(p: Pass, hostid: int, n: nat, b: Alias)
    requires NameSorted(p.gs) && Exact(p, hostid, n) && p.j < |p.eqs| && p.i < |p.gs| && n <= EQ_LOOP
    requires var a, g := p.eqs[p.j], p.gs[p.i];
      && Clean(g, hostid) && g.name == a.eq && g.name != p.gs[a.g].name
      && b == if g.IsAlias() then a.(eq := g.Target()) else a.(skip := true)
    ensures Exact(p.(eqs := p.eqs[p.j := b], j := p.j + 1), hostid, n)
  {
    var eqs := p.eqs[p.j := b];
    LookupPassed(p, hostid);
    assert Faithful(p.gs, hostid, p.eqs[p.j], n);
    assert Faithful(p.gs, hostid, b, n + 1) by {
      hide Lookup, Strcmp, AllFaithful, Passed, Ascending;
    }
    hide Faithful, Strcmp, Good, Lookup, NameSorted;
    assert p.eqs[p.j] in p.eqs;
    assert Points(p.gs, eqs) by {
      forall c | c in eqs
        ensures c.g < |p.gs|
      {
        assert c == b || c in p.eqs;
      }
    }
    assert AllFaithful(p.gs, hostid, eqs, p.j + 1, n);
    hide AllFaithful;
    PassedNext(p, hostid, p.gs, eqs);
  }

  lemma TurnExact(p: Pass, hostid: int, n: nat)
    requires NameSorted(p.gs) && Exact(p, hostid, n) && p.j < |p.eqs| && n <= EQ_LOOP
    ensures var r := Turn(p, hostid);
      (r.gs == p.gs && Exact(r, hostid, n)) || (NewError(p.gs, r.gs) && !AllGood(p.gs, hostid))
  {
    var gs, a, r := p.gs, p.eqs[p.j], Turn(p, hostid);
    assert Faithful(gs, hostid, a, n) && !a.skip;
    LookupPassed(p, hostid);
    if p.i < |gs| {
      StrcmpZero(gs[p.i].name, a.eq);
    }
    var bad := p.i == |gs| || (Clean(gs[p.i], hostid)
      && (if gs[p.i].name == a.eq then gs[p.i].name == gs[a.g].name else Strcmp(gs[p.i].name, a.eq) > 0));
    if bad {
      assert !Good(gs, hostid, gs[a.g].name, a.eq, EQ_LOOP + 1 - n);
      hide Exact, NewError, AllGood, Good, Lookup, NameSorted;
      RejectExact(p, hostid, n, if p.i < |gs| && gs[p.i].name == a.eq then EqLoop else NonEq);
    } else if Clean(gs[p.i], hostid) && gs[p.i].name == a.eq {
      hide Exact, NewError, AllGood, Good, Lookup, NameSorted;
      MatchExact(p, hostid, n, r.eqs[p.j]);
    } else {
      hide Exact, NewError, AllGood, Good, Lookup, NameSorted;
      LineExact(p, hostid, n);
    }
  }

  lemma {:induction false} ScanExact(p: Pass, hostid: int, n: nat)
    requires NameSorted(p.gs) && Exact(p, hostid, n) && n <= EQ_LOOP
    ensures var r := Scan(p, hostid);
      (r.gs == p.gs && AllFaithful(r.gs, hostid, r.eqs, r.j, n)) || (NewError(p.gs, r.gs) && !AllGood(p.gs, hostid))
    decreases |p.gs| - p.i + |p.eqs| - p.j
  {
    if p.j < |p.eqs| {
      TurnExact(p, hostid, n);
      var t := Turn(p, hostid);
      if t.gs == p.gs {
        ScanExact(t, hostid, n);
      } else {
        ScanGrows(t, hostid);
        ErrorsStay(t.gs, Scan(t, hostid).gs);
      }
    }
  }

  // Every candidate is good or still followed.
  ghost predicate Kept(gs: seq<Group>, hostid: int, eqs: seq<Alias>) {
    forall k :: 0 <= k < |gs| && Candidate(gs[k], hostid) ==>
      GoodAlias(gs, hostid, k) || exists a :: a in eqs && a.g == k && !a.skip
  }

  lemma PendingExact(gs: seq<Group>, hostid: int, eqs: seq<Alias>, n: nat)
    requires Points(gs, eqs) && AllFaithful(gs, hostid, eqs, 0, n) && Kept(gs, hostid, eqs)
    ensures var r := Pending(gs, eqs);
      AllFaithful(gs, hostid, r, 0, n) && Kept(gs, hostid, r) && Ascending(r, 0)
  {
    hide Good, GoodAlias, Pending, Candidate, Strcmp;
    PendingIs(gs, eqs);
    var r := Pending(gs, eqs);
    forall x | 0 <= x < |r|
      ensures Faithful(gs, hostid, r[x], n) && !r[x].skip
    {
      assert r[x] in eqs;
      var y :| 0 <= y < |eqs| && eqs[y] == r[x];
      assert Faithful(gs, hostid, eqs[y], n);
    }
  }

  lemma PassExact(gs: seq<Group>, hostid: int, eqs: seq<Alias>, n: nat)
    requires NameSorted(gs) && Points(gs, eqs) && n <= EQ_LOOP
    requires AllFaithful(gs, hostid, eqs, 0, n) && Kept(gs, hostid, eqs) && Ascending(eqs, 0)
    ensures var r := Scan(Pass(gs, eqs, 0, 0), hostid);
      || (r.gs == gs && AllFaithful(gs, hostid, r.eqs, 0, n + 1) && Kept(gs, hostid, r.eqs))
      || (NewError(gs, r.gs) && !AllGood(gs, hostid))
  {
    hide Good, GoodAlias, Clean, Strcmp, Scan;
    var p := Pass(gs, eqs, 0, 0);
    ScanExact(p, hostid, n);
    var r := Scan(p, hostid);
    if r.gs == gs {
      forall x | 0 <= x < |r.eqs|
        ensures Faithful(gs, hostid, r.eqs[x], n + 1)
      {
        assert x < r.j;
      }
      forall k | 0 <= k < |gs| && Candidate(gs[k], hostid) && !GoodAlias(gs, hostid, k)
        ensures exists a :: a in r.eqs && a.g == k && !a.skip
      {
        var a :| a in eqs && a.g == k && !a.skip;
        var x :| 0 <= x < |eqs| && eqs[x] == a;
        assert Faithful(gs, hostid, r.eqs[x], n + 1);
        assert r.eqs[x] in r.eqs;
      }
    }
  }

  lemma {:induction false} StepsGrow(gs: seq<Group>, hostid: int, eqs: seq<Alias>, step: nat)
    requires Points(gs, eqs) && step <= EQ_LOOP
    ensures Grows(gs, Steps(gs, hostid, eqs, step).gs)
    decreases EQ_LOOP - step
  {
    hide Scan, Pending;
    if step < EQ_LOOP {
      var p := Pass(gs, Pending(gs, eqs), 0, 0);
      ScanGrows(p, hostid);
      StepsGrow(Scan(p, hostid).gs, hostid, Scan(p, hostid).eqs, step + 1);
    }
  }

  lemma {:induction false} StepsExact(gs: seq<Group>, hostid: int, eqs: seq<Alias>, step: nat)
    requires NameSorted(gs) && Points(gs, eqs) && step <= EQ_LOOP
    requires AllFaithful(gs, hostid, eqs, 0, step + 1) && Kept(gs, hostid, eqs)
    ensures var r := Steps(gs, hostid, eqs, step);
      || (r.gs == gs && AllFaithful(gs, hostid, r.eqs, 0, EQ_LOOP + 1) && Kept(gs, hostid, r.eqs))
      || (NewError(gs, r.gs) && !AllGood(gs, hostid))
    decreases EQ_LOOP - step
  {
    hide NameSorted, AllFaithful, Kept, Ascending, AllGood, Scan, Pending;
    if step < EQ_LOOP {
      PendingExact(gs, hostid, eqs, step + 1);
      PassExact(gs, hostid, Pending(gs, eqs), step + 1);
      var pass := Scan(Pass(gs, Pending(gs, eqs), 0, 0), hostid);
      if pass.gs == gs {
        StepsExact(pass.gs, hostid, pass.eqs, step + 1);
      } else {
        StepsGrow(pass.gs, hostid, pass.eqs, step + 1);
        ErrorsStay(pass.gs, Steps(pass.gs, hostid, pass.eqs, step + 1).gs);
      }
    }
  }

  lemma {:induction false} CollectedExact(gs: seq<Group>, hostid: int, n: nat)
    requires n <= |gs|
    ensures AllFaithful(gs, hostid, Collect(gs, hostid, n), 0, 1)
  {
    hide Good;
    if n > 0 {
      CollectedExact(gs, hostid, n - 1);
      var before, after := Collect(gs, hostid, n - 1), Collect(gs, hostid, n);
      forall x | 0 <= x < |after|
        ensures Faithful(gs, hostid, after[x], 1)
      {
        assert x < |before| ==> Faithful(gs, hostid, before[x], 1);
      }
    }
  }

  lemma CollectedKept(gs: seq<Group>, hostid: int)
    ensures Kept(gs, hostid, Collect(gs, hostid, |gs|))
  {
    hide GoodAlias, Candidate, Collect;
    Collected(gs, hostid, |gs|);
  }

  lemma NoLinksLeft(gs: seq<Group>, hostid: int, a: Alias)
    requires Faithful(gs, hostid, a, EQ_LOOP + 1) && !a.skip
    ensures !IsError(gs[a.g].ignore) && !AllGood(gs, hostid)
  {
  }

  // After the last pass: what is left is given up, and nothing is left when all are good.
  lemma GiveUpExact(gs: seq<Group>, hostid: int, eqs: seq<Alias>)
    requires Points(gs, eqs) && AllFaithful(gs, hostid, eqs, 0, EQ_LOOP + 1) && Kept(gs, hostid, eqs)
    requires Ascending(eqs, 0)
    ensures GiveUp(gs, eqs, |eqs|) == gs <==> AllGood(gs, hostid)
  {
    if eqs == [] {
      hide GoodAlias, Candidate;
    } else {
      var a := eqs[0];
      assert Faithful(gs, hostid, a, EQ_LOOP + 1) && !a.skip;
      hide Faithful, AllFaithful, Kept, Ascending, AllGood, GiveUp, IsError;
      NoLinksLeft(gs, hostid, a);
      GiveUpGrows(gs, eqs, |eqs|);
    }
  }

  lemma NewErrorStays(gs: seq<Group>, gs1: seq<Group>, gs2: seq<Group>)
    requires NewError(gs, gs1) && Grows(gs1, gs2)
    ensures gs2 != gs
  {
    ErrorsStay(gs1, gs2);
    hide IsError;
  }

  // On a sorted array nothing is marked exactly when every "=" group is good.
  lemma MarksNothing(gs: seq<Group>, hostid: int)
    requires hostid != NOHOST && NameSorted(gs)
    ensures MarkProblems(gs, hostid) == gs <==> AllGood(gs, hostid)
  {
    var eqs := Collect(gs, hostid, |gs|);
    CollectedExact(gs, hostid, |gs|);
    CollectedKept(gs, hostid);
    hide Collect, NameSorted, Steps, Pending, GiveUp, AllFaithful, Kept, Ascending, NewError, Grows, AllGood;
    StepsExact(gs, hostid, eqs, 0);
    var end := Steps(gs, hostid, eqs, 0);
    var pending := Pending(end.gs, end.eqs);
    if end.gs == gs && AllFaithful(gs, hostid, end.eqs, 0, EQ_LOOP + 1) && Kept(gs, hostid, end.eqs) {
      PendingExact(gs, hostid, end.eqs, EQ_LOOP + 1);
      GiveUpExact(gs, hostid, pending);
    } else {
      GiveUpGrows(end.gs, pending, |pending|);
      NewErrorStays(gs, end.gs, GiveUp(end.gs, pending, |pending|));
    }
  }

  lemma {:induction false} GiveUpGrows(gs: seq<Group>, eqs: seq<Alias>, n: nat)
    requires Points(gs, eqs) && n <= |eqs|
    ensures Grows(gs, GiveUp(gs, eqs, n))
    ensures forall x :: 0 <= x < n ==> IsError(GiveUp(gs, eqs, n)[eqs[x].g].ignore)
  {
    if n > 0 {
      GiveUpGrows(gs, eqs, n - 1);
      var g := GiveUp(gs, eqs, n)[eqs[n - 1].g];
      assert LongLoop in g.ignore;
    }
  }

  lemma {:induction false} ErrorsSame(gs: seq<Group>, r: seq<Group>)
    requires |r| == |gs|
    requires forall k :: 0 <= k < |gs| ==> r[k] == gs[k] || (!IsError(gs[k].ignore) && IsError(r[k].ignore))
    ensures Errors(r) >= Errors(gs)
    ensures Errors(r) == Errors(gs) ==> r == gs
  {
    hide IsError;
    if gs != [] {
      var n := |gs| - 1;
      ErrorsSame(gs[..n], r[..n]);
      assert gs == gs[..n] + [gs[n]] && r == r[..n] + [r[n]];
    }
  }

  // No new errors exactly when every "=" group is good.
  lemma NoProblems(gs: seq<Group>, hostid: int)
    requires hostid != NOHOST && NameSorted(gs)
    ensures Errors(MarkProblems(gs, hostid)) == Errors(gs) <==> AllGood(gs, hostid)
  {
    MarksNothing(gs, hostid);
    Soundness(gs, hostid);
    hide IsError, MarkProblems, Just, AllGood;
    ErrorsSame(gs, MarkProblems(gs, hostid));
  }

  function Line(linenum: int, name: string, kind: string): Group {
    Group({}, HOSTID1, linenum, false, false, name, "", "", kind, "", "", "")
  }

  // What the first pass marks stays marked.
  lemma FirstPassStays(gs: seq<Group>, hostid: int)
    requires hostid != NOHOST
    ensures Grows(Scan(Pass(gs, Pending(gs, Collect(gs, hostid, |gs|)), 0, 0), hostid).gs, MarkProblems(gs, hostid))
  {
    hide Collect, Scan, Pending;
    var eqs := Collect(gs, hostid, |gs|);
    var pass := Scan(Pass(gs, Pending(gs, eqs), 0, 0), hostid);
    StepsGrow(pass.gs, hostid, pass.eqs, 1);
    var end := Steps(gs, hostid, eqs, 0);
    var pending := Pending(end.gs, end.eqs);
    GiveUpGrows(end.gs, pending, |pending|);
  }

  function Three(): seq<Group> { [Line(1, "b", "y"), Line(2, "c", "=a"), Line(3, "d", "=b")] }

  function Two(): seq<Alias> { [Alias(false, 1, "a"), Alias(false, 2, "b")] }

  lemma TwoLive()
    ensures Live(Two()) == 2
  {
    var eqs := Two();
    assert eqs[..1] == [eqs[0]] && [eqs[0]][..0] == [];
    assert Live(eqs[..1]) == 1;
  }

  lemma PairSorted(gs: seq<Group>, a: Alias, b: Alias)
    requires a.g < |gs| && b.g < |gs| && CompareKeys(AliasKey(gs, a), AliasKey(gs, b)) <= 0
    ensures SortAliases(gs, [a, b]) == [a, b]
  {
    hide CompareKeys, AliasKey, Sort;
    var key := (c: Alias) requires c.g < |gs| => AliasKey(gs, c);
    assert Ordered(key, [a, b]);
    SortKeeps(key, [a, b]);
  }

  lemma TwoSorted()
    ensures Points(Three(), Two()) && SortAliases(Three(), Two()) == Two()
  {
    hide SortAliases;
    assert Strcmp("a", "b") < 0;
    PairSorted(Three(), Two()[0], Two()[1]);
  }

  lemma TwoPending()
    ensures Points(Three(), Two()) && Pending(Three(), Two()) == Two()
  {
    TwoSorted();
    TwoLive();
    hide Live, SortAliases;
    assert Two()[..2] == Two();
  }

  lemma TwoCollected()
    ensures Collect(Three(), HOSTID1, 3) == Two()
  {
    var gs := Three();
    assert Collect(gs, HOSTID1, 1) == [];
    assert Collect(gs, HOSTID1, 2) == [Alias(false, 1, "a")];
  }

  // The name of the first record is passed over at once, and its line with it,
  lemma FirstMissed() returns (p: Pass)
    ensures |Three()| == 3 && Points(Three(), Two())
    ensures p.Valid() && p == Pass(Three(), Two(), 0, 0).Reject(NonEq).(i := 1)
    ensures Scan(Pass(Three(), Two(), 0, 0), HOSTID1) == Scan(p, HOSTID1)
  {
    var p0 := Pass(Three(), Two(), 0, 0);
    assert Strcmp("b", "a") > 0;
    p := Turn(p0, HOSTID1);
    assert p == p0.Reject(NonEq).(i := 1);
    hide Turn;
  }

  // which the second record needs.
  lemma TwoScanned()
    ensures |Three()| == 3 && Points(Three(), Two()) && NonEq in Scan(Pass(Three(), Two(), 0, 0), HOSTID1).gs[2].ignore
  {
    var p1 := FirstMissed();
    assert Strcmp("d", "b") > 0 && NonEq in p1.gs[1].ignore;
    var p2 := Turn(p1, HOSTID1);
    assert p2 == p1.(i := 2);
    var p3 := Turn(p2, HOSTID1);
    assert p3 == p2.Reject(NonEq).(i := 3);
    assert NonEq in p3.gs[2].ignore;
    hide Turn;
    assert Scan(p1, HOSTID1) == Scan(p2, HOSTID1) == Scan(p3, HOSTID1);
    ScanGrows(p3, HOSTID1);
  }

  lemma ThreeGood()
    ensures NameSorted(Three()) && Candidate(Three()[2], HOSTID1) && GoodAlias(Three(), HOSTID1, 2)
  {
    var gs := Three();
    assert Clean(gs[0], HOSTID1) && !gs[0].IsAlias();
    assert Lookup(gs, HOSTID1, "b", 0) == 0;
    assert gs[2].Target() == "b" != gs[2].name;
    assert Strcmp("b", "c") < 0 && Strcmp("c", "d") < 0 && Strcmp("b", "d") < 0;
  }

  lemma ThreeMarked()
    ensures |Three()| == 3 && NonEq in MarkProblems(Three(), HOSTID1)[2].ignore
  {
    hide Scan, Collect, Pending, MarkProblems, Three, Two;
    TwoCollected();
    TwoPending();
    TwoScanned();
    FirstPassStays(Three(), HOSTID1);
  }

  // A missed name takes the line at hand with it: "d" stands for "b", which is there,
  // and is marked as standing for nothing.
  lemma MarksTooMuch()
    ensures NameSorted(Three()) && Candidate(Three()[2], HOSTID1) && GoodAlias(Three(), HOSTID1, 2)
    ensures NonEq in MarkProblems(Three(), HOSTID1)[2].ignore
  {
    hide MarkProblems;
    ThreeMarked();
    ThreeGood();
  }
}
