// What the marks of mark_eq_probs (backends/actsync.c) mean: a "=" group that is left
// alone leads to a real group, and nothing is marked exactly when all of them do.
module AliasChains {
  import opened ActiveFile
  import opened AliasSpec

  // A chain of links: aliases of one host, free of errors, each named by the one
  // before it, none of them coming back to the name of the first.
  ghost predicate Trail(gs: seq<Group>, hostid: int, path: seq<nat>) {
    |path| > 0
    && (forall k :: 0 <= k < |path| ==> path[k] < |gs| && Candidate(gs[path[k]], hostid))
    && (forall k :: 0 < k < |path| ==>
          gs[path[k]].name == gs[path[k - 1]].Target() && gs[path[k]].name != gs[path[0]].name)
  }

  // After n links from g the name is eq.
  ghost predicate Leads(gs: seq<Group>, hostid: int, g: nat, eq: string, n: nat) {
    exists path :: Trail(gs, hostid, path) && |path| == n && path[0] == g && gs[path[n - 1]].Target() == eq
  }

  // At most EQ_LOOP links from g is a group of the host, free of errors, no alias.
  ghost predicate Resolves(gs: seq<Group>, hostid: int, g: nat) {
    exists path, m: nat :: Ends(gs, hostid, path, m) && path[0] == g && |path| <= EQ_LOOP
  }

  ghost predicate Ends(gs: seq<Group>, hostid: int, path: seq<nat>, m: nat) {
    Trail(gs, hostid, path)
    && m < |gs| && Clean(gs[m], hostid) && !gs[m].IsAlias()
    && gs[m].name == gs[path[|path| - 1]].Target()
  }

  lemma LeadsFurther(gs: seq<Group>, hostid: int, g: nat, eq: string, n: nat, m: nat)
    requires Leads(gs, hostid, g, eq, n)
    requires m < |gs| && Candidate(gs[m], hostid) && gs[m].name == eq && gs[m].name != gs[g].name
    ensures Leads(gs, hostid, g, gs[m].Target(), n + 1)
  {
    var path :| Trail(gs, hostid, path) && |path| == n && path[0] == g && gs[path[n - 1]].Target() == eq;
    assert Trail(gs, hostid, path + [m]);
    assert (path + [m])[0] == g && (path + [m])[n] == m;
  }

  lemma LeadsTo(gs: seq<Group>, hostid: int, g: nat, eq: string, n: nat, m: nat)
    requires Leads(gs, hostid, g, eq, n) && n <= EQ_LOOP
    requires m < |gs| && Clean(gs[m], hostid) && !gs[m].IsAlias() && gs[m].name == eq
    ensures Resolves(gs, hostid, g)
  {
    var path :| Trail(gs, hostid, path) && |path| == n && path[0] == g && gs[path[n - 1]].Target() == eq;
    assert Ends(gs, hostid, path, m);
  }

  lemma LeadsOne(gs: seq<Group>, hostid: int, g: nat)
    requires g < |gs| && Candidate(gs[g], hostid)
    ensures Leads(gs, hostid, g, gs[g].Target(), 1)
  {
    assert Trail(gs, hostid, [g]) && [g][0] == g;
  }

  ghost predicate ComesBack(gs: seq<Group>, hostid: int, g: nat)
    requires g < |gs|
  {
    exists n: nat :: n <= EQ_LOOP && Leads(gs, hostid, g, gs[g].name, n)
  }

  ghost predicate GoesOn(gs: seq<Group>, hostid: int, g: nat) {
    exists n, eq :: n == EQ_LOOP + 1 && Leads(gs, hostid, g, eq, n)
  }

  // A mark that names a loop or a long chain is never wrong.
  ghost predicate Just(gs0: seq<Group>, g: Group, hostid: int, k: nat)
    requires k < |gs0|
  {
    (EqLoop in g.ignore ==> ComesBack(gs0, hostid, k))
    && (LongLoop in g.ignore ==> GoesOn(gs0, hostid, k))
  }

  // The marks made since gs0: only on candidates, only errors.
  ghost predicate Marks(gs0: seq<Group>, gs: seq<Group>, hostid: int) {
    |gs| == |gs0|
    && forall k :: 0 <= k < |gs| ==>
      && gs[k] == gs0[k].(ignore := gs[k].ignore)
      && gs0[k].ignore <= gs[k].ignore
      && (gs[k] == gs0[k] || (Candidate(gs0[k], hostid) && IsError(gs[k].ignore) && Just(gs0, gs[k], hostid, k)))
  }

  ghost predicate Settled(gs0: seq<Group>, gs: seq<Group>, hostid: int, k: nat)
    requires k < |gs|
  {
    IsError(gs[k].ignore) || Resolves(gs0, hostid, k)
  }

  // Where a record stands after n links.
  ghost predicate Follows(gs0: seq<Group>, gs: seq<Group>, hostid: int, a: Alias, n: nat)
    requires |gs| == |gs0|
  {
    a.g < |gs| && Candidate(gs0[a.g], hostid)
    && if a.skip then Settled(gs0, gs, hostid, a.g) else Leads(gs0, hostid, a.g, a.eq, n)
  }

  ghost predicate AllFollow(gs0: seq<Group>, gs: seq<Group>, hostid: int, eqs: seq<Alias>, j: nat, n: nat)
    requires |gs| == |gs0|
  {
    forall x :: 0 <= x < |eqs| ==> Follows(gs0, gs, hostid, eqs[x], if x < j then n + 1 else n)
  }

  lemma MarkOne(gs0: seq<Group>, gs: seq<Group>, hostid: int, k: nat, reason: Reason)
    requires Marks(gs0, gs, hostid) && k < |gs| && Candidate(gs0[k], hostid)
    requires reason !in {CheckIgnore, CheckType, CheckBork, CheckHier}
    requires reason == EqLoop ==> ComesBack(gs0, hostid, k)
    requires reason == LongLoop ==> GoesOn(gs0, hostid, k)
    ensures Marks(gs0, gs[k := gs[k].Marked(reason)], hostid)
    ensures IsError(gs[k].Marked(reason).ignore)
  {
    hide ComesBack, GoesOn;
    assert reason in gs[k].Marked(reason).ignore;
    if gs[k] == gs0[k] {
      assert EqLoop !in gs[k].ignore && LongLoop !in gs[k].ignore;
    }
  }

  lemma CleanBefore(gs0: seq<Group>, gs: seq<Group>, hostid: int, k: nat)
    requires Marks(gs0, gs, hostid) && k < |gs|
    ensures gs[k].name == gs0[k].name
    ensures Clean(gs[k], hostid) ==> gs[k] == gs0[k]
  {
  }

  // A record is brought to where n + 1 links lead, with or without a mark.
  lemma Advance(gs0: seq<Group>, gs: seq<Group>, gs1: seq<Group>, hostid: int, eqs: seq<Alias>, j: nat, n: nat,
                b: Alias)
    requires |gs| == |gs1| == |gs0| && j < |eqs| && AllFollow(gs0, gs, hostid, eqs, j, n)
    requires forall k :: 0 <= k < |gs| && IsError(gs[k].ignore) ==> IsError(gs1[k].ignore)
    requires Follows(gs0, gs1, hostid, b, n + 1)
    ensures AllFollow(gs0, gs1, hostid, eqs[j := b], j + 1, n)
  {
    hide Leads, Resolves, IsError;
    var eqs1 := eqs[j := b];
    forall x | 0 <= x < |eqs1|
      ensures Follows(gs0, gs1, hostid, eqs1[x], if x < j + 1 then n + 1 else n)
    {
      assert x != j ==> Follows(gs0, gs, hostid, eqs[x], if x < j then n + 1 else n);
    }
  }

  lemma AdvanceMarked(gs0: seq<Group>, p: Pass, hostid: int, n: nat, reason: Reason)
    requires p.Valid() && |p.gs| == |gs0| && Marks(gs0, p.gs, hostid)
    requires p.j < |p.eqs| && AllFollow(gs0, p.gs, hostid, p.eqs, p.j, n)
    requires Candidate(gs0[p.eqs[p.j].g], hostid)
    requires reason in {NonEq, EqLoop}
    requires reason == EqLoop ==> ComesBack(gs0, hostid, p.eqs[p.j].g)
    ensures var r := p.Reject(reason);
      Marks(gs0, r.gs, hostid) && AllFollow(gs0, r.gs, hostid, r.eqs, r.j, n)
  {
    hide Leads, Resolves, ComesBack, AllFollow, Marks;
    var a := p.eqs[p.j];
    MarkOne(gs0, p.gs, hostid, a.g, reason);
    Advance(gs0, p.gs, p.Reject(reason).gs, hostid, p.eqs, p.j, n, a.(skip := true));
  }

  lemma Back(gs: seq<Group>, hostid: int, g: nat, eq: string, n: nat)
    requires g < |gs| && n <= EQ_LOOP && Leads(gs, hostid, g, eq, n) && eq == gs[g].name
    ensures ComesBack(gs, hostid, g)
  {
  }

  lemma TurnFollows(gs0: seq<Group>, p: Pass, hostid: int, n: nat)
    requires p.Valid() && |p.gs| == |gs0| && Marks(gs0, p.gs, hostid)
    requires n <= EQ_LOOP && p.j < |p.eqs| && !p.eqs[p.j].skip
    requires AllFollow(gs0, p.gs, hostid, p.eqs, p.j, n)
    ensures var r := Turn(p, hostid);
      Marks(gs0, r.gs, hostid) && AllFollow(gs0, r.gs, hostid, r.eqs, r.j, n)
  {
    var gs, a := p.gs, p.eqs[p.j];
    assert Follows(gs0, gs, hostid, a, n);
    hide Leads, Resolves, IsError, Strcmp, ComesBack, AllFollow;
    if p.i == |gs| {
      AdvanceMarked(gs0, p, hostid, n, NonEq);
    } else if Clean(gs[p.i], hostid) {
      CleanBefore(gs0, gs, hostid, p.i);
      CleanBefore(gs0, gs, hostid, a.g);
      if gs[p.i].name == a.eq {
        if gs[p.i].name == gs[a.g].name {
          Back(gs0, hostid, a.g, a.eq, n);
          AdvanceMarked(gs0, p, hostid, n, EqLoop);
        } else if !gs[p.i].IsAlias() {
          LeadsTo(gs0, hostid, a.g, a.eq, n, p.i);
          Advance(gs0, gs, gs, hostid, p.eqs, p.j, n, a.(skip := true));
        } else {
          LeadsFurther(gs0, hostid, a.g, a.eq, n, p.i);
          Advance(gs0, gs, gs, hostid, p.eqs, p.j, n, a.(eq := gs[p.i].Target()));
        }
      } else if Strcmp(gs[p.i].name, a.eq) > 0 {
        AdvanceMarked(gs0, p, hostid, n, NonEq);
      }
    }
  }

  lemma {:induction false} ScanFollows(gs0: seq<Group>, p: Pass, hostid: int, n: nat)
    requires p.Valid() && |p.gs| == |gs0| && Marks(gs0, p.gs, hostid)
    requires n <= EQ_LOOP && AllFollow(gs0, p.gs, hostid, p.eqs, p.j, n)
    requires forall x :: p.j <= x < |p.eqs| ==> !p.eqs[x].skip
    ensures var r := Scan(p, hostid);
      Marks(gs0, r.gs, hostid) && AllFollow(gs0, r.gs, hostid, r.eqs, r.j, n)
    decreases |p.gs| - p.i + |p.eqs| - p.j
  {
    hide AllFollow, Marks;
    if p.j < |p.eqs| {
      TurnFollows(gs0, p, hostid, n);
      ScanFollows(gs0, Turn(p, hostid), hostid, n);
    }
  }

  // Every candidate is settled or still followed.
  ghost predicate Covered(gs0: seq<Group>, gs: seq<Group>, hostid: int, eqs: seq<Alias>)
    requires |gs| == |gs0|
  {
    forall k :: 0 <= k < |gs| && Candidate(gs0[k], hostid) ==>
      Settled(gs0, gs, hostid, k) || exists a :: a in eqs && a.g == k && !a.skip
  }

  lemma PendingFollows(gs0: seq<Group>, gs: seq<Group>, hostid: int, eqs: seq<Alias>, n: nat)
    requires |gs| == |gs0| && Points(gs, eqs)
    requires AllFollow(gs0, gs, hostid, eqs, 0, n) && Covered(gs0, gs, hostid, eqs)
    ensures AllFollow(gs0, gs, hostid, Pending(gs, eqs), 0, n)
    ensures Covered(gs0, gs, hostid, Pending(gs, eqs))
    ensures forall a :: a in Pending(gs, eqs) ==> !a.skip
  {
    hide Leads, Settled, Pending, Candidate;
    PendingIs(gs, eqs);
    var r := Pending(gs, eqs);
    forall x | 0 <= x < |r|
      ensures Follows(gs0, gs, hostid, r[x], n)
    {
      assert r[x] in eqs;
      var y :| 0 <= y < |eqs| && eqs[y] == r[x];
      assert Follows(gs0, gs, hostid, eqs[y], n);
    }
  }

  lemma ScanCovers(gs0: seq<Group>, gs: seq<Group>, hostid: int, eqs: seq<Alias>, n: nat)
    requires |gs| == |gs0| && Points(gs, eqs) && Marks(gs0, gs, hostid) && n <= EQ_LOOP
    requires AllFollow(gs0, gs, hostid, eqs, 0, n) && Covered(gs0, gs, hostid, eqs)
    requires forall a :: a in eqs ==> !a.skip
    ensures var r := Scan(Pass(gs, eqs, 0, 0), hostid);
      Marks(gs0, r.gs, hostid) && AllFollow(gs0, r.gs, hostid, r.eqs, 0, n + 1) && Covered(gs0, r.gs, hostid, r.eqs)
  {
    var p := Pass(gs, eqs, 0, 0);
    ScanFollows(gs0, p, hostid, n);
    ScanGrows(p, hostid);
    var r := Scan(p, hostid);
    ErrorsStay(gs, r.gs);
    hide Leads, Scan, Resolves, IsError, Candidate, Marks;
    forall x | 0 <= x < |r.eqs|
      ensures Follows(gs0, r.gs, hostid, r.eqs[x], n + 1)
    {
      assert x < r.j;
    }
    forall k | 0 <= k < |gs| && Candidate(gs0[k], hostid) && !Settled(gs0, r.gs, hostid, k)
      ensures exists a :: a in r.eqs && a.g == k && !a.skip
    {
      assert !Settled(gs0, gs, hostid, k);
      var a :| a in eqs && a.g == k && !a.skip;
      var x :| 0 <= x < |eqs| && eqs[x] == a;
      assert Follows(gs0, r.gs, hostid, r.eqs[x], n + 1);
      assert r.eqs[x] in r.eqs;
    }
  }

  // Marks are never taken back.
  ghost predicate Grows(gs: seq<Group>, gs1: seq<Group>) {
    |gs| == |gs1| && forall k :: 0 <= k < |gs| ==> gs[k].ignore <= gs1[k].ignore
  }

  lemma ErrorsStay(gs: seq<Group>, gs1: seq<Group>)
    requires Grows(gs, gs1)
    ensures forall k :: 0 <= k < |gs| && IsError(gs[k].ignore) ==> IsError(gs1[k].ignore)
  {
  }

  lemma TurnGrows(p: Pass, hostid: int)
    requires p.Valid() && p.j < |p.eqs|
    ensures Grows(p.gs, Turn(p, hostid).gs)
  {
    hide IsError, Strcmp;
  }

  lemma {:induction false} ScanGrows(p: Pass, hostid: int)
    requires p.Valid()
    ensures Grows(p.gs, Scan(p, hostid).gs)
    decreases |p.gs| - p.i + |p.eqs| - p.j
  {
    hide Turn;
    if p.j < |p.eqs| {
      TurnGrows(p, hostid);
      ScanGrows(Turn(p, hostid), hostid);
    }
  }

  lemma {:induction false} StepsFollow(gs0: seq<Group>, gs: seq<Group>, hostid: int, eqs: seq<Alias>, step: nat)
    requires |gs| == |gs0| && Points(gs, eqs) && Marks(gs0, gs, hostid) && step <= EQ_LOOP
    requires AllFollow(gs0, gs, hostid, eqs, 0, step + 1) && Covered(gs0, gs, hostid, eqs)
    ensures var r := Steps(gs, hostid, eqs, step);
      && Marks(gs0, r.gs, hostid)
      && AllFollow(gs0, r.gs, hostid, r.eqs, 0, EQ_LOOP + 1)
      && Covered(gs0, r.gs, hostid, r.eqs)
    decreases EQ_LOOP - step
  {
    hide Marks, AllFollow, Covered, Scan, Pending;
    if step < EQ_LOOP {
      PendingFollows(gs0, gs, hostid, eqs, step + 1);
      var live := Pending(gs, eqs);
      ScanCovers(gs0, gs, hostid, live, step + 1);
      var pass := Scan(Pass(gs, live, 0, 0), hostid);
      StepsFollow(gs0, pass.gs, hostid, pass.eqs, step + 1);
    }
  }

  lemma {:induction false} Collected(gs: seq<Group>, hostid: int, n: nat)
    requires n <= |gs|
    ensures AllFollow(gs, gs, hostid, Collect(gs, hostid, n), 0, 1)
    ensures forall k :: 0 <= k < n && Candidate(gs[k], hostid) ==>
      exists a :: a in Collect(gs, hostid, n) && a.g == k && !a.skip
  {
    hide Leads, Settled, IsError;
    if n > 0 {
      Collected(gs, hostid, n - 1);
      var before, after := Collect(gs, hostid, n - 1), Collect(gs, hostid, n);
      if Candidate(gs[n - 1], hostid) {
        LeadsOne(gs, hostid, n - 1);
        var last := Alias(false, n - 1, gs[n - 1].Target());
        assert after == before + [last] && last in after;
        forall x | 0 <= x < |after|
          ensures Follows(gs, gs, hostid, after[x], 1)
        {
          assert x < |before| ==> Follows(gs, gs, hostid, before[x], 1);
        }
        forall k | 0 <= k < n - 1 && Candidate(gs[k], hostid)
          ensures exists a :: a in after && a.g == k && !a.skip
        {
          var a :| a in before && a.g == k && !a.skip;
          assert a in after;
        }
      }
    }
  }

  lemma {:induction false} GivenUp(gs0: seq<Group>, gs: seq<Group>, hostid: int, eqs: seq<Alias>, n: nat)
    requires |gs| == |gs0| && Points(gs, eqs) && Marks(gs0, gs, hostid) && n <= |eqs|
    requires AllFollow(gs0, gs, hostid, eqs, 0, EQ_LOOP + 1) && forall a :: a in eqs ==> !a.skip
    ensures var r := GiveUp(gs, eqs, n);
      && Marks(gs0, r, hostid)
      && (forall k :: 0 <= k < |gs| && IsError(gs[k].ignore) ==> IsError(r[k].ignore))
      && (forall x :: 0 <= x < n ==> IsError(r[eqs[x].g].ignore))
  {
    hide Leads, Marks;
    if n > 0 {
      GivenUp(gs0, gs, hostid, eqs, n - 1);
      var before, a := GiveUp(gs, eqs, n - 1), eqs[n - 1];
      assert a in eqs && Follows(gs0, gs, hostid, eqs[n - 1], EQ_LOOP + 1);
      hide Follows, AllFollow;
      assert GoesOn(gs0, hostid, a.g) by {
        assert Leads(gs0, hostid, a.g, a.eq, EQ_LOOP + 1);
      }
      MarkOne(gs0, before, hostid, a.g, LongLoop);
      hide IsError;
    }
  }

  // What is left alone leads to a real group of the host that is left alone too; what
  // is marked was a candidate, and a loop or a long chain is one. This holds of every
  // array, sorted or not, with or without repeated names.
  lemma Soundness(gs: seq<Group>, hostid: int)
    requires hostid != NOHOST
    ensures var r := MarkProblems(gs, hostid);
      && Marks(gs, r, hostid)
      && (forall k :: 0 <= k < |gs| && Candidate(r[k], hostid) ==> Resolves(gs, hostid, k))
      && (forall m :: 0 <= m < |gs| && !Candidate(gs[m], hostid) ==> r[m] == gs[m])
  {
    var n := |gs|;
    var eqs := Collect(gs, hostid, n);
    assert Marks(gs, gs, hostid);
    Collected(gs, hostid, n);
    assert Covered(gs, gs, hostid, eqs) by { hide Settled, Candidate, Collect; }
    StepsFollow(gs, gs, hostid, eqs, 0);
    var end := Steps(gs, hostid, eqs, 0);
    PendingFollows(gs, end.gs, hostid, end.eqs, EQ_LOOP + 1);
    var pending := Pending(end.gs, end.eqs);
    GivenUp(gs, end.gs, hostid, pending, |pending|);
    LeftAlone(gs, end.gs, MarkProblems(gs, hostid), hostid, pending);
  }

  lemma LeftAlone(gs0: seq<Group>, gs: seq<Group>, r: seq<Group>, hostid: int, eqs: seq<Alias>)
    requires |gs| == |gs0| == |r| && Points(gs, eqs) && Covered(gs0, gs, hostid, eqs)
    requires Marks(gs0, r, hostid)
    requires forall k :: 0 <= k < |gs| && IsError(gs[k].ignore) ==> IsError(r[k].ignore)
    requires forall x :: 0 <= x < |eqs| ==> IsError(r[eqs[x].g].ignore)
    ensures forall k :: 0 <= k < |gs| && Candidate(r[k], hostid) ==> Resolves(gs0, hostid, k)
  {
    hide Resolves, IsError;
    forall k | 0 <= k < |gs| && Candidate(r[k], hostid)
      ensures Resolves(gs0, hostid, k)
    {
      CleanBefore(gs0, r, hostid, k);
      assert Settled(gs0, gs, hostid, k);
    }
  }
}
