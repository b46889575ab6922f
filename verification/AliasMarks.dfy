// mark_eq_probs of actsync (backends/actsync.c): the loops that mark the "=" groups of
// one host in place.
module AliasMarks {
  import opened ActiveFile
  import opened AliasSpec

  ghost predicate Distinct(eqs: seq<Alias>) {
    forall x, y :: 0 <= x < y < |eqs| ==> eqs[x].g != eqs[y].g
  }

  // Records still followed belong to groups without errors.
  ghost predicate Unmarked(gs: seq<Group>, eqs: seq<Alias>)
    requires Points(gs, eqs)
  {
    forall a :: a in eqs && !a.skip ==> !IsError(gs[a.g].ignore)
  }

  lemma {:induction false} LiveUpdate(eqs: seq<Alias>, j: nat, a: Alias)
    requires j < |eqs|
    ensures Live(eqs[j := a]) == Live(eqs) - (if eqs[j].skip then 0 else 1) + (if a.skip then 0 else 1)
  {
    var n := |eqs| - 1;
    if j < n {
      LiveUpdate(eqs[..n], j, a);
      assert eqs[j := a][..n] == eqs[..n][j := a];
    } else {
      assert eqs[j := a][..n] == eqs[..n];
    }
  }

  lemma {:induction false} ErrorsUpdate(gs: seq<Group>, k: nat, g: Group)
    requires k < |gs|
    ensures Errors(gs[k := g])
      == Errors(gs) - (if IsError(gs[k].ignore) then 1 else 0) + (if IsError(g.ignore) then 1 else 0)
  {
    hide IsError;
    var n := |gs| - 1;
    if k < n {
      ErrorsUpdate(gs[..n], k, g);
      assert gs[k := g][..n] == gs[..n][k := g];
    } else {
      assert gs[k := g][..n] == gs[..n];
    }
  }

  lemma RejectCounts(p: Pass, reason: Reason)
    requires p.Valid() && p.j < |p.eqs| && !p.eqs[p.j].skip && Unmarked(p.gs, p.eqs) && Distinct(p.eqs)
    requires reason in {NonEq, EqLoop}
    ensures var r := p.Reject(reason);
      && Live(r.eqs) == Live(p.eqs) - 1
      && Errors(r.gs) == Errors(p.gs) + 1
      && Points(r.gs, r.eqs) && Unmarked(r.gs, r.eqs) && Distinct(r.eqs)
  {
    var a, r := p.eqs[p.j], p.Reject(reason);
    LiveUpdate(p.eqs, p.j, a.(skip := true));
    ErrorsUpdate(p.gs, a.g, p.gs[a.g].Marked(reason));
    assert a in p.eqs && reason in r.gs[a.g].ignore;
    hide IsError, Live, Errors;
    forall b | b in r.eqs && !b.skip
      ensures !IsError(r.gs[b.g].ignore)
    {
      var x :| 0 <= x < |r.eqs| && r.eqs[x] == b;
      assert p.eqs[x] in p.eqs;
    }
  }

  lemma FollowCounts(p: Pass, b: Alias)
    requires p.Valid() && p.j < |p.eqs| && !p.eqs[p.j].skip && Unmarked(p.gs, p.eqs) && Distinct(p.eqs)
    requires b.g == p.eqs[p.j].g
    ensures var eqs := p.eqs[p.j := b];
      && Live(eqs) == Live(p.eqs) - (if b.skip then 1 else 0)
      && Points(p.gs, eqs) && Unmarked(p.gs, eqs) && Distinct(eqs)
  {
    LiveUpdate(p.eqs, p.j, b);
    var eqs := p.eqs[p.j := b];
    hide IsError, Live;
    assert p.eqs[p.j] in p.eqs;
    forall c | c in eqs
      ensures c.g < |p.gs| && (!c.skip ==> !IsError(p.gs[c.g].ignore))
    {
      var x :| 0 <= x < |eqs| && eqs[x] == c;
      assert p.eqs[x] in p.eqs;
    }
  }

  lemma {:induction false} AllLive(eqs: seq<Alias>)
    requires forall a :: a in eqs ==> !a.skip
    ensures Live(eqs) == |eqs|
  {
    if eqs != [] {
      AllLive(eqs[..|eqs| - 1]);
      assert eqs[|eqs| - 1] in eqs;
    }
  }

  // What every turn of a pass keeps.
  ghost predicate Kept(gs: seq<Group>, eqs: seq<Alias>, left: int) {
    Points(gs, eqs) && Unmarked(gs, eqs) && Distinct(eqs) && left == Live(eqs)
  }

  // The record at j is bad: its group is marked, and it is followed no more.
  method Reject(grp: array<Group>, eqgrp: array<Alias>, count: nat, j: nat, reason: Reason, left0: int)
    returns (left: int)
    requires j < count <= eqgrp.Length && !eqgrp[j].skip && reason in {NonEq, EqLoop}
    requires Kept(grp[..], eqgrp[..count], left0)
    modifies grp, eqgrp
    ensures Kept(grp[..], eqgrp[..count], left) && left == left0 - 1
    ensures eqgrp[count..] == old(eqgrp[count..]) && eqgrp[j + 1..count] == old(eqgrp[j + 1..count])
    ensures var r := Pass(old(grp[..]), old(eqgrp[..count]), 0, j).Reject(reason);
      grp[..] == r.gs && eqgrp[..count] == r.eqs
    ensures Errors(grp[..]) == Errors(old(grp[..])) + 1
  {
    ghost var p := Pass(grp[..], eqgrp[..count], 0, j);
    RejectCounts(p, reason);
    assert eqgrp[..count][j] in eqgrp[..count];
    hide IsError, Live, Errors, Unmarked, Distinct;
    var g := eqgrp[j].g;
    grp[g] := grp[g].Marked(reason);
    assert grp[..] == p.Reject(reason).gs;
    eqgrp[j] := eqgrp[j].(skip := true);
    assert eqgrp[..count] == p.Reject(reason).eqs;
    left := left0 - 1;
  }

  // The record at j is followed, or done with.
  method Follow(grp: array<Group>, eqgrp: array<Alias>, count: nat, j: nat, b: Alias, left0: int)
    returns (left: int)
    requires j < count <= eqgrp.Length && !eqgrp[j].skip && b.g == eqgrp[j].g
    requires Kept(grp[..], eqgrp[..count], left0)
    modifies eqgrp
    ensures Kept(grp[..], eqgrp[..count], left) && left == left0 - (if b.skip then 1 else 0)
    ensures eqgrp[count..] == old(eqgrp[count..]) && eqgrp[j + 1..count] == old(eqgrp[j + 1..count])
    ensures eqgrp[..count] == old(eqgrp[..count])[j := b]
  {
    FollowCounts(Pass(grp[..], eqgrp[..count], 0, j), b);
    hide IsError, Live, Unmarked, Distinct;
    eqgrp[j] := b;
    assert eqgrp[..count] == old(eqgrp[..count])[j := b];
    left := left0;
    if b.skip {
      left := left - 1;
    }
  }

  // One pass over the first count records.
  method ScanPass(grp: array<Group>, hostid: int, eqgrp: array<Alias>, count: nat)
    returns (left: int, missing: nat, cycled: nat)
    requires count <= eqgrp.Length
    requires Kept(grp[..], eqgrp[..count], count)
    requires forall a :: a in eqgrp[..count] ==> !a.skip
    modifies grp, eqgrp
    ensures Kept(grp[..], eqgrp[..count], left)
    ensures eqgrp[count..] == old(eqgrp[count..])
    ensures var r := Scan(Pass(old(grp[..]), old(eqgrp[..count]), 0, 0), hostid);
      grp[..] == r.gs && eqgrp[..count] == r.eqs
    ensures missing + cycled == Errors(grp[..]) - Errors(old(grp[..]))
  {
    var i: int, j: int := 0, 0;
    left, missing, cycled := count, 0, 0;
    ghost var end := Scan(Pass(grp[..], eqgrp[..count], 0, 0), hostid);
    hide Errors, Kept;
    while i < grp.Length && j < count
      invariant 0 <= i <= grp.Length && 0 <= j <= count
      invariant Kept(grp[..], eqgrp[..count], left) && eqgrp[count..] == old(eqgrp[count..])
      invariant Points(grp[..], eqgrp[..count])
      invariant forall a :: a in eqgrp[j..count] ==> !a.skip
      invariant Scan(Pass(grp[..], eqgrp[..count], i, j), hostid) == end
      invariant missing + cycled == Errors(grp[..]) - Errors(old(grp[..]))
      decreases grp.Length - i + count - j
    {
      ghost var p := Pass(grp[..], eqgrp[..count], i, j);
      assert Scan(Turn(p, hostid), hostid) == end;
      i, j, left, missing, cycled := One(grp, hostid, eqgrp, count, i, j, left, missing, cycled);
      assert Pass(grp[..], eqgrp[..count], i, j) == Turn(p, hostid);
    }
    while j < count
      invariant 0 <= i <= grp.Length && 0 <= j <= count
      invariant i == grp.Length || j == count
      invariant Kept(grp[..], eqgrp[..count], left) && eqgrp[count..] == old(eqgrp[count..])
      invariant Points(grp[..], eqgrp[..count])
      invariant forall a :: a in eqgrp[j..count] ==> !a.skip
      invariant Scan(Pass(grp[..], eqgrp[..count], i, j), hostid) == end
      invariant missing + cycled == Errors(grp[..]) - Errors(old(grp[..]))
    {
      ghost var p := Pass(grp[..], eqgrp[..count], i, j);
      assert Scan(Turn(p, hostid), hostid) == end;
      assert eqgrp[j] in eqgrp[j..count];
      assert eqgrp[..count][j] == eqgrp[j];
      left := Reject(grp, eqgrp, count, j, NonEq, left);
      missing := missing + 1;
      j := j + 1;
      assert Pass(grp[..], eqgrp[..count], i, j) == Turn(p, hostid);
    }
  }

  // One turn of the scan: the line at i against the record at j.
  method One(grp: array<Group>, hostid: int, eqgrp: array<Alias>, count: nat,
             i0: nat, j0: nat, left0: int, missing0: nat, cycled0: nat)
    returns (i: int, j: int, left: int, missing: nat, cycled: nat)
    requires i0 < grp.Length && j0 < count <= eqgrp.Length
    requires Kept(grp[..], eqgrp[..count], left0) && Points(grp[..], eqgrp[..count])
    requires forall a :: a in eqgrp[j0..count] ==> !a.skip
    modifies grp, eqgrp
    ensures Kept(grp[..], eqgrp[..count], left) && Points(grp[..], eqgrp[..count])
    ensures eqgrp[count..] == old(eqgrp[count..])
    ensures 0 <= i <= grp.Length && 0 <= j <= count
    ensures forall a :: a in eqgrp[j..count] ==> !a.skip
    ensures Pass(grp[..], eqgrp[..count], i, j) == Turn(Pass(old(grp[..]), old(eqgrp[..count]), i0, j0), hostid)
    ensures missing + cycled - missing0 - cycled0 == Errors(grp[..]) - Errors(old(grp[..]))
  {
    i, j, left, missing, cycled := i0, j0, left0, missing0, cycled0;
    hide Errors, Kept, Strcmp, IsError;
    assert eqgrp[j] in eqgrp[j..count] && eqgrp[..count][j] == eqgrp[j] && eqgrp[j] in eqgrp[..count];
    var a := eqgrp[j];
    if !Clean(grp[i], hostid) {
      i := i + 1;
      return;
    }
    if a.skip {
      assert false;
    }
    StrcmpZero(grp[i].name, a.eq);
    var cmp := Strcmp(grp[i].name, a.eq);
    if cmp == 0 {
      if grp[i].name == grp[a.g].name {
        left := Reject(grp, eqgrp, count, j, EqLoop, left);
        cycled := cycled + 1;
      } else if !grp[i].IsAlias() {
        left := Follow(grp, eqgrp, count, j, a.(skip := true), left);
      } else {
        left := Follow(grp, eqgrp, count, j, a.(eq := grp[i].Target()), left);
      }
      i := i - 1;
      j := j + 1;
    } else if cmp > 0 {
      left := Reject(grp, eqgrp, count, j, NonEq, left);
      missing := missing + 1;
      j := j + 1;
    }
    i := i + 1;
  }

  lemma {:induction false} LiveSplit(s: seq<Alias>, t: seq<Alias>)
    ensures Live(s + t) == Live(s) + Live(t)
  {
    if t == [] {
      assert s + t == s;
    } else {
      LiveSplit(s, t[..|t| - 1]);
      assert (s + t)[..|s + t| - 1] == s + t[..|t| - 1];
    }
  }

  lemma InsertLive(a: Alias, rest: seq<Alias>, k: nat)
    requires k <= |rest|
    ensures Live(Insert(a, rest, k)) == Live(rest) + Live([a])
  {
    hide Live;
    LiveSplit(rest[..k], rest[k..]);
    LiveSplit(rest[..k], [a]);
    LiveSplit(rest[..k] + [a], rest[k..]);
    assert rest == rest[..k] + rest[k..];
    assert Insert(a, rest, k) == rest[..k] + [a] + rest[k..];
  }

  lemma InsertDistinct(a: Alias, rest: seq<Alias>, k: nat)
    requires k <= |rest| && Distinct(rest) && forall b :: b in rest ==> b.g != a.g
    ensures Distinct(Insert(a, rest, k))
  {
    var r := Insert(a, rest, k);
    forall x, y | 0 <= x < y < |r|
      ensures r[x].g != r[y].g
    {
      if x == k {
        assert r[y] == rest[y - 1];
      } else if y == k {
        assert r[x] == rest[x];
      }
    }
  }

  // Sorting loses no record and invents none.
  lemma LiveFirst(eqs: seq<Alias>)
    requires eqs != []
    ensures Live(eqs) == Live([eqs[0]]) + Live(eqs[1..])
  {
    hide Live;
    LiveSplit([eqs[0]], eqs[1..]);
    assert eqs == [eqs[0]] + eqs[1..];
  }

  lemma SortStep(key: Alias --> Key, eqs: seq<Alias>)
    requires eqs != [] && forall a :: a in eqs ==> key.requires(a)
    ensures var rest := Sort(key, eqs[1..]); Sort(key, eqs) == Insert(eqs[0], rest, Place(key, eqs[0], rest))
  {
    hide Insert, Place;
  }

  // Sorting loses no record and invents none.
  lemma {:induction false} SortKept(key: Alias --> Key, eqs: seq<Alias>)
    requires forall a :: a in eqs ==> key.requires(a)
    requires Distinct(eqs)
    ensures Distinct(Sort(key, eqs)) && Live(Sort(key, eqs)) == Live(eqs)
  {
    hide Sort, Insert, Live, Place;
    if eqs == [] {
      SortNone(key);
    } else {
      var a, rest := eqs[0], Sort(key, eqs[1..]);
      SortKept(key, eqs[1..]);
      LiveFirst(eqs);
      SortStep(key, eqs);
      forall b | b in rest
        ensures b.g != a.g
      {
        var y :| 0 <= y < |eqs| - 1 && eqs[1..][y] == b;
        assert eqs[0].g != eqs[y + 1].g;
      }
      hide Distinct;
      var k := Place(key, a, rest);
      InsertLive(a, rest, k);
      InsertDistinct(a, rest, k);
    }
  }

  lemma SortNone(key: Alias --> Key)
    ensures Sort(key, []) == []
  {
  }

  lemma PendingKept(gs: seq<Group>, eqs: seq<Alias>, left: int)
    requires Kept(gs, eqs, left)
    ensures 0 <= left <= |eqs| && Kept(gs, Pending(gs, eqs), left)
    ensures Pending(gs, eqs) == SortAliases(gs, eqs)[..left]
    ensures forall a :: a in Pending(gs, eqs) ==> !a.skip
  {
    hide IsError, Sort, Live;
    SortKept((a: Alias) requires a.g < |gs| => AliasKey(gs, a), eqs);
    PendingIs(gs, eqs);
    AllLive(Pending(gs, eqs));
  }

  method Fill(eqgrp: array<Alias>, sorted: seq<Alias>)
    requires |sorted| <= eqgrp.Length
    modifies eqgrp
    ensures eqgrp[..|sorted|] == sorted
  {
    forall k | 0 <= k < |sorted| {
      eqgrp[k] := sorted[k];
    }
  }

  // qsort on the first count records.
  method SortRecords(grp: array<Group>, eqgrp: array<Alias>, count: nat, left: int)
    requires count <= eqgrp.Length && Kept(grp[..], eqgrp[..count], left)
    requires Points(grp[..], eqgrp[..count])
    modifies eqgrp
    ensures 0 <= left <= count && Kept(grp[..], eqgrp[..left], left) && Points(grp[..], eqgrp[..left])
    ensures eqgrp[..left] == Pending(grp[..], old(eqgrp[..count]))
    ensures forall a :: a in eqgrp[..left] ==> !a.skip
  {
    ghost var gs := grp[..];
    PendingKept(gs, eqgrp[..count], left);
    hide Kept, Pending, SortAliases, Points;
    var sorted := SortAliases(grp[..], eqgrp[..count]);
    Fill(eqgrp, sorted);
    assert grp[..] == gs;
    assert eqgrp[..left] == eqgrp[..count][..left];
  }

  lemma {:induction false} CollectedKept(gs: seq<Group>, hostid: int, n: nat)
    requires n <= |gs|
    ensures var eqs := Collect(gs, hostid, n);
      Kept(gs, eqs, |eqs|) && (forall a :: a in eqs ==> !a.skip && a.g < n)
  {
    if n > 0 {
      CollectedKept(gs, hostid, n - 1);
      hide Live, IsError;
      var before, after := Collect(gs, hostid, n - 1), Collect(gs, hostid, n);
      AllLive(after);
      forall x, y | 0 <= x < y < |after|
        ensures after[x].g != after[y].g
      {
        assert after[x] in before;
        assert y < |before| ==> before[x].g != before[y].g;
      }
    }
  }

  // The records for the "=" groups of the host that are free of errors.
  method MakeRecords(grp: array<Group>, hostid: int) returns (eqgrp: array<Alias>)
    ensures fresh(eqgrp) && eqgrp[..] == Collect(grp[..], hostid, grp.Length)
  {
    ghost var gs := grp[..];
    var count, i := 0, 0;
    while i < grp.Length
      invariant 0 <= i <= grp.Length && count == |Collect(gs, hostid, i)|
    {
      if Candidate(grp[i], hostid) {
        count := count + 1;
      }
      i := i + 1;
    }
    eqgrp := new Alias[count];
    var j := 0;
    i := 0;
    while i < grp.Length && j < count
      invariant 0 <= i <= grp.Length && grp[..] == gs
      invariant j == |Collect(gs, hostid, i)| <= count && eqgrp[..j] == Collect(gs, hostid, i)
    {
      if Candidate(grp[i], hostid) {
        eqgrp[j] := Alias(false, i, grp[i].Target());
        j := j + 1;
      }
      i := i + 1;
      CollectGrows(gs, hostid, i, grp.Length);
    }
    CollectGrows(gs, hostid, i, grp.Length);
    assert eqgrp[..] == eqgrp[..j];
  }

  lemma {:induction false} CollectGrows(gs: seq<Group>, hostid: int, m: nat, n: nat)
    requires m <= n <= |gs|
    ensures Collect(gs, hostid, m) <= Collect(gs, hostid, n)
  {
    if m < n {
      CollectGrows(gs, hostid, m, n - 1);
    }
  }

  lemma {:induction false} NothingToFollow(gs: seq<Group>, hostid: int, step: nat)
    requires step <= EQ_LOOP
    ensures Steps(gs, hostid, [], step) == Pass(gs, [], 0, 0)
    decreases EQ_LOOP - step
  {
    if step < EQ_LOOP {
      NothingToFollow(gs, hostid, step + 1);
    }
  }

  // The records that are left are in a long chain or a loop.
  method MarkLong(grp: array<Group>, eqgrp: array<Alias>, n: nat)
    requires n <= eqgrp.Length && Kept(grp[..], eqgrp[..n], n)
    requires forall a :: a in eqgrp[..n] ==> !a.skip
    modifies grp
    ensures grp[..] == GiveUp(old(grp[..]), eqgrp[..n], n)
    ensures Errors(grp[..]) == Errors(old(grp[..])) + n
  {
    var j := 0;
    ghost var gs0, eqs := grp[..], eqgrp[..n];
    NoneGivenUp(gs0, eqs);
    hide Errors, Live, GiveUp, Distinct, Kept, Unmarked, GivenUp;
    while j < n
      invariant 0 <= j <= n && eqgrp[..n] == eqs && GivenUp(gs0, grp[..], eqs, j)
    {
      assert eqs[j] in eqs && eqgrp[j] == eqs[j];
      if eqgrp[j].skip {
        assert false;
      }
      OneGivenUp(gs0, grp[..], eqs, j);
      MarkGroup(grp, eqgrp[j].g);
      j := j + 1;
    }
    AllGivenUp(gs0, grp[..], eqs);
  }

  method MarkGroup(grp: array<Group>, g: nat)
    requires g < grp.Length
    modifies grp
    ensures grp[..] == old(grp[..])[g := old(grp[..])[g].Marked(LongLoop)]
  {
    grp[g] := grp[g].Marked(LongLoop);
  }

  // The first j records are given up; the groups of the others are free of errors.
  ghost predicate GivenUp(gs0: seq<Group>, gs: seq<Group>, eqs: seq<Alias>, j: nat)
    requires Points(gs0, eqs)
  {
    && j <= |eqs| && gs == GiveUp(gs0, eqs, j) && Errors(gs) == Errors(gs0) + j && Distinct(eqs)
    && forall x :: j <= x < |eqs| ==> eqs[x].g < |gs| && !IsError(gs[eqs[x].g].ignore)
  }

  lemma NoneGivenUp(gs: seq<Group>, eqs: seq<Alias>)
    requires Kept(gs, eqs, |eqs|) && forall a :: a in eqs ==> !a.skip
    ensures GivenUp(gs, gs, eqs, 0)
  {
    hide IsError, Live, Errors;
    forall x | 0 <= x < |eqs|
      ensures eqs[x].g < |gs| && !IsError(gs[eqs[x].g].ignore)
    {
      assert eqs[x] in eqs;
    }
  }

  lemma AllGivenUp(gs0: seq<Group>, gs: seq<Group>, eqs: seq<Alias>)
    requires Points(gs0, eqs) && GivenUp(gs0, gs, eqs, |eqs|)
    ensures gs == GiveUp(gs0, eqs, |eqs|) && Errors(gs) == Errors(gs0) + |eqs|
  {
  }

  lemma OneGivenUp(gs0: seq<Group>, gs: seq<Group>, eqs: seq<Alias>, j: nat)
    requires Points(gs0, eqs) && j < |eqs| && GivenUp(gs0, gs, eqs, j)
    ensures var g := eqs[j].g; g < |gs| && GivenUp(gs0, gs[g := gs[g].Marked(LongLoop)], eqs, j + 1)
  {
    var g := eqs[j].g;
    assert gs[g := gs[g].Marked(LongLoop)] == GiveUp(gs0, eqs, j + 1);
    hide IsError, GiveUp, Errors;
    LongIsError(gs[g]);
    ErrorsUpdate(gs, g, gs[g].Marked(LongLoop));
  }

  lemma LongIsError(g: Group)
    ensures IsError(g.Marked(LongLoop).ignore)
  {
    assert LongLoop in g.Marked(LongLoop).ignore;
  }

  lemma StepsOne(gs: seq<Group>, hostid: int, eqs: seq<Alias>, step: nat)
    requires Points(gs, eqs) && step < EQ_LOOP
    ensures var pass := Scan(Pass(gs, Pending(gs, eqs), 0, 0), hostid);
      Steps(gs, hostid, eqs, step) == Steps(pass.gs, hostid, pass.eqs, step + 1)
  {
  }

  // Up to EQ_LOOP passes over the records: how many are left, and how many were bad.
  method Resolve(grp: array<Group>, hostid: int, eqgrp: array<Alias>)
    returns (eqCnt: nat, newEqCnt: int, missing: nat, cycled: nat)
    requires Points(grp[..], eqgrp[..]) && Kept(grp[..], eqgrp[..], eqgrp.Length)
    modifies grp, eqgrp
    ensures eqCnt <= eqgrp.Length && Points(grp[..], eqgrp[..eqCnt]) && Kept(grp[..], eqgrp[..eqCnt], newEqCnt)
    ensures var r := Steps(old(grp[..]), hostid, old(eqgrp[..]), 0);
      grp[..] == r.gs && eqgrp[..eqCnt] == r.eqs
    ensures missing + cycled == Errors(grp[..]) - Errors(old(grp[..]))
  {
    ghost var gs0, eqs0 := grp[..], eqgrp[..];
    eqCnt, newEqCnt, missing, cycled := eqgrp.Length, eqgrp.Length, 0, 0;
    assert eqgrp[..eqCnt] == eqgrp[..];
    var step := 0;
    ghost var end := Steps(gs0, hostid, eqs0, 0);
    hide Errors, Kept, Scan, Pending, Steps, Points;
    while step < EQ_LOOP && newEqCnt >= 0
      invariant 0 <= step <= EQ_LOOP && newEqCnt >= 0
      invariant eqCnt <= eqgrp.Length
      invariant Points(grp[..], eqgrp[..eqCnt]) && Kept(grp[..], eqgrp[..eqCnt], newEqCnt)
      invariant Steps(grp[..], hostid, eqgrp[..eqCnt], step) == end
      invariant missing + cycled == Errors(grp[..]) - Errors(gs0)
    {
      step, eqCnt, newEqCnt, missing, cycled := Step(grp, hostid, eqgrp, step, eqCnt, newEqCnt, missing, cycled);
    }
    assert Steps(grp[..], hostid, eqgrp[..eqCnt], EQ_LOOP) == Pass(grp[..], eqgrp[..eqCnt], 0, 0) by {
      LastStep(grp[..], hostid, eqgrp[..eqCnt]);
    }
  }

  lemma LastStep(gs: seq<Group>, hostid: int, eqs: seq<Alias>)
    requires Points(gs, eqs)
    ensures Steps(gs, hostid, eqs, EQ_LOOP) == Pass(gs, eqs, 0, 0)
  {
  }

  // Sort, then scan what is not skipped.
  method Step(grp: array<Group>, hostid: int, eqgrp: array<Alias>, step0: nat, eqCnt0: nat, newEqCnt0: int,
              missing0: nat, cycled0: nat)
    returns (step: nat, eqCnt: nat, newEqCnt: int, missing: nat, cycled: nat)
    requires step0 < EQ_LOOP && eqCnt0 <= eqgrp.Length
    requires Points(grp[..], eqgrp[..eqCnt0]) && Kept(grp[..], eqgrp[..eqCnt0], newEqCnt0)
    modifies grp, eqgrp
    ensures step == step0 + 1 && eqCnt <= eqgrp.Length && newEqCnt >= 0
    ensures Points(grp[..], eqgrp[..eqCnt]) && Kept(grp[..], eqgrp[..eqCnt], newEqCnt)
    ensures Steps(grp[..], hostid, eqgrp[..eqCnt], step) == Steps(old(grp[..]), hostid, old(eqgrp[..eqCnt0]), step0)
    ensures missing + cycled - missing0 - cycled0 == Errors(grp[..]) - Errors(old(grp[..]))
  {
    StepsOne(grp[..], hostid, eqgrp[..eqCnt0], step0);
    ghost var gs0, eqs0 := grp[..], eqgrp[..eqCnt0];
    hide Errors, Kept, Scan, Pending, Steps, Points;
    SortRecords(grp, eqgrp, eqCnt0, newEqCnt0);
    assert grp[..] == gs0;
    eqCnt := newEqCnt0;
    var m, c;
    newEqCnt, m, c := ScanPass(grp, hostid, eqgrp, eqCnt);
    assert newEqCnt >= 0 by {
      LeftCount(grp[..], eqgrp[..eqCnt], newEqCnt);
    }
    missing, cycled := missing0 + m, cycled0 + c;
    step := step0 + 1;
  }

  lemma LeftCount(gs: seq<Group>, eqs: seq<Alias>, left: int)
    requires Kept(gs, eqs, left)
    ensures 0 <= left <= |eqs|
  {
  }

  lemma NothingGivenUp(gs: seq<Group>)
    ensures Points(gs, []) && Pending(gs, []) == [] && GiveUp(gs, [], 0) == gs
  {
  }

  // A host without "=" groups has no problems.
  lemma NoAliases(gs: seq<Group>, hostid: int)
    requires Collect(gs, hostid, |gs|) == []
    ensures MarkProblems(gs, hostid) == gs
  {
    hide Collect, Steps, Pending, GiveUp;
    NothingToFollow(gs, hostid, 0);
    NothingGivenUp(gs);
  }

  // Follows the records to their ends, and marks those that have none.
  method FollowAll(grp: array<Group>, hostid: int, eqgrp: array<Alias>) returns (probs: nat)
    requires Points(grp[..], eqgrp[..]) && Kept(grp[..], eqgrp[..], eqgrp.Length)
    modifies grp, eqgrp
    ensures var end := Steps(old(grp[..]), hostid, old(eqgrp[..]), 0);
      var pending := Pending(end.gs, end.eqs);
      grp[..] == GiveUp(end.gs, pending, |pending|)
    ensures probs == Errors(grp[..]) - Errors(old(grp[..]))
  {
    hide Errors, Kept, Pending, Steps, Points, GiveUp;
    var eqCnt, newEqCnt, missing, cycled := Resolve(grp, hostid, eqgrp);
    var chained := newEqCnt;
    ghost var gs := grp[..];
    SortRecords(grp, eqgrp, eqCnt, newEqCnt);
    assert grp[..] == gs;
    MarkLong(grp, eqgrp, newEqCnt);
    return missing + cycled + chained;
  }

  // Marks the "=" groups of the host that have problems; how many it marked.
  method MarkEqProbs(grp: array<Group>, hostid: int) returns (probs: nat)
    modifies grp
    ensures grp[..] == MarkProblems(old(grp[..]), hostid)
    ensures probs == Errors(grp[..]) - Errors(old(grp[..]))
  {
    if hostid == NOHOST {
      return 0;
    }
    ghost var gs0 := grp[..];
    CollectedKept(gs0, hostid, grp.Length);
    hide Errors, Kept, Collect, Pending, Steps, Points, GiveUp;
    var eqgrp := MakeRecords(grp, hostid);
    assert grp[..] == gs0;
    if eqgrp.Length == 0 {
      NoAliases(gs0, hostid);
      return 0;
    }
    probs := FollowAll(grp, hostid, eqgrp);
  }
}
