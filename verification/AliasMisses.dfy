// When mark_eq_probs (backends/actsync.c) takes the target of a "=" group for missing:
// a pass that misses one name passes over a line, and a later name may need it.
module AliasMisses {
  import opened ActiveFile
  import opened AliasSpec
  import opened AliasChains
  import opened AliasExact
  import opened AliasMarks
  import opened AliasComplete

  // The pass when it comes to the j'th record.
  function At(p: Pass, hostid: int, j: nat): (r: Pass)
    requires p.Valid() && j <= |p.eqs|
    ensures r.Valid() && |r.gs| == |p.gs| && |r.eqs| == |p.eqs| && (p.j <= j ==> r.j == j)
    ensures forall x :: 0 <= x < |p.eqs| ==> r.eqs[x].g == p.eqs[x].g
    decreases |p.gs| - p.i + |p.eqs| - p.j
  {
    if p.j >= j then p else At(Turn(p, hostid), hostid, j)
  }

  // The lines that are passed over until then because a name was missed.
  function Taken(p: Pass, hostid: int, j: nat): set<nat>
    requires p.Valid() && j <= |p.eqs|
    decreases |p.gs| - p.i + |p.eqs| - p.j
  {
    if p.j >= j then {} else
      TakenNow(p, hostid) + Taken(Turn(p, hostid), hostid, j)
  }

  // The name of the record at hand does not come any more.
  predicate Missed(p: Pass, hostid: int)
    requires p.Valid() && p.j < |p.eqs|
  {
    p.i == |p.gs| || (Clean(p.gs[p.i], hostid) && !p.eqs[p.j].skip && Strcmp(p.gs[p.i].name, p.eqs[p.j].eq) > 0)
  }

  // All lines that were passed over come before the name at hand, or were taken.
  ghost predicate PassedBut(p: Pass, hostid: int, taken: set<nat>)
    requires p.Valid()
  {
    (forall m :: m in taken ==> m < p.i)
    && (p.j < |p.eqs| ==>
          forall k: nat :: k < p.i && Clean(p.gs[k], hostid) && k !in taken
            ==> Strcmp(p.gs[k].name, p.eqs[p.j].eq) < 0)
  }

  lemma {:induction false} ScanAt(p: Pass, hostid: int, j: nat)
    requires p.Valid() && j <= |p.eqs|
    ensures Scan(p, hostid) == Scan(At(p, hostid, j), hostid)
    decreases |p.gs| - p.i + |p.eqs| - p.j
  {
    hide Turn;
    if p.j < j {
      ScanAt(Turn(p, hostid), hostid, j);
    }
  }

  lemma {:induction false} AtAt(p: Pass, hostid: int, x: nat, j: nat)
    requires p.Valid() && x <= j <= |p.eqs|
    ensures At(p, hostid, j) == At(At(p, hostid, x), hostid, j)
    decreases |p.gs| - p.i + |p.eqs| - p.j
  {
    hide Turn;
    if p.j < x {
      AtAt(Turn(p, hostid), hostid, x, j);
    }
  }

  // What a turn does to one of the groups.
  lemma TurnLeaves(p: Pass, hostid: int, k: nat)
    requires p.Valid() && p.j < |p.eqs| && k < |p.gs| && p.eqs[p.j].g != k
    ensures Turn(p, hostid).gs[k] == p.gs[k] && Turn(p, hostid).j >= p.j
  {
    hide IsError, Strcmp;
  }

  // Groups without a record are left as they are.
  lemma {:induction false} ScanLeaves(p: Pass, hostid: int, k: nat)
    requires p.Valid() && k < |p.gs|
    requires forall x :: p.j <= x < |p.eqs| ==> p.eqs[x].g != k
    ensures Scan(p, hostid).gs[k] == p.gs[k]
    decreases |p.gs| - p.i + |p.eqs| - p.j
  {
    hide Turn;
    if p.j < |p.eqs| {
      TurnLeaves(p, hostid, k);
      ScanLeaves(Turn(p, hostid), hostid, k);
    }
  }

  lemma {:induction false} AtLeaves(p: Pass, hostid: int, j: nat, k: nat)
    requires p.Valid() && j <= |p.eqs| && k < |p.gs|
    requires forall x :: p.j <= x < j ==> p.eqs[x].g != k
    ensures At(p, hostid, j).gs[k] == p.gs[k]
    decreases |p.gs| - p.i + |p.eqs| - p.j
  {
    hide Turn;
    if p.j < j {
      TurnLeaves(p, hostid, k);
      AtLeaves(Turn(p, hostid), hostid, j, k);
    }
  }

  // A turn either goes on to the next line, or is done with the record.
  lemma TurnKinds(p: Pass, hostid: int)
    requires p.Valid() && p.j < |p.eqs| && !p.eqs[p.j].skip
    ensures var r, a := Turn(p, hostid), p.eqs[p.j];
      if Missed(p, hostid) then
        r == p.Reject(NonEq).(i := if p.i < |p.gs| then p.i + 1 else p.i)
      else if Clean(p.gs[p.i], hostid) && p.gs[p.i].name == a.eq then
        && r.i == p.i && r.j == p.j + 1
        && (r.gs == p.gs || r.gs == p.Reject(EqLoop).gs)
        && (forall x :: 0 <= x < |p.eqs| && x != p.j ==> r.eqs[x] == p.eqs[x])
      else
        r == p.(i := p.i + 1) && (Clean(p.gs[p.i], hostid) ==> Strcmp(p.gs[p.i].name, a.eq) < 0)
  {
    if p.i < |p.gs| {
      StrcmpZero(p.gs[p.i].name, p.eqs[p.j].eq);
    }
    hide IsError, Strcmp;
  }

  ghost predicate Named(gs: seq<Group>, hostid: int, name: string, i: nat) {
    exists m :: i <= m < |gs| && Clean(gs[m], hostid) && gs[m].name == name
  }

  lemma NoneLeft(p: Pass, hostid: int)
    requires p.Valid() && p.j < |p.eqs| && NameSorted(p.gs) && Missed(p, hostid)
    ensures !Named(p.gs, hostid, p.eqs[p.j].eq, p.i)
  {
    StrcmpZero(p.eqs[p.j].eq, p.eqs[p.j].eq);
    hide Clean, Strcmp;
  }

  lemma AtTurn(p: Pass, hostid: int)
    requires p.Valid() && p.j < |p.eqs|
    ensures var r := Turn(p, hostid);
      At(p, hostid, p.j + 1) == if r.j > p.j then r else At(r, hostid, p.j + 1)
  {
    hide Turn;
  }

  lemma TurnDecides(p: Pass, hostid: int)
    requires p.Valid() && p.j < |p.eqs| && !p.eqs[p.j].skip && NonEq !in p.gs[p.eqs[p.j].g].ignore
    ensures var r := Turn(p, hostid);
      var hit := p.i < |p.gs| && Clean(p.gs[p.i], hostid) && p.gs[p.i].name == p.eqs[p.j].eq;
      && (r.j == p.j ==> r == p.(i := p.i + 1) && p.i < |p.gs| && !Missed(p, hostid) && !hit)
      && (r.j != p.j ==> r.j == p.j + 1 && (Missed(p, hostid) || hit))
      && (r.j != p.j ==> (NonEq in r.gs[p.eqs[p.j].g].ignore <==> Missed(p, hostid)))
  {
    TurnKinds(p, hostid);
    hide Turn, IsError, Strcmp;
    if p.i < |p.gs| && p.gs[p.i].name == p.eqs[p.j].eq {
      StrcmpZero(p.gs[p.i].name, p.eqs[p.j].eq);
    }
  }

  // The record at hand is missed exactly when no line from here on has its name.
  lemma {:induction false} Decide(p: Pass, hostid: int)
    requires p.Valid() && p.j < |p.eqs| && !p.eqs[p.j].skip && NameSorted(p.gs)
    requires NonEq !in p.gs[p.eqs[p.j].g].ignore
    ensures NonEq in At(p, hostid, p.j + 1).gs[p.eqs[p.j].g].ignore <==> !Named(p.gs, hostid, p.eqs[p.j].eq, p.i)
    decreases |p.gs| - p.i
  {
    var r := Turn(p, hostid);
    TurnDecides(p, hostid);
    AtTurn(p, hostid);
    hide At, Turn, IsError, Clean, Missed, Strcmp, NameSorted;
    if r.j == p.j {
      NamedOn(p, hostid);
      Decide(r, hostid);
    } else if Missed(p, hostid) {
      NoneLeft(p, hostid);
    }
  }

  lemma NamedOn(p: Pass, hostid: int)
    requires p.Valid() && p.j < |p.eqs| && p.i < |p.gs|
    requires !(Clean(p.gs[p.i], hostid) && p.gs[p.i].name == p.eqs[p.j].eq)
    ensures Named(p.gs, hostid, p.eqs[p.j].eq, p.i) <==> Named(p.gs, hostid, p.eqs[p.j].eq, p.i + 1)
  {
    hide IsError;
  }

  // What the turns of a pass keep.
  ghost predicate Going(p: Pass, hostid: int, taken: set<nat>) {
    p.Valid() && NameSorted(p.gs) && Ascending(p.eqs, p.j) && PassedBut(p, hostid, taken)
  }

  function TakenNow(p: Pass, hostid: int): set<nat>
    requires p.Valid() && p.j < |p.eqs|
  {
    if p.i < |p.gs| && Missed(p, hostid) then {p.i} else {}
  }

  lemma GoingOn(p: Pass, hostid: int, taken: set<nat>)
    requires Going(p, hostid, taken) && p.j < |p.eqs|
    ensures Going(Turn(p, hostid), hostid, taken + TakenNow(p, hostid))
    ensures Turn(p, hostid).j <= p.j + 1
    ensures forall x :: p.j < x < |p.eqs| ==> Turn(p, hostid).eqs[x] == p.eqs[x]
  {
    var r, a, now := Turn(p, hostid), p.eqs[p.j], taken + TakenNow(p, hostid);
    TurnKinds(p, hostid);
    TurnFewer(p, hostid);
    hide Turn, IsError;
    forall k: nat | k < r.i && r.j < |p.eqs| && Clean(r.gs[k], hostid) && k !in now
      ensures Strcmp(r.gs[k].name, r.eqs[r.j].eq) < 0
    {
      hide Clean;
      assert k < p.i ==> Strcmp(p.gs[k].name, a.eq) < 0;
      if r.j > p.j {
        StrcmpTrans(p.gs[k].name, a.eq, r.eqs[r.j].eq);
      }
    }
  }

  // Marks change no names, and bring no line back.
  ghost predicate Fewer(gs: seq<Group>, r: seq<Group>, hostid: int) {
    |r| == |gs|
    && forall k :: 0 <= k < |gs| ==> r[k].name == gs[k].name && (Clean(r[k], hostid) ==> Clean(gs[k], hostid))
  }

  lemma MarkFewer(gs: seq<Group>, hostid: int, k: nat, reason: Reason)
    requires k < |gs|
    ensures Fewer(gs, gs[k := gs[k].Marked(reason)], hostid)
  {
  }

  lemma TurnFewer(p: Pass, hostid: int)
    requires p.Valid() && p.j < |p.eqs|
    ensures Fewer(p.gs, Turn(p, hostid).gs, hostid)
  {
    var k := p.eqs[p.j].g;
    MarkFewer(p.gs, hostid, k, NonEq);
    MarkFewer(p.gs, hostid, k, EqLoop);
    assert Fewer(p.gs, p.gs, hostid);
    hide Fewer, Clean, Strcmp;
  }

  lemma {:induction false} Walk(p: Pass, hostid: int, taken: set<nat>, j: nat)
    requires p.Valid() && Going(p, hostid, taken) && p.j <= j < |p.eqs|
    ensures Going(At(p, hostid, j), hostid, taken + Taken(p, hostid, j))
    ensures At(p, hostid, j).eqs[j] == p.eqs[j]
    decreases |p.gs| - p.i + |p.eqs| - p.j
  {
    hide Going, Turn, TakenNow, Taken, At;
    if p.j < j {
      var r := Turn(p, hostid);
      GoingOn(p, hostid, taken);
      Walk(r, hostid, taken + TakenNow(p, hostid), j);
      AtAfter(p, hostid, j);
      TakenAfter(p, hostid, j);
      Regroup(taken, TakenNow(p, hostid), Taken(r, hostid, j));
    } else {
      AtOnce(p, hostid, j);
      Regroup(taken, {}, {});
    }
  }

  lemma Regroup(a: set<nat>, b: set<nat>, c: set<nat>)
    ensures (a + b) + c == a + (b + c) && a + {} == a
  {
  }

  lemma AtOnce(p: Pass, hostid: int, j: nat)
    requires p.Valid() && p.j == j <= |p.eqs|
    ensures At(p, hostid, j) == p && Taken(p, hostid, j) == {}
  {
  }

  lemma AtAfter(p: Pass, hostid: int, j: nat)
    requires p.Valid() && p.j < j <= |p.eqs|
    ensures At(p, hostid, j) == At(Turn(p, hostid), hostid, j)
  {
    hide Turn;
  }

  lemma TakenAfter(p: Pass, hostid: int, j: nat)
    requires p.Valid() && p.j < j <= |p.eqs|
    ensures Taken(p, hostid, j) == TakenNow(p, hostid) + Taken(Turn(p, hostid), hostid, j)
  {
    hide Turn;
  }

  // Every line with the name that the record has come to was taken by then.
  ghost predicate Starved(p: Pass, hostid: int, j: nat)
    requires p.Valid() && j < |p.eqs|
  {
    AllTaken(At(p, hostid, j).gs, hostid, p.eqs[j].eq, Taken(p, hostid, j))
  }

  ghost predicate AllTaken(gs: seq<Group>, hostid: int, name: string, taken: set<nat>) {
    forall m: nat :: m < |gs| && Clean(gs[m], hostid) && gs[m].name == name ==> m in taken
  }

  ghost predicate Fresh(gs: seq<Group>, eqs: seq<Alias>) {
    Points(gs, eqs) && Distinct(eqs) && Ascending(eqs, 0)
  }

  lemma TakenNamed(q: Pass, hostid: int, taken: set<nat>)
    requires q.Valid() && q.j < |q.eqs| && PassedBut(q, hostid, taken)
    ensures AllTaken(q.gs, hostid, q.eqs[q.j].eq, taken) <==> !Named(q.gs, hostid, q.eqs[q.j].eq, q.i)
  {
    StrcmpZero(q.eqs[q.j].eq, q.eqs[q.j].eq);
    hide Clean, Strcmp;
    if Named(q.gs, hostid, q.eqs[q.j].eq, q.i) {
      var m :| q.i <= m < |q.gs| && Clean(q.gs[m], hostid) && q.gs[m].name == q.eqs[q.j].eq;
      assert m !in taken;
    }
  }

  // On a sorted array a pass takes a name for missing exactly when every line that has
  // it and is free of marks by then was taken by names missed before it.
  lemma MissedExactly(gs: seq<Group>, hostid: int, eqs: seq<Alias>, j: nat)
    requires NameSorted(gs) && Fresh(gs, eqs) && j < |eqs| && NonEq !in gs[eqs[j].g].ignore
    ensures var p := Pass(gs, eqs, 0, 0);
      NonEq in Scan(p, hostid).gs[eqs[j].g].ignore <==> Starved(p, hostid, j)
  {
    var p := Pass(gs, eqs, 0, 0);
    Walk(p, hostid, {}, j);
    assert {} + Taken(p, hostid, j) == Taken(p, hostid, j);
    var q := At(p, hostid, j);
    TakenNamed(q, hostid, Taken(p, hostid, j));
    assert Starved(p, hostid, j) <==> !Named(q.gs, hostid, q.eqs[j].eq, q.i) by { hide At, Taken, Clean, Strcmp; }
    AtLeaves(p, hostid, j, eqs[j].g);
    hide Starved, Named, NameSorted, Clean, Strcmp, At, Taken, Scan;
    Decide(q, hostid);
    ScanAt(p, hostid, j);
    ScanAt(q, hostid, j + 1);
    ScanLeaves(At(q, hostid, j + 1), hostid, eqs[j].g);
  }

  // ---- who takes lines ----

  ghost predicate TakenFor(p: Pass, hostid: int, j: nat, m: nat, x: nat)
    requires p.Valid() && j <= |p.eqs|
  {
    p.j <= x < j && m < |p.gs|
    && Strcmp(p.gs[m].name, p.eqs[x].eq) > 0 && NonEq in At(p, hostid, j).gs[p.eqs[x].g].ignore
  }

  lemma {:induction false} AtGrows(p: Pass, hostid: int, j: nat)
    requires p.Valid() && j <= |p.eqs|
    ensures Grows(p.gs, At(p, hostid, j).gs)
    decreases |p.gs| - p.i + |p.eqs| - p.j
  {
    hide Turn;
    if p.j < j {
      TurnGrows(p, hostid);
      AtGrows(Turn(p, hostid), hostid, j);
    }
  }

  // A line is taken only by a record before, for a name that sorts before its own; that
  // record's group is marked.
  lemma {:induction false} TakenBy(p: Pass, hostid: int, j: nat, m: nat) returns (x: nat)
    requires p.Valid() && j <= |p.eqs| && Ascending(p.eqs, p.j) && m in Taken(p, hostid, j)
    ensures TakenFor(p, hostid, j, m, x)
    decreases |p.gs| - p.i + |p.eqs| - p.j
  {
    var r := Turn(p, hostid);
    if m in TakenNow(p, hostid) {
      x := p.j;
      TakenMarks(p, hostid);
      hide Turn, Taken, At;
      AtGrows(r, hostid, j);
      assert At(p, hostid, j) == At(r, hostid, j) by { AtAfter(p, hostid, j); }
    } else {
      TurnFewer(p, hostid);
      TurnRest(p, hostid);
      assert m in Taken(r, hostid, j);
      AtAfter(p, hostid, j);
      hide Turn, TakenNow, Clean, Taken, At, Strcmp;
      x := TakenBy(r, hostid, j, m);
    }
  }

  lemma TakenMarks(p: Pass, hostid: int)
    requires p.Valid() && p.j < |p.eqs| && !p.eqs[p.j].skip && p.i in TakenNow(p, hostid)
    ensures p.i < |p.gs| && Strcmp(p.gs[p.i].name, p.eqs[p.j].eq) > 0
    ensures NonEq in Turn(p, hostid).gs[p.eqs[p.j].g].ignore
  {
    TurnKinds(p, hostid);
    hide Turn, IsError, Strcmp;
  }

  lemma TurnRest(p: Pass, hostid: int)
    requires p.Valid() && p.j < |p.eqs| && Ascending(p.eqs, p.j)
    ensures var r := Turn(p, hostid);
      Ascending(r.eqs, r.j) && r.j >= p.j && forall x :: r.j <= x < |p.eqs| ==> r.eqs[x] == p.eqs[x]
  {
    TurnKinds(p, hostid);
    hide Turn, IsError, Strcmp, Points;
  }

  // ---- the whole run ----

  function Start(gs: seq<Group>, eqs: seq<Alias>): (p: Pass)
    requires Points(gs, eqs)
    ensures p.Valid() && p.gs == gs
  {
    Pass(gs, Pending(gs, eqs), 0, 0)
  }

  // The n'th pass, as it starts.
  function Stage(gs: seq<Group>, hostid: int, n: nat): (p: Pass)
    ensures p.Valid() && |p.gs| == |gs|
  {
    if n == 0 then Start(gs, Collect(gs, hostid, |gs|)) else
      var before := Scan(Stage(gs, hostid, n - 1), hostid);
      Start(before.gs, before.eqs)
  }

  ghost predicate Regular(p: Pass) {
    p.Valid() && p.i == p.j == 0 && Fresh(p.gs, p.eqs) && Unmarked(p.gs, p.eqs)
  }

  // The record at hand is done with; the others wait as before.
  ghost predicate KeptOn(p: Pass, r: Pass) {
    && r.Valid() && Unmarked(r.gs, r.eqs) && Distinct(r.eqs) && |r.eqs| == |p.eqs| && r.j >= p.j
    && forall x :: p.j < x < |p.eqs| ==> r.eqs[x] == p.eqs[x]
  }

  lemma RejectKept(p: Pass, reason: Reason, i: nat)
    requires p.Valid() && p.j < |p.eqs| && !p.eqs[p.j].skip && Unmarked(p.gs, p.eqs) && Distinct(p.eqs)
    requires reason in {NonEq, EqLoop} && i <= |p.gs|
    ensures KeptOn(p, p.Reject(reason).(i := i))
  {
    RejectCounts(p, reason);
    hide Unmarked, Distinct, Live, Errors;
  }

  lemma FollowKept(p: Pass, b: Alias)
    requires p.Valid() && p.j < |p.eqs| && !p.eqs[p.j].skip && Unmarked(p.gs, p.eqs) && Distinct(p.eqs)
    requires b.g == p.eqs[p.j].g
    ensures KeptOn(p, Pass(p.gs, p.eqs[p.j := b], p.i, p.j + 1))
  {
    FollowCounts(p, b);
    hide Unmarked, Distinct, Live, Errors;
  }

  lemma TurnKept(p: Pass, hostid: int)
    requires p.Valid() && p.j < |p.eqs| && !p.eqs[p.j].skip && Unmarked(p.gs, p.eqs) && Distinct(p.eqs)
    ensures KeptOn(p, Turn(p, hostid)) && (Turn(p, hostid).j > p.j || Turn(p, hostid).eqs == p.eqs)
  {
    var a := p.eqs[p.j];
    TurnKinds(p, hostid);
    hide Unmarked, Distinct, Turn, Strcmp;
    if Missed(p, hostid) {
      hide KeptOn;
      RejectKept(p, NonEq, Turn(p, hostid).i);
    } else if Clean(p.gs[p.i], hostid) && p.gs[p.i].name == a.eq {
      hide KeptOn;
      TurnAtMatch(p, hostid);
      RejectKept(p, EqLoop, p.i);
      FollowKept(p, if p.gs[p.i].IsAlias() then a.(eq := p.gs[p.i].Target()) else a.(skip := true));
    }
  }

  lemma {:induction false} ScanKept(p: Pass, hostid: int)
    requires p.Valid() && Unmarked(p.gs, p.eqs) && Distinct(p.eqs)
    requires forall x :: p.j <= x < |p.eqs| ==> !p.eqs[x].skip
    ensures var r := Scan(p, hostid); Unmarked(r.gs, r.eqs) && Distinct(r.eqs)
    decreases |p.gs| - p.i + |p.eqs| - p.j
  {
    hide Turn, Unmarked, Distinct;
    if p.j < |p.eqs| {
      TurnKept(p, hostid);
      ScanKept(Turn(p, hostid), hostid);
    }
  }

  lemma StartRegular(gs: seq<Group>, eqs: seq<Alias>)
    requires Points(gs, eqs) && Unmarked(gs, eqs) && Distinct(eqs)
    ensures Regular(Start(gs, eqs))
    ensures forall a :: a in Pending(gs, eqs) <==> a in eqs && !a.skip
  {
    PendingIs(gs, eqs);
    hide IsError, Live, Sort, Strcmp, Pending;
    AliasMarks.PendingKept(gs, eqs, Live(eqs));
  }

  lemma {:induction false} StageRegular(gs: seq<Group>, hostid: int, n: nat)
    ensures Regular(Stage(gs, hostid, n))
  {
    hide Unmarked, Distinct, Start, Scan, Collect;
    if n == 0 {
      AliasMarks.CollectedKept(gs, hostid, |gs|);
      StartRegular(gs, Collect(gs, hostid, |gs|));
    } else {
      StageRegular(gs, hostid, n - 1);
      var p := Stage(gs, hostid, n - 1);
      ScanKept(p, hostid);
      StartRegular(Scan(p, hostid).gs, Scan(p, hostid).eqs);
    }
  }

  lemma {:induction false} StepsStage(gs: seq<Group>, hostid: int, gs1: seq<Group>, eqs: seq<Alias>, n: nat)
    requires n <= EQ_LOOP && Points(gs1, eqs) && Stage(gs, hostid, n) == Start(gs1, eqs)
    ensures var r := Steps(gs1, hostid, eqs, n); Stage(gs, hostid, EQ_LOOP) == Start(r.gs, r.eqs)
    decreases EQ_LOOP - n
  {
    hide Scan, Pending;
    if n < EQ_LOOP {
      var pass := Scan(Start(gs1, eqs), hostid);
      StepsStage(gs, hostid, pass.gs, pass.eqs, n + 1);
    }
  }

  // Passes and the last marks together are the run.
  lemma RunStages(gs: seq<Group>, hostid: int)
    requires hostid != NOHOST
    ensures var end := Stage(gs, hostid, EQ_LOOP); MarkProblems(gs, hostid) == GiveUp(end.gs, end.eqs, |end.eqs|)
  {
    hide Scan, Pending, Steps, Collect, GiveUp;
    StepsStage(gs, hostid, gs, Collect(gs, hostid, |gs|), 0);
  }

  lemma {:induction false} ScanFewer(p: Pass, hostid: int)
    requires p.Valid()
    ensures Fewer(p.gs, Scan(p, hostid).gs, hostid)
    decreases |p.gs| - p.i + |p.eqs| - p.j
  {
    hide Turn, Clean;
    if p.j < |p.eqs| {
      TurnFewer(p, hostid);
      ScanFewer(Turn(p, hostid), hostid);
    }
  }

  lemma {:induction false} StageFewer(gs: seq<Group>, hostid: int, n: nat)
    ensures Fewer(gs, Stage(gs, hostid, n).gs, hostid)
  {
    hide Clean, Scan, Collect, Pending;
    if n > 0 {
      StageFewer(gs, hostid, n - 1);
      ScanFewer(Stage(gs, hostid, n - 1), hostid);
    }
  }

  // At the n'th pass the record of the k'th group starves.
  ghost predicate StarvedIn(gs: seq<Group>, hostid: int, k: nat, n: nat) {
    StarvedOf(Stage(gs, hostid, n), hostid, k)
  }

  ghost predicate StarvedOf(p: Pass, hostid: int, k: nat)
    requires p.Valid()
  {
    exists j: nat :: j < |p.eqs| && p.eqs[j].g == k && Starved(p, hostid, j)
  }

  ghost predicate StarvedBefore(gs: seq<Group>, hostid: int, k: nat, n: nat) {
    exists i: nat :: i < n && StarvedIn(gs, hostid, k, i)
  }

  lemma StarvedByThen(gs: seq<Group>, hostid: int, k: nat, n: nat)
    ensures StarvedBefore(gs, hostid, k, n + 1) <==> StarvedBefore(gs, hostid, k, n) || StarvedIn(gs, hostid, k, n)
  {
    hide StarvedIn;
  }

  lemma {:induction false} MissedBefore(gs: seq<Group>, hostid: int, k: nat, n: nat)
    requires NameSorted(gs) && k < |gs| && NonEq !in gs[k].ignore
    ensures NonEq in Stage(gs, hostid, n).gs[k].ignore <==> StarvedBefore(gs, hostid, k, n)
  {
    hide *;
    if n == 0 {
      NoneYet(gs, hostid, k);
    } else {
      MissedBefore(gs, hostid, k, n - 1);
      MissedThen(gs, hostid, k, n - 1);
      StarvedByThen(gs, hostid, k, n - 1);
    }
  }

  lemma NoneYet(gs: seq<Group>, hostid: int, k: nat)
    ensures Stage(gs, hostid, 0).gs == gs && !StarvedBefore(gs, hostid, k, 0)
  {
    hide StarvedIn, Pending, Collect;
  }

  lemma SortedFewer(gs: seq<Group>, r: seq<Group>, hostid: int)
    requires NameSorted(gs) && Fewer(gs, r, hostid)
    ensures NameSorted(r)
  {
    hide Strcmp, Clean;
  }

  lemma ScanMisses(p: Pass, hostid: int, k: nat)
    requires Regular(p) && NameSorted(p.gs) && k < |p.gs|
    ensures NonEq in Scan(p, hostid).gs[k].ignore <==> NonEq in p.gs[k].ignore || StarvedOf(p, hostid, k)
  {
    hide Scan, Starved, NameSorted, Strcmp, IsError;
    if j: nat :| j < |p.eqs| && p.eqs[j].g == k {
      OneStarved(p, hostid, j);
      WaitingUnmarked(p, j);
      hide Regular, StarvedOf;
      MissedExactly(p.gs, hostid, p.eqs, j);
    } else {
      ScanLeaves(p, hostid, k);
    }
  }

  lemma OneStarved(p: Pass, hostid: int, j: nat)
    requires p.Valid() && Distinct(p.eqs) && j < |p.eqs|
    ensures StarvedOf(p, hostid, p.eqs[j].g) <==> Starved(p, hostid, j)
  {
    hide Starved, Points;
    assert forall x: nat :: x < |p.eqs| && p.eqs[x].g == p.eqs[j].g ==> x == j;
  }

  lemma WaitingUnmarked(p: Pass, j: nat)
    requires Regular(p) && j < |p.eqs|
    ensures NonEq !in p.gs[p.eqs[j].g].ignore
    ensures p == Pass(p.gs, p.eqs, 0, 0) && Fresh(p.gs, p.eqs)
  {
    hide Strcmp;
    assert p.eqs[j] in p.eqs;
  }

  lemma MissedThen(gs: seq<Group>, hostid: int, k: nat, n: nat)
    requires NameSorted(gs) && k < |gs|
    ensures NonEq in Stage(gs, hostid, n + 1).gs[k].ignore
      <==> NonEq in Stage(gs, hostid, n).gs[k].ignore || StarvedIn(gs, hostid, k, n)
  {
    var p := Stage(gs, hostid, n);
    assert Stage(gs, hostid, n + 1).gs == Scan(p, hostid).gs;
    hide Scan, Pending, Stage, Starved, Strcmp, Regular, NameSorted, Fewer;
    StageRegular(gs, hostid, n);
    StageFewer(gs, hostid, n);
    SortedFewer(gs, p.gs, hostid);
    ScanMisses(p, hostid, k);
  }

  lemma {:induction false} GiveUpMisses(gs: seq<Group>, eqs: seq<Alias>, n: nat, k: nat)
    requires Points(gs, eqs) && n <= |eqs| && k < |gs|
    ensures NonEq in GiveUp(gs, eqs, n)[k].ignore <==> NonEq in gs[k].ignore
  {
    if n > 0 {
      GiveUpMisses(gs, eqs, n - 1, k);
    }
  }

  // On a sorted array a "=" group gets the mark of a missing name exactly when its
  // record starves in one of the passes.
  lemma MissingExactly(gs: seq<Group>, hostid: int, k: nat)
    requires hostid != NOHOST && NameSorted(gs) && k < |gs| && Candidate(gs[k], hostid)
    ensures NonEq in MarkProblems(gs, hostid)[k].ignore <==> StarvedBefore(gs, hostid, k, EQ_LOOP)
  {
    hide MarkProblems, Stage, GiveUp, StarvedBefore, NameSorted;
    RunStages(gs, hostid);
    var end := Stage(gs, hostid, EQ_LOOP);
    GiveUpMisses(end.gs, end.eqs, |end.eqs|, k);
    MissedBefore(gs, hostid, k, EQ_LOOP);
  }

  // The only reasons added.
  ghost predicate OnlyAliasReasons(gs: seq<Group>, r: seq<Group>) {
    |r| == |gs| && forall k :: 0 <= k < |gs| ==> r[k].ignore <= gs[k].ignore + {NonEq, EqLoop, LongLoop}
  }

  lemma TurnReasons(p: Pass, hostid: int)
    requires p.Valid() && p.j < |p.eqs|
    ensures OnlyAliasReasons(p.gs, Turn(p, hostid).gs)
  {
    hide Clean, Strcmp;
  }

  lemma {:induction false} ScanReasons(p: Pass, hostid: int)
    requires p.Valid()
    ensures OnlyAliasReasons(p.gs, Scan(p, hostid).gs)
    decreases |p.gs| - p.i + |p.eqs| - p.j
  {
    hide Turn;
    if p.j < |p.eqs| {
      TurnReasons(p, hostid);
      ScanReasons(Turn(p, hostid), hostid);
    }
  }

  lemma {:induction false} StageReasons(gs: seq<Group>, hostid: int, n: nat)
    ensures OnlyAliasReasons(gs, Stage(gs, hostid, n).gs)
  {
    hide Scan, Collect, Pending;
    if n > 0 {
      StageReasons(gs, hostid, n - 1);
      ScanReasons(Stage(gs, hostid, n - 1), hostid);
    }
  }

  lemma {:induction false} GiveUpReasons(gs: seq<Group>, eqs: seq<Alias>, n: nat)
    requires Points(gs, eqs) && n <= |eqs|
    ensures OnlyAliasReasons(gs, GiveUp(gs, eqs, n))
  {
    if n > 0 {
      GiveUpReasons(gs, eqs, n - 1);
    }
  }

  lemma RunReasons(gs: seq<Group>, hostid: int)
    requires hostid != NOHOST
    ensures OnlyAliasReasons(gs, MarkProblems(gs, hostid))
  {
    var end := Stage(gs, hostid, EQ_LOOP);
    hide MarkProblems, Stage, GiveUp;
    RunStages(gs, hostid);
    StageReasons(gs, hostid, EQ_LOOP);
    GiveUpReasons(end.gs, end.eqs, |end.eqs|);
  }

  // A good group is in no loop.
  lemma NotBack(gs: seq<Group>, hostid: int, k: nat)
    requires Unrepeated(gs, hostid) && k < |gs| && ComesBack(gs, hostid, k)
    ensures Candidate(gs[k], hostid) && !GoodAlias(gs, hostid, k)
  {
    var n: nat :| n <= EQ_LOOP && Leads(gs, hostid, k, gs[k].name, n);
    var path :| Trail(gs, hostid, path) && |path| == n && path[0] == k && gs[path[n - 1]].Target() == gs[k].name;
    TrailFollow(gs, hostid, path, n - 1);
    LookupOne(gs, hostid, k);
    assert Reach(gs, hostid, k, n) == k;
    assert Candidate(gs[path[0]], hostid);
    hide IsError, Unrepeated, Reach, Trail, Lookup;
    GoodIsArrival(gs, hostid, k);
    forall a | 1 <= a <= EQ_LOOP
      ensures !ArrivesAt(gs, hostid, k, a)
    {
      ArrivesOrLoops(gs, hostid, k, a, n);
    }
  }

  // A good group has no long chain.
  lemma NotLong(gs: seq<Group>, hostid: int, k: nat)
    requires Unrepeated(gs, hostid) && k < |gs| && GoesOn(gs, hostid, k)
    ensures Candidate(gs[k], hostid) && !GoodAlias(gs, hostid, k)
  {
    var n, eq :| n == EQ_LOOP + 1 && Leads(gs, hostid, k, eq, n);
    var path :| Trail(gs, hostid, path) && |path| == n && path[0] == k && gs[path[n - 1]].Target() == eq;
    hide IsError, Unrepeated, Reach;
    GoodIsArrival(gs, hostid, k);
    forall a | 1 <= a <= EQ_LOOP
      ensures !ArrivesAt(gs, hostid, k, a)
    {
      TrailFollow(gs, hostid, path, a);
    }
  }

  // On a sorted array without repeated names a good "=" group is marked exactly when its
  // record starves in one of the passes.
  lemma GoodMarkedExactly(gs: seq<Group>, hostid: int, k: nat)
    requires hostid != NOHOST && NameSorted(gs) && Unrepeated(gs, hostid)
    requires k < |gs| && Candidate(gs[k], hostid) && GoodAlias(gs, hostid, k)
    ensures IsError(MarkProblems(gs, hostid)[k].ignore) <==> StarvedBefore(gs, hostid, k, EQ_LOOP)
  {
    var r := MarkProblems(gs, hostid);
    hide MarkProblems, StarvedBefore, GoodAlias, Unrepeated, NameSorted, ComesBack, GoesOn, Resolves, IsError;
    RunReasons(gs, hostid);
    MissingExactly(gs, hostid, k);
    OtherReasons(gs, r, k);
    if NonEq !in r[k].ignore && IsError(r[k].ignore) {
      Soundness(gs, hostid);
      assert Just(gs, r[k], hostid, k);
      if EqLoop in r[k].ignore {
        NotBack(gs, hostid, k);
      } else {
        NotLong(gs, hostid, k);
      }
    }
  }

  lemma OtherReasons(gs: seq<Group>, r: seq<Group>, k: nat)
    requires OnlyAliasReasons(gs, r) && k < |gs| && !IsError(gs[k].ignore)
    ensures IsError(r[k].ignore) <==> NonEq in r[k].ignore || EqLoop in r[k].ignore || LongLoop in r[k].ignore
  {
  }
}
