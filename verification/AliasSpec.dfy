// What actsync's mark_eq_probs computes (backends/actsync.c): every "=" group of one
// host is followed, link by link, in up to sixteen sort-and-scan passes.
module AliasSpec {
  import opened ActiveFile

  const EQ_LOOP := 16

  // A "=" group under examination: where it is in the array, and the name its links
  // have led to so far.
  datatype Alias = Alias(skip: bool, g: nat, eq: string)

  // A pass under way: at line i and record j.
  datatype Pass = Pass(gs: seq<Group>, eqs: seq<Alias>, i: nat, j: nat)
  {
    predicate Valid() { Points(gs, eqs) && i <= |gs| && j <= |eqs| }

    // The record at hand is bad.
    function Reject(reason: Reason): Pass
      requires Valid() && j < |eqs|
    {
      Pass(gs[eqs[j].g := gs[eqs[j].g].Marked(reason)], eqs[j := eqs[j].(skip := true)], i, j + 1)
    }
  }

  predicate Clean(g: Group, hostid: int) { g.hostid == hostid && !IsError(g.ignore) }

  predicate Candidate(g: Group, hostid: int) { Clean(g, hostid) && g.IsAlias() }

  predicate Points(gs: seq<Group>, eqs: seq<Alias>) {
    forall a :: a in eqs ==> a.g < |gs|
  }

  function Live(eqs: seq<Alias>): (n: nat)
    ensures n <= |eqs|
  {
    if eqs == [] then 0 else Live(eqs[..|eqs| - 1]) + if eqs[|eqs| - 1].skip then 0 else 1
  }

  // The candidates among the first n lines.
  function Collect(gs: seq<Group>, hostid: int, n: nat): (eqs: seq<Alias>)
    requires n <= |gs|
    ensures Points(gs, eqs) && |eqs| <= n
  {
    if n == 0 then [] else
      Collect(gs, hostid, n - 1)
      + if Candidate(gs[n - 1], hostid) then [Alias(false, n - 1, gs[n - 1].Target())] else []
  }

  function AliasKey(gs: seq<Group>, a: Alias): Key
    requires a.g < |gs|
  {
    Key(a.skip, a.eq, gs[a.g].name, gs[a.g].hostid, gs[a.g].linenum)
  }

  function SortAliases(gs: seq<Group>, eqs: seq<Alias>): (r: seq<Alias>)
    requires Points(gs, eqs)
    ensures |r| == |eqs| && forall a :: a in r <==> a in eqs
  {
    Sort((a: Alias) requires a.g < |gs| => AliasKey(gs, a), eqs)
  }

  // One turn of a pass.
  function Turn(p: Pass, hostid: int): (r: Pass)
    requires p.Valid() && p.j < |p.eqs|
    ensures r.Valid() && |r.gs| == |p.gs| && |r.eqs| == |p.eqs|
    ensures r.i + r.j > p.i + p.j
    ensures forall k :: 0 <= k < |p.eqs| ==> r.eqs[k].g == p.eqs[k].g
  {
    var a := p.eqs[p.j];
    if p.i == |p.gs| then p.Reject(NonEq) else
      var g := p.gs[p.i];
      if !Clean(g, hostid) then p.(i := p.i + 1)
      else if a.skip then p.(j := p.j + 1)
      else if g.name == a.eq then
        if g.name == p.gs[a.g].name then p.Reject(EqLoop)
        else if !g.IsAlias() then p.(eqs := p.eqs[p.j := a.(skip := true)], j := p.j + 1)
        else p.(eqs := p.eqs[p.j := a.(eq := g.Target())], j := p.j + 1)
      else if Strcmp(g.name, a.eq) > 0 then p.Reject(NonEq).(i := p.i + 1) // the line is passed over, too
      else p.(i := p.i + 1)
  }

  function Scan(p: Pass, hostid: int): (r: Pass)
    requires p.Valid()
    ensures r.Valid() && |r.gs| == |p.gs| && |r.eqs| == |p.eqs| && r.j == |r.eqs|
    ensures forall k :: 0 <= k < |p.eqs| ==> r.eqs[k].g == p.eqs[k].g
    decreases |p.gs| - p.i + |p.eqs| - p.j
  {
    if p.j == |p.eqs| then p else Scan(Turn(p, hostid), hostid)
  }

  // The records still to be followed, in the order of the names they have come to.
  function Pending(gs: seq<Group>, eqs: seq<Alias>): (r: seq<Alias>)
    requires Points(gs, eqs)
    ensures Points(gs, r)
  {
    var sorted := SortAliases(gs, eqs);
    sorted[..Live(sorted)]
  }

  function Steps(gs: seq<Group>, hostid: int, eqs: seq<Alias>, step: nat): (r: Pass)
    requires Points(gs, eqs) && step <= EQ_LOOP
    ensures |r.gs| == |gs| && Points(r.gs, r.eqs)
    decreases EQ_LOOP - step
  {
    if step == EQ_LOOP then Pass(gs, eqs, 0, 0) else
      var pass := Scan(Pass(gs, Pending(gs, eqs), 0, 0), hostid);
      Steps(pass.gs, hostid, pass.eqs, step + 1)
  }

  // Every record of the first n is given up.
  function GiveUp(gs: seq<Group>, eqs: seq<Alias>, n: nat): (r: seq<Group>)
    requires Points(gs, eqs) && n <= |eqs|
    ensures |r| == |gs|
  {
    if n == 0 then gs else
      var before := GiveUp(gs, eqs, n - 1);
      before[eqs[n - 1].g := before[eqs[n - 1].g].Marked(LongLoop)]
  }

  function MarkProblems(gs: seq<Group>, hostid: int): (r: seq<Group>)
    ensures |r| == |gs|
  {
    if hostid == NOHOST then gs else
      var end := Steps(gs, hostid, Collect(gs, hostid, |gs|), 0);
      var pending := Pending(end.gs, end.eqs);
      GiveUp(end.gs, pending, |pending|)
  }

  function Errors(gs: seq<Group>): nat {
    if gs == [] then 0 else Errors(gs[..|gs| - 1]) + if IsError(gs[|gs| - 1].ignore) then 1 else 0
  }

  // The first count of a sequence sorted on the flag is a count of its front.
  lemma {:induction false} LiveFront(eqs: seq<Alias>)
    requires forall i, j :: 0 <= i < j < |eqs| && eqs[i].skip ==> eqs[j].skip
    ensures forall k :: 0 <= k < |eqs| ==> (eqs[k].skip <==> k >= Live(eqs))
  {
    if eqs != [] {
      LiveFront(eqs[..|eqs| - 1]);
    }
  }

  lemma SortedAliases(gs: seq<Group>, eqs: seq<Alias>)
    requires Points(gs, eqs)
    ensures var sorted := SortAliases(gs, eqs);
      forall i, j :: 0 <= i < j < |sorted| ==>
        (sorted[i].skip ==> sorted[j].skip)
        && (sorted[i].skip == sorted[j].skip ==> Strcmp(sorted[i].eq, sorted[j].eq) <= 0)
  {
    hide Sort, Strcmp;
    var key := (a: Alias) requires a.g < |gs| => AliasKey(gs, a);
    SortOrders(key, eqs);
    var sorted := SortAliases(gs, eqs);
    forall i, j | 0 <= i < j < |sorted|
      ensures (sorted[i].skip ==> sorted[j].skip)
      ensures sorted[i].skip == sorted[j].skip ==> Strcmp(sorted[i].eq, sorted[j].eq) <= 0
    {
      assert CompareKeys(key(sorted[i]), key(sorted[j])) <= 0;
    }
  }

  // Exactly the records that are not skipped, their names ascending.
  lemma PendingIs(gs: seq<Group>, eqs: seq<Alias>)
    requires Points(gs, eqs)
    ensures forall a :: a in Pending(gs, eqs) <==> a in eqs && !a.skip
    ensures var r := Pending(gs, eqs); forall i, j :: 0 <= i < j < |r| ==> Strcmp(r[i].eq, r[j].eq) <= 0
  {
    hide Strcmp;
    SortedAliases(gs, eqs);
    LiveFront(SortAliases(gs, eqs));
    forall a | a in eqs && !a.skip
      ensures a in Pending(gs, eqs)
    {
      var sorted := SortAliases(gs, eqs);
      assert a in sorted;
      var k :| 0 <= k < |sorted| && sorted[k] == a;
      assert sorted[..Live(sorted)][k] == a;
    }
  }
}
