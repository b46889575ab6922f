// The host graph of ninpaths (backends/ninpaths.c) as a value, and what a dump of it adds up to.
module PathTable {
  import opened DumpFormat

  // A link to the host at an index, and a host with its links, the newest first.
  datatype Trec = Trec(to: nat, tally: int)
  datatype Nrec = Nrec(id: string, sentto: int, no: int, links: seq<Trec>)

  function Find(hosts: seq<Nrec>, name: string): (k: nat)
    ensures k <= |hosts| && (k < |hosts| ==> hosts[k].id == name)
    ensures forall i :: 0 <= i < k ==> hosts[i].id != name
  {
    if hosts == [] || hosts[0].id == name then 0 else Find(hosts[1..], name) + 1
  }

  function TallyTo(links: seq<Trec>, k: nat): int {
    if links == [] then 0 else if links[0].to == k then links[0].tally else TallyTo(links[1..], k)
  }

  // How often a host was seen, and one after the other.
  function SentTo(hosts: seq<Nrec>, name: string): int {
    var k := Find(hosts, name);
    if k < |hosts| then hosts[k].sentto else 0
  }

  function Tally(hosts: seq<Nrec>, x: string, y: string): int {
    var k := Find(hosts, x);
    if k < |hosts| && Find(hosts, y) < |hosts| then TallyTo(hosts[k].links, Find(hosts, y)) else 0
  }

  ghost predicate Known(hosts: seq<Nrec>, name: string) { Find(hosts, name) < |hosts| }

  // Every host has one record, and every pair of hosts at most one.
  ghost predicate HostsOk(hosts: seq<Nrec>) {
    (forall i, j :: 0 <= i < j < |hosts| ==> hosts[i].id != hosts[j].id)
    && forall i :: 0 <= i < |hosts| ==> LinksOk(hosts[i].links, |hosts|)
  }

  ghost predicate LinksOk(links: seq<Trec>, n: nat) {
    (forall t :: t in links ==> t.to < n)
    && forall i, j :: 0 <= i < j < |links| ==> links[i].to != links[j].to
  }

  lemma FindIs(hosts: seq<Nrec>, k: nat)
    requires HostsOk(hosts) && k < |hosts|
    ensures Find(hosts, hosts[k].id) == k
  {
  }

  lemma {:induction false} FindAppend(hosts: seq<Nrec>, h: Nrec, x: string)
    ensures Find(hosts + [h], x) ==
      if Find(hosts, x) < |hosts| then Find(hosts, x) else if h.id == x then |hosts| else |hosts| + 1
  {
    if hosts != [] {
      assert (hosts + [h])[1..] == hosts[1..] + [h];
      FindAppend(hosts[1..], h, x);
    }
  }

  // A host nobody has heard of yet.
  lemma NewHost(hosts: seq<Nrec>, name: string)
    requires HostsOk(hosts) && !Known(hosts, name)
    ensures var r := hosts + [Nrec(name, 0, 0, [])];
      && HostsOk(r)
      && (forall x :: Known(r, x) <==> x == name || Known(hosts, x))
      && (forall x :: SentTo(r, x) == SentTo(hosts, x))
      && (forall x, y :: Tally(r, x, y) == Tally(hosts, x, y))
  {
    var r := hosts + [Nrec(name, 0, 0, [])];
    forall i | 0 <= i < |r|
      ensures LinksOk(r[i].links, |r|)
    {
      assert i < |hosts| ==> LinksOk(hosts[i].links, |hosts|);
    }
    forall x
      ensures Find(r, x) == if Known(hosts, x) || x == name then Find(hosts, x) else |r|
    {
      FindAppend(hosts, Nrec(name, 0, 0, []), x);
    }
    forall x, y
      ensures Tally(r, x, y) == Tally(hosts, x, y)
    {
      if Known(hosts, x) && y == name {
        TallyToNone(hosts[Find(hosts, x)].links, |hosts|);
      }
    }
  }

  lemma {:induction false} TallyToNone(links: seq<Trec>, k: nat)
    requires forall t :: t in links ==> t.to != k
    ensures TallyTo(links, k) == 0
  {
    if links != [] {
      assert links[0] in links;
      TallyToNone(links[1..], k);
    }
  }

  lemma SameFind(hosts: seq<Nrec>, r: seq<Nrec>, x: string)
    requires |r| == |hosts| && forall i :: 0 <= i < |hosts| ==> r[i].id == hosts[i].id
    ensures Find(r, x) == Find(hosts, x)
  {
  }

  lemma MoreSent(hosts: seq<Nrec>, k: nat, c: int)
    requires HostsOk(hosts) && k < |hosts|
    ensures var r := hosts[k := hosts[k].(sentto := hosts[k].sentto + c)];
      && HostsOk(r)
      && (forall x :: Known(r, x) <==> Known(hosts, x))
      && (forall x :: SentTo(r, x) == SentTo(hosts, x) + if x == hosts[k].id then c else 0)
      && (forall x, y :: Tally(r, x, y) == Tally(hosts, x, y))
  {
    var r := hosts[k := hosts[k].(sentto := hosts[k].sentto + c)];
    forall x
      ensures Find(r, x) == Find(hosts, x)
    {
      SameFind(hosts, r, x);
    }
    FindIs(hosts, k);
    assert forall i :: 0 <= i < |hosts| ==> r[i].links == hosts[i].links;
    hide Find, LinksOk, TallyTo;
  }

  lemma {:induction false} MoreTally(links: seq<Trec>, p: nat, l: int, n: nat, k: nat)
    requires LinksOk(links, n) && p < |links|
    ensures var r := links[p := links[p].(tally := links[p].tally + l)];
      LinksOk(r, n) && TallyTo(r, k) == TallyTo(links, k) + if k == links[p].to then l else 0
  {
    var r := links[p := links[p].(tally := links[p].tally + l)];
    forall t | t in r
      ensures t.to < n
    {
      var i :| 0 <= i < |r| && r[i] == t;
      assert links[i] in links;
    }
    if p > 0 {
      assert LinksOk(links[1..], n);
      MoreTally(links[1..], p - 1, l, n, k);
      assert r[1..] == links[1..][p - 1 := links[p].(tally := links[p].tally + l)];
    }
  }

  // One pair of hosts was seen more often.
  lemma NewLinks(hosts: seq<Nrec>, a: nat, b: nat, links: seq<Trec>, l: int)
    requires HostsOk(hosts) && a < |hosts| && b < |hosts| && LinksOk(links, |hosts|)
    requires forall k :: TallyTo(links, k) == TallyTo(hosts[a].links, k) + if k == b then l else 0
    ensures var r := hosts[a := hosts[a].(links := links)];
      && HostsOk(r)
      && (forall x :: Known(r, x) <==> Known(hosts, x))
      && (forall x :: SentTo(r, x) == SentTo(hosts, x))
      && (forall x, y :: Tally(r, x, y) == Tally(hosts, x, y) + if x == hosts[a].id && y == hosts[b].id then l else 0)
  {
    var r := hosts[a := hosts[a].(links := links)];
    forall x
      ensures Find(r, x) == Find(hosts, x)
    {
      SameFind(hosts, r, x);
    }
    FindIs(hosts, a);
    FindIs(hosts, b);
    hide Find, LinksOk, TallyTo;
  }

  // ---- what a dump adds up to ----

  function SumSites(sites: seq<Site>, x: string): int {
    if sites == [] then 0
    else SumSites(sites[..|sites| - 1], x) + if sites[|sites| - 1].name == x then sites[|sites| - 1].count else 0
  }

  ghost function SumLinks(sites: seq<Site>, links: seq<Link>, x: string, y: string): int
    requires AllIn(links, |sites|)
  {
    if links == [] then 0 else
      var l := links[|links| - 1];
      assert InRange(links[|links| - 1].a, links[|links| - 1].b, |sites|) by { assert links[|links| - 1] in links; }
      SumLinks(sites, links[..|links| - 1], x, y)
      + if sites[l.a].name == x && sites[l.b].name == y then l.tally else 0
  }

  lemma {:induction false} SumLinksSplit(sites: seq<Site>, s: seq<Link>, t: seq<Link>, x: string, y: string)
    requires AllIn(s + t, |sites|)
    ensures AllIn(s, |sites|) && AllIn(t, |sites|)
    ensures SumLinks(sites, s + t, x, y) == SumLinks(sites, s, x, y) + SumLinks(sites, t, x, y)
  {
    if t == [] {
      assert s + t == s;
    } else {
      var n := |t| - 1;
      assert (s + t)[..|s + t| - 1] == s + t[..n];
      SumLinksSplit(sites, s, t[..n], x, y);
    }
  }

  // The order in which a dump goes through the hosts: every one, once.
  ghost predicate OrderOk(order: seq<nat>, n: nat) {
    |order| == n
    && (forall i :: 0 <= i < n ==> order[i] < n)
    && (forall i, j :: 0 <= i < j < n ==> order[i] != order[j])
    && (forall k :: 0 <= k < n ==> k in order)
  }

  function SitesOf(hosts: seq<Nrec>, order: seq<nat>): (r: seq<Site>)
    requires forall k :: k in order ==> k < |hosts|
    ensures |r| == |order|
  {
    seq(|order|, i requires 0 <= i < |order| =>
      var k := order[i]; assert k in order; Site(hosts[k].id, hosts[k].sentto))
  }

  function Place(order: seq<nat>, k: nat): (i: nat)
    ensures i <= |order| && (i < |order| ==> order[i] == k)
    ensures k in order ==> i < |order|
  {
    if order == [] || order[0] == k then 0 else Place(order[1..], k) + 1
  }

  function Counts(links: seq<Trec>, order: seq<nat>): (r: seq<(nat, int)>)
    ensures |r| == |links|
  {
    if links == [] then [] else [(Place(order, links[0].to), links[0].tally)] + Counts(links[1..], order)
  }

  function RecsOf(hosts: seq<Nrec>, order: seq<nat>): (r: seq<Rec>)
    requires forall k :: k in order ==> k < |hosts|
    ensures |r| == |order|
  {
    seq(|order|, i requires 0 <= i < |order| =>
      var k := order[i]; assert k in order; Rec(i, Counts(hosts[k].links, order)))
  }

  // The tally of a link as a dump shows it.
  function ShownTo(links: seq<Trec>, k: nat): int {
    if links == [] then 0 else if links[0].to == k then Shown(links[0].tally) else ShownTo(links[1..], k)
  }

  function ShownTally(hosts: seq<Nrec>, x: string, y: string): int {
    var k := Find(hosts, x);
    if k < |hosts| && Find(hosts, y) < |hosts| then ShownTo(hosts[k].links, Find(hosts, y)) else 0
  }

  lemma {:induction false} ShownExact(links: seq<Trec>, k: nat)
    requires forall t :: t in links ==> t.tally >= 1
    ensures ShownTo(links, k) == TallyTo(links, k)
  {
    if links != [] {
      assert links[0] in links;
      ShownExact(links[1..], k);
    }
  }

  lemma {:induction false} ShownNone(links: seq<Trec>, k: nat)
    requires forall t :: t in links ==> t.to != k
    ensures ShownTo(links, k) == 0
  {
    if links != [] {
      assert links[0] in links;
      ShownNone(links[1..], k);
    }
  }

  lemma {:induction false} SumSitesOnce(hosts: seq<Nrec>, order: seq<nat>, x: string, n: nat)
    requires HostsOk(hosts) && OrderOk(order, |hosts|) && n <= |order|
    ensures var k := Find(hosts, x);
      SumSites(SitesOf(hosts, order)[..n], x)
        == if k < |hosts| && Place(order, k) < n then hosts[k].sentto else 0
  {
    if n > 0 {
      SumSitesOnce(hosts, order, x, n - 1);
      var sites := SitesOf(hosts, order);
      assert sites[..n][..n - 1] == sites[..n - 1];
      var h := order[n - 1];
      assert h < |hosts|;
      FindIs(hosts, h);
      PlaceIs(order, n - 1, |hosts|);
    }
  }

  lemma PlaceIs(order: seq<nat>, i: nat, n: nat)
    requires OrderOk(order, n) && i < n
    ensures Place(order, order[i]) == i
  {
  }

  // All counts of a dump.
  lemma SitesAddUp(hosts: seq<Nrec>, order: seq<nat>, x: string)
    requires HostsOk(hosts) && OrderOk(order, |hosts|)
    ensures SumSites(SitesOf(hosts, order), x) == SentTo(hosts, x)
  {
    var sites := SitesOf(hosts, order);
    SumSitesOnce(hosts, order, x, |order|);
    assert sites[..|order|] == sites;
    assert Known(hosts, x) ==> Find(hosts, x) in order;
  }

  lemma {:induction false} RecAddsUp(hosts: seq<Nrec>, order: seq<nat>, i: nat, links: seq<Trec>, x: string, y: string)
    requires HostsOk(hosts) && OrderOk(order, |hosts|) && i < |order| && LinksOk(links, |hosts|)
    ensures var sites, r := SitesOf(hosts, order), RecLinks(i, Counts(links, order));
      && AllIn(r, |sites|)
      && SumLinks(sites, r, x, y)
           == if hosts[order[i]].id == x && Known(hosts, y) then ShownTo(links, Find(hosts, y)) else 0
  {
    if links != [] {
      var sites, r := SitesOf(hosts, order), RecLinks(i, Counts(links, order));
      var t := links[0];
      assert LinksOk(links[1..], |hosts|);
      RecAddsUp(hosts, order, i, links[1..], x, y);
      var more := RecLinks(i, Counts(links[1..], order));
      var first := Link(i, Place(order, t.to), Shown(t.tally));
      assert t in links && t.to in order;
      assert r == [first] + more;
      SumLinksSplit(sites, [first], more, x, y);
      assert [first][..0] == [];
      FindIs(hosts, t.to);
      hide HostsOk, OrderOk, SitesOf, RecLinks, Counts, Find;
      if Find(hosts, y) == t.to {
        ShownNone(links[1..], t.to);
      }
    }
  }

  lemma AllLinksStep(hosts: seq<Nrec>, order: seq<nat>, n: nat)
    requires OrderOk(order, |hosts|) && n < |order|
    ensures var recs := RecsOf(hosts, order);
      AllLinks(recs[n..]) == RecLinks(n, Counts(hosts[order[n]].links, order)) + AllLinks(recs[n + 1..])
  {
    hide Counts, RecLinks;
    var recs := RecsOf(hosts, order);
    assert recs[n..][1..] == recs[n + 1..];
  }

  lemma JoinedIn(s: seq<Link>, t: seq<Link>, n: int)
    requires AllIn(s, n) && AllIn(t, n)
    ensures AllIn(s + t, n)
  {
  }

  lemma {:induction false} RecsAddUp(hosts: seq<Nrec>, order: seq<nat>, n: nat, x: string, y: string)
    requires HostsOk(hosts) && OrderOk(order, |hosts|) && n <= |order|
    ensures var sites, r := SitesOf(hosts, order), AllLinks(RecsOf(hosts, order)[n..]);
      && AllIn(r, |sites|)
      && SumLinks(sites, r, x, y)
           == if Known(hosts, x) && Place(order, Find(hosts, x)) >= n then ShownTally(hosts, x, y) else 0
    decreases |order| - n
  {
    var sites := SitesOf(hosts, order);
    if n < |order| {
      var k := order[n];
      FindIs(hosts, k);
      PlaceIs(order, n, |hosts|);
      assert LinksOk(hosts[k].links, |hosts|);
      hide AllIn, LinksOk, ShownTo, SitesOf, RecsOf, AllLinks, RecLinks, Counts, SumLinks, Place;
      RecsAddUp(hosts, order, n + 1, x, y);
      AllLinksStep(hosts, order, n);
      RecAddsUp(hosts, order, n, hosts[k].links, x, y);
      var head, tail := RecLinks(n, Counts(hosts[k].links, order)), AllLinks(RecsOf(hosts, order)[n + 1..]);
      JoinedIn(head, tail, |sites|);
      SumLinksSplit(sites, head, tail, x, y);
      PlaceOnly(hosts, order, n, x);
    } else if Known(hosts, x) {
      assert Find(hosts, x) in order;
    }
  }

  // A host is met at its place and nowhere else.
  lemma PlaceOnly(hosts: seq<Nrec>, order: seq<nat>, n: nat, x: string)
    requires HostsOk(hosts) && OrderOk(order, |hosts|) && n < |order|
    ensures hosts[order[n]].id == x <==> Known(hosts, x) && Place(order, Find(hosts, x)) == n
  {
    FindIs(hosts, order[n]);
    PlaceIs(order, n, |hosts|);
    assert Known(hosts, x) ==> Find(hosts, x) in order;
  }

  // All tallies of a dump.
  lemma LinksAddUp(hosts: seq<Nrec>, order: seq<nat>, x: string, y: string)
    requires HostsOk(hosts) && OrderOk(order, |hosts|)
    ensures var sites, r := SitesOf(hosts, order), AllLinks(RecsOf(hosts, order));
      && AllIn(r, |sites|)
      && SumLinks(sites, r, x, y) == ShownTally(hosts, x, y)
  {
    RecsAddUp(hosts, order, 0, x, y);
    assert RecsOf(hosts, order)[0..] == RecsOf(hosts, order);
  }
}
