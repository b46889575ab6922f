// The host table of ninpaths (backends/ninpaths.c), and its dumps.
module Ninpaths {
  import opened DumpScan
  import opened DumpFormat
  import opened PathTable
  import opened FiniteSets

  const HASH_TBL := 65536

  ghost predicate ChainsOk(hosts: seq<Nrec>, chains: seq<seq<nat>>, hash: string -> nat) {
    |chains| == HASH_TBL
    && (forall x :: hash(x) < HASH_TBL)
    && (forall b :: 0 <= b < |chains| ==> ChainOk(hosts, chains[b], hash, b))
    && (forall k :: 0 <= k < |hosts| ==> k in chains[hash(hosts[k].id)])
  }

  ghost predicate ChainOk(hosts: seq<Nrec>, chain: seq<nat>, hash: string -> nat, b: nat) {
    (forall k :: k in chain ==> k < |hosts| && hash(hosts[k].id) == b)
    && NoRepeats(chain)
  }

  ghost predicate NoRepeats(s: seq<nat>) {
    forall p, q :: 0 <= p < q < |s| ==> s[p] != s[q]
  }

  // The first n chains, one after the other.
  function Flat(chains: seq<seq<nat>>, n: nat): seq<nat>
    requires n <= |chains|
  {
    if n == 0 then [] else Flat(chains, n - 1) + chains[n - 1]
  }

  lemma {:induction false} FlatPrefix(chains: seq<seq<nat>>, m: nat, n: nat)
    requires m <= n <= |chains|
    ensures Flat(chains, m) <= Flat(chains, n)
  {
    if m < n {
      FlatPrefix(chains, m, n - 1);
    }
  }

  // Where the dump meets the p'th host of a chain.
  lemma FlatAt(chains: seq<seq<nat>>, b: nat, p: nat)
    requires b < |chains| && p < |chains[b]|
    ensures var i, all := |Flat(chains, b)| + p, Flat(chains, |chains|);
      i < |all| && all[i] == chains[b][p]
  {
    FlatPrefix(chains, b + 1, |chains|);
  }

  lemma {:induction false} FlatOnce(hosts: seq<Nrec>, chains: seq<seq<nat>>, hash: string -> nat, n: nat)
    requires ChainsOk(hosts, chains, hash) && n <= |chains|
    ensures forall k :: k in Flat(chains, n) ==> k < |hosts| && hash(hosts[k].id) < n
    ensures NoRepeats(Flat(chains, n))
  {
    if n > 0 {
      FlatOnce(hosts, chains, hash, n - 1);
      assert ChainOk(hosts, chains[n - 1], hash, n - 1);
      var f, c := Flat(chains, n - 1), chains[n - 1];
      forall p, q | 0 <= p < q < |f + c|
        ensures (f + c)[p] != (f + c)[q]
      {
        if q < |f| {
          assert f[p] != f[q];
        } else if p < |f| {
          assert f[p] in f && c[q - |f|] in c;
        } else {
          assert c[p - |f|] != c[q - |f|];
        }
      }
    }
  }

  lemma {:induction false} FlatHas(chains: seq<seq<nat>>, b: nat, k: nat, n: nat)
    requires b < n <= |chains| && k in chains[b]
    ensures k in Flat(chains, n)
  {
    if b < n - 1 {
      FlatHas(chains, b, k, n - 1);
    }
  }

  function Elements(s: seq<nat>): set<nat> { set k | k in s }

  lemma {:induction false} ElementsSize(s: seq<nat>)
    requires NoRepeats(s)
    ensures |Elements(s)| == |s|
  {
    if s != [] {
      var n := |s| - 1;
      ElementsSize(s[..n]);
      assert s[n] !in s[..n];
      assert Elements(s) == Elements(s[..n]) + {s[n]};
    }
  }

  // A dump goes through every host, once: the count of sites is never wrong.
  lemma DumpOrder(hosts: seq<Nrec>, chains: seq<seq<nat>>, hash: string -> nat)
    requires ChainsOk(hosts, chains, hash)
    ensures OrderOk(Flat(chains, |chains|), |hosts|)
  {
    var order := Flat(chains, |chains|);
    FlatOnce(hosts, chains, hash, |chains|);
    forall k | 0 <= k < |hosts|
      ensures k in order
    {
      FlatHas(chains, hash(hosts[k].id), k, |chains|);
    }
    ElementsSize(order);
    assert Elements(order) == Below(|hosts|);
    forall i | 0 <= i < |order|
      ensures order[i] < |hosts|
    {
      assert order[i] in order;
    }
  }

  // A new host at the head of its chain.
  lemma NewChain(hosts: seq<Nrec>, chains: seq<seq<nat>>, hash: string -> nat, name: string)
    requires ChainsOk(hosts, chains, hash)
    ensures var b := hash(name);
      ChainsOk(hosts + [Nrec(name, 0, 0, [])], chains[b := [|hosts|] + chains[b]], hash)
  {
    var r, b := hosts + [Nrec(name, 0, 0, [])], hash(name);
    var after := chains[b := [|hosts|] + chains[b]];
    forall c | 0 <= c < |after|
      ensures ChainOk(r, after[c], hash, c)
    {
      assert ChainOk(hosts, chains[c], hash, c);
      forall p, q | 0 <= p < q < |after[c]|
        ensures after[c][p] != after[c][q]
      {
        if c == b && p == 0 {
          assert chains[b][q - 1] in chains[b];
        }
      }
    }
    forall k | 0 <= k < |r|
      ensures k in after[hash(r[k].id)]
    {
      if k < |hosts| && hash(hosts[k].id) == b {
        assert k in chains[b];
      }
    }
  }

  // Nothing that the chains depend on has changed.
  lemma SameChains(hosts: seq<Nrec>, r: seq<Nrec>, chains: seq<seq<nat>>, hash: string -> nat)
    requires ChainsOk(hosts, chains, hash) && SameIds(hosts, r) && |r| == |hosts|
    ensures ChainsOk(r, chains, hash)
  {
    forall b | 0 <= b < |chains|
      ensures ChainOk(r, chains[b], hash, b)
    {
      assert ChainOk(hosts, chains[b], hash, b);
    }
  }

  ghost predicate SameIds(hosts: seq<Nrec>, r: seq<Nrec>) {
    |r| >= |hosts| && forall k :: 0 <= k < |hosts| ==> r[k].id == hosts[k].id
  }

  // The same counts for the same hosts.
  ghost predicate SameSent(hosts: seq<Nrec>, r: seq<Nrec>) { forall x :: SentTo(r, x) == SentTo(hosts, x) }
  ghost predicate SameTally(hosts: seq<Nrec>, r: seq<Nrec>) { forall x, y :: Tally(r, x, y) == Tally(hosts, x, y) }
  ghost predicate SameKnown(hosts: seq<Nrec>, r: seq<Nrec>) { forall x :: Known(r, x) <==> Known(hosts, x) }

  lemma NotThere(hosts: seq<Nrec>, chains: seq<seq<nat>>, hash: string -> nat, name: string)
    requires ChainsOk(hosts, chains, hash)
    requires forall k :: k in chains[hash(name)] && k < |hosts| ==> hosts[k].id != name
    ensures !Known(hosts, name)
  {
  }

  // The hosts at n are those of the S-records.
  ghost predicate Stands(hosts: seq<Nrec>, n: seq<nat>, sites: seq<Site>) {
    |n| == |sites| && forall i :: 0 <= i < |n| ==> n[i] < |hosts| && hosts[n[i]].id == sites[i].name
  }

  lemma StandsNone(hosts: seq<Nrec>)
    ensures Stands(hosts, [], [])
  {
  }

  lemma StandsOne(h0: seq<Nrec>, h1: seq<Nrec>, n: seq<nat>, sites: seq<Site>, r: nat, s: Site)
    requires Stands(h0, n, sites) && SameIds(h0, h1) && r < |h1| && h1[r].id == s.name
    ensures Stands(h1, n + [r], sites + [s])
  {
  }

  ghost predicate Named(sites: seq<Site>, x: string) { exists s :: s in sites && s.name == x }

  // The counts of the S-records have been added.
  ghost predicate SitesAdded(h0: seq<Nrec>, h1: seq<Nrec>, sites: seq<Site>) {
    && SameIds(h0, h1) && SameTally(h0, h1)
    && (forall x :: SentTo(h1, x) == SentTo(h0, x) + SumSites(sites, x))
    && (forall x :: Known(h1, x) <==> Known(h0, x) || Named(sites, x))
  }

  lemma SitesAddedNone(h: seq<Nrec>)
    ensures SitesAdded(h, h, [])
  {
  }

  lemma AddSite(h0: seq<Nrec>, h1: seq<Nrec>, h2: seq<Nrec>, h3: seq<Nrec>, sites: seq<Site>, s: Site)
    requires SitesAdded(h0, h1, sites)
    requires SameIds(h1, h2) && SameSent(h1, h2) && SameTally(h1, h2)
    requires forall x :: Known(h2, x) <==> x == s.name || Known(h1, x)
    requires SameIds(h2, h3) && SameTally(h2, h3) && SameKnown(h2, h3)
    requires forall x :: SentTo(h3, x) == SentTo(h2, x) + if x == s.name then s.count else 0
    ensures SitesAdded(h0, h3, sites + [s])
  {
    hide SentTo, Tally, Known;
    var all := sites + [s];
    assert all[..|sites|] == sites;
    forall x
      ensures Named(all, x) <==> Named(sites, x) || x == s.name
    {
      assert s in all;
      assert forall t :: t in sites ==> t in all;
    }
  }

  // The tallies of the L-records have been added.
  ghost predicate LinksAdded(h0: seq<Nrec>, h1: seq<Nrec>, sites: seq<Site>, links: seq<Link>)
    requires AllIn(links, |sites|)
  {
    && SameIds(h0, h1) && SameSent(h0, h1) && SameKnown(h0, h1)
    && forall x, y :: Tally(h1, x, y) == Tally(h0, x, y) + SumLinks(sites, links, x, y)
  }

  lemma LinksAddedNone(h: seq<Nrec>, sites: seq<Site>)
    ensures AllIn([], |sites|) && LinksAdded(h, h, sites, [])
  {
  }

  lemma AddLink(h0: seq<Nrec>, h1: seq<Nrec>, h2: seq<Nrec>, sites: seq<Site>, links: seq<Link>, l: Link)
    requires InRange(l.a, l.b, |sites|) && AllIn(links, |sites|)
    requires LinksAdded(h0, h1, sites, links)
    requires SameIds(h1, h2) && SameSent(h1, h2) && SameKnown(h1, h2)
    requires forall x, y ::
      Tally(h2, x, y) == Tally(h1, x, y) + if x == sites[l.a].name && y == sites[l.b].name then l.tally else 0
    ensures AllIn(links + [l], |sites|) && LinksAdded(h0, h2, sites, links + [l])
  {
    hide SentTo, Tally, Known;
    assert (links + [l])[..|links|] == links;
  }

  lemma StandsSize(hosts: seq<Nrec>, n: seq<nat>, sites: seq<Site>)
    requires Stands(hosts, n, sites)
    ensures |n| == |sites|
  {
  }

  lemma StandsStill(h0: seq<Nrec>, h1: seq<Nrec>, n: seq<nat>, sites: seq<Site>)
    requires Stands(h0, n, sites) && SameIds(h0, h1)
    ensures Stands(h1, n, sites)
  {
  }

  lemma CountsStep(rest: string, a: int, sites: int, links: seq<Link>, whole: Links)
    requires var r := ScanCounts(rest, a, sites); whole == r.(links := links + r.links)
    ensures var one := ScanCount(rest);
      && (one.Failed? ==> whole == Links(links, one.rest, true))
      && (one.Got? && !InRange(a, one.value.0, sites) ==> whole == Links(links, one.rest, false))
      && (one.Got? && InRange(a, one.value.0, sites) ==>
            var r := ScanCounts(one.rest, a, sites);
            whole == r.(links := links + [Link(a, one.value.0, one.value.1)] + r.links))
  {
    hide ScanCount;
    assert links + [] == links;
    var one := ScanCount(rest);
    if one.Got? && InRange(a, one.value.0, sites) {
      var l, more := Link(a, one.value.0, one.value.1), ScanCounts(one.rest, a, sites).links;
      assert links + ([l] + more) == links + [l] + more;
    }
  }

  lemma TriplesStep(rest: string, sites: int, links: seq<Link>, whole: Links)
    requires var r := ScanTriples(rest, sites); whole == r.(links := links + r.links)
    ensures var one := ScanTriple(rest);
      && (one.Failed? ==> whole == Links(links, one.rest, true))
      && (one.Got? && !InRange(one.value.a, one.value.b, sites) ==> whole == Links(links, one.rest, false))
      && (one.Got? && InRange(one.value.a, one.value.b, sites) ==>
            var r := ScanTriples(one.rest, sites);
            whole == r.(links := links + [one.value] + r.links))
  {
    hide ScanTriple;
    assert links + [] == links;
    var one := ScanTriple(rest);
    if one.Got? && InRange(one.value.a, one.value.b, sites) {
      var more := ScanTriples(one.rest, sites).links;
      assert links + ([one.value] + more) == links + [one.value] + more;
    }
  }

  lemma LinksStep(rest: string, sites: int, links: seq<Link>, whole: Links)
    requires var r := ScanLinks(rest, sites); whole == r.(links := links + r.links)
    ensures var from := ScanFrom(rest);
      && (from.Failed? ==> whole == Links(links, from.rest, true))
      && (from.Got? ==>
            var counts := ScanCounts(from.rest, from.value, sites);
            && (!counts.ok ==> whole == counts.(links := links + counts.links))
            && (counts.ok ==>
                  var r := ScanLinks(counts.rest, sites);
                  whole == r.(links := links + counts.links + r.links)))
  {
    hide ScanFrom, ScanCounts;
    assert links + [] == links;
    var from := ScanFrom(rest);
    if from.Got? {
      var counts := ScanCounts(from.rest, from.value, sites);
      if counts.ok {
        var more := ScanLinks(counts.rest, sites).links;
        assert links + (counts.links + more) == links + counts.links + more;
      }
    }
  }

  // All that a dump says has been added.
  ghost predicate Added(h0: seq<Nrec>, h1: seq<Nrec>, d: Dump)
    requires AllIn(d.links, |d.sites|)
  {
    && (forall x :: SentTo(h1, x) == SentTo(h0, x) + SumSites(d.sites, x))
    && (forall x, y :: Tally(h1, x, y) == Tally(h0, x, y) + SumLinks(d.sites, d.links, x, y))
    && (forall x :: Known(h1, x) <==> Known(h0, x) || Named(d.sites, x))
  }

  lemma AddedNone(h: seq<Nrec>)
    ensures AllIn([], 0) && Added(h, h, Dump(NO_HEADER, [], [], FormErr(0)))
  {
    hide SentTo, Tally, Known;
    assert forall x :: SumSites([], x) == 0;
    assert forall x, y :: SumLinks([], [], x, y) == 0;
    assert forall x :: !Named([], x);
  }

  lemma SitesOnly(h0: seq<Nrec>, h1: seq<Nrec>, sites: seq<Site>)
    requires SitesAdded(h0, h1, sites)
    ensures AllIn([], |sites|) && forall header, verdict :: Added(h0, h1, Dump(header, sites, [], verdict))
  {
    hide SentTo, Tally, Known;
  }

  lemma SitesAndLinks(h0: seq<Nrec>, h1: seq<Nrec>, h2: seq<Nrec>, sites: seq<Site>, links: seq<Link>)
    requires AllIn(links, |sites|) && SitesAdded(h0, h1, sites) && LinksAdded(h1, h2, sites, links)
    ensures forall header, verdict :: Added(h0, h2, Dump(header, sites, links, verdict))
  {
    hide SentTo, Tally, Known;
  }

  // The same hosts but for their numbers in a dump.
  ghost predicate SameButNo(h0: seq<Nrec>, h1: seq<Nrec>) {
    |h1| == |h0| && forall k :: 0 <= k < |h0| ==> h1[k] == h0[k].(no := h1[k].no)
  }

  // The first n hosts have their numbers.
  ghost predicate Numbered(hosts: seq<Nrec>, order: seq<nat>, n: nat)
    requires OrderOk(order, |hosts|) && n <= |order|
  {
    forall q :: 0 <= q < n ==> hosts[order[q]].no == q
  }

  lemma NothingNumbered(h: seq<Nrec>)
    ensures SameButNo(h, h)
  {
  }

  lemma StillSame(h0: seq<Nrec>, h1: seq<Nrec>, h2: seq<Nrec>)
    requires SameButNo(h0, h1) && SameButNo(h1, h2)
    ensures SameButNo(h0, h2)
  {
  }

  lemma NoSitesText(j: nat)
    ensures SitesText([], j) == ""
  {
  }

  lemma SiteTextAt(sites: seq<Site>, n: nat, j: nat)
    requires n < |sites|
    ensures var t := sites[n].name + " " + Num(sites[n].count);
      SitesText(sites[n..], j) == if j + |t| > RECLINE then t + "\n" + SitesText(sites[n + 1..], 0)
                                  else t + " " + SitesText(sites[n + 1..], j + |t|)
  {
    hide Num;
    assert sites[n..][1..] == sites[n + 1..];
    var t := SiteText(sites[n]);
    hide SiteText;
    var more := SitesText(sites[n + 1..], if j + |t| > RECLINE then 0 else j + |t|);
    assert t + "\n" + more == t + ("\n" + more);
    assert t + " " + more == t + (" " + more);
  }

  // What is written for one host.
  ghost predicate SiteStep(sites: seq<Site>, n: nat, j0: nat, text: string, j: nat)
    requires n < |sites|
  {
    SitesText(sites[n..], j0) == text + SitesText(sites[n + 1..], j)
  }

  // What is written for the hosts up to the n'th.
  ghost predicate SitesWritten(sites: seq<Site>, n: nat, out: string, j: nat)
    requires n <= |sites|
  {
    out + SitesText(sites[n..], j) == SitesText(sites, 0)
  }

  lemma SiteWritten(sites: seq<Site>, n: nat, j0: nat, text: string, j: nat)
    requires n < |sites|
    requires var t := sites[n].name + " " + Num(sites[n].count);
      if j0 + |t| > RECLINE then text == t + "\n" && j == 0 else text == t + " " && j == j0 + |t|
    ensures SiteStep(sites, n, j0, text, j)
  {
    SiteTextAt(sites, n, j0);
    hide SitesText, Num;
  }

  lemma SitesOn(sites: seq<Site>, n: nat, out: string, j0: nat, text: string, j: nat)
    requires n < |sites| && SitesWritten(sites, n, out, j0) && SiteStep(sites, n, j0, text, j)
    ensures SitesWritten(sites, n + 1, out + text, j)
  {
    hide SitesText;
    Regroup(out, text, SitesText(sites[n + 1..], j));
  }

  lemma SitesBegin(sites: seq<Site>)
    ensures SitesWritten(sites, 0, "", 0)
  {
    hide SitesText;
    assert sites[0..] == sites;
  }

  lemma SitesEnd(sites: seq<Site>, out: string, j: nat)
    requires SitesWritten(sites, |sites|, out, j)
    ensures out == SitesText(sites, 0)
  {
    NoSitesText(j);
    hide SitesText;
    assert sites[|sites|..] == [];
  }

  // One more host has its number.
  lemma Renumbered(hosts: seq<Nrec>, chains: seq<seq<nat>>, hash: string -> nat, order: seq<nat>, n: nat)
    requires HostsOk(hosts) && ChainsOk(hosts, chains, hash) && OrderOk(order, |hosts|)
    requires n < |order| && Numbered(hosts, order, n)
    ensures var r := hosts[order[n] := hosts[order[n]].(no := n)];
      && HostsOk(r) && ChainsOk(r, chains, hash) && SameButNo(hosts, r)
      && Numbered(r, order, n + 1) && SitesOf(r, order) == SitesOf(hosts, order)
  {
    var r := hosts[order[n] := hosts[order[n]].(no := n)];
    SameChains(hosts, r, chains, hash);
    assert forall k :: 0 <= k < |hosts| ==> r[k].links == hosts[k].links && r[k].id == hosts[k].id;
    hide LinksOk, ChainsOk;
    assert SitesOf(r, order) == SitesOf(hosts, order);
  }

  lemma Regroup(a: string, b: string, c: string)
    ensures a + (b + c) == (a + b) + c
  {
  }

  lemma NumberIs(hosts: seq<Nrec>, order: seq<nat>, k: nat)
    requires OrderOk(order, |hosts|) && Numbered(hosts, order, |order|) && k < |hosts|
    ensures hosts[k].no == Place(order, k)
  {
    assert k in order;
  }

  lemma LinkTo(hosts: seq<Nrec>, h: nat, q: nat)
    requires HostsOk(hosts) && h < |hosts| && q < |hosts[h].links|
    ensures hosts[h].links[q].to < |hosts|
  {
    assert LinksOk(hosts[h].links, |hosts|) && hosts[h].links[q] in hosts[h].links;
  }

  lemma CountsTextAt(links: seq<Trec>, order: seq<nat>, q: nat)
    requires q < |links|
    ensures CountsText(Counts(links[q..], order))
      == CountText((Place(order, links[q].to), links[q].tally)) + CountsText(Counts(links[q + 1..], order))
  {
    assert links[q..][1..] == links[q + 1..];
    hide CountText;
  }

  lemma NoCountsText(links: seq<Trec>, order: seq<nat>)
    requires links == []
    ensures CountsText(Counts(links, order)) == ""
  {
  }

  lemma RecTextAt(recs: seq<Rec>, n: nat, j: nat)
    requires n < |recs|
    ensures var t := RecText(recs[n]);
      RecsText(recs[n..], j) == if recs[n].to == [] then RecsText(recs[n + 1..], j)
                                else if j + |t| > RECLINE then t + "\n" + RecsText(recs[n + 1..], 0)
                                else t + RecsText(recs[n + 1..], j + |t|)
  {
    hide RecText;
    assert recs[n..][1..] == recs[n + 1..];
    var t := RecText(recs[n]);
    var more := RecsText(recs[n + 1..], 0);
    assert t + "\n" + more == t + ("\n" + more);
  }

  lemma NoRecsText(j: nat)
    ensures RecsText([], j) == "" && LinkCount([]) == 0
  {
  }

  // Everything the L-records are written from.
  ghost predicate LinksReady(hosts: seq<Nrec>, chains: seq<seq<nat>>, order: seq<nat>, recs: seq<Rec>) {
    && HostsOk(hosts) && OrderOk(order, |hosts|) && order == Flat(chains, |chains|)
    && Numbered(hosts, order, |order|) && recs == RecsOf(hosts, order)
  }

  lemma RecAt(hosts: seq<Nrec>, chains: seq<seq<nat>>, order: seq<nat>, recs: seq<Rec>, n: nat)
    requires LinksReady(hosts, chains, order, recs) && n < |order|
    ensures order[n] < |hosts| && Place(order, order[n]) == n
    ensures recs[n] == Rec(n, Counts(hosts[order[n]].links, order))
  {
    PlaceIs(order, n, |hosts|);
  }

  lemma InOrder(hosts: seq<Nrec>, chains: seq<seq<nat>>, order: seq<nat>, recs: seq<Rec>, i: nat, p: nat)
    requires LinksReady(hosts, chains, order, recs) && i < |chains| && p < |chains[i]|
    ensures var m := |Flat(chains, i)| + p; m < |order| == |recs| && order[m] == chains[i][p]
  {
    FlatAt(chains, i, p);
  }

  // What is written for one host.
  ghost predicate RecStep(recs: seq<Rec>, n: nat, j0: nat, text: string, count: nat, j: nat)
    requires n < |recs|
  {
    && RecsText(recs[n..], j0) == text + RecsText(recs[n + 1..], j)
    && LinkCount(recs[n..]) == count + LinkCount(recs[n + 1..])
  }

  // What is written for the hosts up to the m'th.
  ghost predicate Written(recs: seq<Rec>, m: nat, out: string, n: nat, j: nat)
    requires m <= |recs|
  {
    && out + RecsText(recs[m..], j) == RecsText(recs, 0)
    && n + LinkCount(recs[m..]) == LinkCount(recs)
  }

  lemma NothingWritten(recs: seq<Rec>)
    ensures Written(recs, 0, "", 0, 0)
  {
    assert recs[0..] == recs;
  }

  lemma AllWritten(recs: seq<Rec>, out: string, n: nat, j: nat)
    requires Written(recs, |recs|, out, n, j)
    ensures out == RecsText(recs, 0) && n == LinkCount(recs)
  {
    NoRecsText(j);
    assert recs[|recs|..] == [];
  }

  lemma WrittenOn(recs: seq<Rec>, m: nat, out: string, n: nat, j0: nat, text: string, count: nat, j: nat)
    requires m < |recs| && Written(recs, m, out, n, j0) && RecStep(recs, m, j0, text, count, j)
    ensures Written(recs, m + 1, out + text, n + count, j)
  {
    hide RecsText, LinkCount;
    Regroup(out, text, RecsText(recs[m + 1..], j));
  }

  lemma RecWritten(recs: seq<Rec>, n: nat, j0: nat, line: string, text: string, j: nat)
    requires n < |recs|
    requires recs[n].to == [] ==> text == "" && j == j0
    requires recs[n].to != [] ==> line == RecText(recs[n])
    requires recs[n].to != [] ==>
      if j0 + |line| > RECLINE then text == line + "\n" && j == 0 else text == line && j == j0 + |line|
    ensures RecStep(recs, n, j0, text, |recs[n].to|, j)
  {
    hide RecsText, LinkCount, RecText;
    RecTextAt(recs, n, j0);
    LinkCountAt(recs, n);
    var more := RecsText(recs[n + 1..], j);
    if recs[n].to == [] {
      assert text + more == more;
    } else if j0 + |line| > RECLINE {
      assert RecsText(recs[n..], j0) == line + "\n" + more;
    } else {
      assert RecsText(recs[n..], j0) == line + more;
    }
  }

  lemma LinkCountAt(recs: seq<Rec>, n: nat)
    requires n < |recs|
    ensures LinkCount(recs[n..]) == |recs[n].to| + LinkCount(recs[n + 1..])
  {
    assert recs[n..][1..] == recs[n + 1..];
  }

  lemma SameSize(h0: seq<Nrec>, h1: seq<Nrec>)
    requires SameButNo(h0, h1)
    ensures |h1| == |h0|
  {
  }

  // Every name can be read back, and there is one.
  ghost predicate Dumpable(hosts: seq<Nrec>) {
    hosts != [] && forall h :: h in hosts ==> Readable(h.id)
  }

  // No link was seen less than once.
  ghost predicate AllSeen(hosts: seq<Nrec>) {
    forall h :: h in hosts ==> forall t :: t in h.links ==> t.tally >= 1
  }

  lemma {:induction false} CountsInRange(links: seq<Trec>, order: seq<nat>, n: nat)
    requires LinksOk(links, n) && OrderOk(order, n)
    ensures forall t :: t in Counts(links, order) ==> t.0 < n
  {
    if links != [] {
      assert links[0] in links && links[0].to in order;
      assert LinksOk(links[1..], n);
      CountsInRange(links[1..], order, n);
    }
  }

  lemma RecsInRange(hosts: seq<Nrec>, order: seq<nat>)
    requires HostsOk(hosts) && OrderOk(order, |hosts|)
    ensures RecsOk(RecsOf(hosts, order), |hosts|)
  {
    var recs := RecsOf(hosts, order);
    forall r | r in recs
      ensures r.a < |hosts| && forall t :: t in r.to ==> t.0 < |hosts|
    {
      var i :| 0 <= i < |recs| && recs[i] == r;
      CountsInRange(hosts[order[i]].links, order, |hosts|);
    }
  }

  lemma SitesReadable(hosts: seq<Nrec>, order: seq<nat>)
    requires OrderOk(order, |hosts|)
    ensures SitesOf(hosts, order) != [] && AllReadable(SitesOf(hosts, order)) <==> Dumpable(hosts)
  {
    var sites := SitesOf(hosts, order);
    hide Readable;
    if Dumpable(hosts) {
      forall s | s in sites
        ensures Readable(s.name)
      {
        var i :| 0 <= i < |sites| && sites[i] == s;
        assert hosts[order[i]] in hosts;
      }
    } else if hosts != [] {
      var h :| h in hosts && !Readable(h.id);
      var k :| 0 <= k < |hosts| && hosts[k] == h;
      assert k in order;
      var i :| 0 <= i < |order| && order[i] == k;
      assert sites[i] in sites && sites[i].name == h.id;
    }
  }

  // What is written of a table is read back exactly when its names allow it.
  lemma DumpBack(hosts: seq<Nrec>, order: seq<nat>, h: Header)
    requires HostsOk(hosts) && OrderOk(order, |hosts|) && h.version == VERSION && h.sites == |hosts|
    ensures var sites, recs := SitesOf(hosts, order), RecsOf(hosts, order);
      Parse(DumpText(h, sites, recs)) == Dump(h, sites, AllLinks(recs), Fine) <==> Dumpable(hosts)
  {
    RecsInRange(hosts, order);
    SitesReadable(hosts, order);
    hide SitesOf, RecsOf, Parse, DumpText, RecsOk, Readable, HostsOk, OrderOk, Dumpable, AllLinks;
    ParseExact(h, SitesOf(hosts, order), RecsOf(hosts, order));
  }

  // What one table has counted has been added to another: the counts of the hosts and
  // the tallies as a dump shows them.
  ghost predicate Joined(h0: seq<Nrec>, h1: seq<Nrec>, hosts: seq<Nrec>) {
    && (forall x :: SentTo(h1, x) == SentTo(h0, x) + SentTo(hosts, x))
    && (forall x, y :: Tally(h1, x, y) == Tally(h0, x, y) + ShownTally(hosts, x, y))
    && (forall x :: Known(h1, x) <==> Known(h0, x) || Known(hosts, x))
  }

  ghost predicate TalliesJoined(h0: seq<Nrec>, h1: seq<Nrec>, hosts: seq<Nrec>) {
    forall x, y :: Tally(h1, x, y) == Tally(h0, x, y) + Tally(hosts, x, y)
  }

  lemma AllJoined(h0: seq<Nrec>, h1: seq<Nrec>, hosts: seq<Nrec>)
    requires Joined(h0, h1, hosts) && AllSeen(hosts)
    ensures TalliesJoined(h0, h1, hosts)
  {
    hide SentTo, Tally, ShownTally, Known, AllSeen;
    forall x, y
      ensures Tally(h1, x, y) == Tally(h0, x, y) + Tally(hosts, x, y)
    {
      AllShown(hosts, x, y);
    }
  }

  // And it adds up to the counts and the tallies of the table.
  lemma DumpAdds(hosts: seq<Nrec>, order: seq<nat>, h: Header, h0: seq<Nrec>, h1: seq<Nrec>)
    requires HostsOk(hosts) && OrderOk(order, |hosts|)
    requires AllIn(AllLinks(RecsOf(hosts, order)), |hosts|)
    requires Added(h0, h1, Dump(h, SitesOf(hosts, order), AllLinks(RecsOf(hosts, order)), Fine))
    ensures Joined(h0, h1, hosts)
  {
    var sites, links := SitesOf(hosts, order), AllLinks(RecsOf(hosts, order));
    hide AllLinks, RecsOf, HostsOk, LinksOk, SentTo, Tally, ShownTally, AllIn;
    forall x
      ensures SumSites(sites, x) == SentTo(hosts, x)
      ensures Named(sites, x) <==> Known(hosts, x)
    {
      SitesAddUp(hosts, order, x);
      NamedIs(hosts, order, x);
    }
    forall x, y
      ensures SumLinks(sites, links, x, y) == ShownTally(hosts, x, y)
    {
      LinksAddUp(hosts, order, x, y);
    }
    hide SumSites, SumLinks, SitesOf, OrderOk, Named, Known;
  }

  lemma NamedIs(hosts: seq<Nrec>, order: seq<nat>, x: string)
    requires OrderOk(order, |hosts|)
    ensures Named(SitesOf(hosts, order), x) <==> Known(hosts, x)
  {
    var sites := SitesOf(hosts, order);
    if Known(hosts, x) {
      var k := Find(hosts, x);
      assert k in order;
      var i :| 0 <= i < |order| && order[i] == k;
      assert sites[i] in sites;
    }
  }

  lemma AllShown(hosts: seq<Nrec>, x: string, y: string)
    requires AllSeen(hosts)
    ensures ShownTally(hosts, x, y) == Tally(hosts, x, y)
  {
    var k := Find(hosts, x);
    if k < |hosts| {
      assert hosts[k] in hosts;
      ShownExact(hosts[k].links, Find(hosts, y));
    }
  }

  // Where a name ends.
  function Cut(c: string): (e: nat)
    ensures e <= |c| && (e < |c| ==> c[e] == '!') && '!' !in c[..e]
  {
    if c == "" || c[0] == '!' then 0 else Cut(c[1..]) + 1
  }

  function SkipBangs(c: string): (r: string)
    ensures |r| <= |c| && (c != "" && c[0] == '!' ==> |r| < |c|) && (r != "" ==> r[0] != '!')
    ensures forall x :: x in r ==> x in c
  {
    if c != "" && c[0] == '!' then SkipBangs(c[1..]) else c
  }

  // The hosts of a Path line.
  function PathNames(c: string): seq<string>
    decreases |c|
  {
    if c == "" || Cut(c) > MAXHOST - 1 then [] else [c[..Cut(c)]] + PathNames(SkipBangs(c[Cut(c)..]))
  }

  function Seen(names: seq<string>, x: string): nat {
    if names == [] then 0 else Seen(names[..|names| - 1], x) + if names[|names| - 1] == x then 1 else 0
  }

  // How often a path goes from one host to another.
  function Hops(names: seq<string>, x: string, y: string): nat {
    if |names| < 2 then 0 else
      Hops(names[..|names| - 1], x, y)
      + if x != y && names[|names| - 2] == x && names[|names| - 1] == y then 1 else 0
  }

  ghost predicate PathAdded(h0: seq<Nrec>, h1: seq<Nrec>, names: seq<string>) {
    && (forall x :: SentTo(h1, x) == SentTo(h0, x) + Seen(names, x))
    && (forall x, y :: Tally(h1, x, y) == Tally(h0, x, y) + Hops(names, x, y))
    && (forall x :: Known(h1, x) <==> Known(h0, x) || x in names)
  }

  // What several Path lines tell.
  function LinesSeen(lines: seq<string>, x: string): nat {
    if lines == [] then 0 else LinesSeen(lines[..|lines| - 1], x) + Seen(PathNames(lines[|lines| - 1]), x)
  }

  function LinesHops(lines: seq<string>, x: string, y: string): nat {
    if lines == [] then 0 else LinesHops(lines[..|lines| - 1], x, y) + Hops(PathNames(lines[|lines| - 1]), x, y)
  }

  ghost predicate Told(lines: seq<string>, x: string) { exists line :: line in lines && x in PathNames(line) }

  ghost predicate LinesAdded(h0: seq<Nrec>, h1: seq<Nrec>, lines: seq<string>) {
    && (forall x :: SentTo(h1, x) == SentTo(h0, x) + LinesSeen(lines, x))
    && (forall x, y :: Tally(h1, x, y) == Tally(h0, x, y) + LinesHops(lines, x, y))
    && (forall x :: Known(h1, x) <==> Known(h0, x) || Told(lines, x))
  }

  lemma LinesAddedNone(h: seq<Nrec>)
    ensures LinesAdded(h, h, [])
  {
  }

  lemma LineAdded(h0: seq<Nrec>, h1: seq<Nrec>, h2: seq<Nrec>, lines: seq<string>, i: nat)
    requires i < |lines| && LinesAdded(h0, h1, lines[..i]) && PathAdded(h1, h2, PathNames(lines[i]))
    ensures LinesAdded(h0, h2, lines[..i + 1])
  {
    hide Known, SentTo, Tally, Seen, Hops, PathNames;
    var line, some, more := lines[i], lines[..i], lines[..i + 1];
    assert more == some + [line] && more[..|more| - 1] == some;
    forall x
      ensures Told(more, x) <==> Told(some, x) || x in PathNames(line)
    {
      assert line in more;
      assert forall l :: l in more <==> l in some || l == line;
    }
  }

  lemma PathAddedNone(h: seq<Nrec>)
    ensures PathAdded(h, h, [])
  {
  }

  lemma NoNames()
    ensures PathNames("") == []
  {
  }

  lemma PathStep(c: string, names: seq<string>)
    requires c != ""
    ensures if Cut(c) > MAXHOST - 1 then PathNames(c) == [] else
      |SkipBangs(c[Cut(c)..])| < |c|
      && names + PathNames(c) == names + [c[..Cut(c)]] + PathNames(SkipBangs(c[Cut(c)..]))
  {
  }

  // Two records are one when their names are.
  lemma SameRecord(hosts: seq<Nrec>, first: bool, r: nat, h: nat, names: seq<string>, name: string)
    requires HostsOk(hosts) && h < |hosts| && hosts[h].id == name && (first <==> names == [])
    requires !first ==> r < |hosts| && hosts[r].id == names[|names| - 1]
    ensures !first ==> (r == h <==> names[|names| - 1] == name)
  {
    if !first {
      FindIs(hosts, r);
      FindIs(hosts, h);
    }
  }

  lemma NameAdded(h0: seq<Nrec>, h1: seq<Nrec>, h2: seq<Nrec>, h3: seq<Nrec>, h4: seq<Nrec>, names: seq<string>,
                  name: string)
    requires PathAdded(h0, h1, names)
    requires SameSent(h1, h2) && SameTally(h1, h2) && forall x :: Known(h2, x) <==> x == name || Known(h1, x)
    requires SameTally(h2, h3) && SameKnown(h2, h3)
    requires forall x :: SentTo(h3, x) == SentTo(h2, x) + if x == name then 1 else 0
    requires SameSent(h3, h4) && SameKnown(h3, h4)
    requires forall x, y ::
      Tally(h4, x, y) == Tally(h3, x, y)
        + if names != [] && x == names[|names| - 1] && y == name && x != y then 1 else 0
    ensures PathAdded(h0, h4, names + [name])
  {
    hide Known, SentTo, Tally;
    assert (names + [name])[..|names|] == names;
  }

  lemma TallySeen(hosts: seq<Nrec>, r: nat, links: seq<Trec>, t: nat)
    requires AllSeen(hosts) && r < |hosts| && t < |links|
    requires links == hosts[r].links || (links[1..] == hosts[r].links && t == 0 && links[0].tally == 0)
    ensures links[t].tally >= 0
    ensures forall i :: 0 <= i < |links| && i != t ==> links[i].tally >= 1
  {
    assert hosts[r] in hosts;
    forall i | 0 <= i < |links| && (i != t || links == hosts[r].links)
      ensures links[i].tally >= 1
    {
      assert links == hosts[r].links ==> links[i] in hosts[r].links;
      assert links != hosts[r].links ==> links[1..][i - 1] in hosts[r].links;
    }
  }

  lemma SeenMore(hosts: seq<Nrec>, r: nat, links: seq<Trec>, t: nat, l: int)
    requires AllSeen(hosts) && r < |hosts| && t < |links| && l >= 1
    requires forall i :: 0 <= i < |links| && i != t ==> links[i].tally >= 1
    requires links[t].tally >= 0
    ensures AllSeen(hosts[r := hosts[r].(links := links[t := links[t].(tally := links[t].tally + l)])])
  {
    var more := links[t := links[t].(tally := links[t].tally + l)];
    forall k | k in more
      ensures k.tally >= 1
    {
      var i :| 0 <= i < |more| && more[i] == k;
      assert i == t ==> k.tally == links[t].tally + l;
    }
    assert forall h :: h in hosts[r := hosts[r].(links := more)] ==> h in hosts || h == hosts[r].(links := more);
  }

  class Paths {
    const hash: string -> nat
    var hosts: seq<Nrec>
    var chains: seq<seq<nat>>
    var total: int
    var starttime: nat

    ghost predicate Valid()
      reads `hosts, `chains
    {
      HostsOk(hosts) && ChainsOk(hosts, chains, hash)
    }

    constructor (hash: string -> nat, now: nat)
      requires forall x :: hash(x) < HASH_TBL
      ensures Valid() && hosts == [] && total == 0 && starttime == now
    {
      this.hash := hash;
      hosts := [];
      chains := seq(HASH_TBL, _ => []);
      total := 0;
      starttime := now;
    }

    // The host of this name, which may be a new one.
    method Hhost(name: string) returns (r: nat)
      requires Valid()
      modifies `hosts, `chains
      ensures Valid() && r < |hosts| && hosts[r].id == name && SameIds(old(hosts), hosts)
      ensures SameSent(old(hosts), hosts) && SameTally(old(hosts), hosts)
      ensures forall x :: Known(hosts, x) <==> x == name || Known(old(hosts), x)
      ensures AllSeen(old(hosts)) ==> AllSeen(hosts)
    {
      var b := hash(name);
      var chain, p := chains[b], 0;
      assert ChainOk(hosts, chain, hash, b);
      forall q | 0 <= q < |chain|
        ensures chain[q] < |hosts|
      {
        assert chain[q] in chain;
      }
      while p < |chain|
        invariant 0 <= p <= |chain|
        invariant forall q :: 0 <= q < p ==> hosts[chain[q]].id != name
      {
        if hosts[chain[p]].id == name {
          r := chain[p];
          FindIs(hosts, r);
          return;
        }
        p := p + 1;
      }
      NotThere(hosts, chains, hash, name);
      NewHost(hosts, name);
      NewChain(hosts, chains, hash, name);
      hide HostsOk, ChainsOk, Known, SentTo, Tally;
      r := |hosts|;
      hosts, chains := hosts + [Nrec(name, 0, 0, [])], chains[b := [|hosts|] + chains[b]];
    }

    // Counts the host at r.
    method Sent(r: nat, c: int)
      requires Valid() && r < |hosts|
      modifies `hosts
      ensures Valid() && SameIds(old(hosts), hosts) && |hosts| == |old(hosts)|
      ensures SameTally(old(hosts), hosts) && SameKnown(old(hosts), hosts)
      ensures forall x :: SentTo(hosts, x) == SentTo(old(hosts), x) + if x == hosts[r].id then c else 0
      ensures AllSeen(old(hosts)) ==> AllSeen(hosts)
    {
      hide HostsOk, ChainsOk, Known, SentTo, Tally;
      MoreSent(hosts, r, c);
      ghost var next := hosts[r := hosts[r].(sentto := hosts[r].sentto + c)];
      SameChains(hosts, next, chains, hash);
      hosts := hosts[r := hosts[r].(sentto := hosts[r].sentto + c)];
    }

    // The record of a pair in the list, or the length when there is none.
    static method FindTrec(links: seq<Trec>, h: nat) returns (t: nat)
      ensures t <= |links| && (t < |links| ==> links[t].to == h)
      ensures forall q :: 0 <= q < t ==> links[q].to != h
    {
      t := 0;
      while t < |links| && links[t].to != h
        invariant 0 <= t <= |links|
        invariant forall q :: 0 <= q < t ==> links[q].to != h
      {
        t := t + 1;
      }
    }

    // The record of the link from r to h, which may be a new one, is counted.
    method TallyRec(r: nat, h: nat, l: int)
      requires Valid() && r < |hosts| && h < |hosts|
      modifies `hosts
      ensures Valid() && SameIds(old(hosts), hosts) && |hosts| == |old(hosts)|
      ensures SameSent(old(hosts), hosts) && SameKnown(old(hosts), hosts)
      ensures forall x, y ::
        Tally(hosts, x, y) == Tally(old(hosts), x, y) + if x == hosts[r].id && y == hosts[h].id then l else 0
      ensures l >= 1 && AllSeen(old(hosts)) ==> AllSeen(hosts)
    {
      hide AllSeen;
      var links := hosts[r].links;
      assert LinksOk(links, |hosts|);
      var t := FindTrec(links, h);
      if t == |links| {
        NewTrec(links, h, |hosts|);
        links := [Trec(h, 0)] + links;
        t := 0;
      }
      forall k
        ensures TallyTo(links[t := links[t].(tally := links[t].tally + l)], k)
          == TallyTo(hosts[r].links, k) + if k == h then l else 0
      {
        MoreTally(links, t, l, |hosts|, k);
      }
      MoreTally(links, t, l, |hosts|, h);
      if l >= 1 && AllSeen(hosts) {
        TallySeen(hosts, r, links, t);
        SeenMore(hosts, r, links, t, l);
      }
      links := links[t := links[t].(tally := links[t].tally + l)];
      NewLinks(hosts, r, h, links, l);
      SameChains(hosts, hosts[r := hosts[r].(links := links)], chains, hash);
      hide HostsOk, ChainsOk, LinksOk, Known, SentTo, Tally, TallyTo;
      hosts := hosts[r := hosts[r].(links := links)];
    }

    // The S-records, n of them: the hosts they are about, and what is left to read.
    method ReadSites(input: string, sit: nat) returns (n: seq<nat>, rest: string, ok: bool)
      requires Valid()
      modifies `hosts, `chains
      ensures Valid()
      ensures var r := ScanSites(input, sit);
        && ok == r.ok && rest == r.rest
        && Stands(hosts, n, r.sites) && SitesAdded(old(hosts), hosts, r.sites)
    {
      n, rest, ok := [], input, true;
      ghost var sites: seq<Site> := [];
      ghost var whole := ScanSites(input, sit);
      SitesAddedNone(hosts);
      hide HostsOk, ChainsOk, Known, SentTo, Tally, ScanSite, SitesAdded, Stands;
      assert Stands(hosts, [], []) by { StandsNone(hosts); }
      var i := 0;
      while i < sit
        invariant 0 <= i <= sit && Valid()
        invariant Stands(hosts, n, sites) && SitesAdded(old(hosts), hosts, sites)
        invariant var r := ScanSites(rest, sit - i); whole == r.(sites := sites + r.sites)
      {
        var one := ScanSite(rest);
        if one.Failed? {
          rest, ok := one.rest, false;
          assert sites + [] == sites;
          return;
        }
        ghost var before := hosts;
        var r := Hhost(one.value.name);
        ghost var between := hosts;
        Sent(r, one.value.count);
        AddSite(old(hosts), before, between, hosts, sites, one.value);
        StandsOne(before, hosts, n, sites, r, one.value);
        n, rest := n + [r], one.rest;
        ghost var more := ScanSites(rest, sit - i - 1).sites;
        assert sites + ([one.value] + more) == sites + [one.value] + more;
        sites := sites + [one.value];
        i := i + 1;
      }
      assert sites + [] == sites;
    }

    // One more link between two sites of the dump.
    method OneLink(n: seq<nat>, l: Link, ghost sites: seq<Site>, ghost links: seq<Link>, ghost h0: seq<Nrec>)
      requires Valid() && Stands(hosts, n, sites) && InRange(l.a, l.b, |n|)
      requires AllIn(links, |sites|) && LinksAdded(h0, hosts, sites, links)
      modifies `hosts
      ensures Valid() && Stands(hosts, n, sites)
      ensures AllIn(links + [l], |sites|) && LinksAdded(h0, hosts, sites, links + [l])
    {
      hide HostsOk, ChainsOk, Known, SentTo, Tally, AllIn, LinksAdded;
      ghost var before := hosts;
      TallyRec(n[l.a], n[l.b], l.tally);
      StandsStill(before, hosts, n, sites);
      hide SameSent, SameKnown, SameIds;
      AddLink(h0, before, hosts, sites, links, l);
    }

    // The counts of one L-record of version 3.1.
    method ReadCounts(input: string, a: int, n: seq<nat>, m0: nat, ghost sites: seq<Site>, ghost links0: seq<Link>,
                      ghost h0: seq<Nrec>)
      returns (rest: string, ok: bool, m: nat)
      requires Valid() && Stands(hosts, n, sites) && |n| == |sites|
      requires AllIn(links0, |sites|) && LinksAdded(h0, hosts, sites, links0) && m0 == |links0|
      modifies `hosts
      ensures Valid() && Stands(hosts, n, sites)
      ensures var r := ScanCounts(input, a, |n|);
        && ok == r.ok && rest == r.rest && m == |links0 + r.links|
        && AllIn(links0 + r.links, |sites|) && LinksAdded(h0, hosts, sites, links0 + r.links)
    {
      rest, ok, m := input, true, m0;
      ghost var links := links0;
      ghost var whole := ScanCounts(input, a, |n|);
      whole := whole.(links := links0 + whole.links);
      hide HostsOk, ChainsOk, Known, SentTo, Tally, ScanCounts, ScanCount, LinksAdded, AllIn, Stands;
      while true
        invariant Valid() && Stands(hosts, n, sites)
        invariant m == |links| && AllIn(links, |sites|) && LinksAdded(h0, hosts, sites, links)
        invariant var r := ScanCounts(rest, a, |n|); whole == r.(links := links + r.links)
        decreases |rest|
      {
        CountsStep(rest, a, |n|, links, whole);
        var one := ScanCount(rest);
        rest := one.rest;
        if one.Failed? {
          return;
        }
        var l := Link(a, one.value.0, one.value.1);
        if !InRange(l.a, l.b, |n|) {
          ok := false;
          return;
        }
        OneLink(n, l, sites, links, h0);
        links, m := links + [l], m + 1;
      }
    }

    // The L-records of version 3.1.
    method ReadLinks(input: string, n: seq<nat>, ghost sites: seq<Site>) returns (rest: string, ok: bool, m: nat)
      requires Valid() && Stands(hosts, n, sites) && |n| == |sites|
      modifies `hosts
      ensures Valid()
      ensures var r := ScanLinks(input, |n|);
        && ok == r.ok && rest == r.rest && m == |r.links|
        && AllIn(r.links, |sites|) && LinksAdded(old(hosts), hosts, sites, r.links)
    {
      rest, ok, m := input, true, 0;
      ghost var links: seq<Link> := [];
      ghost var whole := ScanLinks(input, |n|);
      LinksAddedNone(hosts, sites);
      assert [] + whole.links == whole.links;
      hide HostsOk, ChainsOk, Known, SentTo, Tally, ScanFrom, ScanCounts, ScanLinks, LinksAdded, AllIn, Stands;
      while true
        invariant Valid() && Stands(hosts, n, sites)
        invariant m == |links| && AllIn(links, |sites|) && LinksAdded(old(hosts), hosts, sites, links)
        invariant var r := ScanLinks(rest, |n|); whole == r.(links := links + r.links)
        decreases |rest|
      {
        LinksStep(rest, |n|, links, whole);
        var from := ScanFrom(rest);
        if from.Failed? {
          rest := from.rest;
          return;
        }
        ghost var counts := ScanCounts(from.rest, from.value, |n|);
        rest, ok, m := ReadCounts(from.rest, from.value, n, m, sites, links, old(hosts));
        links := links + counts.links;
        if !ok {
          return;
        }
      }
    }

    // The L-records of version 3.0.
    method ReadTriples(input: string, n: seq<nat>, ghost sites: seq<Site>) returns (rest: string, ok: bool, m: nat)
      requires Valid() && Stands(hosts, n, sites) && |n| == |sites|
      modifies `hosts
      ensures Valid()
      ensures var r := ScanTriples(input, |n|);
        && ok == r.ok && rest == r.rest && m == |r.links|
        && AllIn(r.links, |sites|) && LinksAdded(old(hosts), hosts, sites, r.links)
    {
      rest, ok, m := input, true, 0;
      ghost var links: seq<Link> := [];
      ghost var whole := ScanTriples(input, |n|);
      LinksAddedNone(hosts, sites);
      assert [] + whole.links == whole.links;
      hide HostsOk, ChainsOk, Known, SentTo, Tally, ScanTriple, ScanTriples, LinksAdded, AllIn, Stands;
      while true
        invariant Valid() && Stands(hosts, n, sites)
        invariant m == |links| && AllIn(links, |sites|) && LinksAdded(old(hosts), hosts, sites, links)
        invariant var r := ScanTriples(rest, |n|); whole == r.(links := links + r.links)
        decreases |rest|
      {
        TriplesStep(rest, |n|, links, whole);
        var one := ScanTriple(rest);
        rest := one.rest;
        if one.Failed? {
          return;
        }
        if !InRange(one.value.a, one.value.b, |n|) {
          ok := false;
          return;
        }
        OneLink(n, one.value, sites, links, old(hosts));
        links, m := links + [one.value], m + 1;
      }
    }

    // Reads a dump into the table: 0, or -1 when its format is wrong. What was read up
    // to there has been added.
    method ReadDump(input: string) returns (r: int)
      requires Valid()
      modifies `hosts, `chains, `total, `starttime
      ensures Valid()
      ensures var d := Parse(input);
        && r == (if d.verdict.Fine? then 0 else -1)
        && Added(old(hosts), hosts, d)
        && total == old(total) + (if d.verdict.Fine? then d.header.total else 0)
        && starttime
           == if d.verdict.Fine? && 0 <= d.header.start < old(starttime) then d.header.start else old(starttime)
    {
      AddedNone(hosts);
      hide HostsOk, ChainsOk, Known, SentTo, Tally, ScanHeader, ScanSites, ScanLinks, ScanTriples, ScanWord, ScanEnd,
        Stands, SitesAdded, LinksAdded, Added, AllIn;
      var head := ScanHeader(input);
      if head.Failed? || head.value.sites <= 0 {
        return -1;
      }
      var h := head.value;
      ghost var before := hosts;
      var n, rest, ok := ReadSites(head.rest, h.sites);
      ghost var sites := ScanSites(head.rest, h.sites).sites;
      SitesOnly(before, hosts, sites);
      if !ok {
        return -1;
      }
      var mark := ScanWord(rest, MAXHOST - 1);
      if mark.Failed? || mark.value != "!!NLREC" {
        return -1;
      }
      var body := SkipSpace(mark.rest);
      assert |n| == h.sites == |sites| by { StandsSize(hosts, n, sites); }
      ghost var between := hosts;
      var m;
      if "3.0" <= h.version {
        rest, ok, m := ReadTriples(body, n, sites);
      } else if "3.1" <= h.version {
        rest, ok, m := ReadLinks(body, n, sites);
      } else {
        return -1;
      }
      ghost var ls := if "3.0" <= h.version then ScanTriples(body, h.sites) else ScanLinks(body, h.sites);
      SitesAndLinks(before, between, hosts, sites, ls.links);
      if !ok {
        return -1;
      }
      var end := ScanEnd(rest);
      if end.Failed? || end.value != m {
        return -1;
      }
      if 0 <= h.start < starttime {
        starttime := h.start;
      }
      total := total + h.total;
      return 0;
    }

    // The order in which a dump goes through the hosts.
    ghost function Order(): (order: seq<nat>)
      requires Valid()
      reads `hosts, `chains
      ensures OrderOk(order, |hosts|)
    {
      DumpOrder(hosts, chains, hash);
      Flat(chains, |chains|)
    }

    // All that a dump has to tell.
    ghost function Whole(now: nat, avg: nat): Dump
      requires Valid()
      reads `hosts, `chains, `total, `starttime
    {
      Dump(Header(VERSION, starttime, now, |hosts|, total, avg),
           SitesOf(hosts, Order()), AllLinks(RecsOf(hosts, Order())), Fine)
    }

    static method SiteLine(g: Nrec, j0: nat) returns (text: string, j: nat)
      ensures var t := g.id + " " + Num(g.sentto);
        if j0 + |t| > RECLINE then text == t + "\n" && j == 0 else text == t + " " && j == j0 + |t|
    {
      text := g.id + " " + Num(g.sentto);
      j := j0 + |text|;
      if j > RECLINE {
        j := 0;
        text := text + "\n";
      } else {
        text := text + " ";
      }
    }

    // Numbers a host and writes its S-record, with a line break when the line is long.
    method OneSite(h: nat, n: nat, j0: nat, ghost order: seq<nat>, ghost sites: seq<Site>)
      returns (text: string, j: nat)
      requires Valid() && Order() == order && sites == SitesOf(hosts, order)
      requires n < |order| && order[n] == h && Numbered(hosts, order, n)
      modifies `hosts
      ensures Valid() && SameButNo(old(hosts), hosts) && Order() == order && sites == SitesOf(hosts, order)
      ensures Numbered(hosts, order, n + 1)
      ensures SiteStep(sites, n, j0, text, j)
    {
      var g := hosts[h];
      assert sites[n] == Site(g.id, g.sentto);
      assert order == Flat(chains, |chains|);
      hide HostsOk, ChainsOk, OrderOk, SitesOf, SameButNo, Numbered, SiteStep, Flat;
      Renumbered(hosts, chains, hash, order, n);
      hosts := hosts[h := g.(no := n)];
      text, j := SiteLine(g, j0);
      SiteWritten(sites, n, j0, text, j);
    }

    // The S-records, with the hosts numbered on the way.
    method WriteSites() returns (out: string, n: nat)
      requires Valid()
      modifies `hosts
      ensures Valid() && SameButNo(old(hosts), hosts) && Order() == old(Order())
      ensures Numbered(hosts, Order(), |Order()|)
      ensures n == |hosts| && out == SitesText(SitesOf(hosts, Order()), 0)
    {
      out, n := "", 0;
      var i, j := 0, 0;
      ghost var order, hosts0 := Order(), hosts;
      ghost var sites := SitesOf(hosts, order);
      assert |chains| == HASH_TBL;
      hide HostsOk, ChainsOk, OrderOk, SitesText, SitesOf, SameButNo;
      assert SitesWritten(sites, 0, "", 0) by { SitesBegin(sites); }
      assert Numbered(hosts, order, 0);
      hide Numbered, SitesWritten;
      assert SameButNo(hosts0, hosts) by { NothingNumbered(hosts); }
      while i < HASH_TBL
        invariant 0 <= i <= HASH_TBL == |chains| && chains == old(chains)
        invariant Valid() && SameButNo(hosts0, hosts) && Order() == order && sites == SitesOf(hosts, order)
        invariant n == |Flat(chains, i)| <= |order| && Numbered(hosts, order, n)
        invariant SitesWritten(sites, n, out, j)
      {
        FlatPrefix(chains, i, |chains|);
        FlatPrefix(chains, i + 1, |chains|);
        out, n, j := WriteChain(i, out, n, j, order, sites, hosts0);
        i := i + 1;
      }
      SitesEnd(sites, out, j);
    }

    // The S-records of one chain.
    method WriteChain(i: nat, out0: string, n0: nat, j0: nat,
                      ghost order: seq<nat>, ghost sites: seq<Site>, ghost hosts0: seq<Nrec>)
      returns (out: string, n: nat, j: nat)
      requires i < |chains| && Valid() && SameButNo(hosts0, hosts) && Order() == order && sites == SitesOf(hosts, order)
      requires n0 == |Flat(chains, i)| && n0 + |chains[i]| <= |order| && Numbered(hosts, order, n0)
      requires SitesWritten(sites, n0, out0, j0)
      modifies `hosts
      ensures Valid() && SameButNo(hosts0, hosts) && Order() == order && sites == SitesOf(hosts, order)
      ensures n == n0 + |chains[i]| && Numbered(hosts, order, n)
      ensures SitesWritten(sites, n, out, j)
    {
      out, n, j := out0, n0, j0;
      var p := 0;
      hide HostsOk, ChainsOk, SitesOf, SameButNo, Numbered, SiteStep, SitesWritten;
      while p < |chains[i]|
        invariant 0 <= p <= |chains[i]| && chains == old(chains)
        invariant Valid() && SameButNo(hosts0, hosts) && Order() == order && sites == SitesOf(hosts, order)
        invariant n == n0 + p && Numbered(hosts, order, n)
        invariant SitesWritten(sites, n, out, j)
      {
        FlatAt(chains, i, p);
        ghost var before, j1 := hosts, j;
        var text;
        text, j := OneSite(chains[i][p], n, j, order, sites);
        StillSame(hosts0, before, hosts);
        SitesOn(sites, n, out, j1, text, j);
        out, n, p := out + text, n + 1, p + 1;
      }
    }

    static method CountLine(no: nat, tally: int) returns (text: string)
      ensures text == CountText((no, tally))
    {
      text := "!" + Num(no);
      if tally > 1 {
        text := text + "," + Num(tally);
      }
    }

    // The L-record of a host, without its line break.
    method LinkLine(h: nat, ghost order: seq<nat>) returns (text: string, count: nat)
      requires HostsOk(hosts) && OrderOk(order, |hosts|) && Numbered(hosts, order, |order|) && h < |hosts|
      ensures text == RecText(Rec(Place(order, h), Counts(hosts[h].links, order))) && count == |hosts[h].links|
    {
      var links := hosts[h].links;
      NumberIs(hosts, order, h);
      text, count := ":" + Num(hosts[h].no), 0;
      ghost var whole := text + CountsText(Counts(links, order));
      assert links[0..] == links;
      hide HostsOk, Num, OrderOk, CountsText, CountText, Counts, Numbered, Place;
      while count < |links|
        invariant 0 <= count <= |links|
        invariant text + CountsText(Counts(links[count..], order)) == whole
      {
        var t := links[count];
        LinkTo(hosts, h, count);
        NumberIs(hosts, order, t.to);
        CountsTextAt(links, order, count);
        var one := CountLine(hosts[t.to].no, t.tally);
        Regroup(text, one, CountsText(Counts(links[count + 1..], order)));
        text, count := text + one, count + 1;
      }
      NoCountsText(links[count..], order);
    }

    static method Broken(line: string, j0: nat) returns (text: string, j: nat)
      ensures if j0 + |line| > RECLINE then text == line + "\n" && j == 0 else text == line && j == j0 + |line|
    {
      text, j := line, j0 + |line|;
      if j > RECLINE {
        j := 0;
        text := text + "\n";
      }
    }

    // The L-record of a host that has links, with a line break when the line is long.
    method OneRec(h: nat, j0: nat, ghost n: nat, ghost order: seq<nat>, ghost recs: seq<Rec>)
      returns (text: string, count: nat, j: nat)
      requires LinksReady(hosts, chains, order, recs) && n < |order| == |recs| && order[n] == h
      ensures RecStep(recs, n, j0, text, count, j)
    {
      text, count, j := "", 0, j0;
      RecAt(hosts, chains, order, recs, n);
      hide HostsOk, OrderOk, RecText, RecsOf, Numbered, Place, Flat, RecStep;
      if hosts[h].links != [] {
        text, count := LinkLine(h, order);
        ghost var line := text;
        text, j := Broken(text, j);
        RecWritten(recs, n, j0, line, text, j);
      } else {
        RecWritten(recs, n, j0, "", text, j);
      }
    }

    // The L-records.
    method WriteLinks() returns (out: string, n: nat)
      requires Valid() && Numbered(hosts, Order(), |Order()|)
      ensures out == RecsText(RecsOf(hosts, Order()), 0) && n == LinkCount(RecsOf(hosts, Order()))
    {
      ghost var order := Order();
      ghost var recs := RecsOf(hosts, order);
      assert LinksReady(hosts, chains, order, recs) && |chains| == HASH_TBL;
      out, n := WriteRecs(order, recs);
    }

    method WriteRecs(ghost order: seq<nat>, ghost recs: seq<Rec>) returns (out: string, n: nat)
      requires LinksReady(hosts, chains, order, recs) && |chains| == HASH_TBL
      ensures out == RecsText(recs, 0) && n == LinkCount(recs)
    {
      out, n := "", 0;
      var i, j := 0, 0;
      ghost var m := 0;
      assert |recs| == |Flat(chains, |chains|)|;
      NothingWritten(recs);
      hide LinksReady, Written;
      while i < HASH_TBL
        invariant 0 <= i <= HASH_TBL && m == |Flat(chains, i)| <= |recs| && Written(recs, m, out, n, j)
      {
        FlatPrefix(chains, i + 1, |chains|);
        out, n, j := WriteLinkChain(i, out, n, j, m, order, recs);
        m := m + |chains[i]|;
        i := i + 1;
      }
      AllWritten(recs, out, n, j);
    }

    // The L-records of one chain.
    method WriteLinkChain(i: nat, out0: string, n0: nat, j0: nat,
                          ghost m0: nat, ghost order: seq<nat>, ghost recs: seq<Rec>)
      returns (out: string, n: nat, j: nat)
      requires LinksReady(hosts, chains, order, recs)
      requires i < |chains| && m0 == |Flat(chains, i)| && m0 + |chains[i]| <= |recs|
      requires Written(recs, m0, out0, n0, j0)
      ensures Written(recs, m0 + |chains[i]|, out, n, j)
    {
      out, n, j := out0, n0, j0;
      var p := 0;
      ghost var m := m0;
      hide LinksReady, Written, RecStep, Flat;
      while p < |chains[i]|
        invariant 0 <= p <= |chains[i]| && m == m0 + p && Written(recs, m, out, n, j)
      {
        InOrder(hosts, chains, order, recs, i, p);
        var text, count;
        ghost var before := j;
        text, count, j := OneRec(chains[i][p], j, m, order, recs);
        WrittenOn(recs, m, out, n, before, text, count, j);
        out, n, p, m := out + text, n + count, p + 1, m + 1;
      }
    }

    // Writes a dump: 0, or -1 when there is nothing to tell.
    method WriteDump(now: nat, avg: nat) returns (r: int, out: string)
      requires Valid()
      modifies `hosts
      ensures Valid() && SameButNo(old(hosts), hosts) && Order() == old(Order())
      ensures r == if total == 0 then -1 else 0
      ensures out == if total == 0 then "" else
        DumpText(Header(VERSION, starttime, now, |hosts|, total, avg), SitesOf(hosts, Order()), RecsOf(hosts, Order()))
    {
      if total == 0 {
        NothingNumbered(hosts);
        return -1, "";
      }
      hide HostsOk, ChainsOk, OrderOk, SitesOf, RecsOf, SitesText, RecsText, HeaderText, Num, Order, SameButNo;
      var h := Header(VERSION, starttime, now, |hosts|, total, avg);
      assert SameButNo(hosts, hosts) by { NothingNumbered(hosts); }
      var sites, n := WriteSites();
      if n != |hosts| {
        assert false;
      }
      var links, m := WriteLinks();
      out := HeaderText(h) + sites + "\n!!NLREC\n" + links + "\n!!NLEND " + Num(m) + "\n";
      assert |hosts| == |old(hosts)| by { SameSize(old(hosts), hosts); }
      return 0, out;
    }

    // Counts the hosts of a Path line, up to one whose name is too long to be true.
    method PathLine(line: string)
      requires Valid()
      modifies `hosts, `chains
      ensures Valid() && PathAdded(old(hosts), hosts, PathNames(line))
      ensures AllSeen(old(hosts)) ==> AllSeen(hosts)
    {
      var c, first := line, true;
      var r: nat := 0;
      ghost var names: seq<string> := [];
      ghost var h0 := hosts;
      PathAddedNone(hosts);
      assert [] + PathNames(c) == PathNames(line);
      hide HostsOk, ChainsOk, Known, SentTo, Tally, AllSeen, PathAdded, PathNames, Cut, SkipBangs;
      while c != ""
        invariant Valid() && PathAdded(h0, hosts, names) && (AllSeen(h0) ==> AllSeen(hosts))
        invariant names + PathNames(c) == PathNames(line)
        invariant first <==> names == []
        invariant !first ==> r < |hosts| && hosts[r].id == names[|names| - 1]
        decreases |c|
      {
        PathStep(c, names);
        var e := Cut(c);
        if e > MAXHOST - 1 {
          assert names + [] == names;
          return;
        }
        var name := c[..e];
        c := SkipBangs(c[e..]);
        r := Hop(name, first, r, names, h0);
        names, first := names + [name], false;
      }
      assert PathNames("") == [] && names + [] == names by { NoNames(); }
    }

    // One host of a Path line, and the link to it from the one before.
    method Hop(name: string, first: bool, r: nat, ghost names: seq<string>, ghost h0: seq<Nrec>) returns (h: nat)
      requires Valid() && PathAdded(h0, hosts, names) && (first <==> names == [])
      requires !first ==> r < |hosts| && hosts[r].id == names[|names| - 1]
      modifies `hosts, `chains
      ensures Valid() && PathAdded(h0, hosts, names + [name]) && h < |hosts| && hosts[h].id == name
      ensures AllSeen(old(hosts)) ==> AllSeen(hosts)
    {
      hide HostsOk, ChainsOk, Known, SentTo, Tally, AllSeen, PathAdded;
      ghost var h1 := hosts;
      h := Hhost(name);
      ghost var h2 := hosts;
      Sent(h, 1);
      ghost var h3 := hosts;
      SameRecord(h3, first, r, h, names, name);
      if !first && r != h {
        TallyRec(r, h, 1);
      }
      hide SameIds;
      NameAdded(h0, h1, h2, h3, hosts, names, name);
    }

    // Path lines, with the names of their last hosts cut off: every host and every step
    // of every line is counted.
    method TakePaths(lines: seq<string>)
      requires Valid()
      modifies `hosts, `chains, `total
      ensures Valid() && total == old(total) + |lines|
      ensures LinesAdded(old(hosts), hosts, lines)
      ensures AllSeen(old(hosts)) ==> AllSeen(hosts)
    {
      var i := 0;
      ghost var h0 := hosts;
      LinesAddedNone(hosts);
      assert lines[..0] == [] && lines[..|lines|] == lines;
      hide HostsOk, ChainsOk, AllSeen, PathAdded, LinesAdded, PathNames;
      while i < |lines|
        invariant 0 <= i <= |lines| && Valid() && total == old(total) + i
        invariant LinesAdded(h0, hosts, lines[..i]) && (AllSeen(h0) ==> AllSeen(hosts))
      {
        ghost var h1 := hosts;
        PathLine(lines[i]);
        LineAdded(h0, h1, hosts, lines, i);
        total := total + 1;
        i := i + 1;
      }
    }
  }

  lemma NewTrec(links: seq<Trec>, h: nat, n: nat)
    requires LinksOk(links, n) && h < n && forall q :: 0 <= q < |links| ==> links[q].to != h
    ensures LinksOk([Trec(h, 0)] + links, n)
    ensures forall k :: TallyTo([Trec(h, 0)] + links, k) == TallyTo(links, k)
  {
    var r := [Trec(h, 0)] + links;
    assert r[1..] == links;
    forall t | t in links
      ensures t.to != h
    {
    }
    TallyToNone(links, h);
    forall t | t in r
      ensures t.to < n
    {
      assert t == r[0] || t in links;
    }
  }

  // The dump of one table read into another: the counts, the tallies and the hosts of
  // both, provided that the names allow it; otherwise another dump is read.
  method Transfer(source: Paths, target: Paths, now: nat, avg: nat) returns (w: int, r: int, text: string)
    requires source != target && source.Valid() && target.Valid()
    modifies source`hosts, target`hosts, target`chains, target`total, target`starttime
    ensures source.Valid() && target.Valid() && SameButNo(old(source.hosts), source.hosts)
    ensures w == if source.total == 0 then -1 else 0
    ensures w == 0 && Dumpable(source.hosts) ==>
      && r == 0 && Joined(old(target.hosts), target.hosts, source.hosts)
      && target.total == old(target.total) + source.total
    ensures w == 0 ==>
      && (Dumpable(source.hosts) <==> Parse(text) == source.Whole(now, avg))
      && r == (if Parse(text).verdict.Fine? then 0 else -1) && Added(old(target.hosts), target.hosts, Parse(text))
    ensures w == 0 && source.hosts == [] ==> Parse(text) == NOTHING && r == -1
    ensures w == 0 && Dumpable(source.hosts) && AllSeen(source.hosts) ==>
      TalliesJoined(old(target.hosts), target.hosts, source.hosts)
  {
    w, text := source.WriteDump(now, avg);
    r := -1;
    if w == 0 {
      ghost var hosts, order := source.hosts, source.Order();
      ghost var h := Header(VERSION, source.starttime, now, |hosts|, source.total, avg);
      DumpBack(hosts, order, h);
      if hosts == [] {
        NoSites(h, SitesOf(hosts, order), RecsOf(hosts, order));
      }
      ghost var before := target.hosts;
      hide HostsOk, ChainsOk, OrderOk, SitesOf, RecsOf, Parse, DumpText, Added, AllIn, AllLinks, Joined,
        TalliesJoined, Dumpable, AllSeen, SameButNo;
      r := target.ReadDump(text);
      if Dumpable(hosts) {
        DumpAdds(hosts, order, h, before, target.hosts);
        if AllSeen(hosts) {
          AllJoined(before, target.hosts, hosts);
        }
      }
    }
  }
}
