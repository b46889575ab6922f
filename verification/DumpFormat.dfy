// The dump file of ninpaths (backends/ninpaths.c): how it is written, how it is read,
// and that reading takes back what was written.
module DumpFormat {
  import opened DumpScan

  const VERSION := "3.1.1"
  const MAXHOST := 128
  const RECLINE := 120

  datatype Header = Header(version: string, start: int, end: int, sites: int, total: int, avg: int)

  // An S-record, and one count of an L-record.
  datatype Site = Site(name: string, count: int)
  datatype Link = Link(a: int, b: int, tally: int)

  // What was read of the S-records or the L-records, and whether all of it was good.
  datatype Sites = Sites(sites: seq<Site>, rest: string, ok: bool)
  datatype Links = Links(links: seq<Link>, rest: string, ok: bool)

  datatype Verdict = Fine | FormErr(number: int)

  // All that a dump says, up to where its format is wrong.
  datatype Dump = Dump(header: Header, sites: seq<Site>, links: seq<Link>, verdict: Verdict)

  const NO_HEADER := Header("", 0, 0, 0, 0, 0)

  // ---- reading ----

  function Numbers(s: string, n: nat): (r: Scan<seq<int>>)
    ensures r.Got? ==> |r.value| == n
    decreases n
  {
    if n == 0 then Got([], s) else
      var one := ScanNum(s);
      if one.Failed? then Failed(one.rest) else
        var more := Numbers(one.rest, n - 1);
        if more.Failed? then more else Got([one.value] + more.value, more.rest)
  }

  function ScanHeader(s: string): Scan<Header> {
    var tag := ScanText(s, "!!NINP");
    if tag.Failed? then Failed(tag.rest) else
      var v := ScanWord(tag.rest, 15);
      if v.Failed? then Failed(v.rest) else
        var ns := Numbers(v.rest, 5);
        if ns.Failed? then Failed(ns.rest)
        else Got(Header(v.value, ns.value[0], ns.value[1], ns.value[2], ns.value[3], ns.value[4]), SkipSpace(ns.rest))
  }

  function ScanSite(s: string): (r: Scan<Site>)
    ensures r.Got? ==> |r.rest| < |s|
  {
    var w := ScanWord(s, MAXHOST - 1);
    if w.Failed? then Failed(w.rest) else
      var n := ScanNum(w.rest);
      if n.Failed? then Failed(n.rest) else Got(Site(w.value, n.value), SkipSpace(n.rest))
  }

  function ScanSites(s: string, n: nat): (r: Sites)
    ensures |r.sites| <= n && (r.ok <==> |r.sites| == n)
    decreases n
  {
    if n == 0 then Sites([], s, true) else
      var one := ScanSite(s);
      if one.Failed? then Sites([], one.rest, false) else
        var more := ScanSites(one.rest, n - 1);
        more.(sites := [one.value] + more.sites)
  }

  predicate InRange(a: int, b: int, sites: int) { 0 <= a < sites && 0 <= b < sites }

  ghost predicate AllIn(links: seq<Link>, sites: int) {
    forall l :: l in links ==> InRange(l.a, l.b, sites)
  }

  // "%d!%d!%ld " of version 3.0
  function ScanTriple(s: string): (r: Scan<Link>)
    ensures r.Got? ==> |r.rest| < |s|
  {
    var a := ScanNum(s);
    if a.Failed? then Failed(a.rest) else
      var c := ScanChar(a.rest, '!');
      if c.Failed? then Failed(c.rest) else
        var b := ScanNum(c.rest);
        if b.Failed? then Failed(b.rest) else
          var d := ScanChar(b.rest, '!');
          if d.Failed? then Failed(d.rest) else
            var l := ScanNum(d.rest);
            if l.Failed? then Failed(l.rest) else Got(Link(a.value, b.value, l.value), SkipSpace(l.rest))
  }

  function ScanTriples(s: string, sites: int): (r: Links)
    ensures AllIn(r.links, sites)
    decreases |s|
  {
    var one := ScanTriple(s);
    if one.Failed? then Links([], one.rest, true)
    else if !InRange(one.value.a, one.value.b, sites) then Links([], one.rest, false)
    else
      var more := ScanTriples(one.rest, sites);
      more.(links := [one.value] + more.links)
  }

  // "!%d,%ld", the second number being optional
  function ScanCount(s: string): (r: Scan<(int, int)>)
    ensures |r.rest| <= |s| && (r.Got? ==> |r.rest| < |s|)
  {
    var c := ScanChar(s, '!');
    if c.Failed? then Failed(c.rest) else
      var b := ScanNum(c.rest);
      if b.Failed? then Failed(b.rest) else
        var d := ScanChar(b.rest, ',');
        if d.Failed? then Got((b.value, 1), d.rest) else
          var l := ScanNum(d.rest);
          if l.Failed? then Got((b.value, 1), l.rest) else Got((b.value, l.value), l.rest)
  }

  function ScanCounts(s: string, a: int, sites: int): (r: Links)
    ensures |r.rest| <= |s|
    ensures AllIn(r.links, sites)
    decreases |s|
  {
    var one := ScanCount(s);
    if one.Failed? then Links([], one.rest, true)
    else if !InRange(a, one.value.0, sites) then Links([], one.rest, false)
    else
      var more := ScanCounts(one.rest, a, sites);
      more.(links := [Link(a, one.value.0, one.value.1)] + more.links)
  }

  // " :%d"
  function ScanFrom(s: string): (r: Scan<int>)
    ensures r.Got? ==> |r.rest| < |s|
  {
    var c := ScanChar(SkipSpace(s), ':');
    if c.Failed? then Failed(c.rest) else ScanNum(c.rest)
  }

  function ScanLinks(s: string, sites: int): (r: Links)
    ensures AllIn(r.links, sites)
    decreases |s|
  {
    var from := ScanFrom(s);
    if from.Failed? then Links([], from.rest, true) else
      var counts := ScanCounts(from.rest, from.value, sites);
      if !counts.ok then counts else
        var more := ScanLinks(counts.rest, sites);
        more.(links := counts.links + more.links)
  }

  function ScanEnd(s: string): Scan<int> {
    var tag := ScanText(s, "!!NLEND");
    if tag.Failed? then Failed(tag.rest) else ScanNum(tag.rest)
  }

  const NOTHING := Dump(NO_HEADER, [], [], FormErr(0))

  function Parse(s: string): (d: Dump)
    ensures d.verdict.Fine? ==> d.header.sites == |d.sites| > 0
    ensures AllIn(d.links, |d.sites|)
  {
    var head := ScanHeader(s);
    if head.Failed? || head.value.sites <= 0 then NOTHING else
      var h := head.value;
      var ss := ScanSites(head.rest, h.sites);
      if !ss.ok then Dump(h, ss.sites, [], FormErr(1)) else
        var mark := ScanWord(ss.rest, MAXHOST - 1);
        if mark.Failed? || mark.value != "!!NLREC" then Dump(h, ss.sites, [], FormErr(2)) else
          var body := SkipSpace(mark.rest);
          if !("3.0" <= h.version) && !("3.1" <= h.version) then Dump(h, ss.sites, [], FormErr(9)) else
            var ls := if "3.0" <= h.version then ScanTriples(body, h.sites) else ScanLinks(body, h.sites);
            if !ls.ok then Dump(h, ss.sites, ls.links, FormErr(4)) else
              var end := ScanEnd(ls.rest);
              if end.Failed? || end.value != |ls.links| then Dump(h, ss.sites, ls.links, FormErr(3))
              else Dump(h, ss.sites, ls.links, Fine)
  }

  // ---- writing ----

  // The links of one host: where they lead, and how often they were seen.
  datatype Rec = Rec(a: nat, to: seq<(nat, int)>)

  // Numbers, each after a blank.
  function NumbersText(ns: seq<int>): string {
    if ns == [] then "" else " " + Num(ns[0]) + NumbersText(ns[1..])
  }

  function HeaderText(h: Header): string {
    "!!NINP " + h.version + NumbersText([h.start, h.end, h.sites, h.total, h.avg]) + "\n"
  }

  function SiteText(s: Site): string { s.name + " " + Num(s.count) }

  function SitesText(sites: seq<Site>, j: nat): string {
    if sites == [] then "" else
      var text := SiteText(sites[0]);
      text + if j + |text| > RECLINE then "\n" + SitesText(sites[1..], 0) else " " + SitesText(sites[1..], j + |text|)
  }

  function CountText(to: (nat, int)): string {
    "!" + Num(to.0) + if to.1 > 1 then "," + Num(to.1) else ""
  }

  function CountsText(to: seq<(nat, int)>): string {
    if to == [] then "" else CountText(to[0]) + CountsText(to[1..])
  }

  function RecText(r: Rec): string { ":" + Num(r.a) + CountsText(r.to) }

  function RecsText(recs: seq<Rec>, j: nat): string {
    if recs == [] then "" else
    if recs[0].to == [] then RecsText(recs[1..], j) else
      var text := RecText(recs[0]);
      text + if j + |text| > RECLINE then "\n" + RecsText(recs[1..], 0) else RecsText(recs[1..], j + |text|)
  }

  function LinkCount(recs: seq<Rec>): nat {
    if recs == [] then 0 else |recs[0].to| + LinkCount(recs[1..])
  }

  function DumpText(h: Header, sites: seq<Site>, recs: seq<Rec>): string {
    HeaderText(h) + SitesText(sites, 0) + "\n!!NLREC\n"
    + RecsText(recs, 0) + "\n!!NLEND " + Num(LinkCount(recs)) + "\n"
  }

  // ---- and back ----

  // A tally of 1 is not written: neither is one below it.
  function Shown(tally: int): int { if tally > 1 then tally else 1 }

  function RecLinks(a: nat, to: seq<(nat, int)>): (r: seq<Link>)
    ensures |r| == |to|
  {
    if to == [] then [] else [Link(a, to[0].0, Shown(to[0].1))] + RecLinks(a, to[1..])
  }

  function AllLinks(recs: seq<Rec>): (r: seq<Link>)
    ensures |r| == LinkCount(recs)
  {
    if recs == [] then [] else RecLinks(recs[0].a, recs[0].to) + AllLinks(recs[1..])
  }

  // A name that %127s takes back.
  predicate Readable(name: string) {
    0 < |name| < MAXHOST && forall c :: c in name ==> !Space(c)
  }

  ghost predicate RecsOk(recs: seq<Rec>, sites: nat) {
    forall r :: r in recs ==> r.a < sites && forall t :: t in r.to ==> t.0 < sites
  }

  // How many links there are before the first that leads to or from an unknown site.
  function Sane(links: seq<Link>, sites: int): (k: nat)
    ensures k <= |links| && AllIn(links[..k], sites)
    ensures k < |links| ==> !InRange(links[k].a, links[k].b, sites)
  {
    if links == [] || !InRange(links[0].a, links[0].b, sites) then 0 else
      var k := Sane(links[1..], sites) + 1;
      assert links[..k] == [links[0]] + links[1..][..k - 1];
      k
  }

  lemma SaneStep(links: seq<Link>, sites: int)
    requires links != [] && InRange(links[0].a, links[0].b, sites)
    ensures var k := Sane(links[1..], sites);
      Sane(links, sites) == k + 1 && links[..k + 1] == [links[0]] + links[1..][..k]
  {
  }

  lemma {:induction false} SaneSplit(x: seq<Link>, y: seq<Link>, sites: int)
    ensures var k := Sane(x, sites); Sane(x + y, sites) == if k < |x| then k else |x| + Sane(y, sites)
  {
    if x == [] {
      assert x + y == y;
    } else {
      assert (x + y)[1..] == x[1..] + y;
      SaneSplit(x[1..], y, sites);
    }
  }

  lemma {:induction false} SaneAll(links: seq<Link>, sites: int)
    ensures Sane(links, sites) == |links| <==> AllIn(links, sites)
  {
    if Sane(links, sites) == |links| {
      assert links[..|links|] == links;
    } else {
      assert links[Sane(links, sites)] in links;
    }
  }

  // The links before the first bad one have been read, and all of them when none is bad.
  ghost predicate ReadUp(r: Links, links: seq<Link>, sites: int, rest: string) {
    var k := Sane(links, sites);
    r.links == links[..k] && (r.ok <==> k == |links|) && (r.ok ==> r.rest == rest)
  }

  // What may follow an L-record: the next one, or the end of the line.
  ghost predicate Edge(s: string) { s != "" && (s[0] == ':' || s[0] == '\n') }

  // A number after a blank.
  lemma NumAfterBlank(n: int, rest: string)
    requires rest == "" || !Digit(rest[0])
    ensures ScanNum(" " + (Num(n) + rest)) == Got(n, rest)
  {
    var s := Num(n) + rest;
    NumScan(n, rest);
    SpacesSkipped(" ", s);
    SkipTwice(" " + s);
    SkipTwice(s);
  }

  lemma {:induction false} NumbersBack(ns: seq<int>, rest: string)
    requires rest == "" || !Digit(rest[0])
    ensures Numbers(NumbersText(ns) + rest, |ns|) == Got(ns, rest)
  {
    hide ScanNum, Num;
    if ns == [] {
      assert NumbersText(ns) + rest == rest;
    } else {
      var tail := NumbersText(ns[1..]) + rest;
      assert NumbersText(ns) + rest == " " + (Num(ns[0]) + tail);
      assert tail == "" || !Digit(tail[0]) by {
        assert ns[1..] == [] ==> tail == rest;
      }
      NumAfterBlank(ns[0], tail);
      NumbersBack(ns[1..], rest);
      assert ns == [ns[0]] + ns[1..];
    }
  }

  // A word after a blank.
  lemma WordAfterBlank(w: string, rest: string, most: nat)
    requires w != "" && Solid(w) && |w| <= most && rest != "" && Space(rest[0])
    ensures ScanWord(" " + (w + rest), most) == Got(w, rest)
  {
    hide ScanWord, SkipSpace;
    SpacesSkipped(" ", w + rest);
    SkipTwice(" " + (w + rest));
    SkipTwice(w + rest);
    WordScan(w, rest, most);
  }

  lemma HeaderTextIs(h: Header, rest: string)
    ensures HeaderText(h) + rest
      == "!!NINP" + (" " + (h.version + (NumbersText([h.start, h.end, h.sites, h.total, h.avg]) + ("\n" + rest))))
  {
    hide NumbersText;
    var ns := NumbersText([h.start, h.end, h.sites, h.total, h.avg]);
    assert "!!NINP " == "!!NINP" + " ";
  }

  lemma HeaderBack(h: Header, rest: string)
    requires 0 < |h.version| <= 15 && Solid(h.version)
    ensures ScanHeader(HeaderText(h) + rest) == Got(h, SkipSpace(rest))
  {
    var ns := [h.start, h.end, h.sites, h.total, h.avg];
    var tail := NumbersText(ns) + ("\n" + rest);
    HeaderTextIs(h, rest);
    assert tail != "" && tail[0] == ' ' by { NumbersBlank(ns); }
    hide NumbersText, Numbers, SkipSpace, ScanWord, ScanText, HeaderText;
    TextScan("!!NINP", " " + (h.version + tail));
    WordAfterBlank(h.version, tail, 15);
    NumbersBack(ns, "\n" + rest);
    SpacesSkipped("\n", rest);
  }

  lemma NumbersBlank(ns: seq<int>)
    requires ns != []
    ensures NumbersText(ns) != "" && NumbersText(ns)[0] == ' '
  {
  }

  lemma SiteTextIs(s: Site, sep: char, rest: string)
    ensures SiteText(s) + [sep] + rest == s.name + (" " + (Num(s.count) + ([sep] + rest)))
  {
    hide Num;
  }

  lemma SiteBack(s: Site, sep: char, rest: string)
    requires Readable(s.name) && Space(sep)
    ensures ScanSite(SiteText(s) + [sep] + rest) == Got(s, SkipSpace(rest))
  {
    assert Solid(s.name) && 0 < |s.name| < MAXHOST;
    hide ScanNum, Num, SkipSpace, ScanWord, SiteText, Solid, Readable;
    SiteTextIs(s, sep, rest);
    WordScan(s.name, " " + (Num(s.count) + ([sep] + rest)), MAXHOST - 1);
    NumAfterBlank(s.count, [sep] + rest);
    SpacesSkipped([sep], rest);
  }

  // Reading does not mind white space in front.
  lemma ScanSiteSkips(s: string)
    ensures ScanSite(SkipSpace(s)) == ScanSite(s)
  {
    SkipTwice(s);
  }

  lemma SitesTextStep(sites: seq<Site>, j: nat, rest: string) returns (sep: char, k: nat)
    requires sites != []
    ensures Space(sep)
    ensures SitesText(sites, j) + rest == SiteText(sites[0]) + [sep] + (SitesText(sites[1..], k) + rest)
  {
    hide SiteText;
    var text := SiteText(sites[0]);
    var long := j + |text| > RECLINE;
    sep, k := if long then '\n' else ' ', if long then 0 else j + |text|;
    assert SitesText(sites, j) == text + ([sep] + SitesText(sites[1..], k));
  }

  lemma ScanSitesStep(s: string, n: nat, site: Site, rest: string)
    requires n > 0 && ScanSite(s) == Got(site, rest)
    ensures var more := ScanSites(rest, n - 1); ScanSites(s, n) == more.(sites := [site] + more.sites)
  {
    hide ScanSite;
  }

  ghost predicate AllReadable(sites: seq<Site>) {
    forall s :: s in sites ==> Readable(s.name)
  }

  lemma ReadableOn(sites: seq<Site>)
    requires sites != [] && AllReadable(sites)
    ensures Readable(sites[0].name) && AllReadable(sites[1..])
  {
    hide Readable;
  }

  lemma FirstAndRest(sites: seq<Site>)
    requires sites != []
    ensures sites == [sites[0]] + sites[1..]
  {
  }

  lemma {:induction false} SitesBack(sites: seq<Site>, j: nat, rest: string)
    requires AllReadable(sites)
    ensures var r := ScanSites(SkipSpace(SitesText(sites, j) + rest), |sites|);
      r.sites == sites && r.ok && r.rest == SkipSpace(rest)
  {
    hide SiteText, ScanSite, ScanSites, SkipSpace, SitesText, Readable, AllReadable;
    if sites == [] {
      NoSitesBack(j, rest);
    } else {
      ReadableOn(sites);
      var sep, k := SitesTextStep(sites, j, rest);
      var whole, tail := SitesText(sites, j) + rest, SitesText(sites[1..], k) + rest;
      SiteBack(sites[0], sep, tail);
      ScanSiteSkips(whole);
      SitesBack(sites[1..], k, rest);
      ScanSitesStep(SkipSpace(whole), |sites|, sites[0], SkipSpace(tail));
      FirstAndRest(sites);
    }
  }

  lemma NoSitesBack(j: nat, rest: string)
    ensures ScanSites(SkipSpace(SitesText([], j) + rest), 0) == Sites([], SkipSpace(rest), true)
  {
    assert SitesText([], j) + rest == rest;
  }

  // What may follow a count: another one, or the end of the record.
  ghost predicate Apart(s: string) { Edge(s) || (s != "" && s[0] == '!') }

  lemma CountBack(to: (nat, int), rest: string)
    requires Apart(rest)
    ensures ScanCount(CountText(to) + rest) == Got((to.0 as int, Shown(to.1)), rest)
  {
    var tally := if to.1 > 1 then "," + Num(to.1) else "";
    var tail := tally + rest;
    var s := CountText(to) + rest;
    assert s == ['!'] + (Num(to.0) + tail);
    assert to.1 > 1 ==> tail == [','] + (Num(to.1) + rest);
    assert to.1 <= 1 ==> tail == rest;
    hide ScanNum, Num, CountText;
    assert s[1..] == Num(to.0) + tail;
    NumScan(to.0, tail);
    if to.1 > 1 {
      assert tail[1..] == Num(to.1) + rest;
      NumScan(to.1, rest);
    }
  }

  // A comma without a number after it means a tally of 1, too.
  lemma CommaAlone(b: int, rest: string)
    requires ScanNum(rest).Failed?
    ensures ScanCount("!" + Num(b) + "," + rest) == Got((b, 1), ScanNum(rest).rest)
  {
    var tail := "," + rest;
    var s := ['!'] + (Num(b) + tail);
    assert "!" + Num(b) + "," + rest == s;
    hide ScanNum, Num;
    assert s[1..] == Num(b) + tail && tail[1..] == rest;
    NumScan(b, tail);
  }

  lemma {:induction false} CountsBack(a: nat, to: seq<(nat, int)>, rest: string, sites: nat)
    requires Edge(rest)
    ensures ReadUp(ScanCounts(CountsText(to) + rest, a, sites), RecLinks(a, to), sites, rest)
  {
    if to == [] {
      assert CountsText(to) + rest == rest;
      NoCount(rest, a, sites);
    } else {
      var tail := CountsText(to[1..]) + rest;
      assert CountsText(to) + rest == CountText(to[0]) + tail by { hide CountText; }
      assert Apart(tail) by {
        assert to[1..] == [] ==> tail == rest;
      }
      var l, more := Link(a, to[0].0, Shown(to[0].1)), RecLinks(a, to[1..]);
      assert RecLinks(a, to) == [l] + more && ([l] + more)[1..] == more;
      hide ScanCount, CountText, Edge, Apart, RecLinks, CountsText;
      CountBack(to[0], tail);
      OneCount(CountText(to[0]) + tail, l, tail, sites);
      hide ScanCounts;
      if InRange(l.a, l.b, sites) {
        CountsBack(a, to[1..], rest, sites);
        SaneStep([l] + more, sites);
      }
    }
  }

  lemma NoCount(rest: string, a: nat, sites: nat)
    requires Edge(rest)
    ensures ScanCounts(rest, a, sites) == Links([], rest, true)
  {
  }

  lemma OneCount(s: string, l: Link, rest: string, sites: nat)
    requires ScanCount(s) == Got((l.b, l.tally), rest)
    ensures var r, more := ScanCounts(s, l.a, sites), ScanCounts(rest, l.a, sites);
      && r.links == (if InRange(l.a, l.b, sites) then [l] + more.links else [])
      && r.ok == (InRange(l.a, l.b, sites) && more.ok)
      && (r.ok ==> r.rest == more.rest)
  {
    hide ScanCount;
  }

  lemma FromBack(a: nat, rest: string)
    requires rest != "" && !Digit(rest[0])
    ensures ScanFrom(":" + (Num(a) + rest)) == Got(a as int, rest)
  {
    var s := ":" + (Num(a) + rest);
    assert s[1..] == Num(a) + rest;
    NumScan(a, rest);
  }

  lemma RecTextStep(r: Rec, rest: string)
    ensures RecText(r) + rest == ":" + (Num(r.a) + (CountsText(r.to) + rest))
  {
    hide Num, CountsText;
  }

  lemma CountsStart(to: seq<(nat, int)>, rest: string)
    requires Edge(rest)
    ensures CountsText(to) + rest != "" && !Digit((CountsText(to) + rest)[0])
  {
    hide Num;
    assert to == [] ==> CountsText(to) + rest == rest;
  }

  // One L-record.
  lemma RecBack(r: Rec, rest: string, sites: nat)
    requires Edge(rest)
    ensures ScanFrom(RecText(r) + rest) == Got(r.a as int, CountsText(r.to) + rest)
    ensures ReadUp(ScanCounts(CountsText(r.to) + rest, r.a, sites), RecLinks(r.a, r.to), sites, rest)
  {
    hide Num, CountsText, RecText, ScanFrom;
    RecTextStep(r, rest);
    CountsStart(r.to, rest);
    FromBack(r.a, CountsText(r.to) + rest);
    CountsBack(r.a, r.to, rest, sites);
  }

  lemma {:induction false} RecsStart(recs: seq<Rec>, j: nat, rest: string)
    requires rest != "" && rest[0] == '\n'
    ensures Edge(RecsText(recs, j) + rest)
  {
    hide Num;
    if recs == [] {
      assert RecsText(recs, j) + rest == rest;
    } else if recs[0].to == [] {
      RecsStart(recs[1..], j, rest);
    }
  }

  lemma ScanLinksSkips(s: string, sites: int)
    ensures ScanLinks(SkipSpace(s), sites) == ScanLinks(s, sites)
  {
    SkipTwice(s);
  }

  lemma RecsTextStep(recs: seq<Rec>, j: nat, rest: string) returns (sep: string, k: nat)
    requires recs != [] && recs[0].to != [] && rest != "" && rest[0] == '\n'
    ensures RecsText(recs, j) + rest == RecText(recs[0]) + (sep + (RecsText(recs[1..], k) + rest))
    ensures Edge(sep + (RecsText(recs[1..], k) + rest))
    ensures forall c :: c in sep ==> Space(c)
  {
    hide RecText;
    var text := RecText(recs[0]);
    if j + |text| > RECLINE {
      sep, k := "\n", 0;
    } else {
      sep, k := "", j + |text|;
      assert sep + RecsText(recs[1..], k) == RecsText(recs[1..], k);
    }
    assert RecsText(recs, j) == text + (sep + RecsText(recs[1..], k));
    RecsStart(recs[1..], k, rest);
    hide RecsText;
    Reassociate(text, sep, RecsText(recs[1..], k), rest);
    assert sep == "" ==> sep + (RecsText(recs[1..], k) + rest) == RecsText(recs[1..], k) + rest;
  }

  lemma Reassociate(a: string, b: string, c: string, d: string)
    ensures a + (b + c) + d == a + (b + (c + d))
  {
  }

  // The L-records are read in their order, up to a count that is out of range.
  lemma {:induction false} RecsBack(recs: seq<Rec>, j: nat, rest: string, sites: nat)
    requires rest != "" && rest[0] == '\n' && SkipSpace(rest) != "" && SkipSpace(rest)[0] != ':'
    ensures ReadUp(ScanLinks(RecsText(recs, j) + rest, sites), AllLinks(recs), sites, SkipSpace(rest))
  {
    if recs == [] {
      assert RecsText(recs, j) + rest == rest;
      NoRec(rest, sites);
    } else if recs[0].to == [] {
      RecsBack(recs[1..], j, rest, sites);
      assert RecLinks(recs[0].a, []) + AllLinks(recs[1..]) == AllLinks(recs[1..]);
    } else {
      var sep, k := RecsTextStep(recs, j, rest);
      var r, more := recs[0], RecsText(recs[1..], k) + rest;
      var first, links := RecLinks(r.a, r.to), AllLinks(recs[1..]);
      assert AllLinks(recs) == first + links;
      hide RecText, CountsText, ScanFrom, ScanCounts, RecsText, Edge, AllLinks, RecLinks, SkipSpace, ScanLinks, ReadUp;
      RecBack(r, sep + more, sites);
      SpacesSkipped(sep, more);
      ScanLinksSkips(sep + more, sites);
      ScanLinksSkips(more, sites);
      RecsBack(recs[1..], k, rest, sites);
      LinksJoin(RecText(r) + (sep + more), CountsText(r.to) + (sep + more), r.a, sep + more, sites, first, links,
        SkipSpace(rest));
    }
  }

  lemma NoRec(rest: string, sites: nat)
    requires SkipSpace(rest) != "" && SkipSpace(rest)[0] != ':'
    ensures ScanLinks(rest, sites) == Links([], SkipSpace(rest), true)
  {
  }

  lemma LinksJoin(s: string, counts: string, a: nat, more: string, sites: nat, x: seq<Link>, y: seq<Link>, rest: string)
    requires ScanFrom(s) == Got(a as int, counts)
    requires ReadUp(ScanCounts(counts, a, sites), x, sites, more)
    requires ReadUp(ScanLinks(more, sites), y, sites, rest)
    ensures ReadUp(ScanLinks(s, sites), x + y, sites, rest)
  {
    hide ScanFrom, ScanCounts;
    SaneSplit(x, y, sites);
    var k := Sane(x, sites);
    if k < |x| {
      assert (x + y)[..k] == x[..k];
    } else {
      assert x[..k] == x && (x + y)[..|x| + Sane(y, sites)] == x + y[..Sane(y, sites)];
    }
  }

  // Everything after the S-records, with the number at the end.
  function BodyText(links: string, m: int): string {
    "\n!!NLREC\n" + (links + EndText(m))
  }

  function EndText(m: int): string {
    "\n!!NLEND " + Num(m) + "\n"
  }

  lemma DumpTextIs(h: Header, sites: seq<Site>, recs: seq<Rec>)
    ensures DumpText(h, sites, recs)
      == HeaderText(h) + (SitesText(sites, 0) + BodyText(RecsText(recs, 0), LinkCount(recs)))
  {
    hide HeaderText, SitesText, RecsText, Num;
  }

  lemma EndBack(m: int)
    ensures EndText(m)[0] == '\n' && SkipSpace(EndText(m)) != "" && SkipSpace(EndText(m))[0] == '!'
    ensures ScanEnd(SkipSpace(EndText(m))) == Got(m, "\n")
  {
    var number := " " + (Num(m) + "\n");
    assert EndText(m) == "\n" + ("!!NLEND" + number);
    SpacesSkipped("\n", "!!NLEND" + number);
    hide Num, ScanNum;
    TextScan("!!NLEND", number);
    NumAfterBlank(m, "\n");
  }

  lemma MarkBack(links: string, m: int)
    ensures ScanWord(SkipSpace(BodyText(links, m)), MAXHOST - 1) == Got("!!NLREC", "\n" + (links + EndText(m)))
    ensures SkipSpace("\n" + (links + EndText(m))) == SkipSpace(links + EndText(m))
  {
    hide EndText;
    var tail := links + EndText(m);
    var line := "!!NLREC" + ("\n" + tail);
    assert BodyText(links, m) == "\n" + line;
    SpacesSkipped("\n", tail);
    SkipTwice(BodyText(links, m));
    SpacesSkipped("\n", line);
    SkipTwice(line);
    WordScan("!!NLREC", "\n" + tail, MAXHOST - 1);
  }

  // Where a dump goes wrong behind the S-records.
  function Judged(links: seq<Link>, sites: int, m: int): Verdict {
    if Sane(links, sites) < |links| then FormErr(4) else if m != |links| then FormErr(3) else Fine
  }

  // What comes after the S-records is read back, whatever was read from them: the links
  // up to the first bad one; the number at the end must be theirs.
  lemma ParseAfterSites(h: Header, sites: seq<Site>, text: string, m: int, got: seq<Site>, links: seq<Link>)
    requires 0 < |h.version| <= 15 && Solid(h.version) && h.sites == |sites| > 0
    requires "3.0" <= h.version || "3.1" <= h.version
    requires ScanSites(SkipSpace(SitesText(sites, 0) + BodyText(text, m)), |sites|)
      == Sites(got, SkipSpace(BodyText(text, m)), true)
    requires var body := SkipSpace(text + EndText(m));
      ReadUp(if "3.0" <= h.version then ScanTriples(body, |sites|) else ScanLinks(body, |sites|),
             links, |sites|, SkipSpace(EndText(m)))
    ensures Parse(HeaderText(h) + (SitesText(sites, 0) + BodyText(text, m)))
      == Dump(h, got, links[..Sane(links, |sites|)], Judged(links, |sites|, m))
  {
    hide HeaderText, SitesText, BodyText, EndText, SkipSpace, ScanWord, ScanHeader, ScanSites, ScanLinks, ScanTriples,
      ScanEnd, ScanNum;
    HeaderBack(h, SitesText(sites, 0) + BodyText(text, m));
    MarkBack(text, m);
    EndBack(m);
  }

  lemma VersionIs()
    ensures VERSION[..3] == "3.1" && !("3.0" <= VERSION) && Solid(VERSION)
  {
    assert VERSION[2] == '1';
  }

  // Any L-records, with any number at the end.
  lemma RecsDumpBack(h: Header, sites: seq<Site>, recs: seq<Rec>, m: int, got: seq<Site>)
    requires h.version == VERSION && h.sites == |sites| > 0
    requires var body := BodyText(RecsText(recs, 0), m);
      ScanSites(SkipSpace(SitesText(sites, 0) + body), |sites|) == Sites(got, SkipSpace(body), true)
    ensures var links := AllLinks(recs);
      Parse(HeaderText(h) + (SitesText(sites, 0) + BodyText(RecsText(recs, 0), m)))
      == Dump(h, got, links[..Sane(links, |sites|)], Judged(links, |sites|, m))
  {
    hide HeaderText, SitesText, RecsText, BodyText, EndText;
    hide SkipSpace, ScanSites, ScanLinks, ScanTriples, Parse, ReadUp, Solid;
    VersionIs();
    EndBack(m);
    ScanLinksSkips(RecsText(recs, 0) + EndText(m), |sites|);
    RecsBack(recs, 0, EndText(m), |sites|);
    ParseAfterSites(h, sites, RecsText(recs, 0), m, got, AllLinks(recs));
  }

  lemma {:induction false} LinksIn(recs: seq<Rec>, sites: nat)
    requires RecsOk(recs, sites)
    ensures AllIn(AllLinks(recs), sites)
  {
    if recs != [] {
      assert recs[0] in recs;
      RecIn(recs[0].a, recs[0].to, sites);
      LinksIn(recs[1..], sites);
    }
  }

  lemma {:induction false} RecIn(a: nat, to: seq<(nat, int)>, sites: nat)
    requires a < sites && forall t :: t in to ==> t.0 < sites
    ensures AllIn(RecLinks(a, to), sites)
  {
    if to != [] {
      assert to[0] in to;
      RecIn(a, to[1..], sites);
    }
  }

  lemma DumpBackAs(h: Header, sites: seq<Site>, recs: seq<Rec>, got: seq<Site>)
    requires h.version == VERSION && h.sites == |sites| > 0 && RecsOk(recs, |sites|)
    requires var body := BodyText(RecsText(recs, 0), LinkCount(recs));
      ScanSites(SkipSpace(SitesText(sites, 0) + body), |sites|) == Sites(got, SkipSpace(body), true)
    ensures Parse(DumpText(h, sites, recs)) == Dump(h, got, AllLinks(recs), Fine)
  {
    var links := AllLinks(recs);
    hide DumpText, HeaderText, SitesText, RecsText, BodyText, SkipSpace, ScanSites, Parse, RecsOk, AllLinks;
    DumpTextIs(h, sites, recs);
    RecsDumpBack(h, sites, recs, LinkCount(recs), got);
    LinksIn(recs, |sites|);
    SaneAll(links, |sites|);
    assert links[..|links|] == links;
  }

  // What is written is read back: all sites with their counts, and all links with
  // their tallies as far as a dump can show them.
  lemma ParseBack(h: Header, sites: seq<Site>, recs: seq<Rec>)
    requires h.version == VERSION && h.sites == |sites| > 0 && AllReadable(sites)
    requires RecsOk(recs, |sites|)
    ensures Parse(DumpText(h, sites, recs)) == Dump(h, sites, AllLinks(recs), Fine)
  {
    hide DumpText, SitesText, BodyText, SkipSpace, ScanSites, AllReadable, Parse, RecsOk;
    SitesBack(sites, 0, BodyText(RecsText(recs, 0), LinkCount(recs)));
    DumpBackAs(h, sites, recs, sites);
  }

  // A dump without sites is refused.
  lemma NoSites(h: Header, sites: seq<Site>, recs: seq<Rec>)
    requires h.version == VERSION && h.sites == 0
    ensures Parse(DumpText(h, sites, recs)) == NOTHING
  {
    hide DumpText, HeaderText, SitesText, RecsText, BodyText, SkipSpace, ScanHeader;
    DumpTextIs(h, sites, recs);
    HeaderBack(h, SitesText(sites, 0) + BodyText(RecsText(recs, 0), LinkCount(recs)));
  }

  lemma {:induction false} WordSolid(s: string, most: nat)
    ensures Solid(s[..Word(s, most)])
  {
    if s != "" && !Space(s[0]) && most > 0 {
      WordSolid(s[1..], most - 1);
      var n := Word(s[1..], most - 1);
      assert s[..n + 1] == [s[0]] + s[1..][..n];
    }
  }

  lemma SiteReadable(s: string)
    ensures ScanSite(s).Got? ==> Readable(ScanSite(s).value.name)
  {
    var t := SkipSpace(s);
    WordSolid(t, MAXHOST - 1);
    hide ScanNum;
  }

  lemma {:induction false} SitesReadable(s: string, n: nat)
    ensures AllReadable(ScanSites(s, n).sites)
    decreases n
  {
    hide ScanSite, Readable;
    if n > 0 {
      SiteReadable(s);
      if ScanSite(s).Got? {
        SitesReadable(ScanSite(s).rest, n - 1);
      }
    }
  }

  // Whatever is read, every name has been read by %127s.
  lemma ParsedReadable(s: string)
    ensures AllReadable(Parse(s).sites)
  {
    hide ScanHeader, ScanSites, ScanLinks, ScanTriples, ScanEnd, ScanWord, Readable;
    var head := ScanHeader(s);
    if head.Got? && head.value.sites > 0 {
      SitesReadable(head.rest, head.value.sites);
    }
  }

  // A dump is read back exactly when it has a site and every name can be read.
  lemma ParseExact(h: Header, sites: seq<Site>, recs: seq<Rec>)
    requires h.version == VERSION && h.sites == |sites| && RecsOk(recs, |sites|)
    ensures Parse(DumpText(h, sites, recs)) == Dump(h, sites, AllLinks(recs), Fine)
      <==> sites != [] && AllReadable(sites)
  {
    if sites != [] && AllReadable(sites) {
      ParseBack(h, sites, recs);
    } else {
      ParsedReadable(DumpText(h, sites, recs));
      hide Parse, DumpText, Readable;
    }
  }
}
