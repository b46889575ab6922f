// Dumps of version 3.0 as ninpaths (backends/ninpaths.c) reads them: one triple for each
// link.  The program does not write them any more.
module DumpTriples {
  import opened DumpScan
  import opened DumpFormat

  function TripleText(l: Link): string { Num(l.a) + "!" + Num(l.b) + "!" + Num(l.tally) + " " }

  function TriplesText(links: seq<Link>): string {
    if links == [] then "" else TripleText(links[0]) + TriplesText(links[1..])
  }

  // A dump with these triples that ends with the number m.
  function TriplesDump(h: Header, sites: seq<Site>, links: seq<Link>, m: int): string {
    HeaderText(h) + (SitesText(sites, 0) + BodyText(TriplesText(links), m))
  }

  lemma TripleTextIs(l: Link, rest: string)
    ensures TripleText(l) + rest == Num(l.a) + ("!" + (Num(l.b) + ("!" + (Num(l.tally) + (" " + rest)))))
  {
    hide Num;
  }

  lemma TripleBack(l: Link, rest: string)
    ensures ScanTriple(TripleText(l) + rest) == Got(l, SkipSpace(rest))
  {
    var third := Num(l.tally) + (" " + rest);
    var second := Num(l.b) + ("!" + third);
    TripleTextIs(l, rest);
    hide Num, SkipSpace, ScanNum, TripleText;
    NumScan(l.a, "!" + second);
    NumScan(l.b, "!" + third);
    NumScan(l.tally, " " + rest);
    assert ("!" + second)[1..] == second && ("!" + third)[1..] == third;
    SpacesSkipped(" ", rest);
  }

  // Where no triple follows.
  lemma NoTriple(s: string, sites: int)
    requires SkipSpace(s) != "" && SkipSpace(s)[0] == '!'
    ensures ScanTriples(s, sites) == Links([], SkipSpace(s), true)
  {
  }

  lemma TripleSkips(s: string, sites: int)
    ensures ScanTriples(SkipSpace(s), sites) == ScanTriples(s, sites)
  {
    SkipTwice(s);
    hide ScanNum, SkipSpace;
    assert ScanTriple(SkipSpace(s)) == ScanTriple(s);
  }

  lemma FirstTriple(links: seq<Link>, rest: string)
    requires links != []
    ensures TriplesText(links) + rest == TripleText(links[0]) + (TriplesText(links[1..]) + rest)
  {
    hide TripleText;
  }

  lemma TriplesStep(s: string, l: Link, rest: string, sites: int)
    requires ScanTriple(s) == Got(l, SkipSpace(rest))
    ensures var more := ScanTriples(SkipSpace(rest), sites);
      ScanTriples(s, sites).(rest := "") ==
        if InRange(l.a, l.b, sites) then more.(links := [l] + more.links, rest := "") else Links([], "", false)
    ensures InRange(l.a, l.b, sites) ==> ScanTriples(s, sites).rest == ScanTriples(SkipSpace(rest), sites).rest
  {
    hide ScanTriple, SkipSpace;
  }

  // The triples are read in their order, each from its first site to its second, up to
  // one that is out of range.
  lemma {:induction false} TriplesBack(links: seq<Link>, rest: string, sites: int)
    requires SkipSpace(rest) != "" && SkipSpace(rest)[0] == '!'
    ensures ReadUp(ScanTriples(TriplesText(links) + rest, sites), links, sites, SkipSpace(rest))
  {
    if links == [] {
      assert TriplesText(links) + rest == rest;
      NoTriple(rest, sites);
    } else {
      var l, more := links[0], TriplesText(links[1..]) + rest;
      FirstTriple(links, rest);
      TripleBack(l, more);
      TriplesStep(TripleText(l) + more, l, more, sites);
      hide ScanTriple, ScanTriples, SkipSpace, TripleText, TriplesText;
      if InRange(l.a, l.b, sites) {
        TripleSkips(more, sites);
        TriplesBack(links[1..], rest, sites);
        SaneStep(links, sites);
      }
    }
  }

  // A whole dump: all of it is taken up when every link is in range and the number at the
  // end is that of the links; otherwise the links before the first bad one are, or all.
  lemma TriplesDumpBack(h: Header, sites: seq<Site>, links: seq<Link>, m: int)
    requires "3.0" <= h.version && |h.version| <= 15 && Solid(h.version)
    requires h.sites == |sites| > 0 && AllReadable(sites)
    ensures Parse(TriplesDump(h, sites, links, m))
      == Dump(h, sites, links[..Sane(links, |sites|)], Judged(links, |sites|, m))
  {
    hide HeaderText, SitesText, TriplesText, BodyText, EndText, SkipSpace, ScanSites, ScanTriples, ScanLinks, Parse,
      ReadUp, AllReadable;
    SitesBack(sites, 0, BodyText(TriplesText(links), m));
    EndBack(m);
    TripleSkips(TriplesText(links) + EndText(m), |sites|);
    TriplesBack(links, EndText(m), |sites|);
    ParseAfterSites(h, sites, TriplesText(links), m, sites, links);
  }
}
