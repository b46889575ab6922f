// What ninpaths (backends/ninpaths.c) makes of Path lines: which of them lead to a dump
// that can be read back.
module PathLines {
  import opened DumpScan
  import opened DumpFormat
  import opened PathTable
  import opened Ninpaths

  predicate AllSolid(lines: seq<string>) { forall line :: line in lines ==> forall x :: x in line ==> !Space(x) }

  ghost predicate Clear(names: seq<string>) { forall name :: name in names ==> Readable(name) }

  lemma ClearOn(name: string, names: seq<string>)
    ensures Clear([name] + names) <==> Readable(name) && Clear(names)
  {
    hide Readable;
    assert forall x :: x in [name] + names <==> x == name || x in names;
  }

  // A Path line without white space has only names that can be read back, unless it
  // begins with a delimiter: then its first name is empty.
  lemma {:induction false} PathReadable(c: string)
    requires forall x :: x in c ==> !Space(x)
    ensures Clear(PathNames(c)) <==> c == "" || c[0] != '!'
    decreases |c|
  {
    if c != "" && Cut(c) < MAXHOST {
      var rest := SkipBangs(c[Cut(c)..]);
      PathReadable(rest);
      ClearOn(c[..Cut(c)], PathNames(rest));
      assert Readable(c[..Cut(c)]) <==> c[0] != '!';
    }
  }

  ghost predicate TellsNothing(lines: seq<string>) { forall x :: !Told(lines, x) }

  // Some line tells of a host, and every name of every line can be read back.
  ghost predicate TellsDumpable(lines: seq<string>) {
    !TellsNothing(lines) && forall x :: Told(lines, x) ==> Readable(x)
  }

  lemma PathTells(c: string)
    ensures PathNames(c) != [] <==> c != "" && Cut(c) < MAXHOST
  {
  }

  // The dump of a new table can be read back exactly when some line tells of a host and
  // every name of every line can be read.
  lemma DumpableExactly(hosts: seq<Nrec>, lines: seq<string>)
    requires HostsOk(hosts) && LinesAdded([], hosts, lines)
    ensures Dumpable(hosts) <==> TellsDumpable(lines)
  {
    hide Readable, Told, SentTo, Tally;
    forall x
      ensures Told(lines, x) <==> exists h :: h in hosts && h.id == x
    {
      assert Known(hosts, x) <==> Told(lines, x);
      KnownIs(hosts, x);
    }
    if hosts != [] {
      assert hosts[0] in hosts && Told(lines, hosts[0].id);
    }
  }

  lemma KnownIs(hosts: seq<Nrec>, x: string)
    ensures Known(hosts, x) <==> exists h :: h in hosts && h.id == x
  {
    if h :| h in hosts && h.id == x {
      var k :| 0 <= k < |hosts| && hosts[k] == h;
    }
  }

  // For lines without white space it takes a line that tells of a host, and no line
  // that begins with a delimiter.
  lemma SolidDumpable(hosts: seq<Nrec>, lines: seq<string>)
    requires HostsOk(hosts) && LinesAdded([], hosts, lines) && AllSolid(lines)
    ensures Dumpable(hosts) <==>
      && (exists line :: line in lines && line != "" && Cut(line) < MAXHOST)
      && (forall line :: line in lines ==> line == "" || line[0] != '!')
  {
    DumpableExactly(hosts, lines);
    hide Readable, LinesAdded, HostsOk, PathNames, Dumpable;
    forall line | line in lines
      ensures Clear(PathNames(line)) <==> line == "" || line[0] != '!'
      ensures PathNames(line) != [] <==> line != "" && Cut(line) < MAXHOST
    {
      PathReadable(line);
      PathTells(line);
    }
    SomeTold(lines);
    AllClear(lines);
  }

  lemma SomeTold(lines: seq<string>)
    ensures (exists x :: Told(lines, x)) <==> exists line :: line in lines && PathNames(line) != []
  {
    hide PathNames;
    if line :| line in lines && PathNames(line) != [] {
      assert Told(lines, PathNames(line)[0]);
    }
  }

  lemma AllClear(lines: seq<string>)
    ensures (forall x :: Told(lines, x) ==> Readable(x)) <==> forall line :: line in lines ==> Clear(PathNames(line))
  {
    hide PathNames, Readable;
    if forall x :: Told(lines, x) ==> Readable(x) {
      forall line, x | line in lines && x in PathNames(line)
        ensures Readable(x)
      {
        assert Told(lines, x);
      }
    }
  }

  // A new table of what Path lines tell.
  method Count(hash: string -> nat, lines: seq<string>, now: nat) returns (table: Paths)
    requires forall x :: hash(x) < HASH_TBL
    ensures fresh(table) && table.Valid() && table.total == |lines| && AllSeen(table.hosts)
    ensures LinesAdded([], table.hosts, lines)
    ensures Dumpable(table.hosts) <==> TellsDumpable(lines)
    ensures table.hosts == [] <==> TellsNothing(lines)
  {
    table := new Paths(hash, now);
    assert AllSeen(table.hosts);
    hide AllSeen, ChainsOk, LinesAdded, Dumpable, Told, Readable;
    table.TakePaths(lines);
    DumpableExactly(table.hosts, lines);
    NobodyTold(table.hosts, lines);
  }

  // Path lines counted in one table, and its dump read into another: what the second
  // has counted is what the lines tell, provided that the names allow it.
  method ByDump(hash: string -> nat, lines: seq<string>, now: nat, end: nat, avg: nat)
    returns (source: Paths, target: Paths, w: int, r: int, text: string)
    requires forall x :: hash(x) < HASH_TBL
    ensures fresh(source) && fresh(target) && source.Valid() && target.Valid()
    ensures LinesAdded([], source.hosts, lines) && w == (if lines == [] then -1 else 0)
    ensures w == 0 ==>
      && (TellsDumpable(lines) <==> Parse(text) == source.Whole(end, avg))
      && r == (if Parse(text).verdict.Fine? then 0 else -1)
    ensures w == 0 && Parse(text) == source.Whole(end, avg) ==>
      LinesAdded([], target.hosts, lines) && target.total == |lines|
    ensures w == 0 && TellsNothing(lines) ==> r == -1
  {
    source := Count(hash, lines, now);
    target := new Paths(hash, now);
    hide HostsOk, ChainsOk, LinesAdded, Dumpable, Joined, TalliesJoined, AllSeen, TellsDumpable, TellsNothing, Parse,
      SameButNo, Added, Paths.Whole;
    ghost var hosts := source.hosts;
    w, r, text := Transfer(source, target, end, avg);
    StillTold(hosts, source.hosts, lines);
    StillDumpable(hosts, source.hosts);
    if w == 0 && Dumpable(source.hosts) {
      ToldAgain(source.hosts, target.hosts, lines);
    }
  }

  lemma NobodyTold(hosts: seq<Nrec>, lines: seq<string>)
    requires LinesAdded([], hosts, lines)
    ensures hosts == [] <==> TellsNothing(lines)
  {
    hide Told, SentTo, Tally;
    if hosts != [] {
      KnownIs(hosts, hosts[0].id);
      assert Told(lines, hosts[0].id);
    }
  }

  lemma FindStill(hosts: seq<Nrec>, r: seq<Nrec>, x: string)
    requires SameButNo(hosts, r)
    ensures Find(r, x) == Find(hosts, x)
  {
    var k, m := Find(hosts, x), Find(r, x);
    assert k < |hosts| ==> r[k].id == x;
    assert m < |r| ==> hosts[m].id == x;
  }

  lemma StillTold(hosts: seq<Nrec>, r: seq<Nrec>, lines: seq<string>)
    requires SameButNo(hosts, r) && LinesAdded([], hosts, lines)
    ensures LinesAdded([], r, lines)
  {
    hide Told, LinesSeen, LinesHops;
    forall x
      ensures SentTo(r, x) == SentTo(hosts, x) && (Known(r, x) <==> Known(hosts, x))
    {
      FindStill(hosts, r, x);
    }
    forall x, y
      ensures Tally(r, x, y) == Tally(hosts, x, y)
    {
      FindStill(hosts, r, x);
      FindStill(hosts, r, y);
    }
    hide SentTo, Tally, Known;
  }

  lemma StillDumpable(hosts: seq<Nrec>, r: seq<Nrec>)
    requires SameButNo(hosts, r)
    ensures (Dumpable(r) <==> Dumpable(hosts)) && (AllSeen(r) <==> AllSeen(hosts)) && (r == [] <==> hosts == [])
  {
    hide Readable;
    forall k | 0 <= k < |hosts|
      ensures r[k] in r && hosts[k] in hosts && r[k].id == hosts[k].id && r[k].links == hosts[k].links
    {
    }
  }

  lemma ToldAgain(hosts: seq<Nrec>, r: seq<Nrec>, lines: seq<string>)
    requires LinesAdded([], hosts, lines)
    requires Joined([], r, hosts) && TalliesJoined([], r, hosts)
    ensures LinesAdded([], r, lines)
  {
    assert forall x :: SentTo([], x) == 0 && !Known([], x);
    assert forall x, y :: Tally([], x, y) == 0;
    hide SentTo, Tally, Known, Told, LinesSeen, LinesHops;
  }

  // A line without a host makes a dump without a site, which is refused.
  lemma EmptyLine(hosts: seq<Nrec>, h: Header)
    requires HostsOk(hosts) && LinesAdded([], hosts, [""])
    requires h.version == VERSION && h.sites == |hosts|
    ensures hosts == [] && Parse(DumpText(h, [], [])) == NOTHING
  {
    NobodyTold(hosts, [""]);
    assert TellsNothing([""]);
    NoSites(h, [], []);
  }

  // A line that begins with a delimiter makes a host without a name.
  lemma DelimiterLine(hosts: seq<Nrec>)
    requires HostsOk(hosts) && LinesAdded([], hosts, ["!a"])
    ensures PathNames("!a") == ["", "a"] && Known(hosts, "") && Known(hosts, "a") && !Dumpable(hosts)
  {
    var line := "!a";
    assert SkipBangs(line) == "a" by {
      assert line[1..] == "a" && SkipBangs("a") == "a";
    }
    assert Cut("a") == 1 by {
      assert "a"[1..] == "";
    }
    assert PathNames("a") == ["a"] by {
      assert "a"[..1] == "a" && "a"[1..] == "";
    }
    assert line in [line] && "" in PathNames(line) && "a" in PathNames(line);
    assert Told([line], "") && Told([line], "a");
    SolidDumpable(hosts, [line]);
  }

  lemma ShiftedText(rest: string)
    ensures SitesText([Site("", 1), Site("5a", 1)], 0) + rest
      == " " + ("1" + (" " + ("5" + (SiteText(Site("a", 1)) + [' '] + rest))))
  {
    var sites := [Site("", 1), Site("5a", 1)];
    assert Num(1) == "1";
    assert SiteText(sites[0]) == " 1" && SiteText(sites[1]) == "5a 1" && SiteText(Site("a", 1)) == "a 1";
    assert sites[1..] == [sites[1]] && [sites[1]][1..] == [];
    assert SitesText([sites[1]], 2) == "5a 1 ";
    assert SitesText(sites, 0) == " 1 5a 1 ";
  }

  // The count of the first host is read as a name, and the name of the second as a count.
  lemma FirstShifted(tail: string)
    requires tail != "" && tail[0] == 'a'
    ensures ScanSite("1" + (" " + ("5" + tail))) == Got(Site("1", 5), tail)
  {
    var numbers := " " + ("5" + tail);
    assert Num(5) == "5" && SkipSpace(tail) == tail;
    hide Num, ScanNum, ScanWord;
    WordScan("1", numbers, MAXHOST - 1);
    NumAfterBlank(5, tail);
  }

  lemma TwoShifted(body: string)
    ensures ScanSites(SkipSpace(SitesText([Site("", 1), Site("5a", 1)], 0) + body), 2)
      == Sites([Site("1", 5), Site("a", 1)], SkipSpace(body), true)
  {
    var got := [Site("1", 5), Site("a", 1)];
    var tail := SiteText(got[1]) + [' '] + body;
    var shifted := "1" + (" " + ("5" + tail));
    ShiftedText(body);
    assert tail[0] == 'a';
    assert SkipSpace(shifted) == shifted;
    hide SitesText, SiteText, ScanSite;
    SpacesSkipped(" ", shifted);
    FirstShifted(tail);
    SiteBack(got[1], ' ', body);
    hide SkipSpace;
    ScanSitesStep(shifted, 2, got[0], tail);
    ScanSitesStep(tail, 1, got[1], SkipSpace(body));
    assert got == [got[0]] + ([got[1]] + []);
  }

  // Without its name, a host's count is taken for a name, and the next host's name for
  // a count: a dump can be read back without an error as that of other hosts.
  lemma Misread(h: Header, recs: seq<Rec>)
    requires h.version == VERSION && h.sites == 2 && RecsOk(recs, 2)
    ensures Parse(DumpText(h, [Site("", 1), Site("5a", 1)], recs))
      == Dump(h, [Site("1", 5), Site("a", 1)], AllLinks(recs), Fine)
  {
    hide BodyText, SitesText, DumpText, Parse, RecsOk, ScanSites, SkipSpace, RecsText;
    TwoShifted(BodyText(RecsText(recs, 0), LinkCount(recs)));
    DumpBackAs(h, [Site("", 1), Site("5a", 1)], recs, [Site("1", 5), Site("a", 1)]);
  }
}
