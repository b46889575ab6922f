// The two-host merge of actsync (backends/actsync.c): one walk over the sorted lines
// of both active files.
module ActiveMerge {
  import opened ActiveFile
  import opened AliasSpec
  import opened AliasMarks
  import opened AliasChains

  const DEF_HI := "0000000000"
  const DEF_LOW := "0000000001"

  // -o k, -o K and -m.
  datatype Options = Options(hilowNewgrp: bool, hilowAll: bool, merge: bool)

  function GroupKey(g: Group): Key { Key(false, "", g.name, g.hostid, g.linenum) }

  function SortGroups(gs: seq<Group>): (r: seq<Group>)
    ensures |r| == |gs| && forall g :: g in r <==> g in gs
  {
    Sort(GroupKey, gs)
  }

  // By name, host1 ahead of host2.
  ghost predicate InOrder(gs: seq<Group>) {
    forall i, j :: 0 <= i < j < |gs| ==>
      && Strcmp(gs[i].name, gs[j].name) <= 0
      && (gs[i].name == gs[j].name ==> gs[i].hostid <= gs[j].hostid)
  }

  ghost predicate TwoHosts(gs: seq<Group>) {
    forall g :: g in gs ==> g.hostid == HOSTID1 || g.hostid == HOSTID2
  }

  // The same group of the same host.
  predicate Twins(a: Group, b: Group) { a.name == b.name && a.hostid == b.hostid }

  // How many of the first n lines list the group for the host, and are not ignored.
  function Listings(gs: seq<Group>, g: Group, n: nat): (c: nat)
    requires n <= |gs|
    ensures c <= n
  {
    if n == 0 then 0 else
      Listings(gs, g, n - 1) + if gs[n - 1].ignore == {} && Twins(gs[n - 1], g) then 1 else 0
  }

  function Earlier(gs: seq<Group>, k: nat): nat
    requires k < |gs|
  {
    Listings(gs, gs[k], k)
  }

  // The first line from the n'th on that lists the name for the host, and is not ignored.
  function FindOn(gs: seq<Group>, name: string, hostid: int, n: nat): (k: nat)
    requires n <= |gs|
    ensures n <= k <= |gs|
    ensures k < |gs| ==> gs[k].ignore == {} && gs[k].name == name && gs[k].hostid == hostid
    ensures forall i :: n <= i < k ==> !(gs[i].ignore == {} && gs[i].name == name && gs[i].hostid == hostid)
    decreases |gs| - n
  {
    if n == |gs| || (gs[n].ignore == {} && gs[n].name == name && gs[n].hostid == hostid) then n
    else FindOn(gs, name, hostid, n + 1)
  }

  // Where host1 has the group, the first line of host2 only gives its type.
  function Due(gs: seq<Group>, k: nat): nat
    requires k < |gs|
  {
    if gs[k].hostid == HOSTID2 && FindOn(gs, gs[k].name, HOSTID1, 0) < |gs| then 1 else 0
  }

  predicate Output(gs: seq<Group>, k: nat)
    requires k < |gs|
  {
    gs[k].ignore == {} && Earlier(gs, k) == Due(gs, k)
  }

  // On both hosts: host1's entry with the type of host2.
  function FromBoth(g: Group, other: Group, opts: Options): Group {
    g.(output := true, outKind := other.kind,
       outHi := if opts.hilowAll then other.hi else g.hi, outLow := if opts.hilowAll then other.low else g.low)
  }

  // On host2 only: a new group.
  function FromHost2(g: Group, opts: Options): Group {
    g.(output := true, outKind := g.kind,
       outHi := if opts.hilowNewgrp then g.hi else DEF_HI, outLow := if opts.hilowNewgrp then g.low else DEF_LOW)
  }

  // On host1 only: to be removed, unless the files are merged.
  function FromHost1(g: Group, opts: Options): Group {
    g.(output := true, outKind := g.kind, outHi := g.hi, outLow := g.low, remove := g.remove || !opts.merge)
  }

  function Merged(gs: seq<Group>, opts: Options, k: nat): Group
    requires k < |gs|
  {
    var g := gs[k];
    var m := FindOn(gs, g.name, HOSTID2, 0);
    if Earlier(gs, k) > Due(gs, k) then g.Marked(Dup)
    else if !Output(gs, k) then g
    else if g.hostid == HOSTID1 && m < |gs| then FromBoth(g, gs[m], opts)
    else if g.hostid == HOSTID2 then FromHost2(g, opts)
    else FromHost1(g, opts)
  }

  function Merge(gs: seq<Group>, opts: Options): (r: seq<Group>)
    ensures |r| == |gs|
  {
    seq(|gs|, k requires 0 <= k < |gs| => Merged(gs, opts, k))
  }

  lemma {:induction false} ListingsNone(gs: seq<Group>, g: Group, m: nat, n: nat)
    requires m <= n <= |gs|
    requires forall i :: m <= i < n ==> !(gs[i].ignore == {} && Twins(gs[i], g))
    ensures Listings(gs, g, n) == Listings(gs, g, m)
  {
    if m < n {
      ListingsNone(gs, g, m, n - 1);
    }
  }

  lemma {:induction false} ListingsGrow(gs: seq<Group>, g: Group, m: nat, n: nat)
    requires m <= n <= |gs|
    ensures Listings(gs, g, m) <= Listings(gs, g, n)
    ensures m < n && gs[m].ignore == {} && Twins(gs[m], g) ==> Listings(gs, g, m) < Listings(gs, g, n)
  {
    if m < n {
      ListingsGrow(gs, g, m, n - 1);
    }
  }

  lemma {:induction false} ListingsTwin(gs: seq<Group>, a: Group, b: Group, n: nat)
    requires n <= |gs| && Twins(a, b)
    ensures Listings(gs, a, n) == Listings(gs, b, n)
  {
    if n > 0 {
      ListingsTwin(gs, a, b, n - 1);
    }
  }

  // Lines of one group and one host are next to each other, those of one name are, too.
  lemma Between(gs: seq<Group>, i: nat, j: nat, k: nat)
    requires InOrder(gs) && i <= j <= k < |gs| && gs[i].name == gs[k].name
    ensures gs[j].name == gs[k].name
    ensures gs[i].hostid <= gs[j].hostid <= gs[k].hostid
  {
    if i < j < k {
      StrcmpZero(gs[i].name, gs[j].name);
      StrcmpZero(gs[j].name, gs[k].name);
      StrcmpTrans(gs[i].name, gs[j].name, gs[k].name);
      StrcmpZero(gs[i].name, gs[k].name);
    }
  }

  // A line that is no twin of an earlier neighbour is the first of its kind.
  lemma FirstOfKind(gs: seq<Group>, c: nat, k: nat)
    requires InOrder(gs) && c < k < |gs|
    requires !Twins(gs[c], gs[k])
    requires forall i :: c < i < k && gs[i].ignore == {} ==> Twins(gs[c], gs[i])
    ensures Earlier(gs, k) == 0
    ensures gs[k].name != gs[c].name ==> Due(gs, k) == 0
  {
    forall i | 0 <= i < k
      ensures !(gs[i].ignore == {} && Twins(gs[i], gs[k]))
      ensures gs[k].name != gs[c].name ==> !(gs[i].ignore == {} && gs[i].name == gs[k].name)
    {
      if i <= c && gs[i].name == gs[k].name {
        Between(gs, i, c, k);
      }
    }
    ListingsNone(gs, gs[k], 0, k);
    var h := FindOn(gs, gs[k].name, HOSTID1, 0);
    if h < |gs| && k < h {
      Between(gs, k, k, h);
    }
  }

  // The line after one that is passed over begins a new kind, or goes on with it.
  lemma NextReady(gs: seq<Group>, c: nat)
    requires InOrder(gs) && c + 1 < |gs|
    requires || (gs[c].ignore != {} && Earlier(gs, c) == Due(gs, c))
             || (gs[c].ignore == {} && Earlier(gs, c) == 0 && Due(gs, c) == 1)
    ensures Earlier(gs, c + 1) == Due(gs, c + 1)
  {
    if Twins(gs[c], gs[c + 1]) {
      ListingsTwin(gs, gs[c], gs[c + 1], c);
    } else {
      FirstOfKind(gs, c, c + 1);
      if gs[c].name == gs[c + 1].name {
        var h := FindOn(gs, gs[c].name, HOSTID1, 0);
        if Due(gs, c + 1) == 1 {
          assert gs[h].hostid == HOSTID1 && h != c;
          if h < c {
            assert gs[c].hostid < HOSTID2;
            Between(gs, h, c, c + 1);
            ListingsGrow(gs, gs[c], h, c);
          }
        }
      }
    }
  }

  // What the walk finds at a line it has come to.
  lemma MergedHere(gs: seq<Group>, opts: Options, c: nat, n: nat)
    requires InOrder(gs) && TwoHosts(gs) && c < n <= |gs|
    requires gs[c].ignore == {} && Earlier(gs, c) == Due(gs, c)
    requires forall i :: c < i < n && gs[i].ignore == {} ==> Twins(gs[c], gs[i])
    requires n < |gs| ==> gs[n].ignore == {} && !Twins(gs[c], gs[n])
    ensures n < |gs| && gs[n].name == gs[c].name ==>
      gs[c].hostid == HOSTID1 && gs[n].hostid == HOSTID2 && FindOn(gs, gs[c].name, HOSTID2, 0) == n
    ensures gs[c].hostid == HOSTID1 && (n == |gs| || gs[n].name != gs[c].name) ==>
      FindOn(gs, gs[c].name, HOSTID2, 0) == |gs|
  {
    assert gs[c] in gs;
    if n < |gs| {
      assert gs[n] in gs;
    }
    if gs[c].hostid == HOSTID1 {
      var m := FindOn(gs, gs[c].name, HOSTID2, 0);
      if n <= m < |gs| {
        Between(gs, c, n, m);
      }
    }
  }

  // The twins that follow a line are duplicates.
  lemma TwinsFollow(gs: seq<Group>, opts: Options, c: nat, n: nat)
    requires InOrder(gs) && c < n < |gs| && Twins(gs[c], gs[n])
    requires gs[c].ignore == {} && Earlier(gs, c) == Due(gs, c)
    ensures Merged(gs, opts, n) == gs[n].Marked(Dup)
  {
    ListingsTwin(gs, gs[c], gs[n], c);
    ListingsGrow(gs, gs[n], c, n);
  }

  // Ignored lines that follow are left as they are.
  lemma IgnoredFollow(gs: seq<Group>, opts: Options, c: nat, n: nat)
    requires InOrder(gs) && c < n < |gs| && !Twins(gs[c], gs[n]) && gs[n].ignore != {}
    requires forall i :: c < i < n && gs[i].ignore == {} ==> Twins(gs[c], gs[i])
    ensures Merged(gs, opts, n) == gs[n]
  {
    FirstOfKind(gs, c, n);
  }

  lemma Matched(gs: seq<Group>, opts: Options, c: nat, n: nat)
    requires InOrder(gs) && c < n < |gs| && gs[c].name == gs[n].name && gs[n].ignore == gs[c].ignore == {}
    requires gs[c].hostid == HOSTID1 && gs[n].hostid == HOSTID2
    requires forall i :: c < i < n && gs[i].ignore == {} ==> Twins(gs[c], gs[i])
    ensures Merged(gs, opts, n) == gs[n]
    ensures n + 1 < |gs| ==> Earlier(gs, n + 1) == Due(gs, n + 1)
  {
    FirstOfKind(gs, c, n);
    assert FindOn(gs, gs[c].name, HOSTID1, 0) <= c;
    if n + 1 < |gs| {
      NextReady(gs, n);
    }
  }

  // What becomes of the line at c when n is the next line that counts.
  lemma MergedAt(gs: seq<Group>, opts: Options, c: nat, n: nat)
    requires InOrder(gs) && TwoHosts(gs) && c < n <= |gs|
    requires gs[c].ignore == {} && Earlier(gs, c) == Due(gs, c)
    requires forall i :: c < i < n && gs[i].ignore == {} ==> Twins(gs[c], gs[i])
    requires n < |gs| ==> gs[n].ignore == {} && !Twins(gs[c], gs[n])
    ensures n < |gs| && gs[n].name == gs[c].name ==>
      && gs[c].hostid == HOSTID1
      && Merged(gs, opts, c) == FromBoth(gs[c], gs[n], opts)
      && Merged(gs, opts, n) == gs[n]
      && (n + 1 < |gs| ==> Earlier(gs, n + 1) == Due(gs, n + 1))
    ensures n == |gs| || gs[n].name != gs[c].name ==>
      && Merged(gs, opts, c) == (if gs[c].hostid == HOSTID2 then FromHost2(gs[c], opts) else FromHost1(gs[c], opts))
      && (n < |gs| ==> Earlier(gs, n) == Due(gs, n))
  {
    assert gs[c] in gs;
    MergedHere(gs, opts, c, n);
    if n < |gs| {
      hide InOrder, TwoHosts, Earlier, Due;
      if gs[n].name == gs[c].name {
        Matched(gs, opts, c, n);
      } else {
        FirstOfKind(gs, c, n);
      }
    }
  }

  ghost predicate Agree(s: seq<Group>, t: seq<Group>, lo: nat, hi: nat) {
    |s| == |t| && lo <= hi <= |s| && forall k :: lo <= k < hi ==> s[k] == t[k]
  }

  lemma AgreeJoin(s: seq<Group>, t: seq<Group>, lo: nat, mid: nat, hi: nat)
    requires Agree(s, t, lo, mid) && Agree(s, t, mid, hi)
    ensures Agree(s, t, lo, hi)
  {
  }

  // Lines that are as they were, and are to stay so.
  lemma AgreeKept(s: seq<Group>, gs: seq<Group>, t: seq<Group>, lo: nat, mid: nat, hi: nat)
    requires Agree(s, gs, lo, hi) && Agree(gs, t, lo, mid) && mid <= hi
    ensures Agree(s, t, lo, mid) && Agree(s, gs, mid, hi)
  {
  }

  // The walk over lines that are sorted and, where they have problems, marked.
  method MergeWalk(grp: array<Group>, opts: Options)
    requires InOrder(grp[..]) && TwoHosts(grp[..])
    modifies grp
    ensures grp[..] == Merge(old(grp[..]), opts)
  {
    ghost var gs := grp[..];
    var cur := 0;
    hide InOrder, TwoHosts, Merge, Earlier, Due;
    if grp.Length > 0 {
      Begins(gs);
    }
    while cur < grp.Length
      invariant 0 <= cur <= grp.Length
      invariant Agree(grp[..], Merge(gs, opts), 0, cur)
      invariant Agree(grp[..], gs, cur, grp.Length)
      invariant cur < grp.Length ==> Earlier(gs, cur) == Due(gs, cur)
    {
      cur := MergeOne(grp, opts, cur, gs);
    }
  }

  lemma Begins(gs: seq<Group>)
    requires InOrder(gs) && |gs| > 0
    ensures Earlier(gs, 0) == Due(gs, 0)
  {
    var h := FindOn(gs, gs[0].name, HOSTID1, 0);
    if Due(gs, 0) == 1 {
      Between(gs, 0, 0, h);
    }
  }

  // An ignored line stays as it is.
  lemma PassedOver(s: seq<Group>, gs: seq<Group>, opts: Options, cur: nat)
    requires InOrder(gs) && cur < |gs| && gs[cur].ignore != {} && Earlier(gs, cur) == Due(gs, cur)
    requires Agree(s, Merge(gs, opts), 0, cur) && Agree(s, gs, cur, |s|)
    ensures Agree(s, Merge(gs, opts), 0, cur + 1) && Agree(s, gs, cur + 1, |s|)
    ensures cur + 1 < |gs| ==> Earlier(gs, cur + 1) == Due(gs, cur + 1)
  {
    MergeAt(gs, opts, cur);
    if cur + 1 < |gs| {
      NextReady(gs, cur);
    }
    hide Merge, InOrder, Earlier, Due;
  }

  // The group at cur; where the next ones are.
  method MergeOne(grp: array<Group>, opts: Options, cur: nat, ghost gs: seq<Group>) returns (nxt: nat)
    requires |gs| == grp.Length && InOrder(gs) && TwoHosts(gs) && cur < grp.Length
    requires Agree(grp[..], Merge(gs, opts), 0, cur) && Agree(grp[..], gs, cur, grp.Length)
    requires Earlier(gs, cur) == Due(gs, cur)
    modifies grp
    ensures cur < nxt <= grp.Length
    ensures Agree(grp[..], Merge(gs, opts), 0, nxt) && Agree(grp[..], gs, nxt, grp.Length)
    ensures nxt < grp.Length ==> Earlier(gs, nxt) == Due(gs, nxt)
  {
    hide InOrder, TwoHosts, Merge, Earlier, Due, Agree, Twins;
    nxt := cur + 1;
    AgreeAt(grp[..], gs, cur, grp.Length);
    if grp[cur].ignore != {} {
      PassedOver(grp[..], gs, opts, cur);
      return;
    }
    nxt := Duplicates(grp, opts, cur, gs);
    assert grp[cur] == gs[cur] by { AgreeAt(grp[..], gs, cur, cur + 1); }
    var from := nxt;
    nxt := Ignored(grp, opts, cur, from, gs);
    AgreeKept(grp[..], gs, Merge(gs, opts), from, nxt, grp.Length);
    AgreeJoin(grp[..], Merge(gs, opts), cur + 1, from, nxt);
    nxt := Select(grp, opts, cur, nxt, gs);
  }

  lemma AgreeAt(s: seq<Group>, t: seq<Group>, k: nat, hi: nat)
    requires Agree(s, t, k, hi) && k < hi
    ensures s[k] == t[k]
  {
  }

  lemma MergeAt(gs: seq<Group>, opts: Options, k: nat)
    requires k < |gs|
    ensures Merge(gs, opts)[k] == Merged(gs, opts, k)
  {
  }

  // Decides what to do with the line at cur, given the next line that counts.
  method Select(grp: array<Group>, opts: Options, cur: nat, nxt0: nat, ghost gs: seq<Group>) returns (nxt: nat)
    requires |gs| == grp.Length && InOrder(gs) && TwoHosts(gs) && cur < nxt0 <= grp.Length
    requires Earlier(gs, cur) == Due(gs, cur) && gs[cur].ignore == {} && grp[cur] == gs[cur]
    requires Agree(grp[..], Merge(gs, opts), 0, cur) && Agree(grp[..], Merge(gs, opts), cur + 1, nxt0)
    requires Agree(grp[..], gs, nxt0, grp.Length)
    requires forall i :: cur < i < nxt0 && gs[i].ignore == {} ==> Twins(gs[cur], gs[i])
    requires nxt0 < grp.Length ==> gs[nxt0].ignore == {} && !Twins(gs[cur], gs[nxt0])
    modifies grp
    ensures nxt0 <= nxt <= grp.Length
    ensures Agree(grp[..], Merge(gs, opts), 0, nxt) && Agree(grp[..], gs, nxt, grp.Length)
    ensures nxt < grp.Length ==> Earlier(gs, nxt) == Due(gs, nxt)
  {
    nxt := nxt0;
    MergedAt(gs, opts, cur, nxt);
    MergeAt(gs, opts, cur);
    hide InOrder, TwoHosts, Merge, Merged, Earlier, Due, Agree, Twins;
    if nxt < grp.Length {
      AgreeAt(grp[..], gs, nxt, grp.Length);
      MergeAt(gs, opts, nxt);
    }
    ghost var before := grp[..];
    hide FromBoth, FromHost1, FromHost2;
    if nxt < grp.Length && grp[cur].name == grp[nxt].name {
      if grp[cur].hostid != HOSTID1 {
        assert false;
      }
      SetBoth(grp, opts, cur, nxt);
      LineSettled(before, grp[..], gs, Merge(gs, opts), cur, nxt);
      LinePassed(grp[..], gs, Merge(gs, opts), nxt);
      nxt := nxt + 1;
    } else {
      SetOne(grp, opts, cur);
      LineSettled(before, grp[..], gs, Merge(gs, opts), cur, nxt);
    }
  }

  // The group at cur is on host1, and the line of host2 for it at nxt.
  method SetBoth(grp: array<Group>, opts: Options, cur: nat, nxt: nat)
    requires cur < nxt < grp.Length
    modifies grp
    ensures grp[..] == old(grp[..])[cur := FromBoth(old(grp[cur]), old(grp[nxt]), opts)]
  {
    grp[cur] := grp[cur].(output := true,
      outHi := if opts.hilowAll then grp[nxt].hi else grp[cur].hi,
      outLow := if opts.hilowAll then grp[nxt].low else grp[cur].low,
      outKind := grp[nxt].kind);
  }

  // The group at cur is on one host only.
  method SetOne(grp: array<Group>, opts: Options, cur: nat)
    requires cur < grp.Length
    modifies grp
    ensures var g := old(grp[cur]);
      grp[..] == old(grp[..])[cur := if g.hostid == HOSTID2 then FromHost2(g, opts) else FromHost1(g, opts)]
  {
    if grp[cur].hostid == HOSTID2 {
      grp[cur] := grp[cur].(output := true,
        outHi := if opts.hilowNewgrp then grp[cur].hi else DEF_HI,
        outLow := if opts.hilowNewgrp then grp[cur].low else DEF_LOW,
        outKind := grp[cur].kind);
    } else {
      grp[cur] := grp[cur].(output := true, outHi := grp[cur].hi, outLow := grp[cur].low, outKind := grp[cur].kind);
      if !opts.merge {
        grp[cur] := grp[cur].(remove := true);
      }
    }
  }

  lemma LineSettled(before: seq<Group>, s: seq<Group>, gs: seq<Group>, t: seq<Group>, cur: nat, nxt: nat)
    requires Agree(before, t, 0, cur) && Agree(before, t, cur + 1, nxt) && Agree(before, gs, nxt, |before|)
    requires |s| == |before| && s == before[cur := s[cur]] && s[cur] == t[cur]
    ensures Agree(s, t, 0, nxt) && Agree(s, gs, nxt, |s|)
  {
  }

  lemma LinePassed(s: seq<Group>, gs: seq<Group>, t: seq<Group>, nxt: nat)
    requires Agree(s, t, 0, nxt) && Agree(s, gs, nxt, |s|) && nxt < |s| && t[nxt] == gs[nxt]
    ensures Agree(s, t, 0, nxt + 1) && Agree(s, gs, nxt + 1, |s|)
  {
  }

  // Marks the lines after cur that list its group again for its host.
  method Duplicates(grp: array<Group>, opts: Options, cur: nat, ghost gs: seq<Group>) returns (nxt: nat)
    requires |gs| == grp.Length && InOrder(gs) && cur < grp.Length
    requires Agree(grp[..], Merge(gs, opts), 0, cur) && Agree(grp[..], gs, cur, grp.Length)
    requires gs[cur].ignore == {} && Earlier(gs, cur) == Due(gs, cur)
    modifies grp
    ensures cur < nxt <= grp.Length
    ensures Agree(grp[..], Merge(gs, opts), 0, cur) && Agree(grp[..], gs, cur, cur + 1)
    ensures Agree(grp[..], Merge(gs, opts), cur + 1, nxt) && Agree(grp[..], gs, nxt, grp.Length)
    ensures forall k :: cur < k < nxt ==> Twins(gs[cur], gs[k])
    ensures nxt < grp.Length ==> !Twins(gs[cur], gs[nxt])
  {
    nxt := cur + 1;
    ghost var t := Merge(gs, opts);
    hide InOrder, Merge, Merged, Earlier, Due;
    while nxt < grp.Length
      invariant cur < nxt <= grp.Length
      invariant Agree(grp[..], t, 0, cur) && Agree(grp[..], gs, cur, cur + 1)
      invariant Agree(grp[..], t, cur + 1, nxt) && Agree(grp[..], gs, nxt, grp.Length)
      invariant forall k :: cur < k < nxt ==> Twins(gs[cur], gs[k])
    {
      AgreeAt(grp[..], gs, cur, cur + 1);
      AgreeAt(grp[..], gs, nxt, grp.Length);
      if grp[cur].hostid == grp[nxt].hostid && grp[cur].name == grp[nxt].name {
        TwinsFollow(gs, opts, cur, nxt);
        MergeAt(gs, opts, nxt);
        DupSet(grp[..], gs, t, cur, nxt, grp[nxt].Marked(Dup));
        ghost var before := grp[..];
        grp[nxt] := grp[nxt].Marked(Dup);
        assert grp[..] == before[nxt := before[nxt].Marked(Dup)];
        nxt := nxt + 1;
      } else {
        return;
      }
    }
  }

  lemma DupSet(s: seq<Group>, gs: seq<Group>, t: seq<Group>, cur: nat, nxt: nat, g: Group)
    requires cur < nxt < |s| && Agree(s, t, 0, cur) && Agree(s, gs, cur, cur + 1)
    requires Agree(s, t, cur + 1, nxt) && Agree(s, gs, nxt, |s|) && g == t[nxt]
    ensures var r := s[nxt := g];
      && Agree(r, t, 0, cur) && Agree(r, gs, cur, cur + 1)
      && Agree(r, t, cur + 1, nxt + 1) && Agree(r, gs, nxt + 1, |s|)
  {
  }

  // Passes over the ignored lines.
  method Ignored(grp: array<Group>, opts: Options, cur: nat, from: nat, ghost gs: seq<Group>) returns (nxt: nat)
    requires |gs| == grp.Length && InOrder(gs) && cur < from <= grp.Length
    requires Agree(grp[..], gs, from, grp.Length)
    requires forall k :: cur < k < from ==> Twins(gs[cur], gs[k])
    requires from < grp.Length ==> !Twins(gs[cur], gs[from])
    ensures from <= nxt <= grp.Length
    ensures Agree(gs, Merge(gs, opts), from, nxt)
    ensures forall k :: from <= k < nxt ==> gs[k].ignore != {}
    ensures nxt < grp.Length ==> gs[nxt].ignore == {} && !Twins(gs[cur], gs[nxt])
  {
    nxt := from;
    hide InOrder, Merge, Merged;
    while nxt < grp.Length && grp[nxt].ignore != {}
      invariant from <= nxt <= grp.Length
      invariant Agree(gs, Merge(gs, opts), from, nxt)
      invariant forall k :: from <= k < nxt ==> gs[k].ignore != {}
    {
      NoTwinBeyond(gs, cur, from, nxt);
      IgnoredFollow(gs, opts, cur, nxt);
      MergeAt(gs, opts, nxt);
      nxt := nxt + 1;
    }
    if nxt < grp.Length {
      NoTwinBeyond(gs, cur, from, nxt);
    }
  }

  lemma NoTwinBeyond(gs: seq<Group>, c: nat, m: nat, n: nat)
    requires InOrder(gs) && c < m <= n < |gs| && !Twins(gs[c], gs[m])
    ensures !Twins(gs[c], gs[n])
  {
    if gs[c].name == gs[n].name {
      Between(gs, c, m, n);
    }
  }

  // What the walk starts from.
  function Ready(gs: seq<Group>, lHost2: int): (r: seq<Group>)
    ensures |r| == |gs|
  {
    MarkProblems(SortGroups(gs), lHost2)
  }

  function MergedFile(gs: seq<Group>, opts: Options, lHost1: int, lHost2: int): (r: seq<Group>)
    ensures |r| == |gs|
  {
    MarkProblems(Merge(Ready(gs, lHost2), opts), lHost1)
  }

  lemma SortedInOrder(gs: seq<Group>)
    ensures InOrder(SortGroups(gs))
  {
    SortOrders(GroupKey, gs);
    var r := SortGroups(gs);
    hide Sort, Strcmp;
    forall i, j | 0 <= i < j < |r|
      ensures Strcmp(r[i].name, r[j].name) <= 0
      ensures r[i].name == r[j].name ==> r[i].hostid <= r[j].hostid
    {
      assert CompareKeys(GroupKey(r[i]), GroupKey(r[j])) <= 0;
      StrcmpZero(r[i].name, r[j].name);
    }
  }

  // Marking changes no line but for the reasons to ignore it.
  lemma OnlyMarks(gs: seq<Group>, hostid: int)
    ensures var r := MarkProblems(gs, hostid);
      forall k :: 0 <= k < |gs| ==> r[k] == gs[k].(ignore := r[k].ignore)
  {
    if hostid != NOHOST {
      Soundness(gs, hostid);
      hide MarkProblems, IsError, Just;
    }
  }

  lemma ReadyInOrder(gs: seq<Group>, lHost2: int)
    requires TwoHosts(gs)
    ensures InOrder(Ready(gs, lHost2)) && TwoHosts(Ready(gs, lHost2))
  {
    var sorted, r := SortGroups(gs), Ready(gs, lHost2);
    SortedInOrder(gs);
    OnlyMarks(sorted, lHost2);
    hide MarkProblems, Strcmp, SortGroups;
    forall i, j | 0 <= i < j < |r|
      ensures Strcmp(r[i].name, r[j].name) <= 0
      ensures r[i].name == r[j].name ==> r[i].hostid <= r[j].hostid
    {
      assert Strcmp(sorted[i].name, sorted[j].name) <= 0;
    }
    forall g | g in r
      ensures g.hostid == HOSTID1 || g.hostid == HOSTID2
    {
      var k :| 0 <= k < |r| && r[k] == g;
      assert sorted[k] in gs;
    }
  }

  method SortInPlace(grp: array<Group>)
    modifies grp
    ensures grp[..] == SortGroups(old(grp[..]))
  {
    var sorted := SortGroups(grp[..]);
    hide SortGroups;
    forall k | 0 <= k < grp.Length {
      grp[k] := sorted[k];
    }
  }

  // Merges the lines of both hosts: which to output, with what, and which to remove.
  method MergeGrps(grp: array<Group>, opts: Options, lHost1: int, lHost2: int)
    requires TwoHosts(grp[..])
    modifies grp
    ensures grp[..] == MergedFile(old(grp[..]), opts, lHost1, lHost2)
  {
    ReadyInOrder(grp[..], lHost2);
    hide MarkProblems, SortGroups, Merge, InOrder, TwoHosts, Errors;
    SortInPlace(grp);
    var h2Probs := MarkEqProbs(grp, lHost2);
    MergeWalk(grp, opts);
    var h1Probs := MarkEqProbs(grp, lHost1);
  }

  // A name that counts once for host1 and twice for host2.
  ghost predicate Overlisted(gs: seq<Group>) {
    exists i, j, k :: 0 <= i < |gs| && 0 <= j < k < |gs| && Trips(gs, i, j, k)
  }

  ghost predicate Trips(gs: seq<Group>, i: nat, j: nat, k: nat)
    requires i < |gs| && j < |gs| && k < |gs|
  {
    && gs[i].ignore == gs[j].ignore == gs[k].ignore == {}
    && gs[i].name == gs[j].name == gs[k].name
    && gs[i].hostid == HOSTID1 && gs[j].hostid == gs[k].hostid == HOSTID2
  }

  // Every group that is not ignored is output.
  lemma OutputSome(gs: seq<Group>, k: nat) returns (o: nat)
    requires TwoHosts(gs) && k < |gs| && gs[k].ignore == {}
    ensures o < |gs| && Output(gs, o) && gs[o].name == gs[k].name
  {
    assert gs[k] in gs;
    o := FindOn(gs, gs[k].name, HOSTID1, 0);
    if o == |gs| {
      o := FindOn(gs, gs[k].name, HOSTID2, 0);
    }
    ListingsNone(gs, gs[o], 0, o);
  }

  lemma OutputTwice(gs: seq<Group>, a: nat, b: nat)
    requires TwoHosts(gs) && a < b < |gs| && Output(gs, a) && Output(gs, b) && gs[a].name == gs[b].name
    ensures Overlisted(gs)
  {
    assert gs[a] in gs && gs[b] in gs;
    if Twins(gs[a], gs[b]) {
      ListingsTwin(gs, gs[a], gs[b], a);
      ListingsGrow(gs, gs[a], a, b);
      ListingsTwin(gs, gs[a], gs[b], b);
      assert false;
    } else {
      var h, k := if gs[a].hostid == HOSTID1 then a else b, if gs[a].hostid == HOSTID1 then b else a;
      var j := FindOn(gs, gs[k].name, HOSTID2, 0);
      if j == k {
        ListingsNone(gs, gs[k], 0, k);
      }
      assert FindOn(gs, gs[k].name, HOSTID1, 0) < |gs|;
      assert Trips(gs, h, j, k);
    }
  }

  lemma TripsTwice(gs: seq<Group>, i: nat, j: nat, k: nat) returns (a: nat, b: nat)
    requires i < |gs| && j < k < |gs| && Trips(gs, i, j, k)
    ensures a < |gs| && b < |gs| && a != b && Output(gs, a) && Output(gs, b)
    ensures gs[a].name == gs[b].name == gs[i].name
  {
    var name := gs[i].name;
    a := FindOn(gs, name, HOSTID1, 0);
    ListingsNone(gs, gs[a], 0, a);
    var f := FindOn(gs, name, HOSTID2, 0);
    b := FindOn(gs, name, HOSTID2, f + 1);
    ListingsNone(gs, gs[b], 0, f);
    assert Listings(gs, gs[b], f + 1) == 1;
    ListingsNone(gs, gs[b], f + 1, b);
  }

  ghost predicate Sends(gs: seq<Group>, name: string) {
    exists o :: 0 <= o < |gs| && Output(gs, o) && gs[o].name == name
  }

  ghost predicate AllOutput(gs: seq<Group>) {
    forall k :: 0 <= k < |gs| && gs[k].ignore == {} ==> Sends(gs, gs[k].name)
  }

  // Some line to be output has the name.
  ghost predicate Flagged(gs: seq<Group>, name: string) {
    exists o :: 0 <= o < |gs| && gs[o].output && gs[o].name == name
  }

  ghost predicate SentOnce(gs: seq<Group>) {
    forall a, b :: 0 <= a < b < |gs| && Output(gs, a) && Output(gs, b) ==> gs[a].name != gs[b].name
  }

  // No two lines to be output have one name.
  ghost predicate FlaggedOnce(gs: seq<Group>) {
    forall a, b :: 0 <= a < b < |gs| && gs[a].output && gs[b].output ==> gs[a].name != gs[b].name
  }

  // Every group that counts is output, and no two lines of one name are, unless host2
  // repeats a name that host1 has as well: then, and only then, a name comes out twice.
  lemma OutputOnce(gs: seq<Group>)
    requires TwoHosts(gs)
    ensures AllOutput(gs)
    ensures SentOnce(gs) <==> !Overlisted(gs)
  {
    hide Output, TwoHosts;
    forall k | 0 <= k < |gs| && gs[k].ignore == {}
      ensures Sends(gs, gs[k].name)
    {
      var o := OutputSome(gs, k);
    }
    if !Overlisted(gs) {
      hide Overlisted;
      forall a, b | 0 <= a < b < |gs| && Output(gs, a) && Output(gs, b)
        ensures gs[a].name != gs[b].name
      {
        if gs[a].name == gs[b].name {
          OutputTwice(gs, a, b);
        }
      }
    } else {
      var i, j, k :| 0 <= i < |gs| && 0 <= j < k < |gs| && Trips(gs, i, j, k);
      var a, b := TripsTwice(gs, i, j, k);
    }
  }

  lemma OutputFlags(gs: seq<Group>, opts: Options, lHost1: int, lHost2: int)
    requires forall g :: g in gs ==> !g.output
    ensures var ready, r := Ready(gs, lHost2), MergedFile(gs, opts, lHost1, lHost2);
      forall k :: 0 <= k < |gs| ==> (r[k].output <==> Output(ready, k)) && r[k].name == ready[k].name
  {
    var sorted, ready, r := SortGroups(gs), Ready(gs, lHost2), MergedFile(gs, opts, lHost1, lHost2);
    OnlyMarks(Merge(ready, opts), lHost1);
    OnlyMarks(sorted, lHost2);
    hide MarkProblems, SortGroups, Earlier, Due, FindOn;
    forall k | 0 <= k < |gs|
      ensures (r[k].output <==> Output(ready, k)) && r[k].name == ready[k].name
    {
      assert sorted[k] in gs;
      MergeAt(ready, opts, k);
    }
  }

  // The lines that come out of the whole merge.
  lemma MergedOnce(gs: seq<Group>, opts: Options, lHost1: int, lHost2: int)
    requires TwoHosts(gs) && forall g :: g in gs ==> !g.output
    ensures var ready, r := Ready(gs, lHost2), MergedFile(gs, opts, lHost1, lHost2);
      && (forall k :: 0 <= k < |gs| && ready[k].ignore == {} ==> Flagged(r, ready[k].name))
      && (forall o :: 0 <= o < |gs| && r[o].output ==> ready[o].ignore == {})
      && (FlaggedOnce(r) <==> !Overlisted(ready))
  {
    hide MergedFile, Ready, Overlisted, Output, TwoHosts, SentOnce, FlaggedOnce, AllOutput;
    var ready := Ready(gs, lHost2);
    ReadyInOrder(gs, lHost2);
    OutputFlags(gs, opts, lHost1, lHost2);
    OutputOnce(ready);
    FlagsOnce(ready, MergedFile(gs, opts, lHost1, lHost2));
  }

  function Listed(hostid: int, linenum: int): Group {
    Group({}, hostid, linenum, false, false, "x", "", "", "y", "", "", "")
  }

  // One line of host1 and two of host2 for one group.
  function Repeated(): seq<Group> { [Listed(HOSTID1, 1), Listed(HOSTID2, 1), Listed(HOSTID2, 2)] }

  lemma RepeatedInOrder()
    ensures SortGroups(Repeated()) == Repeated()
  {
    var gs := Repeated();
    hide Sort;
    StrcmpZero("x", "x");
    assert Ordered(GroupKey, gs);
    hide CompareKeys, Strcmp;
    SortKeeps(GroupKey, gs);
  }

  lemma RepeatedNoAliases(hostid: int)
    ensures Collect(Repeated(), hostid, 3) == []
  {
    hide IsError;
    assert Collect(Repeated(), hostid, 1) == Collect(Repeated(), hostid, 2) == [];
  }

  lemma RepeatedReady(lHost2: int)
    ensures Ready(Repeated(), lHost2) == Repeated()
  {
    RepeatedInOrder();
    RepeatedNoAliases(lHost2);
    assert |Repeated()| == 3;
    hide Collect, MarkProblems, Repeated, SortGroups;
    if lHost2 == NOHOST {
      NoHostNoMarks(Repeated());
    } else {
      NoAliases(Repeated(), lHost2);
    }
  }

  lemma NoHostNoMarks(gs: seq<Group>)
    ensures MarkProblems(gs, NOHOST) == gs
  {
  }

  // A group that host1 lists once and host2 twice is output twice, whatever the options.
  lemma SentTwice(opts: Options, lHost1: int, lHost2: int)
    ensures !FlaggedOnce(MergedFile(Repeated(), opts, lHost1, lHost2))
  {
    var gs := Repeated();
    hide MergedFile, Ready;
    RepeatedReady(lHost2);
    assert Trips(gs, 0, 1, 2);
    MergedOnce(gs, opts, lHost1, lHost2);
  }

  lemma FlagsOnce(ready: seq<Group>, r: seq<Group>)
    requires |r| == |ready|
    requires forall k :: 0 <= k < |r| ==> (r[k].output <==> Output(ready, k)) && r[k].name == ready[k].name
    requires AllOutput(ready)
    ensures forall k :: 0 <= k < |r| && ready[k].ignore == {} ==> Flagged(r, ready[k].name)
    ensures forall o :: 0 <= o < |r| && r[o].output ==> ready[o].ignore == {}
    ensures FlaggedOnce(r) <==> SentOnce(ready)
  {
    assert forall o :: 0 <= o < |r| && Output(ready, o) ==> ready[o].ignore == {} by { hide Earlier, Due; }
    hide Output;
    forall k | 0 <= k < |r| && ready[k].ignore == {}
      ensures Flagged(r, ready[k].name)
    {
      assert Sends(ready, ready[k].name);
      var o :| 0 <= o < |ready| && Output(ready, o) && ready[o].name == ready[k].name;
      assert r[o].output;
    }
  }

  // Line i lists the group of line k for the other host.
  predicate Other(gs: seq<Group>, k: nat, i: nat)
    requires k < |gs|
  {
    i < |gs| && gs[i].ignore == {} && gs[i].name == gs[k].name && gs[i].hostid != gs[k].hostid
  }

  ghost predicate NoRepeats(gs: seq<Group>) {
    forall i, j :: 0 <= i < j < |gs| && gs[i].ignore == gs[j].ignore == {} ==> !Twins(gs[i], gs[j])
  }

  // Where neither host repeats a group: both hosts, host2 only, host1 only.
  lemma MergeMeans(gs: seq<Group>, opts: Options, k: nat)
    requires TwoHosts(gs) && NoRepeats(gs) && k < |gs|
    requires gs[k].ignore == {} && !gs[k].output && !gs[k].remove
    ensures var g, r := gs[k], Merge(gs, opts)[k];
      && r.name == g.name && r.ignore == {}
      && (g.hostid == HOSTID1 ==> r.output)
      && (g.hostid == HOSTID1 ==> forall i: nat :: Other(gs, k, i) ==>
            && !r.remove && r.outKind == gs[i].kind
            && r.outHi == (if opts.hilowAll then gs[i].hi else g.hi)
            && r.outLow == (if opts.hilowAll then gs[i].low else g.low))
      && (g.hostid == HOSTID1 && (forall i: nat :: !Other(gs, k, i)) ==>
            && r.outKind == g.kind && r.outHi == g.hi && r.outLow == g.low
            && (r.remove <==> !opts.merge))
      && (g.hostid == HOSTID2 ==> !r.remove && (r.output <==> forall i: nat :: !Other(gs, k, i)))
      && (g.hostid == HOSTID2 && r.output ==>
            && r.outKind == g.kind
            && r.outHi == (if opts.hilowNewgrp then g.hi else DEF_HI)
            && r.outLow == (if opts.hilowNewgrp then g.low else DEF_LOW))
  {
    var g := gs[k];
    ListingsNone(gs, g, 0, k);
    MergeAt(gs, opts, k);
    assert g in gs;
    var h, m := FindOn(gs, g.name, HOSTID1, 0), FindOn(gs, g.name, HOSTID2, 0);
    if g.hostid == HOSTID1 && m < |gs| {
      assert Other(gs, k, m);
      assert forall i: nat :: Other(gs, k, i) && i != m ==> Twins(gs[i], gs[m]) by { OthersAreTwins(gs, k, m); }
    }
    if g.hostid == HOSTID2 && h < |gs| {
      assert Other(gs, k, h);
    }
  }

  lemma OthersAreTwins(gs: seq<Group>, k: nat, m: nat)
    requires TwoHosts(gs) && k < |gs| && Other(gs, k, m)
    ensures forall i: nat :: Other(gs, k, i) ==> Twins(gs[i], gs[m])
  {
    assert gs[k] in gs && gs[m] in gs;
    forall i: nat | Other(gs, k, i)
      ensures Twins(gs[i], gs[m])
    {
      assert gs[i] in gs;
    }
  }

  // Lines of one group and one host are in the order of the file they come from.
  ghost predicate InFileOrder(gs: seq<Group>) {
    forall i, j :: 0 <= i < j < |gs| && Twins(gs[i], gs[j]) ==> gs[i].linenum <= gs[j].linenum
  }

  lemma SortedInFileOrder(gs: seq<Group>)
    ensures InFileOrder(SortGroups(gs))
  {
    SortOrders(GroupKey, gs);
    var r := SortGroups(gs);
    hide Sort, Strcmp;
    forall i, j | 0 <= i < j < |r| && Twins(r[i], r[j])
      ensures r[i].linenum <= r[j].linenum
    {
      assert CompareKeys(GroupKey(r[i]), GroupKey(r[j])) <= 0;
      StrcmpZero("", "");
      StrcmpZero(r[i].name, r[j].name);
    }
  }

  lemma ReadyInFileOrder(gs: seq<Group>, lHost2: int)
    ensures InFileOrder(Ready(gs, lHost2))
  {
    var sorted := SortGroups(gs);
    SortedInFileOrder(gs);
    OnlyMarks(sorted, lHost2);
    hide MarkProblems, SortGroups;
    forall i, j | 0 <= i < j < |sorted| && Twins(Ready(gs, lHost2)[i], Ready(gs, lHost2)[j])
      ensures Ready(gs, lHost2)[i].linenum <= Ready(gs, lHost2)[j].linenum
    {
      assert Twins(sorted[i], sorted[j]);
    }
  }

  // What is found first is the line with the lowest number.
  lemma FoundLowest(gs: seq<Group>, name: string, hostid: int, i: nat)
    requires InFileOrder(gs) && i < |gs|
    requires gs[i].ignore == {} && gs[i].name == name && gs[i].hostid == hostid
    ensures var m := FindOn(gs, name, hostid, 0); m <= i && gs[m].linenum <= gs[i].linenum
  {
  }

  // Of the lines that one host has for a group, the one with the lowest number is output;
  // where host1 has the group, too, host2's line with the lowest number is the one that it
  // takes its type from.
  lemma LowestLineKept(gs: seq<Group>, opts: Options, lHost1: int, lHost2: int, o: nat, i: nat)
    requires TwoHosts(gs) && (forall g :: g in gs ==> !g.output) && o < |gs| && i < |gs|
    requires var ready, r := Ready(gs, lHost2), MergedFile(gs, opts, lHost1, lHost2);
      r[o].output && ready[i].ignore == {} && ready[i].name == ready[o].name
    ensures var ready, r := Ready(gs, lHost2), MergedFile(gs, opts, lHost1, lHost2);
      && (ready[o].hostid == ready[i].hostid == HOSTID1 ==> ready[o].linenum <= ready[i].linenum)
      && (ready[o].hostid == ready[i].hostid == HOSTID2 && FindOn(ready, ready[o].name, HOSTID1, 0) == |gs| ==>
            ready[o].linenum <= ready[i].linenum)
      && (ready[o].hostid == HOSTID1 && ready[i].hostid == HOSTID2 ==>
            exists m :: 0 <= m < |gs| && ready[m].ignore == {} && Twins(ready[m], ready[i])
              && ready[m].linenum <= ready[i].linenum && r[o].outKind == ready[m].kind)
  {
    var ready, r := Ready(gs, lHost2), MergedFile(gs, opts, lHost1, lHost2);
    ReadyInFileOrder(gs, lHost2);
    OutputFlags(gs, opts, lHost1, lHost2);
    OnlyMarks(Merge(ready, opts), lHost1);
    MergeAt(ready, opts, o);
    hide MarkProblems, SortGroups, Merge, InFileOrder, Ready, TwoHosts, MergedFile;
    FoundLowest(ready, ready[i].name, ready[i].hostid, i);
    if ready[o].hostid == ready[i].hostid && Due(ready, o) == 0 {
      var m := FindOn(ready, ready[o].name, ready[o].hostid, 0);
      if m < o {
        ListingsGrow(ready, ready[o], m, o);
      }
      FoundLowest(ready, ready[o].name, ready[o].hostid, o);
    }
  }
}
