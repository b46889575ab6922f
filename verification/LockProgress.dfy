// The lock protocol is not safe by refusing everybody: a stale lock can be taken over.
module LockProgress {
  import opened LockMachine
  import opened LockSafety

  function Steps(p: Proc, n: nat): (run: seq<Action>) {
    if n == 0 then [] else [Step(p, true, 0)] + Steps(p, n - 1)
  }

  lemma OneMore(s: State, p: Proc, n: nat)
    requires p in s.procs && Enabled(s, Step(p, true, 0)) && Possible(StepOf(s, p, true, 0), Steps(p, n))
    ensures Possible(s, Steps(p, n + 1))
    ensures After(s, Steps(p, n + 1)) == After(StepOf(s, p, true, 0), Steps(p, n))
  {
    assert Steps(p, n + 1)[0] == Step(p, true, 0) && Steps(p, n + 1)[1..] == Steps(p, n);
  }

  // The process has the lock: its file has the lock name, its temporary name is gone.
  function Granted(s: State, p: Proc): (t: State)
    requires p in s.procs
  {
    var me := s.procs[p];
    s.(dir := s.dir[Lock := me.mine] - {Tmp(me.pid)}, procs := s.procs - {p},
       held := s.held[p := Grant(me.owner, me.mine)])
  }

  // The lock name is free: link, remove the temporary file, report success.
  lemma FreeLockIsTaken(s: State, p: Proc)
    requires p in s.procs && s.procs[p].pc == TryLink && Private(s, p) && Lock !in s.dir
    ensures Possible(s, Steps(p, 2)) && After(s, Steps(p, 2)) == Granted(s, p)
    ensures Names(Granted(s, p), s.procs[p].mine) == {Lock}
  {
    var s1 := StepOf(s, p, true, 0);
    var s2 := StepOf(s1, p, true, 0);
    assert s2 == Granted(s, p);
    assert Possible(s2, Steps(p, 0));
    OneMore(s1, p, 0);
    OneMore(s, p, 1);
  }

  lemma {:induction false} ThenMore(s: State, p: Proc, m: nat, n: nat)
    requires Possible(s, Steps(p, m)) && Possible(After(s, Steps(p, m)), Steps(p, n))
    ensures Possible(s, Steps(p, m + n))
    ensures After(s, Steps(p, m + n)) == After(After(s, Steps(p, m)), Steps(p, n))
    decreases m
  {
    hide StepOf, Free;
    if m > 0 {
      assert Steps(p, m)[0] == Step(p, true, 0) && Steps(p, m)[1..] == Steps(p, m - 1);
      var t := StepOf(s, p, true, 0);
      assert Possible(t, Steps(p, m - 1)) && After(t, Steps(p, m - 1)) == After(s, Steps(p, m));
      ThenMore(t, p, m - 1, n);
      OneMore(s, p, m - 1 + n);
    }
  }

  // The state after a step that only moves the process.
  function Moved(s: State, p: Proc, me: Process): (t: State) {
    s.(procs := s.procs[p := me])
  }

  // The lock name is taken: open the file and find its owner dead.
  lemma MeetsStaleLock(s: State, p: Proc)
    requires p in s.procs && s.procs[p].pc == TryLink && Tmp(s.procs[p].pid) in s.dir
    requires Lock in s.dir && !Alive(s, s.dir[Lock])
    ensures Possible(s, Steps(p, 3))
    ensures After(s, Steps(p, 3)) == Moved(s, p, s.procs[p].(pc := CleanOld, fd := s.dir[Lock]))
  {
    var me, d := s.procs[p], s.dir[Lock];
    var s1 := StepOf(s, p, true, 0);
    assert s1 == Moved(s, p, me.(pc := OpenLock));
    var s2 := StepOf(s1, p, true, 0);
    assert s2 == Moved(s, p, me.(pc := Validate, fd := d));
    var s3 := StepOf(s2, p, true, 0);
    assert s3 == Moved(s, p, me.(pc := CleanOld, fd := d));
    assert Possible(s3, Steps(p, 0));
    OneMore(s2, p, 0);
    OneMore(s1, p, 1);
    OneMore(s, p, 2);
  }

  // Clean up an old second name and check the link count.
  lemma ChecksLinks(s: State, p: Proc)
    requires p in s.procs && s.procs[p].pc == CleanOld && Names(s, s.procs[p].fd) == {Lock}
    ensures Possible(s, Steps(p, 2))
    ensures After(s, Steps(p, 2)) ==
      Moved(s, p, s.procs[p].(pc := LinkOld)).(dir := s.dir - {Tmp2(s.procs[p].pid)})
    ensures Names(After(s, Steps(p, 2)), s.procs[p].fd) == {Lock}
  {
    var me := s.procs[p];
    var s1 := StepOf(s, p, true, 0);
    assert s1 == Moved(s, p, me.(pc := Check)).(dir := s.dir - {Tmp2(me.pid)});
    assert Lock in Names(s, me.fd);
    assert Names(s1, me.fd) == {Lock};
    var s2 := StepOf(s1, p, true, 0);
    assert s2 == Moved(s, p, me.(pc := LinkOld)).(dir := s.dir - {Tmp2(me.pid)});
    assert Possible(s2, Steps(p, 0));
    OneMore(s1, p, 0);
    OneMore(s, p, 1);
  }

  // A second name, and the recheck finds two links.
  lemma LinksAndRechecks(s: State, p: Proc)
    requires p in s.procs && s.procs[p].pc == LinkOld && Tmp2(s.procs[p].pid) !in s.dir
    requires Names(s, s.procs[p].fd) == {Lock}
    ensures Possible(s, Steps(p, 2))
    ensures After(s, Steps(p, 2)) ==
      Moved(s, p, s.procs[p].(pc := Takeover)).(dir := s.dir[Tmp2(s.procs[p].pid) := s.procs[p].fd])
  {
    var me := s.procs[p];
    assert Lock in Names(s, me.fd);
    var s1 := StepOf(s, p, true, 0);
    assert s1 == Moved(s, p, me.(pc := Recheck)).(dir := s.dir[Tmp2(me.pid) := me.fd]);
    TwoNames(s, s1.dir, me);
    assert Names(s1, me.fd) == {Lock, Tmp2(me.pid)};
    var s2 := StepOf(s1, p, true, 0);
    assert s2 == Moved(s, p, me.(pc := Takeover)).(dir := s1.dir);
    assert Possible(s2, Steps(p, 0));
    OneMore(s1, p, 0);
    OneMore(s, p, 1);
  }

  lemma TwoNames(s: State, dir: map<Name, Ino>, me: Process)
    requires Names(s, me.fd) == {Lock} && dir == s.dir[Tmp2(me.pid) := me.fd]
    ensures Names(s.(dir := dir), me.fd) == {Lock, Tmp2(me.pid)}
  {
    assert Lock in Names(s, me.fd);
    forall n | n in Names(s.(dir := dir), me.fd)
      ensures n in {Lock, Tmp2(me.pid)}
    {
      if n != Tmp2(me.pid) { assert n in Names(s, me.fd); }
    }
  }

  // The lock name is removed, then the second name.
  lemma FreesLock(s: State, p: Proc)
    requires p in s.procs && s.procs[p].pc == Takeover
    ensures Possible(s, Steps(p, 2))
    ensures After(s, Steps(p, 2)) ==
      Moved(s, p, s.procs[p].(pc := TryLink)).(dir := s.dir - {Lock} - {Tmp2(s.procs[p].pid)})
  {
    var me := s.procs[p];
    var s1 := StepOf(s, p, true, 0);
    assert s1 == Moved(s, p, me.(pc := DropTmp2)).(dir := s.dir - {Lock});
    var s2 := StepOf(s1, p, true, 0);
    assert s2 == Moved(s, p, me.(pc := TryLink)).(dir := s.dir - {Lock} - {Tmp2(me.pid)});
    assert Possible(s2, Steps(p, 0));
    OneMore(s1, p, 0);
    OneMore(s, p, 1);
  }

  lemma PrivateLater(s: State, t: State, p: Proc)
    requires p in s.procs && s.procs[p].pc == TryLink && Private(s, p)
    requires p in t.procs && t.procs[p] == s.procs[p].(fd := t.procs[p].fd) && t.owners == s.owners
    requires t.dir == s.dir - {Lock} - {Tmp2(s.procs[p].pid)}
    ensures Private(t, p)
  {
  }

  lemma SameNames(s: State, t: State, d: Ino)
    requires s.dir == t.dir
    ensures Names(s, d) == Names(t, d)
  {
  }

  lemma OnlyName(s: State, d: Ino)
    requires Lock in s.dir && s.dir[Lock] == d && Links(s, d) == 1
    ensures Names(s, d) == {Lock}
  {
    var ns := Names(s, d);
    assert Lock in ns;
    assert |ns - {Lock}| == 0;
  }

  // The lock file of a dead owner is examined,
  lemma StaleLockIsMet(s: State, p: Proc)
    requires p in s.procs && s.procs[p].pc == TryLink && Tmp(s.procs[p].pid) in s.dir
    requires Lock in s.dir && !Alive(s, s.dir[Lock]) && Names(s, s.dir[Lock]) == {Lock}
    ensures Possible(s, Steps(p, 5))
    ensures var me, d := s.procs[p], s.dir[Lock];
      && After(s, Steps(p, 5)) == Moved(s, p, me.(pc := LinkOld, fd := d)).(dir := s.dir - {Tmp2(me.pid)})
      && Names(After(s, Steps(p, 5)), d) == {Lock}
  {
    hide Enabled, StepOf, Possible, After, Steps, Alive, Links, Names;
    MeetsStaleLock(s, p);
    var s3 := After(s, Steps(p, 3));
    SameNames(s, s3, s.dir[Lock]);
    ChecksLinks(s3, p);
    ThenMore(s, p, 3, 2);
  }

  // The process is about to remove the lock name, and has given the file its second one.
  function Seized(s: State, p: Proc): (t: State)
    requires p in s.procs && Lock in s.dir
  {
    var me, d := s.procs[p], s.dir[Lock];
    Moved(s, p, me.(pc := Takeover, fd := d)).(dir := (s.dir - {Tmp2(me.pid)})[Tmp2(me.pid) := d])
  }

  // and gets its second name.
  lemma StaleLockIsFound(s: State, p: Proc)
    requires p in s.procs && s.procs[p].pc == TryLink && Tmp(s.procs[p].pid) in s.dir
    requires Lock in s.dir && !Alive(s, s.dir[Lock]) && Links(s, s.dir[Lock]) == 1
    ensures Possible(s, Steps(p, 7))
    ensures After(s, Steps(p, 7)) == Seized(s, p)
  {
    OnlyName(s, s.dir[Lock]);
    hide Enabled, StepOf, Possible, After, Steps, Alive, Links, Names;
    StaleLockIsMet(s, p);
    LinksAndRechecks(After(s, Steps(p, 5)), p);
    ThenMore(s, p, 5, 2);
  }

  // What the process has seen and named on the way makes no difference in the end.
  lemma SameGrant(s: State, t: State, p: Proc)
    requires p in s.procs && p in t.procs && t.procs[p] == s.procs[p].(fd := t.procs[p].fd)
    requires t == s.(dir := s.dir - {Lock} - {Tmp2(s.procs[p].pid)}, procs := s.procs[p := t.procs[p]])
    ensures Granted(t, p) == Granted(s.(dir := s.dir - {Tmp2(s.procs[p].pid)}), p)
  {
    var u := s.(dir := s.dir - {Tmp2(s.procs[p].pid)});
    var me := s.procs[p];
    assert t.dir[Lock := me.mine] == u.dir[Lock := me.mine];
    assert t.procs - {p} == u.procs - {p};
  }

  // The lock file of a dead owner is removed, and a file of the process takes its name.
  lemma LockIsReplaced(s: State, p: Proc)
    requires p in s.procs && s.procs[p].pc == TryLink && Private(s, p) && Lock in s.dir
    ensures Possible(Seized(s, p), Steps(p, 4))
    ensures After(Seized(s, p), Steps(p, 4)) == Granted(s.(dir := s.dir - {Tmp2(s.procs[p].pid)}), p)
    ensures Names(After(Seized(s, p), Steps(p, 4)), s.procs[p].mine) == {Lock}
  {
    var me, u := s.procs[p], Seized(s, p);
    hide Enabled, StepOf, Possible, After, Steps, Names, Granted;
    FreesLock(u, p);
    var v := After(u, Steps(p, 2));
    assert v.dir == s.dir - {Lock} - {Tmp2(me.pid)};
    assert v.procs == s.procs[p := v.procs[p]];
    PrivateLater(s, v, p);
    hide Private;
    FreeLockIsTaken(v, p);
    ThenMore(u, p, 2, 2);
    SameGrant(s, v, p);
  }

  // A process that meets a lock file of a dead owner, with no second name left over by a
  // crash, takes the lock in eleven steps when nobody interferes, and leaves neither of
  // its temporary names behind.
  lemma StaleLockIsTaken(s: State, p: Proc)
    requires Inv(s) && p in s.procs && s.procs[p].pc == TryLink
    requires Lock in s.dir && !Alive(s, s.dir[Lock]) && Links(s, s.dir[Lock]) == 1
    ensures Possible(s, Steps(p, 11))
    ensures After(s, Steps(p, 11)) == Granted(s.(dir := s.dir - {Tmp2(s.procs[p].pid)}), p)
    ensures Names(After(s, Steps(p, 11)), s.procs[p].mine) == {Lock}
  {
    assert Private(s, p);
    hide Inv, Enabled, StepOf, Possible, After, Steps, Alive, Links, Names, Granted, Seized;
    assert Tmp(s.procs[p].pid) in s.dir;
    hide Private;
    StaleLockIsFound(s, p);
    LockIsReplaced(s, p);
    ThenMore(s, p, 7, 4);
  }

  // ----- one owner after another -----

  lemma {:induction false} RunThen(s: State, run: seq<Action>, more: seq<Action>)
    requires Possible(s, run) && Possible(After(s, run), more)
    ensures Possible(s, run + more) && After(s, run + more) == After(After(s, run), more)
    decreases |run|
  {
    hide Enabled, Next;
    if run == [] {
      assert run + more == more;
    } else {
      assert (run + more)[0] == run[0] && (run + more)[1..] == run[1..] + more;
      RunThen(Next(s, run[0]), run[1..], more);
    }
  }

  // The lock file is that of the run, and has no other name.
  ghost predicate Sole(s: State, p: Proc) {
    p in s.held && Lock in s.dir && s.dir[Lock] == s.held[p].ino && Names(s, s.dir[Lock]) == {Lock}
  }

  // From the start to the attempt to link: two steps, or four when there is a left-over
  // temporary file; i is the inode of the new one.
  function Preparing(s: State, q: Proc, pid: Pid, i: Ino): (run: seq<Action>) {
    (if Tmp(pid) in s.dir then [Step(q, true, i), Step(q, true, i)] else []) + [Step(q, true, i), Step(q, true, i)]
  }

  // The state before the first attempt to link.
  function Prepared(s: State, q: Proc, pid: Pid, owner: Owner, i: Ino): (t: State) {
    s.(dir := s.dir[Tmp(pid) := i], owners := s.owners[i := owner],
       procs := s.procs[q := Process(pid, owner, TryLink, i, 0)])
  }

  lemma CreatesAndWrites(s: State, q: Proc, i: Ino)
    requires q in s.procs && s.procs[q].pc == Create && Free(s, i) && Tmp(s.procs[q].pid) !in s.dir
    requires s.procs[q].fd == 0
    ensures var me, run := s.procs[q], [Step(q, true, i), Step(q, true, i)];
      Possible(s, run) && After(s, run) == Prepared(s, q, me.pid, me.owner, i)
  {
    var me, a := s.procs[q], Step(q, true, i);
    var s1 := Next(s, a);
    assert s1 == s.(dir := s.dir[Tmp(me.pid) := i], owners := s.owners - {i},
                    procs := s.procs[q := me.(pc := Write, mine := i)]);
    var s2 := Next(s1, a);
    assert (s.owners - {i})[i := me.owner] == s.owners[i := me.owner];
    assert s2 == Prepared(s, q, me.pid, me.owner, i);
    assert [a, a][1..] == [a] && [a][1..] == [];
    hide Next, Enabled, Prepared;
    assert Possible(s1, [a]) && After(s1, [a]) == s2;
  }

  lemma RemovesLeftOver(s: State, q: Proc, i: Ino)
    requires q in s.procs && s.procs[q].pc == Create && Free(s, i) && Tmp(s.procs[q].pid) in s.dir
    ensures var t, run := s.(dir := s.dir - {Tmp(s.procs[q].pid)}), [Step(q, true, i), Step(q, true, i)];
      Possible(s, run) && After(s, run) == t && Free(t, i)
  {
    var a := Step(q, true, i);
    var s1 := Next(s, a);
    assert s1 == GoTo(s, q, RemoveOld);
    var s2 := Next(s1, a);
    assert s2 == s.(dir := s.dir - {Tmp(s.procs[q].pid)}, procs := s.procs[q := s.procs[q]]);
    assert s.procs[q := s.procs[q]] == s.procs;
    assert [a, a][1..] == [a] && [a][1..] == [];
    hide Next, Enabled;
    assert Possible(s1, [a]) && After(s1, [a]) == s2;
  }

  lemma GetsReady(s: State, q: Proc, i: Ino)
    requires q in s.procs && s.procs[q].pc == Create && s.procs[q].fd == 0 && Free(s, i)
    ensures var me := s.procs[q]; var run := Preparing(s, q, me.pid, i);
      Possible(s, run) && After(s, run) == Prepared(s, q, me.pid, me.owner, i)
  {
    var me, two := s.procs[q], [Step(q, true, i), Step(q, true, i)];
    hide Possible, After, Next;
    if Tmp(me.pid) in s.dir {
      var t := s.(dir := s.dir - {Tmp(me.pid)});
      RemovesLeftOver(s, q, i);
      CreatesAndWrites(t, q, i);
      RunThen(s, two, two);
      assert t.dir[Tmp(me.pid) := i] == s.dir[Tmp(me.pid) := i];
    } else {
      CreatesAndWrites(s, q, i);
      assert [] + two == two;
    }
  }

  // The owner of the lock dies, and a new process starts, on behalf of a live owner.
  function Succession(s: State, p: Proc, q: Proc, pid: Pid, owner: Owner): (run: seq<Action>)
    requires p in s.held
  {
    [Die(s.held[p].owner), Start(q, pid, owner)]
  }

  function Started(s: State, p: Proc, q: Proc, pid: Pid, owner: Owner): (t: State)
    requires p in s.held
  {
    s.(dead := s.dead + {s.held[p].owner}, procs := s.procs[q := Process(pid, owner, Create, 0, 0)])
  }

  lemma Succeeds(s: State, p: Proc, q: Proc, pid: Pid, owner: Owner)
    requires p in s.held && q !in s.procs && q !in s.held
    requires forall r :: r in s.procs ==> s.procs[r].pid != pid
    ensures var run := Succession(s, p, q, pid, owner);
      Possible(s, run) && After(s, run) == Started(s, p, q, pid, owner)
  {
    var run := Succession(s, p, q, pid, owner);
    var s1 := Next(s, run[0]);
    var s2 := Next(s1, run[1]);
    assert run[1..] == [run[1]] && run[1..][1..] == [];
    assert s2 == Started(s, p, q, pid, owner);
    hide Next, Enabled;
    assert Possible(s1, [run[1]]) && After(s1, [run[1]]) == s2;
  }

  // What is left to show of the state before the eleven steps.
  lemma StillSole(s: State, p: Proc, q: Proc, pid: Pid, owner: Owner, i: Ino)
    requires Inv(s) && Sole(s, p) && Holds(s, p) && Free(s, i)
    ensures var t := Prepared(Started(s, p, q, pid, owner), q, pid, owner, i);
      Lock in t.dir && !Alive(t, t.dir[Lock]) && Links(t, t.dir[Lock]) == 1
  {
    var t := Prepared(Started(s, p, q, pid, owner), q, pid, owner, i);
    assert Claims(s, p) && Backed(s, p);
    assert p !in s.procs;
    var d := s.dir[Lock];
    assert Lock in Names(s, d) && Tmp(pid) !in Names(s, d) && d != i;
    assert Names(t, d) == {Lock};
  }

  lemma ElevenSteps(s: State, q: Proc)
    requires Inv(s) && q in s.procs && s.procs[q].pc == TryLink && s.procs[q].owner !in s.dead
    requires Lock in s.dir && !Alive(s, s.dir[Lock]) && Links(s, s.dir[Lock]) == 1
    ensures Possible(s, Steps(q, 11))
    ensures var t, pid := After(s, Steps(q, 11)), s.procs[q].pid;
      Sole(t, q) && Holds(t, q) && Tmp(pid) !in t.dir && Tmp2(pid) !in t.dir
  {
    hide Inv, Possible, After, Steps, Names, Alive, Links;
    StaleLockIsTaken(s, q);
  }

  // One owner after another: a lock that has its one name, whose owner dies, is taken by
  // the next process, in eleven steps after it has written its file, when nobody
  // interferes; and it has its one name again.
  lemma LockIsHandedOn(s: State, p: Proc, q: Proc, pid: Pid, owner: Owner, i: Ino)
    requires Inv(s) && Sole(s, p) && Holds(s, p)
    requires q !in s.procs && q !in s.held && (forall r :: r in s.procs ==> s.procs[r].pid != pid)
    requires owner !in s.dead && owner != s.held[p].owner && Free(s, i)
    ensures var run := Succession(s, p, q, pid, owner) + Preparing(s, q, pid, i) + Steps(q, 11);
      && Possible(s, run)
      && var t := After(s, run); Sole(t, q) && Holds(t, q) && Tmp(pid) !in t.dir && Tmp2(pid) !in t.dir
  {
    var run := Succession(s, p, q, pid, owner);
    var s2 := Started(s, p, q, pid, owner);
    var s4 := Prepared(s2, q, pid, owner, i);
    Succeeds(s, p, q, pid, owner);
    StillSole(s, p, q, pid, owner, i);
    assert Free(s2, i);
    hide Inv, Free, Possible, After, Steps, Names, Alive, Links, Sole, Succession;
    GetsReady(s2, q, i);
    RunThen(s, run, Preparing(s, q, pid, i));
    RunKeepsInv(s, run + Preparing(s, q, pid, i));
    ElevenSteps(s4, q);
    RunThen(s, run + Preparing(s, q, pid, i), Steps(q, 11));
  }

  // So is a lock that was free.
  lemma FreeLockIsSole(s: State, p: Proc)
    requires p in s.procs && s.procs[p].pc == TryLink && Private(s, p) && Lock !in s.dir
    ensures Possible(s, Steps(p, 2)) && Sole(After(s, Steps(p, 2)), p)
  {
    hide Possible, After, Steps, Names, Private;
    FreeLockIsTaken(s, p);
  }

  // ----- when the lock is left alone -----

  // The process is gone, and with it the names that it made.
  function Gone(s: State, p: Proc): (t: State)
    requires p in s.procs
  {
    var pid := s.procs[p].pid;
    s.(dir := s.dir - {Tmp(pid), Tmp2(pid)}, procs := s.procs - {p})
  }

  // A process that gives up removes its second name first, and then the other.
  lemma GivesUp(s: State, p: Proc)
    requires p in s.procs && (s.procs[p].pc == ExitTmp2 || (s.procs[p].pc == ExitTmp && Tmp2(s.procs[p].pid) !in s.dir))
    ensures var n := if s.procs[p].pc == ExitTmp then 1 else 2;
      Possible(s, Steps(p, n)) && After(s, Steps(p, n)) == Gone(s, p)
  {
    var pid, s1 := s.procs[p].pid, StepOf(s, p, true, 0);
    if s.procs[p].pc == ExitTmp {
      assert s.dir - {Tmp(pid)} == s.dir - {Tmp(pid), Tmp2(pid)};
      assert s1 == Gone(s, p);
      assert Possible(s1, Steps(p, 0));
      OneMore(s, p, 0);
    } else {
      var s2 := StepOf(s1, p, true, 0);
      assert s.dir - {Tmp2(pid)} - {Tmp(pid)} == s.dir - {Tmp(pid), Tmp2(pid)};
      assert s2 == Gone(s, p);
      assert Possible(s2, Steps(p, 0));
      OneMore(s1, p, 0);
      OneMore(s, p, 1);
    }
  }

  lemma GivesUpFrom(s: State, t: State, p: Proc, run: seq<Action>)
    requires p in s.procs && p in t.procs && t.procs[p].pid == s.procs[p].pid
    requires t == s.(dir := t.dir, procs := s.procs[p := t.procs[p]])
    requires t.dir - {Tmp(s.procs[p].pid), Tmp2(s.procs[p].pid)} == s.dir - {Tmp(s.procs[p].pid), Tmp2(s.procs[p].pid)}
    requires t.procs[p].pc == ExitTmp2 || (t.procs[p].pc == ExitTmp && Tmp2(t.procs[p].pid) !in t.dir)
    requires Possible(s, run) && After(s, run) == t
    ensures var n := if t.procs[p].pc == ExitTmp then 1 else 2;
      Possible(s, run + Steps(p, n)) && After(s, run + Steps(p, n)) == Gone(s, p)
  {
    hide Possible, After;
    GivesUp(t, p);
    assert t.procs - {p} == s.procs - {p};
    RunThen(s, run, Steps(p, if t.procs[p].pc == ExitTmp then 1 else 2));
  }

  // The lock of a live owner: the process looks at it and leaves.
  lemma LiveLockIsLeft(s: State, p: Proc)
    requires p in s.procs && s.procs[p].pc == TryLink && Tmp(s.procs[p].pid) in s.dir && Tmp2(s.procs[p].pid) !in s.dir
    requires Lock in s.dir && Alive(s, s.dir[Lock])
    ensures var run := Steps(p, 2) + [Step(p, false, 0)] + Steps(p, 1);
      Possible(s, run) && After(s, run) == Gone(s, p)
  {
    var me, d := s.procs[p], s.dir[Lock];
    var s1 := StepOf(s, p, true, 0);
    var s2 := StepOf(s1, p, true, 0);
    assert s2 == Moved(s, p, me.(pc := Validate, fd := d));
    assert Possible(s2, Steps(p, 0));
    OneMore(s1, p, 0);
    OneMore(s, p, 1);
    var no := [Step(p, false, 0)];
    var s3 := StepOf(s2, p, false, 0);
    assert s3 == Moved(s, p, me.(pc := ExitTmp, fd := d));
    assert no[1..] == [] && Possible(s2, no) && After(s2, no) == s3;
    hide StepOf, Possible, After;
    RunThen(s, Steps(p, 2), no);
    GivesUpFrom(s, s3, p, Steps(p, 2) + no);
  }

  // The lock of a dead owner that has another name, as while somebody else is about to
  // take it over: the process leaves as well, and makes no name of its own.
  lemma LinkedLockIsLeft(s: State, p: Proc)
    requires p in s.procs && s.procs[p].pc == TryLink && Tmp(s.procs[p].pid) in s.dir && Tmp2(s.procs[p].pid) !in s.dir
    requires Lock in s.dir && !Alive(s, s.dir[Lock]) && Links(s, s.dir[Lock]) != 1
    ensures var run := Steps(p, 5) + Steps(p, 1);
      Possible(s, run) && After(s, run) == Gone(s, p)
  {
    var me, d := s.procs[p], s.dir[Lock];
    MeetsStaleLock(s, p);
    var s3 := After(s, Steps(p, 3));
    var s4 := StepOf(s3, p, true, 0);
    assert s4 == Moved(s, p, me.(pc := Check, fd := d)).(dir := s.dir - {Tmp2(me.pid)});
    assert s.dir - {Tmp2(me.pid)} == s.dir;
    SameNames(s, s4, d);
    var s5 := StepOf(s4, p, true, 0);
    assert s5 == Moved(s, p, me.(pc := ExitTmp, fd := d));
    assert Possible(s5, Steps(p, 0));
    OneMore(s4, p, 0);
    OneMore(s3, p, 1);
    hide StepOf, Possible, After, Names, Links;
    ThenMore(s, p, 3, 2);
    GivesUpFrom(s, s5, p, Steps(p, 5));
  }

  // The lock name has come to mean another file, or a third name has been made: the race
  // is lost, and the process takes its second name away again.
  lemma LostRaceIsLeft(s: State, p: Proc)
    requires p in s.procs && s.procs[p].pc == Recheck
    requires Lock in s.dir ==> s.dir[Lock] != s.procs[p].fd || Links(s, s.procs[p].fd) != 2
    ensures var run := Steps(p, 1) + Steps(p, 2);
      Possible(s, run) && After(s, run) == Gone(s, p)
  {
    var s1 := StepOf(s, p, true, 0);
    assert s1 == GoTo(s, p, ExitTmp2);
    assert Possible(s1, Steps(p, 0));
    OneMore(s, p, 0);
    hide StepOf, Possible, After, Links;
    GivesUpFrom(s, s1, p, Steps(p, 1));
  }
}
