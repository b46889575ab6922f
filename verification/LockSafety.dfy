// Mutual exclusion of the lock protocol, over every run.
module LockSafety {
  import opened LockMachine
  import opened FiniteSets

  // ----- what one step changes -----

  // Of the processes, p alone changes what it is, or ends.
  predicate OnlyIs(before: map<Proc, Process>, after: map<Proc, Process>, p: Proc)
    requires p in before
  {
    if p in after then after == before[p := after[p]] && after[p].pid == before[p].pid else after == before - {p}
  }

  lemma Going(procs: map<Proc, Process>, p: Proc)
    requires p in procs
    ensures forall u: State, pc :: u.procs == procs ==> OnlyIs(procs, GoTo(u, p, pc).procs, p)
    ensures forall u: State :: u.procs == procs ==> OnlyIs(procs, Exit(u, p).procs, p)
    ensures forall me: Process :: me.pid == procs[p].pid ==> OnlyIs(procs, procs[p := me], p)
  {
  }

  lemma OnlySelf(s: State, p: Proc, ok: bool, ino: Ino)
    requires p in s.procs
    ensures OnlyIs(s.procs, StepOf(s, p, ok, ino).procs, p)
  {
    Going(s.procs, p);
    hide Links, Unlink, Link, GoTo, Exit, OnlyIs;
  }

  // It leaves the other processes as they are.
  lemma OthersStay(s: State, p: Proc, ok: bool, ino: Ino, q: Proc)
    requires p in s.procs
    ensures var t := StepOf(s, p, ok, ino);
      && (q in t.procs ==> q in s.procs && t.procs[q].pid == s.procs[q].pid)
      && (q in s.procs && q != p ==> q in t.procs && t.procs[q] == s.procs[q])
  {
    hide StepOf;
    OnlySelf(s, p, ok, ino);
  }

  // Only a process that exits can be granted the lock.
  lemma HeldStay(s: State, p: Proc, ok: bool, ino: Ino, q: Proc)
    requires p in s.procs && q in StepOf(s, p, ok, ino).held && q !in s.held
    ensures q == p && p !in StepOf(s, p, ok, ino).procs
  {
    hide Links, Unlink, Link;
  }

  // It gets a new temporary file, or opens the lock file, or keeps both inodes.
  lemma SelfMoves(s: State, p: Proc, ok: bool, ino: Ino)
    requires p in s.procs && p in StepOf(s, p, ok, ino).procs
    ensures var me, you := s.procs[p], StepOf(s, p, ok, ino).procs[p];
      && (Unpublished(you.pc) ==>
            (Unpublished(me.pc) && you.mine == me.mine) || (me.pc == Create && you.mine == ino && !HasFd(you.pc)))
      && (HasFd(you.pc) ==>
            || (HasFd(me.pc) && you.fd == me.fd)
            || (Lock in s.dir && you.fd == s.dir[Lock] && Unpublished(me.pc) && you.mine == me.mine))
  {
    hide StepOf;
    if HasFd(s.procs[p].pc) {
      SelfMovesExamining(s, p, ok, ino);
    } else {
      SelfMovesBefore(s, p, ok, ino);
    }
  }

  lemma SelfMovesExamining(s: State, p: Proc, ok: bool, ino: Ino)
    requires p in s.procs && HasFd(s.procs[p].pc) && p in StepOf(s, p, ok, ino).procs
    ensures var me, you := s.procs[p], StepOf(s, p, ok, ino).procs[p];
      && (Unpublished(you.pc) ==>
            (Unpublished(me.pc) && you.mine == me.mine) || (me.pc == Create && you.mine == ino && !HasFd(you.pc)))
      && (HasFd(you.pc) ==>
            || (HasFd(me.pc) && you.fd == me.fd)
            || (Lock in s.dir && you.fd == s.dir[Lock] && Unpublished(me.pc) && you.mine == me.mine))
  {
    hide Links, Unlink, Link;
  }

  lemma SelfMovesBefore(s: State, p: Proc, ok: bool, ino: Ino)
    requires p in s.procs && !HasFd(s.procs[p].pc) && p in StepOf(s, p, ok, ino).procs
    ensures var me, you := s.procs[p], StepOf(s, p, ok, ino).procs[p];
      && (Unpublished(you.pc) ==>
            (Unpublished(me.pc) && you.mine == me.mine) || (me.pc == Create && you.mine == ino && !HasFd(you.pc)))
      && (HasFd(you.pc) ==>
            || (HasFd(me.pc) && you.fd == me.fd)
            || (Lock in s.dir && you.fd == s.dir[Lock] && Unpublished(me.pc) && you.mine == me.mine))
  {
    hide Links, Unlink, Link;
  }

  // ----- one step keeps each part of the invariant -----

  lemma PrivateOther(s: State, p: Proc, ok: bool, ino: Ino, q: Proc)
    requires p in s.procs && (s.procs[p].pc == Create ==> Nameless(s, ino))
    requires q in s.procs && s.procs[q].pid != s.procs[p].pid
    requires Private(s, p) && Private(s, q)
    ensures Private(StepOf(s, p, ok, ino), q)
  {
    hide Links, Alive;
  }

  lemma PrivateSelf(s: State, p: Proc, ok: bool, ino: Ino)
    requires p in s.procs && (s.procs[p].pc == Create ==> Nameless(s, ino)) && p in StepOf(s, p, ok, ino).procs
    requires Private(s, p)
    ensures Private(StepOf(s, p, ok, ino), p)
  {
    hide Links, Alive;
  }

  lemma UnopenedStep(s: State, p: Proc, ok: bool, ino: Ino, q: Proc, r: Proc)
    requires Enabled(s, Step(p, ok, ino)) && q in StepOf(s, p, ok, ino).procs && r in StepOf(s, p, ok, ino).procs
    requires Private(s, q) && Unopened(s, q, r)
    ensures Unopened(StepOf(s, p, ok, ino), q, r)
  {
    OthersStay(s, p, ok, ino, q);
    OthersStay(s, p, ok, ino, r);
    if q == p || r == p { SelfMoves(s, p, ok, ino); }
    hide StepOf, Links, Alive, HasTmp, HasFd, Suspect;
  }

  lemma StaleOther(s: State, p: Proc, ok: bool, ino: Ino, q: Proc)
    requires p in s.procs && (s.procs[p].pc == Create ==> Nameless(s, ino))
    requires q in s.procs && s.procs[q].pid != s.procs[p].pid
    requires Private(s, p) && Unopened(s, p, q) && Stale(s, p) && Stale(s, q) && !(Past(s, p) && Past(s, q))
    ensures Stale(StepOf(s, p, ok, ino), q)
  {
    hide Links;
  }

  lemma StaleSelf(s: State, p: Proc, ok: bool, ino: Ino)
    requires Enabled(s, Step(p, ok, ino)) && p in StepOf(s, p, ok, ino).procs
    requires Private(s, p) && Stale(s, p)
    ensures Stale(StepOf(s, p, ok, ino), p)
  {
    hide StepOf;
    if HasFd(s.procs[p].pc) {
      StaleSelfExamining(s, p, ok, ino);
    } else {
      StaleSelfBefore(s, p, ok, ino);
    }
  }

  lemma StaleSelfExamining(s: State, p: Proc, ok: bool, ino: Ino)
    requires p in s.procs && HasFd(s.procs[p].pc)
    requires Enabled(s, Step(p, ok, ino)) && p in StepOf(s, p, ok, ino).procs
    requires Private(s, p) && Stale(s, p)
    ensures Stale(StepOf(s, p, ok, ino), p)
  {
    hide Links;
  }

  lemma StaleSelfBefore(s: State, p: Proc, ok: bool, ino: Ino)
    requires p in s.procs && !HasFd(s.procs[p].pc)
    requires Enabled(s, Step(p, ok, ino)) && p in StepOf(s, p, ok, ino).procs
    requires Private(s, p) && Stale(s, p)
    ensures Stale(StepOf(s, p, ok, ino), p)
  {
    hide Links;
  }

  // The link count admits one process at a time: a second one would make a third name.
  lemma PastStep(s: State, p: Proc, ok: bool, ino: Ino, q: Proc)
    requires p in s.procs && q in s.procs && s.procs[q].pid != s.procs[p].pid
    requires Stale(s, p) && Stale(s, q) && !(Past(s, p) && Past(s, q))
    ensures !(Past(StepOf(s, p, ok, ino), p) && Past(StepOf(s, p, ok, ino), q))
  {
    var me := s.procs[p];
    if Past(s, q) && me.pc == Recheck && Lock in s.dir && s.dir[Lock] == me.fd {
      var three := {Lock, Tmp2(me.pid), Tmp2(s.procs[q].pid)};
      assert three <= Names(s, me.fd);
      SubsetSize(three, Names(s, me.fd));
    }
  }

  // No step takes the lock away from a live claim, and none is made while one exists.
  lemma BackedOther(s: State, p: Proc, ok: bool, ino: Ino, q: Proc)
    requires p in s.procs && (s.procs[p].pc == Create ==> Nameless(s, ino)) && q != p && p !in s.held
    requires Private(s, p) && Stale(s, p) && Backed(s, q)
    ensures var t := StepOf(s, p, ok, ino);
      Backed(t, q) && (Claims(t, q) ==> Claims(s, q)) && (Claims(t, p) && Claims(t, q) ==> Claims(s, p))
  {
    hide StepOf;
    if HasFd(s.procs[p].pc) {
      BackedOtherExamining(s, p, ok, ino, q);
    } else {
      BackedOtherBefore(s, p, ok, ino, q);
    }
  }

  lemma BackedOtherExamining(s: State, p: Proc, ok: bool, ino: Ino, q: Proc)
    requires p in s.procs && HasFd(s.procs[p].pc) && q != p && p !in s.held
    requires Private(s, p) && Stale(s, p) && Backed(s, q)
    ensures var t := StepOf(s, p, ok, ino);
      Backed(t, q) && (Claims(t, q) ==> Claims(s, q)) && (Claims(t, p) && Claims(t, q) ==> Claims(s, p))
  {
    hide Links;
  }

  lemma BackedOtherBefore(s: State, p: Proc, ok: bool, ino: Ino, q: Proc)
    requires p in s.procs && !HasFd(s.procs[p].pc) && (s.procs[p].pc == Create ==> Nameless(s, ino))
    requires q != p && p !in s.held
    requires Private(s, p) && Stale(s, p) && Backed(s, q)
    ensures var t := StepOf(s, p, ok, ino);
      Backed(t, q) && (Claims(t, q) ==> Claims(s, q)) && (Claims(t, p) && Claims(t, q) ==> Claims(s, p))
  {
    hide Links;
  }

  lemma BackedSelf(s: State, p: Proc, ok: bool, ino: Ino)
    requires p in s.procs && (s.procs[p].pc == Create ==> Nameless(s, ino)) && p !in s.held
    requires Private(s, p) && Stale(s, p) && Backed(s, p)
    ensures Backed(StepOf(s, p, ok, ino), p)
  {
    hide Links;
  }

  lemma StepKeepsInv(s: State, p: Proc, ok: bool, ino: Ino)
    requires Inv(s) && Enabled(s, Step(p, ok, ino))
    ensures Inv(StepOf(s, p, ok, ino))
  {
    var t := StepOf(s, p, ok, ino);
    forall q
      ensures q in t.procs ==> q in s.procs && t.procs[q].pid == s.procs[q].pid
      ensures q in s.procs && q != p ==> q in t.procs && t.procs[q] == s.procs[q]
      ensures q in t.held ==> q in s.held || (q == p && p !in t.procs)
    {
      OthersStay(s, p, ok, ino, q);
      if q in t.held && q !in s.held { HeldStay(s, p, ok, ino, q); }
    }
    assert Private(s, p) && Stale(s, p) && Backed(s, p);
    forall q | q in t.procs
      ensures Private(t, q) && Stale(t, q)
    {
      assert Private(s, q) && Stale(s, q) && Unopened(s, p, q);
      assert !(Past(s, p) && Past(s, q)) || p == q;
      if q == p { PrivateSelf(s, p, ok, ino); StaleSelf(s, p, ok, ino); }
      else { PrivateOther(s, p, ok, ino, q); StaleOther(s, p, ok, ino, q); }
    }
    forall q, r | q in t.procs && r in t.procs
      ensures Unopened(t, q, r)
    {
      assert Private(s, q) && Unopened(s, q, r);
      UnopenedStep(s, p, ok, ino, q, r);
    }
    forall q, r | Past(t, q) && Past(t, r)
      ensures q == r
    {
      if q != r {
        assert Stale(s, q) && Stale(s, r);
        if q == p { assert !(Past(s, q) && Past(s, r)); PastStep(s, p, ok, ino, r); }
        else if r == p { assert !(Past(s, q) && Past(s, r)); PastStep(s, p, ok, ino, q); }
        else { assert Past(s, q) && Past(s, r); }
      }
    }
    forall q
      ensures Backed(t, q)
    {
      assert Backed(s, q);
      if q == p { BackedSelf(s, p, ok, ino); } else { BackedOther(s, p, ok, ino, q); }
    }
    forall q, r | Claims(t, q) && Claims(t, r)
      ensures q == r
    {
      assert Backed(s, q) && Backed(s, r);
      if q != p { BackedOther(s, p, ok, ino, q); }
      if r != p { BackedOther(s, p, ok, ino, r); }
    }
  }

  lemma StartKeepsInv(s: State, p: Proc, pid: Pid, owner: Owner)
    requires Inv(s) && Enabled(s, Start(p, pid, owner))
    ensures Inv(Next(s, Start(p, pid, owner)))
  {
    var t := Next(s, Start(p, pid, owner));
    forall q | q in t.procs && q != p ensures Private(t, q) && Stale(t, q) {
      assert Private(s, q) && Stale(s, q);
    }
    forall q, r | q in t.procs && r in t.procs ensures Unopened(t, q, r) {
      if q != p && r != p { assert Unopened(s, q, r); }
    }
    SameClaims(s, t);
  }

  lemma CrashKeepsInv(s: State, p: Proc)
    requires Inv(s) && Enabled(s, Crash(p))
    ensures Inv(Next(s, Crash(p)))
  {
    var t := Next(s, Crash(p));
    forall q | q in t.procs ensures Private(t, q) && Stale(t, q) {
      assert Private(s, q) && Stale(s, q);
    }
    forall q, r | q in t.procs && r in t.procs ensures Unopened(t, q, r) {
      assert Unopened(s, q, r);
    }
    SameClaims(s, t);
  }

  lemma DieKeepsInv(s: State, o: Owner)
    requires Inv(s)
    ensures Inv(Next(s, Die(o)))
  {
    var t := Next(s, Die(o));
    forall q | q in t.procs ensures Private(t, q) && Stale(t, q) {
      assert Private(s, q) && Stale(s, q);
    }
    forall q, r | q in t.procs && r in t.procs ensures Unopened(t, q, r) {
      assert Unopened(s, q, r);
    }
    SameClaims(s, t);
  }

  // Steps that leave the directory alone and add no claim and no process past the test.
  lemma SameClaims(s: State, t: State)
    requires Inv(s) && t.dir == s.dir && t.owners == s.owners && s.dead <= t.dead && t.held == s.held
    requires forall q :: q in t.procs && t.procs[q].pc != Create ==> q in s.procs && t.procs[q] == s.procs[q]
    ensures forall q, r :: Past(t, q) && Past(t, r) ==> q == r
    ensures forall q, r :: Claims(t, q) && Claims(t, r) ==> q == r
    ensures forall q :: Backed(t, q)
  {
    forall q, r | Past(t, q) && Past(t, r) ensures q == r {
      assert Past(s, q) && Past(s, r);
    }
    forall q ensures Backed(t, q) && (Claims(t, q) ==> Claims(s, q)) {
      assert Backed(s, q);
    }
  }

  lemma ReleaseKeepsInv(s: State, p: Proc)
    requires Inv(s) && Enabled(s, Release(p))
    ensures Inv(Next(s, Release(p)))
  {
    var t := Next(s, Release(p));
    assert Claims(s, p) && Backed(s, p);
    forall q | q in t.procs ensures Private(t, q) && Stale(t, q) {
      assert Private(s, q) && Stale(s, q);
    }
    forall q, r | q in t.procs && r in t.procs ensures Unopened(t, q, r) {
      assert Unopened(s, q, r);
    }
    forall q ensures !Past(t, q) {
      assert q in s.procs ==> Stale(s, q);
    }
    forall q ensures !Claims(t, q) {
      assert Claims(t, q) ==> Claims(s, q) && q != p;
    }
  }

  lemma NextKeepsInv(s: State, a: Action)
    requires Inv(s) && Enabled(s, a)
    ensures Inv(Next(s, a))
  {
    match a
    case Start(p, pid, owner) => StartKeepsInv(s, p, pid, owner);
    case Step(p, ok, ino) => StepKeepsInv(s, p, ok, ino);
    case Crash(p) => CrashKeepsInv(s, p);
    case Die(o) => DieKeepsInv(s, o);
    case Release(p) => ReleaseKeepsInv(s, p);
  }

  // ----- every run -----

  // No process is running and nothing is held; the directory may hold anything.
  predicate Initial(s: State) {
    s.procs == map[] && s.held == map[]
  }

  // The actions of a run happen one after the other.
  ghost predicate Possible(s: State, run: seq<Action>)
    decreases |run|
  {
    run == [] || (Enabled(s, run[0]) && Possible(Next(s, run[0]), run[1..]))
  }

  ghost function After(s: State, run: seq<Action>): (t: State)
    requires Possible(s, run)
    decreases |run|
  {
    if run == [] then s else After(Next(s, run[0]), run[1..])
  }

  ghost predicate Leads(s: State, run: seq<Action>, t: State) {
    Initial(s) && Possible(s, run) && After(s, run) == t
  }

  ghost predicate Reachable(t: State) {
    exists s, run :: Leads(s, run, t)
  }

  lemma {:induction false} RunKeepsInv(s: State, run: seq<Action>)
    requires Inv(s) && Possible(s, run)
    ensures Inv(After(s, run))
    decreases |run|
  {
    if run != [] {
      NextKeepsInv(s, run[0]);
      RunKeepsInv(Next(s, run[0]), run[1..]);
    }
  }

  lemma InvAlways(t: State)
    requires Reachable(t)
    ensures Inv(t)
  {
    var s, run :| Leads(s, run, t);
    assert forall p :: !Claims(s, p) && !Past(s, p);
    RunKeepsInv(s, run);
  }

  // The run reported success, and its live owner has not released the lock.
  predicate Holds(s: State, p: Proc) {
    p in s.held && s.held[p].owner !in s.dead
  }

  // At most one live owner holds the lock, and the lock file names it.
  lemma MutualExclusion(t: State, p: Proc, q: Proc)
    requires Reachable(t) && Holds(t, p)
    ensures Holds(t, q) ==> q == p
    ensures Lock in t.dir && t.dir[Lock] in t.owners && t.owners[t.dir[Lock]] == t.held[p].owner
  {
    InvAlways(t);
    assert Claims(t, p) && Backed(t, p);
    assert p !in t.procs;
    if Holds(t, q) { assert Claims(t, q); }
  }

  // A lock file that names a live owner is removed by its owner only, whether or not
  // the run that made it has reported success yet.
  lemma LiveLockStays(t: State, a: Action)
    requires Reachable(t) && Enabled(t, a)
    requires Lock in t.dir && Alive(t, t.dir[Lock])
    ensures var u := Next(t, a);
      (Lock in u.dir && u.dir[Lock] == t.dir[Lock]) <==> !a.Release?
    ensures a.Release? ==> Holds(t, a.p) && t.held[a.p].owner == t.owners[t.dir[Lock]]
  {
    InvAlways(t);
    match a
    case Step(p, ok, ino) =>
      assert Stale(t, p) && Private(t, p);
      hide Inv, Reachable;
      StepKeepsLive(t, p, ok, ino);
    case Release(p) => assert Claims(t, p) && Backed(t, p);
    case Start(_, _, _) =>
    case Crash(_) =>
    case Die(_) =>
  }

  lemma StepKeepsLive(t: State, p: Proc, ok: bool, ino: Ino)
    requires Enabled(t, Step(p, ok, ino)) && Stale(t, p) && Private(t, p)
    requires Lock in t.dir && Alive(t, t.dir[Lock])
    ensures var u := StepOf(t, p, ok, ino); Lock in u.dir && u.dir[Lock] == t.dir[Lock]
  {
    hide Links, Free;
  }

  // The test before the takeover lets one process through at a time, and the file it is
  // about to remove is the one it opened and found dead.
  lemma OneTakeover(t: State, p: Proc, q: Proc)
    requires Reachable(t) && Past(t, p)
    ensures Past(t, q) ==> q == p
    ensures Lock in t.dir && t.dir[Lock] == t.procs[p].fd && !Alive(t, t.dir[Lock])
  {
    InvAlways(t);
    assert Stale(t, p);
  }
}
