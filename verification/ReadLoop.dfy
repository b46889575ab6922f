// The main I/O loop of innd, `CHANreadloop` in innd/chan.c.
module ReadLoop {
  import opened ChannelMoments
  import opened ChannelTable
  import opened Wrappers
  import opened ChanFair

  lemma RunSnoc(c: Config, log: seq<Event>, e: Event)
    requires Run(c, log) && Allowed(After(c, log), e)
    ensures Run(c, log + [e]) && After(c, log + [e]) == ChanFair.Step(After(c, log), e)
  {
    var more := log + [e];
    assert more[..|more| - 1] == log && more[|more| - 1] == e;
  }

  // How many selects have returned.
  function Selects(log: seq<Event>): nat {
    if log == [] then 0 else Selects(log[..|log| - 1]) + if log[|log| - 1].Select? then 1 else 0
  }

  lemma SelectsSnoc(log: seq<Event>, e: Event)
    ensures Selects(log + [e]) == Selects(log) + if e.Select? then 1 else 0
  {
    assert (log + [e])[..|log|] == log;
  }

  // What the loop calls: a reader, a write-done callback, what wakes a sleeper, and
  // PROCscan.
  datatype Call = Reader(fd: nat) | WriteDone(fd: nat) | WakeCall(fd: nat) | Children

  // How many channels are still to be served after one of the prioritized ones.
  function Less(count: int): (r: int) {
    if count - 1 > 4 then 4 else count - 1
  }

  function LessBy(count: int, k: nat): (r: int) {
    if k == 0 then count else Less(LessBy(count, k - 1))
  }

  // Some prioritized channels have been read.
  ghost predicate HaveRead(calls0: seq<Call>, calls: seq<Call>, read: set<nat>, count0: int, count: int) {
    calls0 <= calls && (forall f :: f in read ==> Reader(f) in calls[|calls0|..])
    && count == LessBy(count0, |calls| - |calls0|)
  }

  lemma OneMoreRead(calls0: seq<Call>, calls: seq<Call>, read: set<nat>, count0: int, count: int, fd: nat)
    requires HaveRead(calls0, calls, read, count0, count)
    ensures HaveRead(calls0, calls + [Reader(fd)], read + {fd}, count0, Less(count))
  {
    assert (calls + [Reader(fd)])[|calls0|..] == calls[|calls0|..] + [Reader(fd)];
  }

  // A sweep from start that has come to fd has passed f.
  predicate HasPassed(start: nat, fd: nat, lastfd: int, f: nat) {
    if fd > start then start <= f < fd else start <= f <= lastfd || f < fd
  }

  ghost predicate AllPassed(start: nat, fd: nat, lastfd: int, log: seq<Event>) {
    forall f: nat :: f <= lastfd && HasPassed(start, fd, lastfd, f) ==> LookedAt(log, f)
  }

  ghost predicate LookedAt(log: seq<Event>, f: nat) {
    exists e :: e in log && e.Visit? && e.fd == f
  }

  lemma FirstPassed(start: nat, lastfd: int, log: seq<Event>)
    requires start <= lastfd || start == 0
    requires LookedAt(log, start)
    ensures AllPassed(start, Advance(Config(start, lastfd)), lastfd, log)
  {
  }

  lemma NextPassed(start: nat, fd: nat, lastfd: int, log: seq<Event>, more: seq<Event>)
    requires AllPassed(start, fd, lastfd, log) && log <= more && LookedAt(more, fd)
    requires (fd <= lastfd || fd == 0) && fd != start && (start <= lastfd || start == 0)
    ensures AllPassed(start, Advance(Config(fd, lastfd)), lastfd, more)
  {
    StillPassed(start, fd, lastfd, log, more);
  }

  // After one more descriptor was looked at.
  lemma MorePassed(start: nat, fd: nat, lastfd: int, log: seq<Event>, more: seq<Event>, from: nat)
    requires from <= |log| && AllPassed(start, fd, lastfd, log[from..]) && log <= more && |more| == |log| + 1
    requires more[|log|].Visit? && more[|log|].fd == fd
    requires (fd <= lastfd || fd == 0) && fd != start && (start <= lastfd || start == 0)
    ensures AllPassed(start, if more[|log|].bump then Advance(Config(fd, lastfd)) else fd, lastfd, more[from..])
  {
    assert log[from..] <= more[from..] && more[|log|] in more[from..];
    StillPassed(start, fd, lastfd, log[from..], more[from..]);
    NextPassed(start, fd, lastfd, log[from..], more[from..]);
  }

  lemma CameRound(start: nat, lastfd: int, log: seq<Event>)
    requires AllPassed(start, start, lastfd, log)
    ensures AllLookedAt(log, lastfd)
  {
  }

  lemma StillPassed(start: nat, fd: nat, lastfd: int, log: seq<Event>, more: seq<Event>)
    requires AllPassed(start, fd, lastfd, log) && log <= more
    ensures AllPassed(start, fd, lastfd, more)
  {
    forall f: nat | f <= lastfd && HasPassed(start, fd, lastfd, f)
      ensures LookedAt(more, f)
    {
      var e :| e in log && e.Visit? && e.fd == f;
      assert e in more;
    }
  }

  // Every descriptor of the sweep was looked at.
  ghost predicate AllLookedAt(log: seq<Event>, lastfd: int) {
    forall f: nat :: f <= lastfd ==> LookedAt(log, f)
  }

  // From moment a to moment b every prioritized channel that was ready was read, or was
  // closed or taken out by a callback.
  ghost predicate PrioritizedRead(a: Moment, b: Moment, ready: set<nat>, read: set<nat>) {
    a.fates <= b.fates
    && forall p, f: nat :: 0 <= p < |a.prioritized| && a.prioritized[p] == Some(f) && f in ready ==>
      f in read || ReadEnded(b.fates[|a.fates|..], f)
  }

  // That, or it comes at the i'th place or later.
  ghost predicate Promised(a: Moment, b: Moment, rdfds: set<nat>, ready: set<nat>, read: set<nat>, i: nat) {
    && a.fates <= b.fates && |a.prioritized| <= |b.prioritized|
    && forall p, f: nat :: 0 <= p < |a.prioritized| && a.prioritized[p] == Some(f) && f in ready ==>
      || f in read || ReadEnded(b.fates[|a.fates|..], f)
      || (i <= p && b.prioritized[p] == Some(f) && f in b.readSet && f in rdfds)
  }

  lemma NothingRead(a: Moment, rdfds: set<nat>, ready: set<nat>)
    requires ready == a.readSet * rdfds
    ensures Promised(a, a, rdfds, ready, {}, 0)
  {
  }

  lemma AllRead(a: Moment, b: Moment, rdfds: set<nat>, ready: set<nat>, read: set<nat>, i: nat)
    requires Promised(a, b, rdfds, ready, read, i) && i >= |b.prioritized|
    ensures PrioritizedRead(a, b, ready, read)
  {
  }

  lemma Kept(a: Moment, b: Moment, c: Moment, rdfds: set<nat>, ready: set<nat>, read: set<nat>, i: nat, fd: nat)
    requires Promised(a, b, rdfds, ready, read, i) && Since(b, c)
    requires i < |b.prioritized| && b.prioritized[i] == Some(fd)
    ensures Promised(a, c, rdfds - {fd}, ready, read + {fd}, i + 1)
  {
    assert c.fates[|a.fates|..] == b.fates[|a.fates|..] + c.fates[|b.fates|..];
  }

  lemma Passed(a: Moment, b: Moment, rdfds: set<nat>, ready: set<nat>, read: set<nat>, i: nat)
    requires Promised(a, b, rdfds, ready, read, i) && i < |b.prioritized|
    requires b.prioritized[i].None? || b.prioritized[i].value !in b.readSet || b.prioritized[i].value !in rdfds
    ensures Promised(a, b, rdfds, ready, read, i + 1)
  {
  }

  const START := Config(0, -1)

  // A sweep began, and its first descriptor was looked at: where the last one stopped, or 0.
  ghost predicate Swept(log0: seq<Event>, log: seq<Event>, fd: nat) {
    && |log| >= |log0| + 2 && log[|log0|].Sweep? && log[|log0| + 1].Visit?
    && log[|log0| + 1].fd == if fd > log[|log0|].lastfd then 0 else fd
  }

  lemma StillSwept(log0: seq<Event>, log1: seq<Event>, log2: seq<Event>, fd: nat)
    requires Swept(log0, log1, fd) && log1 <= log2
    ensures Swept(log0, log2, fd)
  {
  }

  class Loop {
    const ch: Channels
    var fd: nat             // where the sweep stands; kept from one select to the next
    var lastfd: int
    var rdfds: set<nat>     // what the last select reported
    var wrfds: set<nat>
    var count: int
    ghost var log: seq<Event>
    ghost var calls: seq<Call>
    ghost var errors: nat   // how many selects failed

    ghost predicate Valid()
      reads `fd, `lastfd, `log, ch, ch.table
    {
      && ch.Valid()
      && -1 <= lastfd < ch.table.Length && fd < ch.table.Length
      && Run(START, log) && After(START, log) == Config(fd, lastfd)
    }

    constructor (ch: Channels)
      requires ch.Valid()
      ensures Valid() && this.ch == ch && log == [] && calls == []
    {
      this.ch := ch;
      fd, lastfd, rdfds, wrfds, count := 0, -1, {}, {}, 0;
      log, calls, errors := [], [], 0;
    }

    function ReadyToRead(): (s: set<nat>)
      reads this`rdfds, ch`readSet
    {
      ch.readSet * rdfds
    }

    function ReadyToWrite(): (s: set<nat>)
      reads this`wrfds, ch`writeSet
    {
      ch.writeSet * wrfds
    }

    // The sleepers whose time has come.
    function Due(): (s: set<nat>)
      reads ch`sleepSet, ch.table, ch.clock
    {
      set f | f in ch.sleepSet && f < ch.table.Length && ch.table[f].waketime <= ch.clock.now
    }

    function Ready(): (s: set<nat>)
      reads this`rdfds, this`wrfds, ch, ch.table, ch.clock
    {
      ReadyToRead() + ReadyToWrite() + Due()
    }

    // No connection counts as active, and none ever ran into the limit.
    ghost predicate Unlimited()
      reads `log, ch.table
    {
      NoneActive(ch.table[..]) && NoLimits(log)
    }

    twostate lemma StillUnlimited()
      requires Since(old(ch.Present()), ch.Present()) && log == old(log)
      ensures old(Unlimited()) ==> Unlimited()
    {
    }

    // After a select that reports nothing, and nobody asleep, nothing is ready.
    lemma NothingReady()
      requires ch.Valid() && rdfds <= ch.readSet && wrfds <= ch.writeSet && count == |rdfds| + |wrfds|
      ensures count == 0 && ch.sleepCount == 0 ==> Ready() == {}
    {
    }

    // select(2): any part of the registered sets, or an error; then the time is read.
    method Wait() returns (ok: bool)
      requires Valid()
      modifies this`rdfds, this`wrfds, this`count, this`log, this`errors, ch.clock
      ensures Valid() && errors == old(errors) + if ok then 0 else 1
      ensures ok ==> rdfds <= ch.readSet && wrfds <= ch.writeSet && count == |rdfds| + |wrfds|
      ensures ok ==> ch.clock.readings == old(ch.clock.readings) + 1
      ensures log == if ok then old(log) + [Select(Ready())] else old(log)
      ensures Selects(log) == Selects(old(log)) + if ok then 1 else 0
      ensures old(Unlimited()) ==> Unlimited()
    {
      ok := *;
      if !ok {
        errors := errors + 1;
        return;
      }
      var r: set<nat> := *;
      var w: set<nat> := *;
      rdfds, wrfds := r * ch.readSet, w * ch.writeSet;
      count := |rdfds| + |wrfds|;
      ch.clock.Read();
      RunSnoc(START, log, Select(Ready()));
      SelectsSnoc(log, Select(Ready()));
      log := log + [Select(Ready())];
    }

    // Call somebody, who may do anything to the channels that callbacks do.
    method Call(ghost c: Call)
      requires ch.Valid()
      modifies this`calls, ch, ch.table
      ensures ch.Valid() && Since(old(ch.Present()), ch.Present())
      ensures calls == old(calls) + [c] && ch.invoked == old(ch.invoked) + 1
      ensures (old(Valid()) ==> Valid()) && (old(Unlimited()) ==> Unlimited())
    {
      hide Channels.Valid, Since, Run, After, NoLimits;
      ghost var ops := ch.Callback();
      calls := calls + [c];
      StillUnlimited();
    }

    // The control and remconn channels go first; what is read is not ready any more.
    method ServePrioritized() returns (ghost read: set<nat>)
      requires Valid()
      modifies this`rdfds, this`count, this`calls, ch, ch.table
      ensures Valid() && Since(old(ch.Present()), ch.Present())
      ensures read <= old(rdfds) && rdfds == old(rdfds) - read
      ensures PrioritizedRead(old(ch.Present()), ch.Present(), old(ReadyToRead()), read)
      ensures HaveRead(old(calls), calls, read, old(count), count)
    {
      var i := 0;
      read := {};
      ghost var a, ready := ch.Present(), ReadyToRead();
      SinceSelf(a);
      NothingRead(a, rdfds, ready);
      hide Valid, Since, Channels.Valid, Promised, PrioritizedRead, HaveRead;
      while i < |ch.prioritized|
        invariant 0 <= i && Valid() && ch.Valid() && Since(a, ch.Present())
        invariant read <= old(rdfds) && rdfds == old(rdfds) - read
        invariant Promised(a, ch.Present(), rdfds, ready, read, i)
        invariant HaveRead(old(calls), calls, read, old(count), count)
        decreases ch.Slots() - i
      {
        ghost var served := ServeOne(i, a, ready, read, old(calls), old(count));
        SlotsBound();
        read := read + served;
        i := i + 1;
      }
      AllRead(a, ch.Present(), rdfds, ready, read, i);
    }

    lemma SlotsBound()
      requires ch.Valid()
      ensures |ch.prioritized| <= ch.Slots()
    {
    }

    // One of them.
    method ServeOne(i: nat, ghost a: Moment, ghost ready: set<nat>, ghost read: set<nat>,
                    ghost calls0: seq<Call>, ghost count0: int)
      returns (ghost served: set<nat>)
      requires Valid() && i < |ch.prioritized| && Since(a, ch.Present())
      requires Promised(a, ch.Present(), rdfds, ready, read, i) && HaveRead(calls0, calls, read, count0, count)
      modifies this`rdfds, this`count, this`calls, ch, ch.table
      ensures Valid() && ch.Valid() && Since(a, ch.Present())
      ensures served <= old(rdfds) && rdfds == old(rdfds) - served
      ensures Promised(a, ch.Present(), rdfds, ready, read + served, i + 1)
      ensures HaveRead(calls0, calls, read + served, count0, count)
    {
      hide Run, After, Since, Channels.Valid, Promised, HaveRead;
      ghost var b := ch.Present();
      if ch.prioritized[i].Some? {
        var pfd := ch.prioritized[i].value;
        if pfd in ch.readSet && pfd in rdfds {
          OneMoreRead(calls0, calls, read, count0, count, pfd);
          count := count - 1;
          if count > 4 {
            count := 4;
          }
          Call(Reader(pfd));
          SinceThen(a, b, ch.Present());
          Kept(a, b, ch.Present(), rdfds, ready, read, i, pfd);
          rdfds := rdfds - {pfd};
          return {pfd};
        }
      }
      Passed(a, b, rdfds, ready, read, i);
      assert read + {} == read;
      served := {};
    }

    // Move on to the next descriptor.
    method Bump()
      requires -1 <= lastfd < ch.table.Length && fd < ch.table.Length
      modifies this`fd
      ensures fd == Advance(Config(old(fd), lastfd)) && fd < ch.table.Length
    {
      if fd >= lastfd {
        fd := 0;
      } else {
        fd := fd + 1;
      }
    }

    // Has this peer too many connections?
    method Exceeds() returns (over: bool)
      requires ch.Valid() && fd < ch.table.Length
      modifies ch.table
      ensures ch.Valid() && Since(old(ch.Present()), ch.Present())
      ensures 0 <= ch.maxFd + 1 <= ch.table.Length && over == Over(old(ch.table[..]), fd, ch.maxFd + 1)
      ensures ch.table[fd] == old(ch.table[fd]).(active := ch.table[fd].active)
    {
      hide Channels.Valid, Since;
      ch.TopBound();
      SinceSelf(ch.Present());
      over := false;
      if ch.table[fd].kind == Nntp && ch.table[fd].maxCnx > 0 && ch.table[fd].holdTime > 0 {
        ch.CountActive(fd);
        over := ch.table[fd].active > ch.table[fd].maxCnx && ch.table[fd].fd > 0;
      }
    }

    // The connection limit: close the connection, or keep it but stop reading from it.
    method Limit() returns (bumped: bool)
      requires Valid() && (fd <= lastfd || fd == 0) && ch.IsOpen(fd)
      modifies this`fd, this`log, ch, ch.table
      ensures Valid() && lastfd == old(lastfd)
      ensures bumped <==> ch.clock.now <= old(ch.table[fd].started + ch.table[fd].holdTime)
      ensures !bumped ==> fd == old(fd) && !ch.IsOpen(fd)
      ensures bumped ==> fd == Advance(Config(old(fd), lastfd)) && old(fd) !in ch.readSet
      ensures bumped ==> ch.table[..] == old(ch.table[..])[old(fd) := old(ch.table[fd]).(active := 0)]
      ensures log == old(log) + [Visit(old(fd), false, true, bumped, old(Ready()))]
      ensures Selects(log) == Selects(old(log)) && Since(old(ch.Present()), ch.Present())
    {
      hide Run, After, Since, Channels.Valid, Ready;
      bumped := ch.clock.now <= ch.table[fd].started + ch.table[fd].holdTime;
      ghost var e := Visit(fd, false, true, bumped, Ready());
      RunSnoc(START, log, e);
      SelectsSnoc(log, e);
      if bumped {
        LimitReading();
      } else {
        ch.RunClose(fd, Limited(fd));
      }
      log := log + [e];
    }

    method LimitReading()
      requires ch.Valid() && -1 <= lastfd < ch.table.Length && ch.IsOpen(fd)
      modifies this`fd, ch, ch.table
      ensures ch.Valid() && Since(old(ch.Present()), ch.Present()) && old(fd) !in ch.readSet
      ensures fd == Advance(Config(old(fd), lastfd)) && fd < ch.table.Length
      ensures ch.table[..] == old(ch.table[..])[old(fd) := old(ch.table[fd]).(active := 0)]
    {
      hide Channels.Valid, Since;
      ghost var a := ch.Present();
      var here := fd;
      Bump();
      ch.Mark(here, ch.table[here].(active := 0));
      ghost var b := ch.Present();
      ch.RunReadRemove(here);
      SinceThen(a, b, ch.Present());
    }

    // Anything to read?
    method LookToRead() returns (served: bool, ghost m: Moment)
      requires ch.Valid() && fd < ch.table.Length
      modifies this`count, this`calls, ch, ch.table
      ensures ch.Valid() && Since(old(ch.Present()), ch.Present()) && (served <==> fd in old(ReadyToRead()))
      ensures calls == old(calls) + if served then [Reader(fd)] else []
      ensures ch.invoked == old(ch.invoked) + if served then 1 else 0
      ensures count == old(count) - if served then 1 else 0
      ensures !served ==> m == old(ch.Present()) == ch.Present()
      ensures served ==> Since(m, ch.Present())
      ensures served ==>
        m == old(ch.Present()).(table := old(ch.table[..])[fd := old(ch.table[fd]).(lastActive := ch.clock.now)])
    {
      hide Channels.Valid, Since;
      served := false;
      ghost var a := ch.Present();
      m := a;
      SinceSelf(a);
      if fd in ch.readSet && fd in rdfds {
        count := count - 1;
        served := true;
        ch.InSet(fd);
        if ch.table[fd].kind == Free {
          assert false;  // "free but was in RMASK"
        }
        ch.Mark(fd, ch.table[fd].(lastActive := ch.clock.now));
        m := ch.Present();
        Call(Reader(fd));
        SinceThen(a, m, ch.Present());
      }
    }

    // Ready to write?  What is written is told, and the channels as they are then.
    method LookToWrite()
      returns (served: bool, ghost m: Moment, ghost n: int, ghost e: WriteLog.Errno, ghost done: bool)
      requires ch.Valid() && fd < ch.table.Length
      modifies this`count, this`calls, ch, ch.table
      ensures ch.Valid() && Since(old(ch.Present()), ch.Present()) && (served <==> fd in old(ReadyToWrite()))
      ensures served ==> ch.Handles(old(ch.Present()), m, fd, n, e, done)
      ensures !served ==> m == old(ch.Present()) && !done
      ensures if done then Since(m, ch.Present()) else ch.Present() == m
      ensures calls == old(calls) + if done then [WriteDone(fd)] else []
      ensures count == old(count) - if served then 1 else 0
    {
      hide Channels.Valid, Since, Channels.Handles, GivesUp;
      ghost var a := ch.Present();
      SinceSelf(a);
      served, m, n, e, done := false, a, 0, WriteLog.NoError, false;
      if fd in ch.writeSet && fd in wrfds {
        count := count - 1;
        served := true;
        var over, k, error := ch.WriteOut(fd);
        m, n, e, done := ch.Present(), k, error, over;
        if over {
          Call(WriteDone(fd));
          SinceThen(a, m, ch.Present());
        }
      }
    }

    // Coming off a sleep?
    method LookAtSleep() returns (woken: bool)
      requires ch.Valid() && fd < ch.table.Length
      modifies this`calls, ch, ch.table
      ensures ch.Valid() && Since(old(ch.Present()), ch.Present()) && (woken <==> fd in old(Due()))
      ensures !woken ==> ch.Present() == old(ch.Present())
      ensures calls == old(calls) +
        if woken && old(ch.table[fd]).waker == Waker.Callback then [WakeCall(fd)] else []
      ensures woken && old(ch.table[fd]).waker == Wakeup ==>
        fd !in ch.sleepSet && (old(ch.table[fd]).pending != "" ==> fd in ch.writeSet)
      ensures woken && old(ch.table[fd]).waker == NoWaker ==> !ch.IsOpen(fd)
    {
      hide Channels.Valid, Since;
      ghost var a := ch.Present();
      SinceSelf(a);
      woken := false;
      if fd in ch.sleepSet && ch.table[fd].waketime <= ch.clock.now {
        woken := true;
        var call := ch.Awake(fd);
        ghost var b := ch.Present();
        if call {
          Call(WakeCall(fd));
          SinceThen(a, b, ch.Present());
        }
      }
    }

    // Look at one descriptor: reader, writer, sleeper, and the idle timeouts.
    method Look() returns (ghost m: Moment)
      requires Valid() && (fd <= lastfd || fd == 0)
      modifies this`fd, this`log, this`count, this`calls, ch, ch.table
      ensures Valid() && fd == Advance(Config(old(fd), lastfd))
      ensures |log| == |old(log)| + 1 && old(log) <= log && log[|old(log)|].Visit?
      ensures log[|old(log)|].fd == old(fd) && !log[|old(log)|].limited && log[|old(log)|].bump
      ensures old(fd in ReadyToRead()) ==> log[|old(log)|].served
      ensures Since(old(ch.Present()), m) && Since(m, ch.Present())
      ensures log[|old(log)|].ready == ReadyTwice(old(ch.Present()), m)
      ensures old(fd in ReadyToRead()) ==> |calls| > |old(calls)| && calls[|old(calls)|] == Reader(old(fd))
      ensures !TimesOut(ch.table[old(fd)], ch.clock.now, ch.peerTimeout)
      ensures Selects(log) == Selects(old(log)) && Since(old(ch.Present()), ch.Present())
    {
      hide Channels.Valid, Run, After, Since, TimesOut, Channels.Handles;
      ghost var served;
      served, m := Attend();
      ghost var ready, a := ReadyTwice(old(ch.Present()), m), ch.Present();
      ch.CheckIdle(fd);
      SinceThen(old(ch.Present()), a, ch.Present());
      SinceThen(m, a, ch.Present());
      ghost var e := Visit(fd, served, false, true, ready);
      RunSnoc(START, log, e);
      SelectsSnoc(log, e);
      log := log + [e];
      Bump();
    }

    // Who was ready at one moment and still is at another.
    ghost function ReadyTwice(a: Moment, b: Moment): (s: set<nat>)
      reads `rdfds, `wrfds, ch.clock
    {
      (a.readSet * b.readSet * rdfds) + (a.writeSet * b.writeSet * wrfds)
        + DueTwice(a.sleepSet * b.sleepSet, a.table, b.table)
    }

    ghost function DueTwice(asleep: set<nat>, cs: seq<Chan>, ds: seq<Chan>): (s: set<nat>)
      reads ch.clock
    {
      set f | f in asleep && f < |cs| && f < |ds| && cs[f].waketime <= ch.clock.now && ds[f].waketime <= ch.clock.now
    }

    // The reader, the writer and the sleeper.  The reader and PROCscan are done at the
    // moment `m`; those who were ready before and are so then are served.
    method Attend() returns (ghost served: bool, ghost m: Moment)
      requires ch.Valid() && fd < ch.table.Length
      modifies this`count, this`calls, ch, ch.table
      ensures ch.Valid() && Since(old(ch.Present()), ch.Present())
      ensures Since(old(ch.Present()), m) && Since(m, ch.Present())
      ensures fd in ReadyTwice(old(ch.Present()), m) ==> served
      ensures old(fd in ReadyToRead()) ==> served
      ensures old(fd in ReadyToRead()) ==> |calls| > |old(calls)| && calls[|old(calls)|] == Reader(fd)
    {
      hide Channels.Valid, Since, Channels.Handles;
      ghost var a := ch.Present();
      var read, heard := LookToRead();
      m := ch.Present();
      var scan: bool := *;
      if scan {
        Call(Children);
        SinceThen(a, m, ch.Present());
        m := ch.Present();
      }
      var written, b, n, e, done := LookToWrite();
      ghost var c := ch.Present();
      var woken := LookAtSleep();
      SinceThen(m, c, ch.Present());
      SinceThen(a, m, ch.Present());
      served := read || written || woken;
    }

    // How far the position is from the start of the sweep.
    function Left(start: nat): (n: nat)
      requires -1 <= lastfd
      reads this`fd, this`lastfd
    {
      if fd == start then 0
      else if fd < start then start - fd
      else if fd <= lastfd then lastfd - fd + 1 + start
      else 0
    }

    // A sweep goes beyond all that is ready.
    lemma EndsBehind()
      requires ch.Valid()
      ensures forall b :: b in Ready() ==> b <= ch.maxFd || b <= ch.maxSleepFd
    {
    }

    // Where a sweep ends, and where it starts.
    method BeginSweep()
      requires Valid()
      modifies this`fd, this`lastfd, this`log
      ensures Valid() && old(log) <= log && (fd <= lastfd || fd == 0)
      ensures |log| == |old(log)| + 1 && log[|old(log)|] == Sweep(lastfd, Ready())
      ensures fd == if old(fd) > lastfd then 0 else old(fd)
      ensures Selects(log) == Selects(old(log)) && (old(Unlimited()) ==> Unlimited())
    {
      EndsBehind();
      hide Run, After, Channels.Valid, Ready;
      var end := HighestFd();
      ghost var e := Sweep(end, Ready());
      RunSnoc(START, log, e);
      SelectsSnoc(log, e);
      log, lastfd := log + [e], end;
      if fd > lastfd {
        fd := 0;
      }
    }

    method HighestFd() returns (end: int)
      requires ch.Valid()
      ensures -1 <= end < ch.table.Length && end >= ch.maxFd && end >= ch.maxSleepFd
      ensures end == ch.maxFd || end == ch.maxSleepFd
    {
      end := ch.maxFd;
      if end < ch.maxSleepFd {
        end := ch.maxSleepFd;
      }
    }

    // The body of the sweep; `stop` when there is nothing left to do.
    method One() returns (stop: bool)
      requires Valid() && (fd <= lastfd || fd == 0)
      modifies this`fd, this`log, this`count, this`calls, ch, ch.table
      ensures Valid() && old(log) <= log
      ensures |log| == |old(log)| + 1 && log[|old(log)|].Visit? && log[|old(log)|].fd == old(fd)
      ensures 0 <= old(ch.maxFd) + 1 <= ch.table.Length
      ensures log[|old(log)|].limited <==> Over(old(ch.table[..]), old(fd), old(ch.maxFd) + 1)
      ensures fd == if log[|old(log)|].bump then Advance(Config(old(fd), lastfd)) else old(fd)
      ensures !log[|old(log)|].bump ==> log[|old(log)|].limited && old(Busy()) && !Busy()
      ensures log[|old(log)|].limited ==>
        (log[|old(log)|].bump <==> ch.clock.now <= old(ch.table[fd].started + ch.table[fd].holdTime))
      ensures stop <==> !log[|old(log)|].limited && count == 0 && ch.sleepCount == 0
      ensures old(Unlimited()) ==> Unlimited()
      ensures !log[|old(log)|].limited ==> !TimesOut(ch.table[old(fd)], ch.clock.now, ch.peerTimeout)
      ensures Selects(log) == Selects(old(log)) && Since(old(ch.Present()), ch.Present())
    {
      hide Channels.Valid, Run, After, Since, TimesOut;
      stop := false;
      ghost var a := ch.Present();
      var over := Exceeds();
      ghost var b := ch.Present();
      if over {
        var bumped := Limit();
      } else {
        ghost var m := Look();
        stop := count == 0 && ch.sleepCount == 0;
      }
      SinceThen(a, b, ch.Present());
    }

    // The descriptor may still run into the connection limit.
    predicate Busy()
      reads this`fd, ch.table
    {
      fd < ch.table.Length && ch.table[fd].kind == Nntp
    }

    // One sweep, from where the last one stopped.  It comes round to where it began and
    // has looked at every descriptor, unless it stops when nothing is left to do, or when
    // the first one is closed by the connection limit.
    method SweepAll() returns (stop: bool)
      requires Valid()
      modifies this`fd, this`lastfd, this`log, this`count, this`calls, ch, ch.table
      ensures Valid() && old(log) <= log && Swept(old(log), log, old(fd))
      ensures stop ==> count == 0 && ch.sleepCount == 0
      ensures !stop && log[|old(log)| + 1].bump ==> AllLookedAt(log[|old(log)|..], log[|old(log)|].lastfd)
      ensures old(Unlimited()) ==> Unlimited()
      ensures Selects(log) == Selects(old(log)) && Since(old(ch.Present()), ch.Present())
    {
      hide Valid, Since, Swept, Unlimited, AllPassed, AllLookedAt;
      ghost var from := |log|;
      var start;
      start, stop := SweepFirst();
      ghost var visited, b := log, ch.Present();
      ghost var bumped := visited[from + 1].bump;
      if !stop {
        stop := SweepRest(start, from, bumped);
        SinceThen(old(ch.Present()), b, ch.Present());
        if bumped && !stop {
          CameRound(start, lastfd, log[from..]);
        }
      }
      StillSwept(old(log), visited, log, old(fd));
    }

    // Its beginning, and the first descriptor.
    method SweepFirst() returns (start: nat, stop: bool)
      requires Valid()
      modifies this`fd, this`lastfd, this`log, this`count, this`calls, ch, ch.table
      ensures Valid() && (fd <= lastfd || fd == 0) && (start <= lastfd || start == 0)
      ensures old(log) <= log && |log| == |old(log)| + 2 && Swept(old(log), log, old(fd))
      ensures log[|old(log)|].Sweep? && log[|old(log)|].lastfd == lastfd && log[|old(log)| + 1].Visit?
      ensures log[|old(log)| + 1].bump ==> AllPassed(start, fd, lastfd, log[|old(log)|..])
      ensures stop ==> count == 0 && ch.sleepCount == 0
      ensures old(Unlimited()) ==> Unlimited()
      ensures Selects(log) == Selects(old(log)) && Since(old(ch.Present()), ch.Present())
    {
      hide Valid, Since, Unlimited, AllPassed, Over;
      BeginSweep();
      ValidEnd();
      start := fd;
      stop := One();
      assert log[|old(log)| + 1] in log[|old(log)|..];
      FirstPassed(start, lastfd, log[|old(log)|..]);
    }

    // The rest of a sweep, until it is where it began.
    method SweepRest(start: nat, ghost from: nat, ghost bumped: bool) returns (stop: bool)
      requires Valid() && (fd <= lastfd || fd == 0) && (start <= lastfd || start == 0) && from <= |log|
      requires bumped ==> AllPassed(start, fd, lastfd, log[from..])
      modifies this`fd, this`log, this`count, this`calls, ch, ch.table
      ensures Valid() && old(log) <= log
      ensures stop ==> count == 0 && ch.sleepCount == 0
      ensures bumped && !stop ==> AllPassed(start, start, lastfd, log[from..])
      ensures old(Unlimited()) ==> Unlimited()
      ensures Selects(log) == Selects(old(log)) && Since(old(ch.Present()), ch.Present())
    {
      ValidEnd();
      ghost var a := ch.Present();
      SinceSelf(a);
      hide Valid, Since, Unlimited, AllPassed, Over;
      stop := false;
      while fd != start && !stop
        invariant Valid() && old(log) <= log && (fd <= lastfd || fd == 0)
        invariant bumped ==> AllPassed(start, fd, lastfd, log[from..])
        invariant stop ==> count == 0 && ch.sleepCount == 0
        invariant old(Unlimited()) ==> Unlimited()
        invariant Selects(log) == Selects(old(log)) && Since(a, ch.Present())
        decreases Left(start), if Busy() then 1 else 0
      {
        ghost var b, was, at := ch.Present(), log, fd;
        stop := One();
        SinceThen(a, b, ch.Present());
        if bumped {
          MorePassed(start, at, lastfd, was, log, from);
        }
      }
    }

    lemma ValidChannels()
      requires Valid()
      ensures ch.Valid()
    {
    }

    lemma ValidEnd()
      requires Valid()
      ensures -1 <= lastfd
    {
    }

    // One turn of the loop: after a select that reported something, or with somebody
    // asleep, a sweep follows.
    method Turn() returns (ok: bool, ghost selected: seq<Event>)
      requires Valid()
      modifies this, ch, ch.table, ch.clock
      ensures Valid() && old(log) <= selected <= log && errors == old(errors) + if ok then 0 else 1
      ensures if ok then |selected| == |old(log)| + 1 && selected[|old(log)|].Select? else log == selected == old(log)
      ensures ok && selected[|old(log)|].ready != {} ==> Swept(selected, log, old(fd))
      ensures Swept(selected, log, old(fd)) ==>
        || (count == 0 && ch.sleepCount == 0)
        || (log[|selected| + 1].bump ==> AllLookedAt(log[|selected|..], log[|selected|].lastfd))
      ensures old(Unlimited()) ==> Unlimited()
      ensures Selects(log) == Selects(old(log)) + (if ok then 1 else 0) && Since(old(ch.Present()), ch.Present())
    {
      hide Valid, Channels.Valid, Since, Unlimited, AllLookedAt, Ready;
      ghost var a := ch.Present();
      ValidChannels();
      Call(Children);  // PROCscan
      ok := Wait();
      selected := log;
      if !ok {
        return;
      }
      ghost var b := ch.Present();
      ValidChannels();
      NothingReady();
      if count == 0 && ch.sleepCount == 0 {
        return;
      }
      Serve();
      SinceThen(a, b, ch.Present());
    }

    // The prioritized channels, and a sweep over the others.
    method Serve()
      requires Valid()
      modifies this`rdfds, this`fd, this`lastfd, this`log, this`count, this`calls, ch, ch.table
      ensures Valid() && old(log) <= log && Swept(old(log), log, old(fd))
      ensures (count == 0 && ch.sleepCount == 0)
        || (log[|old(log)| + 1].bump ==> AllLookedAt(log[|old(log)|..], log[|old(log)|].lastfd))
      ensures old(Unlimited()) ==> Unlimited()
      ensures Selects(log) == Selects(old(log)) && Since(old(ch.Present()), ch.Present())
    {
      hide Valid, Since, NoLimits, AllLookedAt;
      ghost var a := ch.Present();
      ghost var read := ServePrioritized();
      ghost var b := ch.Present();
      StillUnlimited();
      hide Unlimited;
      var stop := SweepAll();
      SinceThen(a, b, ch.Present());
    }

    // `CHANreadloop`, for any number of turns; so many of them select anything.  Whoever
    // waits with output pending waits until it is written, or until the channel is closed
    // or taken out by a callback; a channel is closed for a failed write only after one;
    // and the connection limit never comes to bear.
    method ReadLoop(turns: nat) returns (selects: nat)
      requires Valid()
      modifies this, ch, ch.table, ch.clock
      ensures Valid() && old(log) <= log && selects + errors == turns + old(errors)
      ensures Selects(log) == Selects(old(log)) + selects
      ensures old(Unlimited()) ==> Unlimited()
      ensures Since(old(ch.Present()), ch.Present())
    {
      selects := 0;
      ghost var a := ch.Present();
      SinceSelf(a);
      hide Valid, Since, Unlimited;
      for i := 0 to turns
        invariant Valid() && old(log) <= log && Since(a, ch.Present()) && (old(Unlimited()) ==> Unlimited())
        invariant selects + errors == i + old(errors) && Selects(log) == Selects(old(log)) + selects
      {
        ghost var b := ch.Present();
        var ok, selected := Turn();
        SinceThen(a, b, ch.Present());
        if ok {
          selects := selects + 1;
        }
      }
    }
  }

  // From the start of innd on no connection runs into the connection limit, whatever
  // limits its peer was given: the count that it is compared with never leaves 0.
  method NeverLimited(ch: Channels, turns: nat) returns (loop: Loop)
    requires ch.Valid() && NoneActive(ch.table[..])
    modifies ch, ch.table, ch.clock
    ensures loop.Valid() && loop.ch == ch && NoneActive(ch.table[..]) && NoLimits(loop.log)
  {
    loop := new Loop(ch);
    var selects := loop.ReadLoop(turns);
  }
}
