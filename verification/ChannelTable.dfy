// Channel bookkeeping and buffered output of innd/chan.c.
module ChannelTable {
  import opened FiniteSets
  import opened Wrappers
  import opened WriteLog
  import opened ChannelMoments

  // m is the highest member of s, or at most 1, and bounds s.
  ghost predicate Highest(m: int, s: set<nat>) {
    (forall f :: f in s ==> f <= m) && (m > 1 ==> m in s)
  }

  lemma Raised(m: int, r: set<nat>, w: set<nat>, fd: nat)
    requires Highest(m, r + w)
    ensures Highest(if fd > m then fd else m, r + {fd} + w)
    ensures Highest(if fd > m then fd else m, r + (w + {fd}))
  {
  }

  lemma Requeued(written: string, pending: string, n: nat)
    requires n <= |pending|
    ensures written + pending[..n] + pending[n..] == written + pending
  {
  }

  // Distinct descriptors below n, without fd, are fewer than n.
  lemma Pigeonhole(s: seq<Option<nat>>, fd: nat, n: nat)
    requires fd < n && Some(fd) !in s
    requires forall i :: 0 <= i < |s| ==> s[i].Some? && s[i].value < n
    requires forall i, j :: 0 <= i < j < |s| ==> s[i] != s[j]
    ensures |s| < n
  {
    var values := DistinctValues(s);
    forall v | v in values
      ensures v in Below(n) - {fd}
    {
      assert Some(v) in s;
    }
    SubsetSize(values, Below(n) - {fd});
  }

  lemma {:induction false} DistinctValues(s: seq<Option<nat>>) returns (values: set<nat>)
    requires forall i :: 0 <= i < |s| ==> s[i].Some?
    requires forall i, j :: 0 <= i < j < |s| ==> s[i] != s[j]
    ensures |values| == |s| && forall v: nat :: v in values <==> Some(v) in s
  {
    if s == [] {
      values := {};
    } else {
      var t, last := s[..|s| - 1], s[|s| - 1];
      var rest := DistinctValues(t);
      assert last !in t;
      assert s == t + [last];
      values := rest + {last.value};
    }
  }

  // No channel is listed twice.
  ghost predicate Once(s: seq<Option<nat>>) {
    forall i, j :: 0 <= i < j < |s| && s[i].Some? ==> s[i] != s[j]
  }

  // A channel enters a vacant place.
  lemma Entered(s: seq<Option<nat>>, i: nat, fd: nat)
    requires i < |s| && s[i].None? && Once(s) && Some(fd) !in s
    ensures var r := s[i := Some(fd)];
      Once(r) && Some(fd) in r && forall f :: Some(f) in s ==> Some(f) in r
  {
    var r := s[i := Some(fd)];
    assert r[i] == Some(fd);
    forall f | Some(f) in s
      ensures Some(f) in r
    {
      var j :| 0 <= j < |s| && s[j] == Some(f);
      assert r[j] == Some(f);
    }
    forall j, k | 0 <= j < k < |r| && r[j].Some?
      ensures r[j] != r[k]
    {
      assert j != i ==> s[j] in s;
      assert k != i ==> s[k] in s;
    }
  }

  // The time of day, read once for each turn of the main loop.
  class Clock {
    var now: int                     // Now.tv_sec
    ghost var readings: nat

    constructor ()
      ensures now == 0 && readings == 0
    {
      now, readings := 0, 0;
    }

    method Read()
      modifies this
      ensures readings == old(readings) + 1
    {
      now, readings := *, readings + 1;
    }
  }

  class Channels {
    const table: array<Chan>
    const badIoCount: nat            // innconf->badiocount
    const bufsiz: nat                // BUFSIZ
    const blockBackoff: nat          // innconf->blockbackoff
    const pauseRetryTime: nat        // innconf->pauseretrytime
    const chanInactTime: nat         // innconf->chaninacttime
    const peerTimeout: nat           // innconf->peertimeout
    const clock: Clock
    var readSet: set<nat>
    var writeSet: set<nat>
    var sleepSet: set<nat>
    var sleepCount: int
    var maxFd: int
    var maxSleepFd: int
    var prioritized: seq<Option<nat>>
    var signals: nat                 // how many writes signals will still interrupt
    ghost var fates: seq<Fate>
    ghost var io: seq<Io>            // what the writes have come to
    ghost var done: seq<Op>          // what callbacks did
    ghost var invoked: nat           // how many were called

    ghost predicate Sets()
      reads `readSet, `writeSet, `sleepSet, `sleepCount, `maxFd, `maxSleepFd
    {
      && sleepCount == |sleepSet|
      && -1 <= maxFd < table.Length && Highest(maxFd, readSet + writeSet)
      && -1 <= maxSleepFd < table.Length && Highest(maxSleepFd, sleepSet)
    }

    // Only open channels are in a set, and an open channel sits at its descriptor.
    ghost predicate Opened()
      reads `readSet, `writeSet, `sleepSet, table
    {
      && (forall f :: f in readSet + writeSet + sleepSet ==> f < table.Length && table[f].kind != Free)
      && (forall f :: 0 <= f < table.Length && table[f].kind != Free ==> table[f].fd == f)
    }

    // No output byte is lost, repeated or reordered.
    ghost predicate Streams()
      reads table
    {
      forall f :: 0 <= f < table.Length && table[f].kind != Free ==>
        table[f].written + table[f].pending == table[f].queued
    }

    // The prioritized channels are the open control and remconn channels, each once.
    ghost predicate Priority()
      reads `prioritized, table
    {
      && (forall i :: 0 <= i < |prioritized| && prioritized[i].Some? ==>
            prioritized[i].value < table.Length && Prioritized(table[prioritized[i].value].kind))
      && (forall f :: 0 <= f < table.Length && Prioritized(table[f].kind) ==> Some(f) in prioritized)
      && Once(prioritized)
      && |prioritized| <= Slots()
    }

    // The prioritized array never outgrows the table.
    function Slots(): (n: nat) {
      if table.Length < 3 then 3 else table.Length
    }

    ghost predicate Valid()
      reads `readSet, `writeSet, `sleepSet, `sleepCount, `maxFd, `maxSleepFd, `prioritized, table
    {
      table.Length > 0 && bufsiz > 0 && Sets() && Opened() && Streams() && Priority()
    }

    // `CHANsetup`
    constructor (size: nat, badIoCount: nat, bufsiz: nat, blockBackoff: nat, pauseRetryTime: nat,
                 chanInactTime: nat, peerTimeout: nat, clock: Clock)
      requires size > 0 && bufsiz > 0
      ensures Valid() && fresh(table) && table.Length == size && this.clock == clock
      ensures readSet == writeSet == sleepSet == {} && fates == [] && io == []
      ensures NoneActive(table[..])
      ensures this.badIoCount == badIoCount && this.bufsiz == bufsiz && this.blockBackoff == blockBackoff
      ensures this.pauseRetryTime == pauseRetryTime
      ensures this.chanInactTime == chanInactTime && this.peerTimeout == peerTimeout
    {
      this.badIoCount, this.bufsiz := badIoCount, bufsiz;
      this.blockBackoff, this.pauseRetryTime := blockBackoff, pauseRetryTime;
      this.chanInactTime, this.peerTimeout := chanInactTime, peerTimeout;
      this.clock := clock;
      table := new Chan[size](_ => NULLCHAN);
      readSet, writeSet, sleepSet := {}, {}, {};
      sleepCount, maxFd, maxSleepFd := 0, -1, -1;
      prioritized := [None, None, None];
      signals, fates, io, done, invoked := 0, [], [], [], 0;
    }

    predicate IsOpen(fd: nat)
      reads table
    {
      fd < table.Length && table[fd].kind != Free
    }

    // What a channel writes, or when it sleeps, does not matter to the other invariants.
    predicate SameChannel(c: Chan, d: Chan) {
      c.kind == d.kind && c.fd == d.fd && c.written == d.written && c.pending == d.pending && c.queued == d.queued
    }

    twostate lemma KindsKept(fd: nat)
      requires old(Opened()) && old(Priority()) && old(Streams()) && fd < table.Length
      requires readSet + writeSet + sleepSet <= old(readSet + writeSet + sleepSet) && prioritized == old(prioritized)
      requires forall f :: 0 <= f < table.Length && f != fd ==> SameChannel(table[f], old(table[f]))
      requires table[fd].kind == old(table[fd]).kind && table[fd].fd == old(table[fd]).fd
      requires table[fd].kind != Free ==> table[fd].written + table[fd].pending == table[fd].queued
      ensures Opened() && Priority() && Streams()
    {
      assert forall f :: 0 <= f < table.Length ==>
        table[f].kind == old(table[f]).kind && table[f].fd == old(table[f]).fd;
    }

    // Waiting to be written, or to be woken up for it.
    predicate Registered(f: nat)
      reads `writeSet, `sleepSet, table
    {
      f in writeSet || (f in sleepSet && f < table.Length && table[f].waker == Wakeup)
    }

    ghost function Present(): Moment
      reads this, table
    {
      Moment(table[..], readSet, writeSet, sleepSet, prioritized, fates, io)
    }

    // ----- the sets -----

    // `CHANresetlast`
    method ResetLast(fd: nat)
      requires fd <= maxFd && Highest(maxFd, readSet + writeSet + {fd})
      modifies this`maxFd
      ensures Highest(maxFd, readSet + writeSet) && -1 <= maxFd <= old(maxFd)
      ensures maxFd == old(maxFd) || (fd == old(maxFd) && maxFd >= 1)
    {
      if fd == maxFd {
        while maxFd !in readSet && maxFd !in writeSet && maxFd > 1
          invariant 0 <= maxFd <= old(maxFd) && (maxFd >= 1 || maxFd == old(maxFd))
          invariant forall f :: f in readSet + writeSet ==> f <= maxFd
        {
          maxFd := maxFd - 1;
        }
      }
    }

    // `CHANresetlastsleeping`
    method ResetLastSleeping(fd: nat)
      requires fd <= maxSleepFd && Highest(maxSleepFd, sleepSet + {fd})
      modifies this`maxSleepFd
      ensures Highest(maxSleepFd, sleepSet) && -1 <= maxSleepFd <= old(maxSleepFd)
      ensures maxSleepFd == old(maxSleepFd) || (fd == old(maxSleepFd) && maxSleepFd >= 1)
    {
      if fd == maxSleepFd {
        while maxSleepFd !in sleepSet && maxSleepFd > 1
          invariant 0 <= maxSleepFd <= old(maxSleepFd) && (maxSleepFd >= 1 || maxSleepFd == old(maxSleepFd))
          invariant forall f :: f in sleepSet ==> f <= maxSleepFd
        {
          maxSleepFd := maxSleepFd - 1;
        }
      }
    }

    // `RCHANadd`
    method ReadAdd(fd: nat)
      requires Valid() && IsOpen(fd)
      modifies this`readSet, this`maxFd
      ensures Valid() && readSet == old(readSet) + {fd}
    {
      hide Streams, Priority, Opened;
      assert fd < table.Length;
      readSet := readSet + {fd};
      Raise(fd, old(readSet), writeSet);
      StillOpened(fd);
    }

    // The highest descriptor follows one that is added.
    method Raise(fd: nat, ghost r: set<nat>, ghost w: set<nat>)
      requires -1 <= maxFd < table.Length && fd < table.Length && Highest(maxFd, r + w)
      modifies this`maxFd
      ensures -1 <= maxFd < table.Length && Highest(maxFd, r + {fd} + w) && Highest(maxFd, r + (w + {fd}))
    {
      Raised(maxFd, r, w, fd);
      hide Highest;
      if fd > maxFd {
        maxFd := fd;
      }
    }

    twostate lemma StillOpened(fd: nat)
      requires old(Opened()) && old(IsOpen(fd)) && unchanged(table)
      requires readSet <= old(readSet) + {fd} && writeSet <= old(writeSet) + {fd} && sleepSet <= old(sleepSet) + {fd}
      ensures Opened()
    {
      forall f | f in readSet + writeSet + sleepSet
        ensures f < table.Length && table[f].kind != Free
      {
        assert table[fd] == old(table[fd]);
        if f != fd {
          assert f in old(readSet + writeSet + sleepSet) && table[f] == old(table[f]);
        }
      }
      forall f | 0 <= f < table.Length && table[f].kind != Free
        ensures table[f].fd == f
      {
        assert table[f] == old(table[f]);
      }
    }

    // `RCHANremove`
    method ReadRemove(fd: nat)
      requires Valid()
      modifies this`readSet, this`maxFd
      ensures Valid() && readSet == old(readSet) - {fd}
    {
      hide Streams, Priority;
      if fd in readSet {
        readSet := readSet - {fd};
        assert readSet + writeSet + {fd} == old(readSet) + writeSet;
        ResetLast(fd);
      }
    }

    // `WCHANadd`
    method WriteAdd(fd: nat)
      requires Valid() && IsOpen(fd)
      modifies this`writeSet, this`maxFd
      ensures Valid()
      ensures Touched(old(Present()), Present(), fd)
      ensures writeSet == if table[fd].pending != "" then old(writeSet) + {fd} else old(writeSet)
    {
      hide Streams, Priority, Opened;
      if |table[fd].pending| > 0 {
        assert fd < table.Length;
        writeSet := writeSet + {fd};
        Raise(fd, readSet, old(writeSet));
        StillOpened(fd);
      }
    }

    // `WCHANremove`
    method WriteRemove(fd: nat)
      requires Valid()
      modifies this`writeSet, this`maxFd
      ensures Valid() && writeSet == old(writeSet) - {fd}
      ensures Touched(old(Present()), Present(), fd)
    {
      hide Streams, Priority;
      if fd in writeSet {
        writeSet := writeSet - {fd};
        assert readSet + writeSet + {fd} == readSet + old(writeSet) || fd in readSet;
        assert Highest(maxFd, readSet + writeSet + {fd});
        ResetLast(fd);
      }
    }

    // `SCHANadd`
    method SleepAdd(fd: nat, wake: int, waker: Waker, event: nat)
      requires Valid() && IsOpen(fd)
      modifies this`sleepSet, this`sleepCount, this`maxSleepFd, table
      ensures Valid() && sleepSet == old(sleepSet) + {fd}
      ensures Touched(old(Present()), Present(), fd)
      ensures table[..] ==
        old(table[..])[fd := old(table[fd]).(waketime := wake, waker := waker, event := event)]
    {
      ghost var a := Present();
      assert table[fd].written + table[fd].pending == table[fd].queued;
      hide Sets, Opened, Priority, Streams;
      AddSleeper(fd);
      ghost var b := Present();
      ChangeTouches(a, b, fd);
      StillOpened(fd);
      hide Touched;
      Alter(fd, table[fd].(waketime := wake, waker := waker, event := event));
      TouchedTwice(a, b, Present(), fd);
    }

    // Put a descriptor into the sleep set.
    method AddSleeper(fd: nat)
      requires Sets() && fd < table.Length
      modifies this`sleepSet, this`sleepCount, this`maxSleepFd
      ensures Sets() && sleepSet == old(sleepSet) + {fd}
    {
      if fd !in sleepSet {
        sleepCount := sleepCount + 1;
        sleepSet := sleepSet + {fd};
      }
      if fd > maxSleepFd {
        maxSleepFd := fd;
      }
    }

    // Change what no set depends on, and no output.
    method Alter(fd: nat, c: Chan)
      requires Valid() && IsOpen(fd) && SameChannel(c, table[fd]) && (table[fd].active == 0 ==> c.active == 0)
      modifies table
      ensures Valid() && table[..] == old(table[..])[fd := c] && Touched(old(Present()), Present(), fd)
    {
      ghost var a := Present();
      assert table[fd].written + table[fd].pending == table[fd].queued;
      hide Sets, Opened, Priority, Streams;
      table[fd] := c;
      KindsKept(fd);
      ChangeTouches(a, Present(), fd);
    }

    // `SCHANremove`
    method SleepRemove(fd: nat)
      requires Valid()
      modifies this`sleepSet, this`sleepCount, this`maxSleepFd, table
      ensures Valid() && sleepSet == old(sleepSet) - {fd}
      ensures Touched(old(Present()), Present(), fd)
      ensures fd in old(sleepSet) ==>
        fd < table.Length && table[..] == old(table[..])[fd := old(table[fd]).(waketime := 0)]
      ensures fd !in old(sleepSet) ==> table[..] == old(table[..])
    {
      if fd !in sleepSet {
        return;
      }
      assert IsOpen(fd) && table[fd].written + table[fd].pending == table[fd].queued;
      hide Sets, Opened, Priority, Streams;
      ghost var a := Present();
      DropSleeper(fd);
      table[fd] := table[fd].(waketime := 0);
      KindsKept(fd);
      ChangeTouches(a, Present(), fd);
    }

    // Take a descriptor out of the sleep set.
    method DropSleeper(fd: nat)
      requires Sets() && fd in sleepSet
      modifies this`sleepSet, this`sleepCount, this`maxSleepFd
      ensures Sets() && sleepSet == old(sleepSet) - {fd}
    {
      sleepSet := sleepSet - {fd};
      sleepCount := sleepCount - 1;
      assert sleepSet + {fd} == old(sleepSet);
      ResetLastSleeping(fd);
    }

    // A channel that sleeps on the event has its wake time cleared.
    function Woken(c: Chan, asleep: bool, event: nat): (d: Chan)
      ensures SameChannel(c, d)
    {
      if c.kind != Free && c.event == event && asleep then c.(waketime := 0) else c
    }

    // `SCHANwakeup`
    method WakeUp(event: nat)
      requires Valid()
      modifies table
      ensures Valid()
      ensures forall f :: 0 <= f < table.Length ==> table[f] == Woken(old(table[f]), f in sleepSet, event)
    {
      assert table[0].kind != Free ==> table[0].written + table[0].pending == table[0].queued;
      hide Sets, Opened, Priority, Streams;
      for i := 0 to table.Length
        invariant forall f :: i <= f < table.Length ==> table[f] == old(table[f])
        invariant forall f :: 0 <= f < i ==> table[f] == Woken(old(table[f]), f in sleepSet, event)
      {
        WakeOne(i, event);
      }
      KindsKept(0);
    }

    method WakeOne(i: nat, event: nat)
      requires i < table.Length
      modifies table
      ensures table[i] == Woken(old(table[i]), i in sleepSet, event)
      ensures forall f :: 0 <= f < table.Length && f != i ==> table[f] == old(table[f])
    {
      if table[i].kind != Free && table[i].event == event && i in sleepSet {
        table[i] := table[i].(waketime := 0);
      }
    }

    // Append to the output buffer.
    method Append(fd: nat, data: string)
      requires Valid() && IsOpen(fd)
      modifies table
      ensures Valid()
      ensures Touched(old(Present()), Present(), fd)
      ensures table[..] == old(table[..])[fd := Given(old(table[fd]), data)]
    {
      var c := table[fd];
      assert c.written + (c.pending + data) == c.queued + data;
      table[fd] := c.(pending := c.pending + data, queued := c.queued + data);
    }

    // ----- opening and closing -----

    function New(fd: nat, kind: Kind): (c: Chan)
      reads clock
      ensures c.active == 0
    {
      NULLCHAN.(kind := kind, fd := fd, started := clock.now, lastActive := clock.now, nextLog := chanInactTime)
    }

    // `CHANcreate`: the descriptor is new, so its slot is free.
    method Create(fd: nat, kind: Kind)
      requires Valid() && fd < table.Length && !IsOpen(fd) && kind != Free
      modifies this`prioritized, table
      ensures Valid() && table[..] == old(table[..])[fd := New(fd, kind)]
      ensures |prioritized| >= |old(prioritized)|
      ensures forall i :: 0 <= i < |old(prioritized)| && old(prioritized)[i].Some? ==>
        prioritized[i] == old(prioritized)[i]
      ensures if Prioritized(kind) then Some(fd) in prioritized else prioritized == old(prioritized)
    {
      hide Once, Sets;
      table[fd] := New(fd, kind);
      if kind == Control || kind == Remconn {
        Enter(fd);
      }
    }

    // Put a channel among the prioritized ones.
    method Enter(fd: nat)
      requires fd < table.Length && Some(fd) !in prioritized && |prioritized| <= Slots() && Once(prioritized)
      requires forall j :: 0 <= j < |prioritized| && prioritized[j].Some? ==> prioritized[j].value < table.Length
      modifies this`prioritized
      ensures |old(prioritized)| <= |prioritized| <= Slots() && Once(prioritized) && Some(fd) in prioritized
      ensures forall f :: Some(f) in old(prioritized) ==> Some(f) in prioritized
      ensures forall i :: 0 <= i < |old(prioritized)| && old(prioritized)[i].Some? ==>
        prioritized[i] == old(prioritized)[i]
      ensures forall i :: 0 <= i < |prioritized| && prioritized[i].Some? ==>
        prioritized[i] == Some(fd) || (i < |old(prioritized)| && prioritized[i] == old(prioritized)[i])
    {
      var i := VacantSlot(fd);
      Entered(prioritized, i, fd);
      prioritized := prioritized[i := Some(fd)];
    }

    // The first vacant place among the prioritized channels, which may be a new one.
    method VacantSlot(fd: nat) returns (i: nat)
      requires fd < table.Length && Some(fd) !in prioritized && |prioritized| <= Slots() && Once(prioritized)
      requires forall j :: 0 <= j < |prioritized| && prioritized[j].Some? ==> prioritized[j].value < table.Length
      modifies this`prioritized
      ensures i < |prioritized| <= Slots() && prioritized[i].None?
      ensures prioritized == old(prioritized) || prioritized == old(prioritized) + [None]
    {
      i := 0;
      while i < |prioritized| && prioritized[i].Some?
        invariant 0 <= i <= |prioritized|
        invariant forall j :: 0 <= j < i ==> prioritized[j].Some?
      {
        i := i + 1;
      }
      if i >= |prioritized| {
        Pigeonhole(prioritized, fd, table.Length);
        prioritized := prioritized + [None];
      }
    }

    // `CHANclose`; closing an NNTP channel may let another connection of the same peer go on.
    method Close(fd: nat, ghost why: Fate)
      requires Valid() && fd < table.Length && Closing(why, fd)
      modifies this`readSet, this`writeSet, this`sleepSet, this`sleepCount, this`maxFd, this`maxSleepFd
      modifies this`prioritized, this`fates, table
      ensures Valid() && !IsOpen(fd)
      ensures fates == if old(IsOpen(fd)) then old(fates) + [why] else old(fates)
      ensures old(IsOpen(fd)) ==> Closes(old(Present()), Present(), fd, old(maxFd) + 1)
      ensures !old(IsOpen(fd)) ==> Present() == old(Present())
      ensures Touched(old(Present()), Present(), fd)
      ensures fd !in readSet && fd !in writeSet && fd !in sleepSet
    {
      hide Valid, Vacated, Touched, Closes;
      TopBound();
      ghost var a, n := Present(), maxFd + 1;
      if table[fd].kind == Free {
        AlreadyClosed(fd);
        return;
      }
      CloseOpen(fd);
      ghost var b := Present();
      fates := fates + [why];
      ClosesToo(a, b, Present(), fd, n);
      ClosedTouches(a, Present(), fd, n);
    }

    lemma TopBound()
      requires Valid()
      ensures 0 <= maxFd + 1 <= table.Length
    {
    }

    // Only open channels are in the sets.
    lemma InSet(fd: nat)
      requires Valid() && fd in readSet + writeSet + sleepSet
      ensures IsOpen(fd)
    {
    }

    lemma AlreadyClosed(fd: nat)
      requires Valid() && fd < table.Length && !IsOpen(fd)
      ensures fd !in readSet && fd !in writeSet && fd !in sleepSet
      ensures Touched(Present(), Present(), fd)
    {
    }

    method CloseOpen(fd: nat)
      requires Valid() && IsOpen(fd)
      modifies this`readSet, this`writeSet, this`sleepSet, this`sleepCount, this`maxFd, this`maxSleepFd
      modifies this`prioritized, table
      ensures Valid() && !IsOpen(fd) && fd !in readSet && fd !in writeSet && fd !in sleepSet
      ensures Closes(old(Present()), Present(), fd, old(maxFd) + 1)
    {
      hide Valid, Vacated, Touched, Successor, Promoted, Closes;
      TopBound();
      ghost var a, n := Present(), maxFd + 1;
      if table[fd].kind == Nntp {
        Promote(fd);
      } else {
        NoSuccessor(a.table, fd, n);
      }
      ghost var b := Present();
      WriteRemove(fd);
      ReadRemove(fd);
      SleepRemove(fd);
      FreeSlot(fd);
      ClosesAfter(a, b, Present(), fd, n);
    }

    // The connection-limit part of `CHANclose_nntp`.
    method Promote(fd: nat)
      requires Valid() && IsOpen(fd)
      modifies this`readSet, this`maxFd, table
      ensures Valid() && table[fd] == old(table[fd])
      ensures var p := Successor(old(table[..]), fd, old(maxFd) + 1);
        && table[..] == Promoted(old(table[..]), p, old(table[fd]).active)
        && readSet == old(readSet) + if p.Some? then {p.value} else {}
    {
      hide Valid, Successor, FirstPeer;
      TopBound();
      var p := FindSuccessor(fd);
      if p.Some? {
        ReadAdd(p.value);
        Alter(p.value, table[p.value].(active := table[fd].active));
      }
    }

    method FindSuccessor(fd: nat) returns (p: Option<nat>)
      requires Valid() && IsOpen(fd)
      ensures p == Successor(table[..], fd, maxFd + 1)
    {
      hide Valid;
      TopBound();
      if table[fd].kind != Nntp || table[fd].maxCnx <= 0 || table[fd].peer.None? {
        return None;
      }
      ghost var cs := table[..];
      for i := 0 to maxFd + 1
        invariant FirstPeer(cs, fd, 0, maxFd + 1) == FirstPeer(cs, fd, i, maxFd + 1)
      {
        if i != fd && SamePeer(table[fd], table[i]) {
          return Some(i);
        }
      }
      p := None;
    }

    // The end of `CHANclose`, when the channel is in no set any more.
    method FreeSlot(fd: nat)
      requires Valid() && IsOpen(fd) && fd !in readSet + writeSet + sleepSet
      modifies this`prioritized, table
      ensures Valid() && !IsOpen(fd) && Some(fd) !in prioritized && Vacated(old(prioritized), prioritized, fd)
      ensures table[..] == old(table[..])[fd := old(table[fd]).(kind := Free, fd := -1, active := 0)]
    {
      Deprioritize(fd);
      forall f | Some(f) in old(prioritized) && f != fd
        ensures Some(f) in prioritized
      {
        var j :| 0 <= j < |prioritized| && old(prioritized)[j] == Some(f);
        assert prioritized[j] == Some(f);
      }
      table[fd] := table[fd].(kind := Free, fd := -1, active := 0);
    }

    // Take a channel out of the prioritized ones.
    method Deprioritize(fd: nat)
      requires Valid() && IsOpen(fd)
      modifies this`prioritized
      ensures Vacated(old(prioritized), prioritized, fd)
    {
      for i := 0 to |prioritized|
        invariant |prioritized| == |old(prioritized)|
        invariant forall j :: 0 <= j < |prioritized| ==>
          prioritized[j] == if j < i && old(prioritized)[j] == Some(fd) then None else old(prioritized)[j]
      {
        if prioritized[i] == Some(fd) {
          prioritized := prioritized[i := None];
        }
      }
    }

    // ----- output -----

    // write(2): takes some bytes from the front, or fails.
    method SysWrite(fd: nat, data: string) returns (n: int, e: Errno)
      requires fd < table.Length
      modifies this`signals, this`io, table
      ensures n <= |data| && (e == NoError <==> n >= 0)
      ensures signals <= old(signals) && (e == Eintr ==> signals < old(signals))
      ensures Wrote(old(table[fd]), table[fd], data, n) && io == old(io) + [Io(fd, |data|, n, e)]
      ensures forall f :: 0 <= f < table.Length && f != fd ==> table[f] == old(table[f])
    {
      e := *;
      assert data[..0] == "" && table[fd].written + "" == table[fd].written;
      if e == Eintr && signals == 0 {
        e := Eagain;
      }
      if e != NoError {
        if e == Eintr {
          signals := signals - 1;
        }
        io := io + [Io(fd, |data|, -1, e)];
        return -1, e;
      }
      n :| 0 <= n <= |data|;
      io := io + [Io(fd, |data|, n, e)];
      table[fd] := table[fd].(written := table[fd].written + data[..n]);
    }

    // The descriptor took the first n bytes of the data, or none when n is negative.
    ghost predicate Wrote(c: Chan, d: Chan, data: string, n: int) {
      n <= |data| && d == c.(written := c.written + data[..if n < 0 then 0 else n])
    }

    // `CHANwrite`: all at once or, when the message is too long, in pieces.
    method ChanWrite(fd: nat, data: string) returns (count: int, e: Errno)
      requires fd < table.Length && bufsiz > 0
      modifies this`signals, this`io, table
      ensures Wrote(old(table[fd]), table[fd], data, count)
      ensures old(io) <= io && Attempt(io[|old(io)|..], fd, |data|, bufsiz, count, e)
      ensures forall f :: 0 <= f < table.Length && f != fd ==> table[f] == old(table[f])
    {
      hide InPieces, Tries;
      count, e := WriteOnce(fd, data);
      ghost var tries := io[|old(io)|..];
      assert tries[..|tries|] == tries && tries[|tries| - 1] == Last(tries);
      if count == 0 || (count < 0 && e == Emsgsize) {
        NoneWritten(old(table[fd]), table[fd], data, count);
        ghost var more := io;
        count, e := WritePieces(fd, data);
        BothParts(old(io), more, io, tries);
      }
      assert 0 < |tries| && Ended(io[|old(io)|..], |tries|, fd, |data|, bufsiz, count, e);
    }

    lemma BothParts(a: seq<Io>, b: seq<Io>, c: seq<Io>, tries: seq<Io>)
      requires a <= b <= c && tries == b[|a|..] != []
      ensures c[|a|..][..|tries|] == tries && c[|a|..][|tries|..] == c[|b|..]
      ensures c[|a|..][|tries| - 1] == Last(tries)
    {
    }

    lemma NoneWritten(c: Chan, d: Chan, data: string, n: int)
      requires Wrote(c, d, data, n) && n <= 0
      ensures d == c
    {
      assert data[..0] == "";
    }

    // Until no signal interrupts it.
    method WriteOnce(fd: nat, data: string) returns (count: int, e: Errno)
      requires fd < table.Length
      modifies this`signals, this`io, table
      ensures Wrote(old(table[fd]), table[fd], data, count) && count <= |data|
      ensures old(io) <= io && Tries(io[|old(io)|..], fd, |data|)
      ensures Last(io[|old(io)|..]) == Io(fd, |data|, count, e) && !(count < 0 && e == Eintr)
      ensures forall f :: 0 <= f < table.Length && f != fd ==> table[f] == old(table[f])
    {
      count, e := SysWrite(fd, data);
      ghost var tries := [Io(fd, |data|, count, e)];
      while count < 0 && e == Eintr
        invariant Wrote(old(table[fd]), table[fd], data, count)
        invariant io == old(io) + tries && Tries(tries, fd, |data|) && Last(tries) == Io(fd, |data|, count, e)
        invariant forall f :: 0 <= f < table.Length && f != fd ==> table[f] == old(table[f])
        decreases signals, if count < 0 && e == Eintr then 1 else 0
      {
        NoneWritten(old(table[fd]), table[fd], data, count);
        count, e := SysWrite(fd, data);
        TriesMore(tries, Io(fd, |data|, count, e), fd, |data|);
        tries := tries + [Io(fd, |data|, count, e)];
      }
      assert io[|old(io)|..] == tries;
    }

    method WritePieces(fd: nat, data: string) returns (count: int, e: Errno)
      requires fd < table.Length && bufsiz > 0
      modifies this`signals, this`io, table
      ensures Wrote(old(table[fd]), table[fd], data, count)
      ensures old(io) <= io && InPieces(io[|old(io)|..], fd, |data|, bufsiz, count, e)
      ensures forall f :: 0 <= f < table.Length && f != fd ==> table[f] == old(table[f])
    {
      var p := 0;
      count, e := 0, NoError;
      ghost var ios: seq<Io>, want := [], |data|;
      assert data[..0] == "";
      hide Going, InPieces;
      while p < |data|
        invariant p <= |data| && io == old(io) + ios && Going(ios, fd, want, bufsiz) && p == WriteLog.Gone(ios)
        invariant count <= |data| && (p == 0 ==> count == 0)
        invariant Wrote(old(table[fd]), table[fd], data, p)
        invariant forall f :: 0 <= f < table.Length && f != fd ==> table[f] == old(table[f])
        decreases |data| - p, signals
      {
        var length := if |data| - p > bufsiz then bufsiz else |data| - p;
        ghost var b := table[fd];
        count, e := SysWrite(fd, data[p..p + length]);
        WroteMore(old(table[fd]), b, table[fd], data, p, length, count);
        PieceMore(ios, Io(fd, length, count, e), fd, want, bufsiz);
        ios := ios + [Io(fd, length, count, e)];
        if count < 0 && e == Eintr {
          count := 0;
          continue;
        }
        if count <= 0 {
          assert io[|old(io)|..] == ios;
          return if p > 0 then p else count, e;
        }
        p := p + count;
      }
      assert io[|old(io)|..] == ios;
      AllGone(ios, fd, want, bufsiz, e);
      return p, e;
    }

    lemma WroteMore(a: Chan, b: Chan, c: Chan, data: string, p: nat, length: nat, n: int)
      requires Wrote(a, b, data, p) && p + length <= |data| && Wrote(b, c, data[p..p + length], n)
      ensures Wrote(a, c, data, if n < 0 then p else p + n)
    {
      Pieces(data, p, length, if n < 0 then 0 else n);
    }

    lemma Pieces(data: string, p: nat, length: nat, m: nat)
      requires m <= length && p + length <= |data|
      ensures data[p..p + length][..m] == data[p..p + m] && data[..p] + data[p..p + m] == data[..p + m]
    {
    }

    // The channel after the descriptor took n bytes of its output.
    function Took(c: Chan, n: nat): (d: Chan)
      requires n <= |c.pending|
      ensures d == c.(written := c.written + c.pending[..n], pending := c.pending[n..])
      ensures d.written + d.pending == c.written + c.pending
    {
      Requeued(c.written, c.pending, n);
      c.(written := c.written + c.pending[..n], pending := c.pending[n..])
    }

    lemma ValidSize()
      requires Valid()
      ensures bufsiz > 0
    {
    }

    // A channel moved output from its buffer to the descriptor.
    twostate lemma StillValid(fd: nat)
      requires old(Valid()) && fd < table.Length
      requires unchanged(`readSet, `writeSet, `sleepSet, `sleepCount, `maxFd, `maxSleepFd, `prioritized)
      requires forall f :: 0 <= f < table.Length && f != fd ==> table[f] == old(table[f])
      requires table[fd] == old(table[fd]).(written := table[fd].written, pending := table[fd].pending)
      requires table[fd].written + table[fd].pending == old(table[fd]).written + old(table[fd]).pending
      ensures Valid()
    {
      assert Streams();
      hide Sets, Streams;
      KindsKept(fd);
    }

    // Write pending output and drop what was taken from the buffer.
    method Output(fd: nat) returns (count: int, e: Errno)
      requires Valid() && IsOpen(fd)
      modifies this`signals, this`io, table
      ensures Valid() && count <= |old(table[fd]).pending|
      ensures Touched(old(Present()), Present(), fd)
      ensures Present() == old(Present()).(
        table := old(table[..])[fd := Took(old(table[fd]), if count < 0 then 0 else count)], io := io)
      ensures old(io) <= io && Attempt(io[|old(io)|..], fd, |old(table[fd]).pending|, bufsiz, count, e)
    {
      hide Valid, Touched, Attempt;
      var c := table[fd];
      ghost var a := Present();
      ValidSize();
      count, e := ChanWrite(fd, c.pending);
      var n := if count < 0 then 0 else count;
      ghost var d := Took(c, n);
      table[fd] := table[fd].(pending := c.pending[n..]);
      hide Took;
      assert table[..] == a.table[fd := d];
      StillValid(fd);
      ChangeTouches(a, Present(), fd);
    }

    function Asleep(c: Chan, wake: int): (d: Chan) {
      c.(waketime := wake, waker := Wakeup, event := 0)
    }

    // The channel when no output went out and it stays open.
    function Held(c: Chan, count: int, e: Errno): (d: Chan)
      reads clock
    {
      var d := c.(badWrites := c.badWrites + 1);
      if count < 0 && e == Eagain then
        Asleep(d.(blockedWrites := c.blockedWrites + 1), clock.now + (c.blockedWrites + 1) * blockBackoff)
      else if d.badWrites >= badIoCount then Asleep(d, clock.now + pauseRetryTime)
      else d
    }

    // No output went out: the channel is closed, or it is held.
    ghost predicate Refuses(a: Moment, b: Moment, fd: nat, count: int, e: Errno)
      requires fd < |a.table|
      reads clock
    {
      var c := a.table[fd];
      && b.io == a.io
      && if GivesUp(c, count, e, badIoCount) then !b.Open(fd) && b.fates == a.fates + [Dropped(fd)]
         else
           && b == a.(table := a.table[fd := Held(c, count, e)], writeSet := b.writeSet, sleepSet := b.sleepSet)
           && var stops := BacksOff(c, count, e, badIoCount);
           && b.writeSet == (if stops then a.writeSet - {fd} else a.writeSet)
           && b.sleepSet == if stops then a.sleepSet + {fd} else a.sleepSet
    }

    // Output went out.
    ghost predicate Drains(a: Moment, b: Moment, fd: nat, count: int, done: bool)
      requires fd < |a.table| && 0 < count <= |a.table[fd].pending|
    {
      && (done <==> count == |a.table[fd].pending|)
      && b == a.(table := a.table[fd := Took(a.table[fd], count).(badWrites := 0, blockedWrites := 0)],
                 writeSet := if done then a.writeSet - {fd} else a.writeSet,
                 fates := a.fates + if done then [WrittenOut(fd)] else [])
    }

    // `CHANhandle_write`, for what a write has come to.
    ghost predicate Handles(a: Moment, b: Moment, fd: nat, count: int, e: Errno, done: bool)
      requires fd < |a.table|
      reads clock
    {
      var c := a.table[fd].(lastActive := clock.now);
      if c.pending == "" then !done && b == a.(writeSet := a.writeSet - {fd})
      else
        && a.io <= b.io && Attempt(b.io[|a.io|..], fd, |c.pending|, bufsiz, count, e)
        && var m := a.(table := a.table[fd := c], io := b.io);
        if count <= 0 then !done && Refuses(m, b, fd, count, e)
        else count <= |c.pending| && Drains(m, b, fd, count, done)
    }

    // Whoever waited for it waits on or is accounted for.
    lemma HandledEnds(a: Moment, b: Moment, fd: nat, count: int, e: Errno, done: bool)
      requires a.Open(fd) && fd in a.writeSet && Handles(a, b, fd, count, e, done)
      ensures a.fates <= b.fates && a.io <= b.io && |b.fates| <= |a.fates| + 1
      ensures b.fates == a.fates + b.fates[|a.fates|..]
      ensures !b.Open(fd) ==> Shut(b.fates[|a.fates|..], fd)
      ensures a.Waits(fd) ==> b.Waits(fd) || WriteEnded(b.fates[|a.fates|..], fd)
      ensures forall f :: Dropped(f) in b.fates[|a.fates|..] ==> f == fd && Broke(b.io[|a.io|..], fd)
    {
      var ios, ends := b.io[|a.io|..], b.fates[|a.fates|..];
      if a.table[fd].pending != "" && a.fates <= b.fates {
        AttemptMeans(ios, fd, |a.table[fd].pending|, bufsiz, count, e);
        hide Attempt;
        assert Last(ios) in ios;
        if |ends| == 1 {
          assert ends == [ends[0]];
        }
      }
    }

    // `CHANwritesleep`: back off, or give up on a channel that blocked too often.
    method WriteSleep(fd: nat)
      requires Valid() && IsOpen(fd)
      modifies this`readSet, this`writeSet, this`sleepSet, this`sleepCount, this`maxFd, this`maxSleepFd
      modifies this`prioritized, this`fates, table
      ensures Valid() && Touched(old(Present()), Present(), fd)
      ensures GivesUp(old(table[fd]), -1, Eagain, badIoCount) ==>
        !IsOpen(fd) && fates == old(fates) + [Dropped(fd)]
      ensures !GivesUp(old(table[fd]), -1, Eagain, badIoCount) ==>
        var c := old(table[fd]); var bad := c.blockedWrites + 1;
        Present() == old(Present()).(
          table := old(table[..])[fd := Asleep(c.(blockedWrites := bad), clock.now + bad * blockBackoff)],
          sleepSet := old(sleepSet) + {fd})
    {
      ghost var a := Present();
      hide Sets, Opened, Streams, Priority, Touched;
      Alter(fd, table[fd].(blockedWrites := table[fd].blockedWrites + 1));
      ghost var b := Present();
      var bad := table[fd].blockedWrites;
      if bad > badIoCount {
        match table[fd].kind {
          case Reject | Nntp | File | Exploder | Process =>
            Close(fd, Dropped(fd));
            TouchedTwice(a, b, Present(), fd);
            return;
          case _ =>
        }
      }
      SleepAdd(fd, clock.now + bad * blockBackoff, Wakeup, 0);
      TouchedTwice(a, b, Present(), fd);
    }

    // `CHANhandle_write` up to the write-done callback, which the caller runs when `done`.
    method WriteOut(fd: nat) returns (done: bool, ghost count: int, ghost e: Errno)
      requires Valid() && fd in writeSet
      modifies this, table
      ensures Valid() && fd < table.Length && Touched(old(Present()), Present(), fd)
      ensures Handles(old(Present()), Present(), fd, count, e, done)
      ensures !IsOpen(fd) <==> old(table[fd]).pending != "" && GivesUp(old(table[fd]), count, e, badIoCount)
      ensures Since(old(Present()), Present())
    {
      hide Valid, Touched, Since, Handles, GivesUp;
      ghost var a := Present();
      InSet(fd);
      Tidy(fd);
      done, count, e := WriteSome(fd);
      Outcome(a, Present(), fd, count, e, done);
      HandledEnds(a, Present(), fd, count, e, done);
      OneEnds(a, Present(), fd, fates[|a.fates|..]);
    }

    lemma Outcome(a: Moment, b: Moment, fd: nat, count: int, e: Errno, done: bool)
      requires a.Open(fd) && Handles(a, b, fd, count, e, done)
      ensures !b.Open(fd) <==> a.table[fd].pending != "" && GivesUp(a.table[fd], count, e, badIoCount)
    {
      hide Attempt;
    }

    method WriteSome(fd: nat) returns (done: bool, ghost count: int, ghost e: Errno)
      requires Valid() && fd in writeSet
      modifies this, table
      ensures Valid() && fd < table.Length && Touched(old(Present()), Present(), fd)
      ensures Handles(old(Present()), Present(), fd, count, e, done)
    {
      done, count, e := false, 0, NoError;
      ghost var a := Present();
      if table[fd].kind == Free {
        assert false;  // "free but was in WMASK"
      }
      hide Sets, Opened, Streams, Priority, Touched;
      if |table[fd].pending| == 0 {
        WriteRemove(fd);
        return;
      }
      Alter(fd, table[fd].(lastActive := clock.now));
      ghost var b := Present();
      done, count, e := Send(fd);
      TouchedTwice(a, b, Present(), fd);
    }

    // Write what is pending and see what it has come to.
    method Send(fd: nat) returns (done: bool, ghost count: int, ghost e: Errno)
      requires Valid() && IsOpen(fd) && fd in writeSet && table[fd].pending != ""
      modifies this, table
      ensures Valid() && Touched(old(Present()), Present(), fd) && old(io) <= io
      ensures Attempt(io[|old(io)|..], fd, |old(table[fd]).pending|, bufsiz, count, e)
      ensures var m := old(Present()).(io := io);
        if count <= 0 then !done && Refuses(m, Present(), fd, count, e)
        else count <= |m.table[fd].pending| && Drains(m, Present(), fd, count, done)
    {
      hide Sets, Opened, Streams, Priority, Touched, Attempt;
      ghost var a := Present();
      var n, error := Output(fd);
      count, e, done := n, error, false;
      ghost var b := Present();
      if n <= 0 {
        Took0(a.table[fd]);
        assert b == a.(io := io);
        Failed(fd, n, error);
      } else {
        done := Reset(fd);
      }
      TouchedTwice(a, b, Present(), fd);
    }

    lemma Took0(c: Chan)
      ensures Took(c, 0) == c
    {
      assert c.written + c.pending[..0] == c.written && c.pending[0..] == c.pending;
    }

    // Output went out: the error counts start again, and a channel without more output is
    // done with writing.
    method Reset(fd: nat) returns (done: bool)
      requires Valid() && IsOpen(fd) && fd in writeSet
      modifies this`writeSet, this`maxFd, this`fates, table
      ensures Valid() && Touched(old(Present()), Present(), fd)
      ensures done <==> old(table[fd]).pending == ""
      ensures Present() == old(Present()).(
        table := old(table[..])[fd := old(table[fd]).(badWrites := 0, blockedWrites := 0)],
        writeSet := if done then old(writeSet) - {fd} else old(writeSet),
        fates := old(fates) + if done then [WrittenOut(fd)] else [])
    {
      done := false;
      ghost var a := Present();
      hide Sets, Opened, Streams, Priority, Touched;
      Alter(fd, table[fd].(badWrites := 0, blockedWrites := 0));
      ghost var b := Present();
      if |table[fd].pending| == 0 {
        WriteRemove(fd);
        TouchedTwice(a, b, Present(), fd);
        done, b := true, Present();
        fates := fates + [WrittenOut(fd)];
        MoreFates(a, b, Present(), fd);
      }
    }

    // No output went out: close, back off, or keep trying a few times.
    method Failed(fd: nat, count: int, e: Errno)
      requires Valid() && IsOpen(fd) && fd in writeSet && count <= 0
      modifies this`readSet, this`writeSet, this`sleepSet, this`sleepCount, this`maxFd, this`maxSleepFd
      modifies this`prioritized, this`fates, table
      ensures Valid() && Touched(old(Present()), Present(), fd)
      ensures Refuses(old(Present()), Present(), fd, count, e)
      ensures !IsOpen(fd) <==> GivesUp(old(table[fd]), count, e, badIoCount)
      ensures IsOpen(fd) && count < 0 && e == Eagain ==>
        && fd in sleepSet && fd !in writeSet && table[fd].waker == Wakeup
        && table[fd].waketime == clock.now + (old(table[fd]).blockedWrites + 1) * blockBackoff
    {
      ghost var a := Present();
      hide Valid, Touched, Closes;
      Alter(fd, table[fd].(badWrites := table[fd].badWrites + 1));
      ghost var b := Present();
      if count < 0 && e == Epipe {
        Close(fd, Dropped(fd));
        TouchedTwice(a, b, Present(), fd);
      } else if count < 0 && e == Eagain {
        WriteRemove(fd);
        TouchedTwice(a, b, Present(), fd);
        b := Present();
        WriteSleep(fd);
        TouchedTwice(a, b, Present(), fd);
      } else if table[fd].badWrites >= badIoCount {
        WriteRemove(fd);
        TouchedTwice(a, b, Present(), fd);
        b := Present();
        SleepAdd(fd, clock.now + pauseRetryTime, Wakeup, 0);
        TouchedTwice(a, b, Present(), fd);
      }
    }

    // As much went out as the kernel took.
    ghost predicate Drained(a: Moment, b: Moment, fd: nat)
      requires fd < |a.table|
    {
      a.io <= b.io
      && var n := WriteLog.Gone(b.io[|a.io|..]);
      && n <= |a.table[fd].pending|
      && b == a.(table := a.table[fd := Took(a.table[fd], n)], io := b.io)
    }

    lemma NothingDrained(a: Moment, fd: nat)
      requires fd < |a.table|
      ensures Drained(a, a, fd)
    {
      assert a.io[|a.io|..] == [];
      Took0(a.table[fd]);
      assert a.table[fd := a.table[fd]] == a.table;
    }

    lemma DrainedMore(a: Moment, b: Moment, c: Moment, fd: nat, count: int, e: Errno)
      requires fd < |a.table| && Drained(a, b, fd) && b.table[fd].pending != ""
      requires b.io <= c.io && Attempt(c.io[|b.io|..], fd, |b.table[fd].pending|, bufsiz, count, e)
      requires count <= |b.table[fd].pending|
      requires c == b.(table := b.table[fd := Took(b.table[fd], if count < 0 then 0 else count)], io := c.io)
      ensures Drained(a, c, fd)
      ensures count <= 0 ==> |c.io| > |a.io| && Last(c.io).fd == fd && Last(c.io).n <= 0 && !Interrupted(Last(c.io))
      ensures count <= 0 ==> c.table[fd] == b.table[fd]
      ensures count > 0 ==> |c.table[fd].pending| < |b.table[fd].pending|
    {
      var m := if count < 0 then 0 else count;
      AttemptMeans(c.io[|b.io|..], fd, |b.table[fd].pending|, bufsiz, count, e);
      IoMore(a.io, b.io, c.io);
      hide Attempt, WriteLog.Gone;
      TookTwice(a.table[fd], WriteLog.Gone(b.io[|a.io|..]), m);
      Took0(b.table[fd]);
    }

    lemma IoMore(a: seq<Io>, b: seq<Io>, c: seq<Io>)
      requires a <= b <= c && c[|b|..] != []
      ensures WriteLog.Gone(c[|a|..]) == WriteLog.Gone(b[|a|..]) + WriteLog.Gone(c[|b|..])
      ensures |c| > |a| && Last(c) == Last(c[|b|..])
    {
      assert c[|a|..] == b[|a|..] + c[|b|..];
      GoneSum(b[|a|..], c[|b|..]);
    }

    function Flushed(m: Moment, fd: nat, ok: bool): Moment {
      if ok then m.(writeSet := m.writeSet - {fd}, fates := m.fates + [WrittenOut(fd)]) else m
    }

    // `WCHANflush`: it is given up only when the kernel took nothing.
    method Flush(fd: nat) returns (ok: bool)
      requires Valid() && IsOpen(fd)
      modifies this`signals, this`io, this`writeSet, this`maxFd, this`fates, table
      ensures Valid() && Touched(old(Present()), Present(), fd) && old(io) <= io
      ensures ok <==> table[fd].pending == ""
      ensures !ok ==> |io| > |old(io)| && Last(io).fd == fd && Last(io).n <= 0 && !Interrupted(Last(io))
      ensures exists m :: Drained(old(Present()), m, fd) && Present() == Flushed(m, fd, ok)
      ensures fates == old(fates) + if ok then [WrittenOut(fd)] else []
      ensures Since(old(Present()), Present())
    {
      hide Valid, Touched, Since, Drained;
      Tidy(fd);
      ghost var a := Present();
      ok := Drain(fd);
      ghost var m := Present();
      if ok {
        WriteRemove(fd);
        TouchedTwice(a, m, Present(), fd);
        ghost var b := Present();
        fates := fates + [WrittenOut(fd)];
        MoreFates(a, b, Present(), fd);
      }
      DrainEnds(a, m, fd);
      OneEnds(a, Present(), fd, if ok then [WrittenOut(fd)] else []);
    }

    lemma DrainEnds(a: Moment, b: Moment, fd: nat)
      requires a.Open(fd) && Drained(a, b, fd)
      ensures a.io <= b.io && a.fates == b.fates && b.Open(fd)
      ensures a.writeSet == b.writeSet && a.sleepSet == b.sleepSet
      ensures a.Waits(fd) && b.table[fd].pending != "" ==> b.Waits(fd)
    {
    }

    // The loop of it.
    method Drain(fd: nat) returns (ok: bool)
      requires Valid() && IsOpen(fd)
      modifies this`signals, this`io, table
      ensures Valid() && IsOpen(fd) && Touched(old(Present()), Present(), fd)
      ensures Drained(old(Present()), Present(), fd)
      ensures ok <==> table[fd].pending == ""
      ensures !ok ==> |io| > |old(io)| && Last(io).fd == fd && Last(io).n <= 0 && !Interrupted(Last(io))
    {
      hide Valid, Touched, Attempt, Drained;
      ghost var a := Present();
      SelfTouched(a, fd);
      NothingDrained(a, fd);
      while |table[fd].pending| > 0
        invariant Valid() && IsOpen(fd) && Touched(a, Present(), fd) && Drained(a, Present(), fd)
        decreases |table[fd].pending|
      {
        ghost var b := Present();
        var count, e := Output(fd);
        TouchedTwice(a, b, Present(), fd);
        DrainedMore(a, b, Present(), fd, count, e);
        if count <= 0 {
          return false;
        }
      }
      ok := true;
    }

    lemma TookTwice(c: Chan, n: nat, m: nat)
      requires n + m <= |c.pending|
      ensures Took(Took(c, n), m) == Took(c, n + m)
    {
      assert c.pending[..n] + c.pending[n..][..m] == c.pending[..n + m];
      assert c.written + c.pending[..n] + c.pending[n..][..m] == c.written + (c.pending[..n] + c.pending[n..][..m]);
      assert c.pending[n..][m..] == c.pending[n + m..];
    }

    // ----- the connection limit -----

    // `CHANcount_active`
    method CountActive(fd: nat)
      requires Valid() && fd < table.Length
      modifies table
      ensures Valid() && table[..] == old(table[..])[fd := Counted(old(table[..]), fd, maxFd + 1)]
      ensures Touched(old(Present()), Present(), fd) && Since(old(Present()), Present())
    {
      hide Valid, Touched, Since, Sharing;
      TopBound();
      Tidy(fd);
      SinceSelf(Present());
      ghost var a := Present();
      SelfTouched(a, fd);
      assert a.table[fd := a.table[fd]] == a.table;
      if Counts(table[fd]) {
        var found := CountShared(fd);
        Alter(fd, table[fd].(active := found));
        OneEnds(a, Present(), fd, []);
      }
    }

    // The connections of a peer, and once more the one that is counted for.
    method CountShared(fd: nat) returns (found: nat)
      requires Valid() && fd < table.Length && table[fd].peer.Some?
      ensures found == 1 + Sharing(table[..], table[fd].peer.value, maxFd + 1)
    {
      hide Valid;
      TopBound();
      ghost var cs := table[..];
      found := 1;
      for f := 0 to maxFd + 1
        invariant found == 1 + Sharing(cs, cs[fd].peer.value, f)
      {
        assert cs[f] == table[f];
        if table[f].peer == table[fd].peer && table[f].active != 0 {
          found := found + 1;
        }
      }
    }

    // ----- callbacks -----

    // What an operation does, when the first n channels are looked at for others of the
    // same peer.
    ghost predicate Does(op: Op, a: Moment, b: Moment, n: int)
      reads clock
    {
      0 <= n <= |a.table|
      && match op
         case Create(fd, kind) => Creates(a, b, fd, kind)
         case Admit(fd, name, maxCnx, holdTime) =>
           b == if a.Open(fd) then a.(table := Admitted(a.table, fd, name, maxCnx, holdTime, n)) else a
         case Close(fd) => if a.Open(fd) then Closes(a, b, fd, n) else b == a
         case ReadAdd(fd) => b == if a.Open(fd) then a.(readSet := a.readSet + {fd}) else a
         case ReadRemove(fd) => b == a.(readSet := a.readSet - {fd}, fates := b.fates)
         case WriteAdd(fd) =>
           b == if a.Open(fd) && a.table[fd].pending != "" then a.(writeSet := a.writeSet + {fd}) else a
         case WriteRemove(fd) => b == a.(writeSet := a.writeSet - {fd}, fates := b.fates)
         case Append(fd, data) =>
           b == if a.Open(fd) then a.(table := a.table[fd := Given(a.table[fd], data)]) else a
         case SleepAdd(fd, wake, waker, event) =>
           b == if !a.Open(fd) then a
                else
                  var c := a.table[fd].(waketime := wake, waker := waker, event := event);
                  a.(table := a.table[fd := c], sleepSet := a.sleepSet + {fd}, fates := b.fates)
         case SleepRemove(fd) => Rouses(a, b, fd)
         case WakeUp(event) =>
           |b.table| == |a.table| && b == a.(table := b.table)
           && forall f :: 0 <= f < |a.table| ==> b.table[f] == Woken(a.table[f], f in a.sleepSet, event)
         case Flush(fd) => if a.Open(fd) then Flushes(a, b, fd) else b == a
    }

    ghost predicate Creates(a: Moment, b: Moment, fd: nat, kind: Kind)
      reads clock
    {
      if fd < |a.table| && !a.Open(fd) && kind != Free then
        && b == a.(table := a.table[fd := New(fd, kind)], prioritized := b.prioritized)
        && (if Prioritized(kind) then Some(fd) in b.prioritized else b.prioritized == a.prioritized)
      else b == a
    }

    function Admitted(cs: seq<Chan>, fd: nat, name: string, maxCnx: int, holdTime: int, n: nat): (r: seq<Chan>)
      requires fd < |cs| && n <= |cs|
    {
      var t := cs[fd := cs[fd].(peer := Some(name), maxCnx := maxCnx, holdTime := holdTime)];
      if maxCnx > 0 && holdTime == 0 then t[fd := Counted(t, fd, n)] else t
    }

    function Given(c: Chan, data: string): Chan {
      c.(pending := c.pending + data, queued := c.queued + data)
    }

    ghost predicate Rouses(a: Moment, b: Moment, fd: nat) {
      if fd in a.sleepSet then
        fd < |a.table|
        && b == a.(table := a.table[fd := a.table[fd].(waketime := 0)], sleepSet := a.sleepSet - {fd}, fates := b.fates)
      else b == a.(fates := b.fates)
    }

    // All is written out, or a write took nothing.
    ghost predicate Flushes(a: Moment, b: Moment, fd: nat)
      requires a.Open(fd)
    {
      exists m, ok :: Drained(a, m, fd) && b == Flushed(m, fd, ok) && (ok <==> m.table[fd].pending == "")
        && (!ok ==> |m.io| > |a.io| && Last(m.io).fd == fd && Last(m.io).n <= 0)
    }

    // One operation of a callback; operations on channels that are not open are skipped,
    // and a new channel takes a free slot.  Whoever waits goes on waiting, but for what
    // the operation says.
    method Run(op: Op)
      requires Valid()
      modifies this, table
      ensures Valid() && Since(old(Present()), Present())
      ensures old(fates) <= fates && FatesOf(op, fates[|old(fates)|..])
      ensures Does(op, old(Present()), Present(), old(maxFd) + 1)
      ensures done == old(done) + [op]
    {
      hide Valid, Since, FatesOf, Does;
      ghost var before := done;
      Do(op);
      done := before + [op];
    }

    method Do(op: Op)
      requires Valid()
      modifies this, table
      ensures Valid() && Since(old(Present()), Present())
      ensures old(fates) <= fates && FatesOf(op, fates[|old(fates)|..])
      ensures Does(op, old(Present()), Present(), old(maxFd) + 1)
    {
      hide Valid, Since, Does;
      match op {
        case Create(fd, kind) =>
          if fd < table.Length && table[fd].kind == Free && kind != Free {
            RunCreate(fd, kind);
          } else {
            Nothing(op);
          }
        case ReadAdd(fd) =>
          if IsOpen(fd) {
            RunReadAdd(fd);
          } else {
            Nothing(op);
          }
        case ReadRemove(fd) => RunReadRemove(fd);
        case WakeUp(event) => RunWakeUp(event);
        case Admit(fd, name, maxCnx, holdTime) =>
          if IsOpen(fd) {
            RunAdmit(fd, name, maxCnx, holdTime);
          } else {
            Nothing(op);
          }
        case Close(fd) =>
          if fd < table.Length {
            RunClosing(fd);
          } else {
            Nothing(op);
          }
        case WriteAdd(fd) =>
          if IsOpen(fd) {
            RunWriteAdd(fd);
          } else {
            Nothing(op);
          }
        case WriteRemove(fd) => RunWriteRemove(fd);
        case Append(fd, data) =>
          if IsOpen(fd) {
            RunAppend(fd, data);
          } else {
            Nothing(op);
          }
        case SleepAdd(fd, wake, waker, event) =>
          if IsOpen(fd) {
            RunSleepAdd(fd, wake, waker, event);
          } else {
            Nothing(op);
          }
        case SleepRemove(fd) => RunSleepRemove(fd);
        case Flush(fd) =>
          if IsOpen(fd) {
            RunFlush(fd);
          } else {
            Nothing(op);
          }
      }
    }

    method RunAll(ops: seq<Op>)
      requires Valid()
      modifies this, table
      ensures Valid() && Since(old(Present()), Present()) && done == old(done) + ops
    {
      hide Valid, Since, Does, FatesOf;
      SinceSelf(Present());
      ghost var ran: seq<Op> := [];
      for i := 0 to |ops|
        invariant Valid() && Since(old(Present()), Present()) && done == old(done) + ran && ran == ops[..i]
      {
        ghost var b := Present();
        Run(ops[i]);
        SinceThen(old(Present()), b, Present());
        ran := ran + [ops[i]];
      }
    }

    // A callback: any list of operations.
    method Callback() returns (ghost list: seq<Op>)
      requires Valid()
      modifies this, table
      ensures Valid() && Since(old(Present()), Present())
      ensures done == old(done) + list && invoked == old(invoked) + 1
    {
      hide Valid, Since;
      var ops: seq<Op> := *;
      ghost var before := invoked;
      list := ops;
      RunAll(ops);
      invoked := before + 1;
    }

    // Coming off a sleep: the part of the sweep that looks at the sleep set.  The callback
    // of another kind of sleeper is left to the caller.
    method Awake(fd: nat) returns (call: bool)
      requires Valid() && fd in sleepSet
      modifies this, table
      ensures Valid() && Touched(old(Present()), Present(), fd) && Since(old(Present()), Present())
      ensures fd < table.Length && fd !in sleepSet && io == old(io)
      ensures old(table[fd]).waker == NoWaker ==> !IsOpen(fd) && !call && fates == old(fates) + [Closed(fd)]
      ensures var c := old(table[fd]);
        c.waker != NoWaker ==>
          && call == (c.waker == Waker.Callback)
          && Present() == old(Present()).(
               table := old(table[..])[fd := c.(lastActive := clock.now, waketime := 0)],
               sleepSet := old(sleepSet) - {fd},
               writeSet := if c.waker == Wakeup && c.pending != "" then old(writeSet) + {fd} else old(writeSet))
    {
      hide Valid, Touched, Since, Closes;
      InSet(fd);
      Tidy(fd);
      call := false;
      ghost var a := Present();
      if table[fd].kind == Free {
        assert false;  // "free but was in SMASK"
      }
      var waker := table[fd].waker;
      Alter(fd, table[fd].(lastActive := clock.now));
      ghost var b := Present();
      SleepRemove(fd);
      TouchedTwice(a, b, Present(), fd);
      b := Present();
      match waker {
        case Wakeup =>
          WriteAdd(fd);
          TouchedTwice(a, b, Present(), fd);
        case Callback =>
          call := true;
        case NoWaker =>
          Close(fd, Closed(fd));
          TouchedTwice(a, b, Present(), fd);
      }
      OneEnds(a, Present(), fd, if IsOpen(fd) then [] else [Closed(fd)]);
    }

    // The idle timeouts.
    method CheckIdle(fd: nat)
      requires Valid() && fd < table.Length
      modifies this, table
      ensures Valid() && Since(old(Present()), Present()) && io == old(io)
      ensures var c := old(table[fd]);
        if TimesOut(c, clock.now, peerTimeout) then !IsOpen(fd) && fates == old(fates) + [Expired(fd)]
        else
          && fates == old(fates)
          && table[fd] == if c.kind == Nntp && c.lastActive + c.nextLog < clock.now
                          then c.(nextLog := c.nextLog + chanInactTime) else c
      ensures !TimesOut(table[fd], clock.now, peerTimeout)
    {
      ghost var a := Present();
      SinceSelf(a);
      hide Sets, Opened, Streams, Priority, Touched, Since;
      if table[fd].kind == Reject && table[fd].lastActive + REJECT_TIMEOUT < clock.now {
        RunClose(fd, Expired(fd));
      }
      if table[fd].kind == Nntp && table[fd].lastActive + table[fd].nextLog < clock.now {
        var silence := clock.now - table[fd].lastActive;
        Mark(fd, table[fd].(nextLog := table[fd].nextLog + chanInactTime));
        ghost var b := Present();
        if silence > peerTimeout {
          RunClose(fd, Expired(fd));
          SinceThen(a, b, Present());
        }
      }
    }

    // Change what nobody waits for.
    method Mark(fd: nat, c: Chan)
      requires Valid() && IsOpen(fd) && (table[fd].active == 0 ==> c.active == 0)
      requires c == table[fd].(lastActive := c.lastActive, nextLog := c.nextLog, active := c.active)
      modifies table
      ensures Valid() && Since(old(Present()), Present()) && table[..] == old(table[..])[fd := c]
    {
      hide Valid, Touched, Since;
      ghost var a := Present();
      Tidy(fd);
      Alter(fd, c);
      OneEnds(a, Present(), fd, []);
    }

    // ----- the operations one by one -----

    // An operation that is skipped.
    lemma Nothing(op: Op)
      requires Valid() && Skipped(op)
      ensures Since(Present(), Present()) && FatesOf(op, fates[|fates|..])
      ensures Does(op, Present(), Present(), maxFd + 1)
    {
      SinceSelf(Present());
      TopBound();
    }

    predicate Skipped(op: Op)
      reads table
    {
      match op
      case Create(fd, kind) => fd >= table.Length || table[fd].kind != Free || kind == Free
      case ReadRemove(_) => false
      case WriteRemove(_) => false
      case SleepRemove(_) => false
      case WakeUp(_) => false
      case _ => !IsOpen(op.fd)
    }

    lemma Tidy(fd: nat)
      requires Valid()
      ensures fd in readSet || Some(fd) in prioritized ==> IsOpen(fd)
    {
    }

    ghost predicate OnlyTaken(s: seq<Fate>, r: seq<Fate>, fd: nat) {
      s <= r && (r[|s|..] == [] || r[|s|..] == [TakenOut(fd)])
    }

    // A callback has done something to one channel, which may have taken it out.
    ghost method Conclude(a: Moment, fd: nat)
      requires Touched(a, Present(), fd) && a.fates == fates && a.io == io && (a.Open(fd) ==> IsOpen(fd))
      requires fd in a.readSet || Some(fd) in a.prioritized ==> a.Open(fd)
      modifies this`fates
      ensures Since(a, Present())
      ensures OnlyTaken(a.fates, fates, fd)
      ensures !a.Waits(fd) || Present().Waits(fd) ==> fates == a.fates
    {
      ghost var b := Present();
      if a.Waits(fd) && !b.Waits(fd) {
        fates := fates + [TakenOut(fd)];
      }
      MoreFates(a, b, Present(), fd);
      hide Touched;
      OneEnds(a, Present(), fd, fates[|a.fates|..]);
    }

    method RunWriteAdd(fd: nat)
      requires Valid() && IsOpen(fd)
      modifies this, table
      ensures Valid() && Since(old(Present()), Present()) && fates == old(fates)
      ensures Does(Op.WriteAdd(fd), old(Present()), Present(), old(maxFd) + 1)
    {
      hide Valid, Touched, Since, Does, OnlyTaken;
      TopBound();
      Tidy(fd);
      ghost var a, n := Present(), maxFd + 1;
      WriteAdd(fd);
      Conclude(a, fd);
      DidWriteAdd(a, Present(), fd, n);
    }

    lemma DidWriteAdd(a: Moment, b: Moment, fd: nat, n: nat)
      requires n <= |a.table| && a.Open(fd)
      requires b == a.(writeSet := if a.table[fd].pending != "" then a.writeSet + {fd} else a.writeSet)
      ensures Does(Op.WriteAdd(fd), a, b, n)
    {
    }

    method RunWriteRemove(fd: nat)
      requires Valid()
      modifies this, table
      ensures Valid() && Since(old(Present()), Present())
      ensures OnlyTaken(old(fates), fates, fd)
      ensures Does(Op.WriteRemove(fd), old(Present()), Present(), old(maxFd) + 1)
    {
      hide Valid, Touched, Since, Does, OnlyTaken;
      TopBound();
      Tidy(fd);
      ghost var a, n := Present(), maxFd + 1;
      WriteRemove(fd);
      Conclude(a, fd);
      DidWriteRemove(a, Present(), fd, n);
    }

    lemma DidWriteRemove(a: Moment, b: Moment, fd: nat, n: nat)
      requires n <= |a.table| && b == a.(writeSet := a.writeSet - {fd}, fates := b.fates)
      ensures Does(Op.WriteRemove(fd), a, b, n)
    {
    }

    method RunAppend(fd: nat, data: string)
      requires Valid() && IsOpen(fd)
      modifies this, table
      ensures Valid() && Since(old(Present()), Present()) && fates == old(fates)
      ensures Does(Op.Append(fd, data), old(Present()), Present(), old(maxFd) + 1)
    {
      hide Valid, Touched, Since, Does, OnlyTaken;
      TopBound();
      Tidy(fd);
      ghost var a, n := Present(), maxFd + 1;
      Append(fd, data);
      Conclude(a, fd);
      DidAppend(a, Present(), fd, data, n);
    }

    lemma DidAppend(a: Moment, b: Moment, fd: nat, data: string, n: nat)
      requires n <= |a.table| && a.Open(fd) && b == a.(table := a.table[fd := Given(a.table[fd], data)])
      ensures Does(Op.Append(fd, data), a, b, n)
    {
    }

    method RunSleepAdd(fd: nat, wake: int, waker: Waker, event: nat)
      requires Valid() && IsOpen(fd)
      modifies this, table
      ensures Valid() && Since(old(Present()), Present())
      ensures OnlyTaken(old(fates), fates, fd)
      ensures Does(Op.SleepAdd(fd, wake, waker, event), old(Present()), Present(), old(maxFd) + 1)
    {
      hide Valid, Touched, Since, Does, OnlyTaken;
      TopBound();
      Tidy(fd);
      ghost var a, n := Present(), maxFd + 1;
      SleepAdd(fd, wake, waker, event);
      Conclude(a, fd);
      DidSleepAdd(a, Present(), fd, wake, waker, event, n);
    }

    lemma DidSleepAdd(a: Moment, b: Moment, fd: nat, wake: int, waker: Waker, event: nat, n: nat)
      requires n <= |a.table| && a.Open(fd)
      requires b == a.(table := a.table[fd := a.table[fd].(waketime := wake, waker := waker, event := event)],
                       sleepSet := a.sleepSet + {fd}, fates := b.fates)
      ensures Does(Op.SleepAdd(fd, wake, waker, event), a, b, n)
    {
    }

    method RunSleepRemove(fd: nat)
      requires Valid()
      modifies this, table
      ensures Valid() && Since(old(Present()), Present())
      ensures OnlyTaken(old(fates), fates, fd)
      ensures Does(Op.SleepRemove(fd), old(Present()), Present(), old(maxFd) + 1)
    {
      hide Valid, Touched, Since, Does, OnlyTaken, Rouses;
      TopBound();
      Tidy(fd);
      ghost var a, n := Present(), maxFd + 1;
      Rouse(fd);
      ghost var b := Present();
      Conclude(a, fd);
      DidSleepRemove(a, b, Present(), fd, n);
    }

    lemma DidSleepRemove(a: Moment, b: Moment, c: Moment, fd: nat, n: nat)
      requires n <= |a.table| && Rouses(a, b, fd) && c == b.(fates := c.fates)
      ensures Does(Op.SleepRemove(fd), a, c, n)
    {
    }

    method Rouse(fd: nat)
      requires Valid()
      modifies this`sleepSet, this`sleepCount, this`maxSleepFd, table
      ensures Valid() && Touched(old(Present()), Present(), fd) && (old(IsOpen(fd)) ==> IsOpen(fd))
      ensures Rouses(old(Present()), Present(), fd)
    {
      hide Sets, Opened, Priority, Streams, Touched;
      SleepRemove(fd);
    }

    method RunClose(fd: nat, ghost why: Fate)
      requires Valid() && fd < table.Length && Closing(why, fd) && !why.Dropped?
      modifies this`readSet, this`writeSet, this`sleepSet, this`sleepCount, this`maxFd, this`maxSleepFd
      modifies this`prioritized, this`fates, table
      ensures Valid() && Since(old(Present()), Present()) && !IsOpen(fd)
      ensures fates == if old(IsOpen(fd)) then old(fates) + [why] else old(fates)
      ensures old(IsOpen(fd)) ==> Closes(old(Present()), Present(), fd, old(maxFd) + 1)
      ensures !old(IsOpen(fd)) ==> Present() == old(Present())
    {
      hide Valid, Touched, Since, Closes;
      ghost var a := Present();
      Tidy(fd);
      Close(fd, why);
      OneEnds(a, Present(), fd, fates[|a.fates|..]);
    }

    method RunClosing(fd: nat)
      requires Valid() && fd < table.Length
      modifies this, table
      ensures Valid() && Since(old(Present()), Present())
      ensures old(fates) <= fates && FatesOf(Op.Close(fd), fates[|old(fates)|..])
      ensures Does(Op.Close(fd), old(Present()), Present(), old(maxFd) + 1)
    {
      hide Valid, Since, Closes;
      TopBound();
      RunClose(fd, Closed(fd));
    }

    method RunFlush(fd: nat)
      requires Valid() && IsOpen(fd)
      modifies this, table
      ensures Valid() && Since(old(Present()), Present())
      ensures old(fates) <= fates && FatesOf(Op.Flush(fd), fates[|old(fates)|..])
      ensures Does(Op.Flush(fd), old(Present()), Present(), old(maxFd) + 1)
    {
      hide Valid, Since, Touched, Drained;
      TopBound();
      var ok := Flush(fd);
    }

    method RunAdmit(fd: nat, name: string, maxCnx: int, holdTime: int)
      requires Valid() && IsOpen(fd)
      modifies this, table
      ensures Valid() && Since(old(Present()), Present()) && fates == old(fates)
      ensures Does(Op.Admit(fd, name, maxCnx, holdTime), old(Present()), Present(), old(maxFd) + 1)
    {
      hide Valid, Touched, Since, Does;
      TopBound();
      Tidy(fd);
      ghost var a, n := Present(), maxFd + 1;
      Alter(fd, table[fd].(peer := Some(name), maxCnx := maxCnx, holdTime := holdTime));
      ghost var b := Present();
      if maxCnx > 0 && holdTime == 0 {
        CountActive(fd);
        TouchedTwice(a, b, Present(), fd);
      }
      Conclude(a, fd);
      DidAdmit(a, b, Present(), fd, name, maxCnx, holdTime, n);
    }

    lemma DidAdmit(a: Moment, b: Moment, c: Moment, fd: nat, name: string, maxCnx: int, holdTime: int, n: nat)
      requires n <= |a.table| && a.Open(fd)
      requires b == a.(table := a.table[fd := a.table[fd].(peer := Some(name), maxCnx := maxCnx, holdTime := holdTime)])
      requires c == if maxCnx > 0 && holdTime == 0 then b.(table := b.table[fd := Counted(b.table, fd, n)]) else b
      ensures Does(Op.Admit(fd, name, maxCnx, holdTime), a, c, n)
    {
    }

    method RunCreate(fd: nat, kind: Kind)
      requires Valid() && fd < table.Length && !IsOpen(fd) && kind != Free
      modifies this, table
      ensures Valid() && Since(old(Present()), Present()) && fates == old(fates)
      ensures Does(Op.Create(fd, kind), old(Present()), Present(), old(maxFd) + 1)
    {
      hide Valid, Since, Does;
      TopBound();
      ghost var a, n := Present(), maxFd + 1;
      Create(fd, kind);
      Created(a, Present(), fd, kind, n);
    }

    lemma Created(a: Moment, b: Moment, fd: nat, kind: Kind, n: nat)
      requires fd < |a.table| && !a.Open(fd) && kind != Free && n <= |a.table|
      requires b == a.(table := a.table[fd := New(fd, kind)], prioritized := b.prioritized)
      requires |b.prioritized| >= |a.prioritized|
      requires forall i :: 0 <= i < |a.prioritized| && a.prioritized[i].Some? ==>
        b.prioritized[i] == a.prioritized[i]
      requires if Prioritized(kind) then Some(fd) in b.prioritized else b.prioritized == a.prioritized
      ensures Since(a, b) && Does(Op.Create(fd, kind), a, b, n)
    {
      assert forall f: nat :: a.Waits(f) ==> b.Waits(f);
    }

    method RunReadAdd(fd: nat)
      requires Valid() && IsOpen(fd)
      modifies this, table
      ensures Valid() && Since(old(Present()), Present()) && fates == old(fates)
      ensures Does(Op.ReadAdd(fd), old(Present()), Present(), old(maxFd) + 1)
    {
      hide Valid, Since, Does;
      TopBound();
      ghost var a, n := Present(), maxFd + 1;
      ReadAdd(fd);
      DidReadAdd(a, Present(), fd, n);
    }

    lemma DidReadAdd(a: Moment, b: Moment, fd: nat, n: nat)
      requires n <= |a.table| && a.Open(fd) && b == a.(readSet := a.readSet + {fd})
      ensures Does(Op.ReadAdd(fd), a, b, n) && Since(a, b)
    {
    }

    method RunReadRemove(fd: nat)
      requires Valid()
      modifies this, table
      ensures Valid() && Since(old(Present()), Present())
      ensures old(fates) <= fates && FatesOf(Op.ReadRemove(fd), fates[|old(fates)|..])
      ensures fd !in readSet
      ensures Does(Op.ReadRemove(fd), old(Present()), Present(), old(maxFd) + 1)
    {
      TopBound();
      hide Valid, Since, Does, FatesOf;
      ghost var a, n := Present(), maxFd + 1;
      ghost var ends := if fd in readSet then [ReadOff(fd)] else [];
      ReadRemove(fd);
      fates := fates + ends;
      ReadEnds(a, Present(), fd, ends);
      ReadRemoved(a, Present(), fd, ends, n);
    }

    lemma ReadRemoved(a: Moment, b: Moment, fd: nat, ends: seq<Fate>, n: nat)
      requires b == a.(readSet := a.readSet - {fd}, fates := b.fates) && n <= |a.table|
      requires a.fates <= b.fates && b.fates[|a.fates|..] == ends && (ends == [] || ends == [ReadOff(fd)])
      ensures Does(Op.ReadRemove(fd), a, b, n) && FatesOf(Op.ReadRemove(fd), b.fates[|a.fates|..])
    {
    }

    method RunWakeUp(event: nat)
      requires Valid()
      modifies this, table
      ensures Valid() && Since(old(Present()), Present()) && fates == old(fates)
      ensures Does(Op.WakeUp(event), old(Present()), Present(), old(maxFd) + 1)
    {
      hide Valid, Since, Does;
      TopBound();
      ghost var a, n := Present(), maxFd + 1;
      WakeUp(event);
      DidWakeUp(a, Present(), event, n);
    }

    lemma DidWakeUp(a: Moment, b: Moment, event: nat, n: nat)
      requires n <= |a.table| == |b.table| && b == a.(table := b.table)
      requires forall f :: 0 <= f < |a.table| ==> b.table[f] == Woken(a.table[f], f in a.sleepSet, event)
      ensures Does(Op.WakeUp(event), a, b, n) && Since(a, b)
    {
      assert forall f: nat :: a.Waits(f) ==> b.Waits(f);
    }
  }
}
