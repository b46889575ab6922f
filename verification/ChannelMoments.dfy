// What innd/chan.c knows of its channels at one moment, and what may change from one
// moment to a later one.
module ChannelMoments {
  import opened Wrappers
  import opened WriteLog

  datatype Kind = Free | Control | Remconn | Localconn | Reject | Nntp | File | Exploder | Process

  // CHANwakeup, another callback, or none.
  datatype Waker = NoWaker | Wakeup | Callback

  // A channel.  `pending` is the unwritten part of its output buffer; `queued` is
  // everything that was ever appended to it and `written` what the descriptor took.
  // `peer` is the name of the peer at the other end, and `active` the count that the
  // connection limit is compared with.
  datatype Chan = Chan(
    kind: Kind, fd: int, pending: string, written: string, queued: string,
    waketime: int, waker: Waker, event: nat, badWrites: nat, blockedWrites: nat,
    started: int, lastActive: int, nextLog: int,
    peer: Option<string>, maxCnx: int, holdTime: int, active: int)

  const NULLCHAN := Chan(Free, -1, "", "", "", 0, NoWaker, 0, 0, 0, 0, 0, 0, None, 0, 0, 0)

  const REJECT_TIMEOUT := 10

  predicate Prioritized(k: Kind) {
    k == Control || k == Remconn
  }

  // Operations that callbacks use; Admit is what is set for the connection of a peer.
  datatype Op =
    | Create(fd: nat, kind: Kind)
    | Admit(fd: nat, name: string, maxCnx: int, holdTime: int)
    | Close(fd: nat)
    | ReadAdd(fd: nat)
    | ReadRemove(fd: nat)
    | WriteAdd(fd: nat)
    | WriteRemove(fd: nat)
    | Append(fd: nat, data: string)
    | SleepAdd(fd: nat, wake: int, waker: Waker, event: nat)
    | SleepRemove(fd: nat)
    | WakeUp(event: nat)
    | Flush(fd: nat)

  // Why a channel does not wait to write, or to read, any more.  It was closed: by a
  // callback, after a failed write, when it was idle, or over the connection limit.  All
  // its output was written.  Or a callback took it out.
  datatype Fate =
    | Closed(fd: nat)
    | Dropped(fd: nat)
    | Expired(fd: nat)
    | Limited(fd: nat)
    | WrittenOut(fd: nat)
    | TakenOut(fd: nat)
    | ReadOff(fd: nat)

  ghost predicate Shut(fates: seq<Fate>, f: nat) {
    Closed(f) in fates || Dropped(f) in fates || Expired(f) in fates || Limited(f) in fates
  }

  predicate Closing(why: Fate, fd: nat) {
    why.fd == fd && (why.Closed? || why.Dropped? || why.Expired? || why.Limited?)
  }

  ghost predicate WriteEnded(fates: seq<Fate>, f: nat) {
    Shut(fates, f) || WrittenOut(f) in fates || TakenOut(f) in fates
  }

  ghost predicate ReadEnded(fates: seq<Fate>, f: nat) {
    Shut(fates, f) || ReadOff(f) in fates
  }

  // A write failed in a way that a channel can be closed for.
  ghost predicate Broke(io: seq<Io>, f: nat) {
    exists i :: i in io && i.fd == f && i.n < 0 && (i.e == Epipe || i.e == Eagain)
  }

  // All that is known of the channels at one moment.
  datatype Moment = Moment(
    table: seq<Chan>, readSet: set<nat>, writeSet: set<nat>, sleepSet: set<nat>,
    prioritized: seq<Option<nat>>, fates: seq<Fate>, io: seq<Io>)
  {
    predicate Open(f: nat) { f < |table| && table[f].kind != Free }

    // Waiting to be written, or to be woken up for it.
    predicate Registered(f: nat) { f in writeSet || (f in sleepSet && f < |table| && table[f].waker == Wakeup) }

    // Registered with output pending.
    predicate Waits(f: nat) { Open(f) && table[f].pending != "" && Registered(f) }
  }

  // ----- one channel -----

  // Only one channel was touched; it leaves the readers and the prioritized channels
  // when it is closed.  Others may only change their count of active connections, and
  // never from 0.
  ghost predicate Touched(a: Moment, b: Moment, fd: nat) {
    && |b.table| == |a.table| && (b.Open(fd) ==> a.Open(fd))
    && (forall f :: 0 <= f < |a.table| && f != fd ==> b.table[f] == a.table[f].(active := b.table[f].active))
    && (forall f :: 0 <= f < |a.table| && a.table[f].active == 0 ==> b.table[f].active == 0)
    && (forall f :: f != fd ==> (f in b.writeSet <==> f in a.writeSet) && (f in b.sleepSet <==> f in a.sleepSet))
    && (forall f :: f in a.readSet ==> f in b.readSet || (f == fd && !b.Open(fd)))
    && |b.prioritized| == |a.prioritized|
    && (forall i :: 0 <= i < |a.prioritized| ==>
          b.prioritized[i] == a.prioritized[i] || (a.prioritized[i] == Some(fd) && !b.Open(fd)))
  }

  lemma ChangeTouches(a: Moment, b: Moment, fd: nat)
    requires a.Open(fd) && fd < |b.table| == |a.table| && b.prioritized == a.prioritized
    requires b.table == a.table[fd := b.table[fd]] && (a.table[fd].active == 0 ==> b.table[fd].active == 0)
    requires a.writeSet - {fd} <= b.writeSet <= a.writeSet + {fd}
    requires a.sleepSet - {fd} <= b.sleepSet <= a.sleepSet + {fd}
    requires a.readSet <= b.readSet
    ensures Touched(a, b, fd)
  {
  }

  // A channel is among the prioritized ones no more.
  ghost predicate Vacated(s: seq<Option<nat>>, r: seq<Option<nat>>, fd: nat) {
    |r| == |s| && forall i :: 0 <= i < |r| ==> r[i] == if s[i] == Some(fd) then None else s[i]
  }

  // The first of the other connections of the same peer, from the i'th channel on, that
  // counts as active.
  function FirstPeer(cs: seq<Chan>, fd: nat, i: nat, n: nat): (p: Option<nat>)
    requires fd < |cs| && i <= n <= |cs|
    ensures p.Some? ==> i <= p.value < n && p.value != fd && cs[p.value].kind == Nntp && cs[p.value].active != 0
    decreases n - i
  {
    if i == n then None
    else if i != fd && SamePeer(cs[fd], cs[i]) then Some(i)
    else FirstPeer(cs, fd, i + 1, n)
  }

  // It is one of the same peer, and none before it is.
  lemma {:induction false} FirstPeerIs(cs: seq<Chan>, fd: nat, i: nat, n: nat)
    requires fd < |cs| && i <= n <= |cs|
    ensures var p := FirstPeer(cs, fd, i, n);
      && (p.Some? ==> cs[p.value].peer == cs[fd].peer && cs[p.value].peer.Some? && cs[p.value].fd >= 0)
      && forall k :: i <= k < (if p.Some? then p.value else n) && k != fd && cs[k].fd >= 0 && cs[k].kind == Nntp ==>
           cs[k].peer.None? || cs[k].peer != cs[fd].peer || cs[k].active == 0
    decreases n - i
  {
    if i < n && FirstPeer(cs, fd, i, n) != Some(i) {
      FirstPeerIs(cs, fd, i + 1, n);
    }
  }

  predicate SamePeer(c: Chan, d: Chan) {
    d.fd >= 0 && d.kind == Nntp && d.peer.Some? && d.peer == c.peer && d.active != 0
  }

  // The connection that goes on when one of a limited peer is closed.
  function Successor(cs: seq<Chan>, fd: nat, n: nat): (p: Option<nat>)
    requires fd < |cs| && n <= |cs|
    ensures p.Some? ==> p.value < n && p.value != fd && cs[p.value].kind == Nntp && cs[p.value].active != 0
  {
    if cs[fd].kind == Nntp && cs[fd].maxCnx > 0 && cs[fd].peer.Some? then FirstPeer(cs, fd, 0, n) else None
  }

  function Promoted(cs: seq<Chan>, p: Option<nat>, active: int): (r: seq<Chan>)
    requires p.Some? ==> p.value < |cs|
    ensures |r| == |cs|
  {
    if p.Some? then cs[p.value := cs[p.value].(active := active)] else cs
  }

  lemma NoSuccessor(cs: seq<Chan>, fd: nat, n: nat)
    requires fd < |cs| && n <= |cs| && cs[fd].kind != Nntp
    ensures Successor(cs, fd, n).None? && Promoted(cs, Successor(cs, fd, n), cs[fd].active) == cs
  {
  }

  // A channel is closed, when the first n were looked at for a successor.
  ghost predicate Closes(a: Moment, b: Moment, fd: nat, n: nat)
    requires fd < |a.table| && n <= |a.table|
  {
    var c, p := a.table[fd], Successor(a.table, fd, n);
    && b.table == Promoted(a.table, p, c.active)[fd := c.(kind := Free, fd := -1, active := 0,
                                                              waketime := if fd in a.sleepSet then 0 else c.waketime)]
    && b.readSet == a.readSet + (if p.Some? then {p.value} else {}) - {fd}
    && b.writeSet == a.writeSet - {fd} && b.sleepSet == a.sleepSet - {fd}
    && Vacated(a.prioritized, b.prioritized, fd)
  }

  lemma ClosesAfter(a: Moment, b: Moment, c: Moment, fd: nat, n: nat)
    requires a.Open(fd) && n <= |a.table| && |b.table| == |a.table| && b.table[fd] == a.table[fd]
    requires var p := Successor(a.table, fd, n);
      && b.table == Promoted(a.table, p, a.table[fd].active)
      && b.readSet == a.readSet + if p.Some? then {p.value} else {}
    requires c.readSet == b.readSet - {fd} && c.writeSet == a.writeSet - {fd} && c.sleepSet == a.sleepSet - {fd}
    requires Vacated(a.prioritized, c.prioritized, fd)
    requires var asleep := if fd in a.sleepSet then b.table[fd := b.table[fd].(waketime := 0)] else b.table;
      c.table == asleep[fd := asleep[fd].(kind := Free, fd := -1, active := 0)]
    ensures Closes(a, c, fd, n)
  {
  }

  lemma ClosedTouches(a: Moment, b: Moment, fd: nat, n: nat)
    requires fd < |a.table| && n <= |a.table| && Closes(a, b, fd, n)
    ensures Touched(a, b, fd) && !b.Open(fd)
  {
  }

  lemma ClosesToo(a: Moment, b: Moment, c: Moment, fd: nat, n: nat)
    requires fd < |a.table| && n <= |a.table| && Closes(a, b, fd, n) && c == b.(fates := c.fates)
    ensures Closes(a, c, fd, n)
  {
  }

  lemma SelfTouched(a: Moment, fd: nat)
    ensures Touched(a, a, fd)
  {
  }

  // What is recorded besides does not matter.
  lemma MoreFates(a: Moment, b: Moment, c: Moment, fd: nat)
    requires Touched(a, b, fd) && c == b.(fates := c.fates, io := c.io)
    ensures Touched(a, c, fd)
  {
  }

  lemma TouchedTwice(a: Moment, b: Moment, c: Moment, fd: nat)
    requires Touched(a, b, fd) && Touched(b, c, fd)
    ensures Touched(a, c, fd)
  {
  }

  // ----- all channels -----

  // From one moment to a later one nobody is lost without a reason, nobody is closed for a
  // failed write without one, and no connection begins to count as active.
  ghost predicate Since(a: Moment, b: Moment) {
    && a.fates <= b.fates && a.io <= b.io && |a.table| == |b.table| && |a.prioritized| <= |b.prioritized|
    && (forall f: nat :: a.Waits(f) ==> b.Waits(f) || WriteEnded(b.fates[|a.fates|..], f))
    && (forall f :: f in a.readSet ==> f in b.readSet || ReadEnded(b.fates[|a.fates|..], f))
    && (forall i :: 0 <= i < |a.prioritized| && a.prioritized[i].Some? ==>
          b.prioritized[i] == a.prioritized[i] || Shut(b.fates[|a.fates|..], a.prioritized[i].value))
    && (forall f :: Dropped(f) in b.fates[|a.fates|..] ==> Broke(b.io[|a.io|..], f))
    && (forall f :: 0 <= f < |a.table| && a.table[f].active == 0 ==> b.table[f].active == 0)
  }

  lemma SinceSelf(a: Moment)
    ensures Since(a, a)
  {
  }

  lemma SinceThen(a: Moment, b: Moment, c: Moment)
    requires Since(a, b) && Since(b, c)
    ensures Since(a, c)
  {
    assert c.fates[|a.fates|..] == b.fates[|a.fates|..] + c.fates[|b.fates|..];
    assert c.io[|a.io|..] == b.io[|a.io|..] + c.io[|b.io|..];
  }

  // Nothing ends for the channels that were not touched.
  lemma OneEnds(a: Moment, b: Moment, fd: nat, ends: seq<Fate>)
    requires Touched(a, b, fd) && b.fates == a.fates + ends && a.io <= b.io
    requires fd in a.readSet || Some(fd) in a.prioritized ==> a.Open(fd)
    requires a.Open(fd) && !b.Open(fd) ==> Shut(ends, fd)
    requires a.Waits(fd) ==> b.Waits(fd) || WriteEnded(ends, fd)
    requires forall f :: Dropped(f) in ends ==> f == fd && Broke(b.io[|a.io|..], fd)
    ensures Since(a, b)
  {
    assert b.fates[|a.fates|..] == ends;
    forall f: nat | a.Waits(f) && f != fd
      ensures b.Waits(f)
    {
    }
  }

  // What an operation can end.
  ghost predicate FatesOf(op: Op, fates: seq<Fate>) {
    match op
    case Close(fd) => fates == [] || fates == [Closed(fd)]
    case WriteRemove(fd) => fates == [] || fates == [TakenOut(fd)]
    case SleepAdd(fd, _, _, _) => fates == [] || fates == [TakenOut(fd)]
    case SleepRemove(fd) => fates == [] || fates == [TakenOut(fd)]
    case ReadRemove(fd) => fates == [] || fates == [ReadOff(fd)]
    case Flush(fd) => fates == [] || fates == [WrittenOut(fd)]
    case _ => fates == []
  }

  // Nobody else stops reading.
  lemma ReadEnds(a: Moment, b: Moment, fd: nat, ends: seq<Fate>)
    requires ends == if fd in a.readSet then [ReadOff(fd)] else []
    requires b == a.(readSet := a.readSet - {fd}, fates := a.fates + ends)
    ensures Since(a, b) && b.fates[|a.fates|..] == ends
  {
  }

  // ----- failed writes -----

  // The channel is closed: a broken pipe, or output that blocked too often on a channel
  // that can be done without.
  predicate GivesUp(c: Chan, count: int, e: Errno, badIoCount: nat) {
    count < 0
    && (e == Epipe
        || (e == Eagain && c.blockedWrites + 1 > badIoCount
            && c.kind in {Reject, Nntp, File, Exploder, Process}))
  }

  // Output is stopped for a while: it would block, or failed too often.
  predicate BacksOff(c: Chan, count: int, e: Errno, badIoCount: nat) {
    !GivesUp(c, count, e, badIoCount) && ((count < 0 && e == Eagain) || c.badWrites + 1 >= badIoCount)
  }

  // ----- the connection limit -----

  // How many of the first n channels are active connections of the peer.
  function Sharing(cs: seq<Chan>, name: string, n: nat): (count: nat)
    requires n <= |cs|
  {
    if n == 0 then 0
    else Sharing(cs, name, n - 1) + if cs[n - 1].peer == Some(name) && cs[n - 1].active != 0 then 1 else 0
  }

  predicate Counts(c: Chan) {
    c.fd >= 0 && c.kind == Nntp && c.active != 0 && c.peer.Some?
  }

  // The channel after `CHANcount_active`.
  function Counted(cs: seq<Chan>, fd: nat, n: nat): (c: Chan)
    requires fd < |cs| && n <= |cs|
    ensures c == cs[fd].(active := c.active) && (cs[fd].active == 0 <==> c.active == 0)
  {
    var c := cs[fd];
    if Counts(c) then c.(active := 1 + Sharing(cs, c.peer.value, n)) else c
  }

  // The connection is one too many.
  predicate Over(cs: seq<Chan>, fd: nat, n: nat)
    requires fd < |cs| && n <= |cs|
  {
    var c := cs[fd];
    c.kind == Nntp && c.maxCnx > 0 && c.holdTime > 0 && Counted(cs, fd, n).active > c.maxCnx && c.fd > 0
  }

  // No connection counts as active.
  predicate NoneActive(cs: seq<Chan>) {
    forall f :: 0 <= f < |cs| ==> cs[f].active == 0
  }

  lemma NeverOver(cs: seq<Chan>, fd: nat, n: nat)
    requires fd < |cs| && n <= |cs| && NoneActive(cs)
    ensures !Over(cs, fd, n)
  {
  }

  // ----- idle channels -----

  // The channel has been silent for so long that it is closed.
  predicate TimesOut(c: Chan, now: int, peerTimeout: nat) {
    || (c.kind == Reject && c.lastActive + REJECT_TIMEOUT < now)
    || (c.kind == Nntp && c.lastActive + c.nextLog < now && now - c.lastActive > peerTimeout)
  }
}
