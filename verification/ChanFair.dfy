// The round-robin position of the innd select loop (innd/chan.c), reduced to what
// fairness depends on: where it stands and where the current sweep wraps.
module ChanFair {

  // `ready` are the descriptors that are registered and were reported by the last select.
  datatype Event =
    // A select returned.
    | Select(ready: set<nat>)
    // A sweep over 0..lastfd begins.
    | Sweep(lastfd: int, ready: set<nat>)
    // Descriptor fd is looked at: `served` when its reader or writer ran, `limited` when
    // the connection limit made the loop turn away, `bump` when the position moves on.
    | Visit(fd: nat, served: bool, limited: bool, bump: bool, ready: set<nat>)

  // The position and the end of the current sweep.
  datatype Config = Config(fd: nat, lastfd: int)

  predicate Allowed(c: Config, e: Event) {
    match e
    case Select(_) => true
    case Sweep(lastfd, ready) => forall b :: b in ready ==> b <= lastfd
    case Visit(fd, served, limited, bump, ready) =>
      && fd == c.fd && (fd as int <= c.lastfd || fd == 0)
      && (fd in ready && !limited ==> served)
      && (served ==> !limited)
      && (!limited ==> bump)
  }

  function Advance(c: Config): (fd: nat) {
    if c.fd >= c.lastfd then 0 else c.fd + 1
  }

  function Step(c: Config, e: Event): (d: Config) {
    match e
    case Select(_) => c
    case Sweep(lastfd, _) => Config(if c.fd > lastfd then 0 else c.fd, lastfd)
    case Visit(_, _, _, bump, _) => if bump then Config(Advance(c), c.lastfd) else c
  }

  // A log is a run of the loop from the configuration c.
  predicate Run(c: Config, log: seq<Event>)
    decreases |log|
  {
    log == [] || (Run(c, log[..|log| - 1]) && Allowed(After(c, log[..|log| - 1]), log[|log| - 1]))
  }

  function After(c: Config, log: seq<Event>): (d: Config)
    decreases |log|
  {
    if log == [] then c else Step(After(c, log[..|log| - 1]), log[|log| - 1])
  }

  predicate Serves(e: Event, b: nat) {
    e.Visit? && e.fd == b && e.served
  }

  // The position comes to b before it comes to a.
  predicate Ahead(a: nat, b: nat, fd: nat) {
    if b > a then a < fd <= b else fd > a || fd <= b
  }

  lemma {:induction false} RunPrefix(c: Config, log: seq<Event>, k: nat)
    requires Run(c, log) && k <= |log|
    ensures Run(c, log[..k])
    decreases |log|
  {
    if k == |log| {
      assert log[..k] == log;
    } else {
      RunPrefix(c, log[..|log| - 1], k);
      assert log[..|log| - 1][..k] == log[..k];
    }
  }

  // Since a was served at i, the position has b ahead of it as long as b waits unserved.
  lemma {:induction false} StaysAhead(c: Config, log: seq<Event>, s: nat, i: nat, k: nat, a: nat, b: nat)
    requires Run(c, log) && s < i < k <= |log| && a != b
    requires log[s].Sweep? && forall j :: s < j <= i ==> !log[j].Sweep?
    requires Serves(log[i], a)
    requires forall j :: s <= j < k ==> b in log[j].ready
    requires forall j :: i < j < k && log[j].Visit? && log[j].fd == b ==> !log[j].limited
    requires forall j :: i < j < k ==> !Serves(log[j], b)
    ensures Ahead(a, b, After(c, log[..k]).fd) && b <= After(c, log[..k]).lastfd
    decreases k
  {
    RunPrefix(c, log, k);
    RunPrefix(c, log, k - 1);
    assert log[..k][..k - 1] == log[..k - 1] && log[..k][k - 1] == log[k - 1];
    if k == i + 1 {
      SweepEnd(c, log, s, i, b);
    } else {
      StaysAhead(c, log, s, i, k - 1, a, b);
    }
  }

  // Until the next sweep the wrap-around point is that of the sweep, beyond every
  // descriptor that was ready when it began.
  lemma {:induction false} SweepEnd(c: Config, log: seq<Event>, s: nat, i: nat, b: nat)
    requires Run(c, log) && s < i <= |log|
    requires log[s].Sweep? && (forall j :: s < j < i ==> !log[j].Sweep?) && b in log[s].ready
    ensures b <= After(c, log[..i]).lastfd
    decreases i
  {
    RunPrefix(c, log, i);
    assert log[..i][..i - 1] == log[..i - 1] && log[..i][i - 1] == log[i - 1];
    if i > s + 1 {
      SweepEnd(c, log, s, i - 1, b);
    }
  }

  // Between two services of a, every descriptor that stays registered and is reported
  // ready by every select, and does not run into the connection limit, is served.
  lemma Fairness(c: Config, log: seq<Event>, s: nat, i: nat, j: nat, a: nat, b: nat)
    requires Run(c, log) && s < i < j < |log| && a != b
    requires log[s].Sweep? && forall k :: s < k <= i ==> !log[k].Sweep?
    requires Serves(log[i], a) && Serves(log[j], a)
    requires forall k :: s <= k <= j ==> b in log[k].ready
    requires forall k :: i < k < j && log[k].Visit? && log[k].fd == b ==> !log[k].limited
    ensures exists k :: i < k < j && Serves(log[k], b)
  {
    if forall k :: i < k < j ==> !Serves(log[k], b) {
      RunPrefix(c, log, j + 1);
      assert log[..j + 1][..j] == log[..j] && log[..j + 1][j] == log[j];
      StaysAhead(c, log, s, i, j, a, b);
    }
  }

  predicate NoLimits(log: seq<Event>) {
    forall e :: e in log ==> !(e.Visit? && e.limited)
  }

  // Where the connection limit never strikes, whoever stays ready is served.
  lemma UnlimitedFairness(c: Config, log: seq<Event>, s: nat, i: nat, j: nat, a: nat, b: nat)
    requires Run(c, log) && s < i < j < |log| && a != b && NoLimits(log)
    requires log[s].Sweep? && forall k :: s < k <= i ==> !log[k].Sweep?
    requires Serves(log[i], a) && Serves(log[j], a)
    requires forall k :: s <= k <= j ==> b in log[k].ready
    ensures exists k :: i < k < j && Serves(log[k], b)
  {
    Fairness(c, log, s, i, j, a, b);
  }
}
