// The lock protocol of backends/shlock.c as an interleaved state machine: any number
// of processes share one directory and only use open, link, stat and unlink.  Every
// system call is one step; a process can crash between any two of them.
module LockMachine {

  type Pid = nat     // process number, which names the temporary files
  type Proc = nat    // one run of the program; numbers of runs are never reused
  type Owner = nat   // one run of the program on whose behalf the lock is taken
  type Ino = nat     // inode numbers are reused once nothing refers to them

  // The lock file, `shlock<pid>` and `shlock<pid>x`.
  datatype Name = Lock | Tmp(pid: Pid) | Tmp2(pid: Pid)

  datatype Pc =
    | Create     // open the temporary file, which must not exist
    | RemoveOld  // it does: remove it
    | Write      // write the owner's pid into it and close it
    | TryLink    // link it to the lock name
    | OpenLock   // that failed: open the lock file
    | Validate   // read the pid in it and see whether the owner lives
    | CleanOld   // it does not: remove a left-over second name
    | Check      // stat and fstat: change times and link count
    | LinkOld    // give the lock file our second name
    | Recheck    // stat the lock name: same inode, two links?
    | Takeover   // yes: remove the lock name
    | DropTmp2   // remove the second name and retry
    | ExitTmp2   // give up: remove the second name ...
    | ExitTmp    // ... and the temporary file
    | Linked     // success: remove the temporary file

  // `mine` is the inode of the temporary file, `fd` the inode the lock file had when opened.
  datatype Process = Process(pid: Pid, owner: Owner, pc: Pc, mine: Ino, fd: Ino)

  datatype Grant = Grant(owner: Owner, ino: Ino)

  datatype State = State(
    dir: map<Name, Ino>,        // the directory
    owners: map<Ino, Owner>,    // contents of the files that were written
    procs: map<Proc, Process>,  // running processes
    held: map<Proc, Grant>,     // runs that reported success and whose lock was not released
    dead: set<Owner>)           // owners that have died

  datatype Action =
    | Start(p: Proc, pid: Pid, owner: Owner)
    | Step(p: Proc, ok: bool, ino: Ino)  // ok: the call does not fail unexpectedly
    | Crash(p: Proc)
    | Die(o: Owner)
    | Release(p: Proc)                   // the live owner removes its lock

  predicate HasTmp(pc: Pc) { pc != Create && pc != RemoveOld }

  predicate Unpublished(pc: Pc) { HasTmp(pc) && pc != Linked }

  predicate Written(pc: Pc) { Unpublished(pc) && pc != Write && pc != ExitTmp }

  predicate HasFd(pc: Pc) {
    pc == Validate || Suspect(pc) || pc == DropTmp2 || pc == ExitTmp2
  }

  // The owner named in the opened file was found dead.
  predicate Suspect(pc: Pc) {
    pc == CleanOld || pc == Check || pc == LinkOld || pc == Recheck || pc == Takeover
  }

  function Names(s: State, i: Ino): (ns: set<Name>) {
    set n | n in s.dir && s.dir[n] == i
  }

  // The link count of an inode is the number of its names.
  function Links(s: State, i: Ino): (n: nat) {
    |Names(s, i)|
  }

  predicate Alive(s: State, i: Ino) {
    i in s.owners && s.owners[i] !in s.dead
  }

  predicate Nameless(s: State, i: Ino) {
    forall n :: n in s.dir ==> s.dir[n] != i
  }

  // An inode that open(O_CREAT) may hand out: no name and no open descriptor.
  predicate Free(s: State, i: Ino) {
    && Nameless(s, i)
    && (forall q :: q in s.procs && HasFd(s.procs[q].pc) ==> s.procs[q].fd != i)
  }

  predicate Enabled(s: State, a: Action) {
    match a
    case Start(p, pid, owner) =>
      p !in s.procs && p !in s.held && forall q :: q in s.procs ==> s.procs[q].pid != pid
    case Step(p, ok, ino) =>
      && p in s.procs
      && (s.procs[p].pc == Create ==> Free(s, ino))
      // kill(pid, 0) sees a live owner; for a dead one its pid may have been reused
      && (s.procs[p].pc == Validate && Alive(s, s.procs[p].fd) ==> !ok)
    case Crash(p) => p in s.procs
    case Die(o) => true
    case Release(p) => p in s.held && s.held[p].owner !in s.dead
  }

  function GoTo(s: State, p: Proc, pc: Pc): (t: State)
    requires p in s.procs
  {
    s.(procs := s.procs[p := s.procs[p].(pc := pc)])
  }

  function Unlink(s: State, n: Name): (t: State)
    ensures t.procs == s.procs && t.held == s.held
  {
    s.(dir := s.dir - {n})
  }

  function Link(s: State, from: Name, to: Name): (t: State)
    requires from in s.dir
    ensures t.procs == s.procs && t.held == s.held
  {
    s.(dir := s.dir[to := s.dir[from]])
  }

  function Exit(s: State, p: Proc): (t: State) {
    s.(procs := s.procs - {p})
  }

  // One system call of process p with the test that follows it.
  function StepOf(s: State, p: Proc, ok: bool, ino: Ino): (t: State)
    requires p in s.procs
  {
    var me := s.procs[p];
    var tmp, tmp2 := Tmp(me.pid), Tmp2(me.pid);
    match me.pc
    case Create =>
      if tmp in s.dir then GoTo(s, p, RemoveOld)
      else if !ok then Exit(s, p)
      else s.(dir := s.dir[tmp := ino], owners := s.owners - {ino},
              procs := s.procs[p := me.(pc := Write, mine := ino)])
    case RemoveOld => if ok then GoTo(Unlink(s, tmp), p, Create) else Exit(s, p)
    case Write =>
      if ok then GoTo(s.(owners := s.owners[me.mine := me.owner]), p, TryLink) else GoTo(s, p, ExitTmp)
    case TryLink =>
      if !ok || tmp !in s.dir then GoTo(s, p, ExitTmp)
      else if Lock in s.dir then GoTo(s, p, OpenLock)
      else GoTo(Link(s, tmp, Lock), p, Linked)
    case OpenLock =>
      if !ok || Lock !in s.dir then GoTo(s, p, ExitTmp)
      else s.(procs := s.procs[p := me.(pc := Validate, fd := s.dir[Lock])])
    case Validate => GoTo(s, p, if ok then CleanOld else ExitTmp)
    case CleanOld => if ok then GoTo(Unlink(s, tmp2), p, Check) else GoTo(s, p, ExitTmp)
    case Check => GoTo(s, p, if ok && Links(s, me.fd) == 1 then LinkOld else ExitTmp)
    case LinkOld =>
      if !ok || Lock !in s.dir || tmp2 in s.dir then GoTo(s, p, ExitTmp)
      else GoTo(Link(s, Lock, tmp2), p, Recheck)
    case Recheck =>
      GoTo(s, p, if ok && Lock in s.dir && s.dir[Lock] == me.fd && Links(s, me.fd) == 2
                 then Takeover else ExitTmp2)
    case Takeover => if ok then GoTo(Unlink(s, Lock), p, DropTmp2) else GoTo(s, p, ExitTmp2)
    case DropTmp2 => GoTo(if ok then Unlink(s, tmp2) else s, p, TryLink)
    case ExitTmp2 => GoTo(if ok then Unlink(s, tmp2) else s, p, ExitTmp)
    case ExitTmp => Exit(if ok then Unlink(s, tmp) else s, p)
    case Linked =>
      Exit(if ok then Unlink(s, tmp) else s, p).(held := s.held[p := Grant(me.owner, me.mine)])
  }

  function Next(s: State, a: Action): (t: State)
    requires Enabled(s, a)
  {
    match a
    case Start(p, pid, owner) => s.(procs := s.procs[p := Process(pid, owner, Create, 0, 0)])
    case Step(p, ok, ino) => StepOf(s, p, ok, ino)
    case Crash(p) => Exit(s, p)
    case Die(o) => s.(dead := s.dead + {o})
    case Release(p) => Unlink(s, Lock).(held := s.held - {p})
  }

  // ----- the invariant -----

  // The temporary file of a process that has not linked it yet has no other name ...
  ghost predicate Private(s: State, p: Proc)
    requires p in s.procs
  {
    var me := s.procs[p];
    Unpublished(me.pc) ==>
      && Tmp(me.pid) in s.dir && s.dir[Tmp(me.pid)] == me.mine
      && (forall n :: n in s.dir && s.dir[n] == me.mine ==> n == Tmp(me.pid))
      && (Written(me.pc) ==> me.mine in s.owners && s.owners[me.mine] == me.owner)
  }

  // ... and is open in no process that examines the lock file.
  ghost predicate Unopened(s: State, p: Proc, q: Proc)
    requires p in s.procs && q in s.procs
  {
    Unpublished(s.procs[p].pc) && HasFd(s.procs[q].pc) ==> s.procs[q].fd != s.procs[p].mine
  }

  // A process that found the owner dead works on a file whose owner is dead, and its
  // second name, if it made one while the lock name still meant that file, means it too.
  ghost predicate Stale(s: State, p: Proc)
    requires p in s.procs
  {
    var me := s.procs[p];
    && (Suspect(me.pc) ==> !Alive(s, me.fd))
    && (me.pc == Recheck && Lock in s.dir && s.dir[Lock] == me.fd ==>
          Tmp2(me.pid) in s.dir && s.dir[Tmp2(me.pid)] == me.fd)
    && (me.pc == Takeover ==>
          && Lock in s.dir && s.dir[Lock] == me.fd
          && Tmp2(me.pid) in s.dir && s.dir[Tmp2(me.pid)] == me.fd)
  }

  // The process is past the inode and link-count test.
  predicate Past(s: State, p: Proc) {
    p in s.procs && s.procs[p].pc == Takeover
  }

  // The run linked its file on behalf of a live owner, and the lock was not released.
  predicate Claims(s: State, p: Proc) {
    || (p in s.procs && s.procs[p].pc == Linked && s.procs[p].owner !in s.dead)
    || (p in s.held && s.held[p].owner !in s.dead)
  }

  function Claim(s: State, p: Proc): (g: Grant)
    requires Claims(s, p)
  {
    if p in s.procs && s.procs[p].pc == Linked && s.procs[p].owner !in s.dead
    then Grant(s.procs[p].owner, s.procs[p].mine) else s.held[p]
  }

  // What a claim says about the directory.
  ghost predicate Backed(s: State, p: Proc) {
    Claims(s, p) ==>
      var g := Claim(s, p);
      Lock in s.dir && s.dir[Lock] == g.ino && g.ino in s.owners && s.owners[g.ino] == g.owner
  }

  ghost predicate Inv(s: State) {
    && (forall p, q :: p in s.procs && q in s.procs && s.procs[p].pid == s.procs[q].pid ==> p == q)
    && (forall p :: p in s.procs ==> p !in s.held)
    && (forall p :: p in s.procs ==> Private(s, p))
    && (forall p, q :: p in s.procs && q in s.procs ==> Unopened(s, p, q))
    && (forall p :: p in s.procs ==> Stale(s, p))
    && (forall p, q :: Past(s, p) && Past(s, q) ==> p == q)
    && (forall p, q :: Claims(s, p) && Claims(s, q) ==> p == q)
    && (forall p :: Backed(s, p))
  }
}
