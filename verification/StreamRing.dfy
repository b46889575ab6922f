// The pieces of the NNTP streaming sender of backends/innxmit.c that need no state.
module StreamRing {
  import opened Wrappers

  const STNBUF := 64              // slots in the ring
  const STNC := 16                // good replies in a row before CHECK is left out
  const STNBUFL := STNBUF / 2
  const STNRETRY := 5             // fast retries before an article goes back to disk
  const SPOOLNAMEBUFF := 512
  const MAXLEN_COMMAND := 512

  // `struct stbufs`; the article handle is present until the article is sent.
  datatype Slot = Slot(fname: string, id: string, retry: nat, art: bool, hash: int)

  const FREE := Slot("", "", 0, false, 0)

  datatype Command = Check(id: string) | TakeThis(id: string)

  // A reply line and the number it starts with.
  datatype Reply = Reply(code: int, line: string)

  predicate Informational(r: Reply) {
    100 <= r.code < 200
  }

  // Those whose first digit of three is a 1 (section 3.2 of RFC 3977).
  lemma FirstDigit(r: Reply)
    ensures Informational(r) <==> r.code / 100 == 1
  {
  }

  // The final ones among some replies.
  function Finals(rs: seq<Reply>): (fs: seq<Reply>) {
    if rs == [] then [] else
      Finals(rs[..|rs| - 1]) + if Informational(rs[|rs| - 1]) then [] else [rs[|rs| - 1]]
  }

  lemma {:induction false} FinalsSplit(a: seq<Reply>, b: seq<Reply>)
    ensures Finals(a + b) == Finals(a) + Finals(b)
  {
    if b == [] {
      assert a + b == a;
    } else {
      assert (a + b)[..|a + b| - 1] == a + b[..|b| - 1];
      FinalsSplit(a, b[..|b| - 1]);
    }
  }

  lemma FinalsSnoc(rs: seq<Reply>, r: Reply)
    ensures Finals(rs + [r]) == Finals(rs) + if Informational(r) then [] else [r]
  {
    assert (rs + [r])[..|rs|] == rs;
  }

  lemma Cut(rs: seq<Reply>, k: nat)
    requires k < |rs|
    ensures rs[..k + 1] == rs[..k] + [rs[k]] && rs == rs[..k + 1] + rs[k + 1..]
  {
  }

  lemma FinalsNext(rs: seq<Reply>, k: nat)
    requires k < |rs|
    ensures Finals(rs[..k + 1]) == Finals(rs[..k]) + if Informational(rs[k]) then [] else [rs[k]]
    ensures Finals(rs) == Finals(rs[..k + 1]) + Finals(rs[k + 1..])
  {
    hide Finals;
    Cut(rs, k);
    FinalsSnoc(rs[..k], rs[k]);
    FinalsSplit(rs[..k + 1], rs[k + 1..]);
  }

  // From r0 to r1 some replies were read, and the final ones of them logged.
  ghost predicate Spoken(r0: seq<Reply>, l0: seq<Reply>, r1: seq<Reply>, l1: seq<Reply>) {
    var k := |r0| - |r1|;
    k >= 0 && r1 == r0[k..] && l1 == l0 + Finals(r0[..k])
  }

  // Only informational replies were read so far.
  ghost predicate Passed(rs: seq<Reply>, left: seq<Reply>) {
    |left| <= |rs| && left == rs[|rs| - |left|..] && Finals(rs[..|rs| - |left|]) == []
  }

  lemma PassedNothing(rs: seq<Reply>)
    ensures Passed(rs, rs)
  {
    assert rs[0..] == rs && rs[..0] == [];
  }

  lemma Behind(rs: seq<Reply>, k: nat)
    requires k < |rs|
    ensures rs[k..][0] == rs[k] && rs[k..][1..] == rs[k + 1..]
  {
  }

  lemma PassedOne(rs: seq<Reply>, left: seq<Reply>)
    requires Passed(rs, left) && left != [] && Informational(left[0])
    ensures Passed(rs, left[1..])
  {
    hide Finals;
    Behind(rs, |rs| - |left|);
    FinalsNext(rs, |rs| - |left|);
  }

  lemma HeardOne(rs: seq<Reply>, log: seq<Reply>, left: seq<Reply>)
    requires Passed(rs, left) && left != [] && !Informational(left[0])
    ensures Spoken(rs, log, left[1..], log + [left[0]]) && Finals(rs) != [] && rs[|rs| - |left|] == left[0]
  {
    hide Finals;
    var k := |rs| - |left|;
    Behind(rs, k);
    FinalsNext(rs, k);
    FirstFinal(Finals(rs[..k]), Finals(rs[..k + 1]), left[0], Finals(rs[k + 1..]), Finals(rs));
  }

  lemma FirstFinal(none: seq<Reply>, one: seq<Reply>, r: Reply, more: seq<Reply>, all: seq<Reply>)
    requires none == [] && one == none + [r] && all == one + more
    ensures one == [r] && all != []
  {
  }

  lemma PassedAll(rs: seq<Reply>, log: seq<Reply>, left: seq<Reply>)
    requires Passed(rs, left) && left == []
    ensures Spoken(rs, log, left, log) && Finals(rs) == []
  {
    hide Finals;
    assert rs[..|rs|] == rs;
  }

  lemma SpokenThen(r0: seq<Reply>, l0: seq<Reply>, r1: seq<Reply>, l1: seq<Reply>, r2: seq<Reply>, l2: seq<Reply>)
    requires Spoken(r0, l0, r1, l1) && Spoken(r1, l1, r2, l2)
    ensures Spoken(r0, l0, r2, l2)
  {
    var j, k := |r0| - |r1|, |r0| - |r2|;
    assert r0[..k] == r0[..j] + r1[..k - j];
    FinalsSplit(r0[..j], r1[..k - j]);
    hide Finals;
    assert r2 == r0[k..];
  }

  // Codes whose reply names the Message-ID it answers.
  predicate Named(code: int) {
    code == 438 || code == 238 || code == 239 || code == 439 || code == 431
  }

  // `strlcpy` into a field of the given size.
  function Copy(s: string, size: nat): (r: string)
    requires size > 0
    ensures |r| < size && r <= s && (|s| < size ==> r == s)
  {
    if |s| < size then s else s[..size - 1]
  }

  // A Message-ID that the ring can find again: not empty, and stored whole.
  predicate Indexable(id: string) {
    id != "" && |id| < MAXLEN_COMMAND
  }

  // The line that puts an article back into the batch file.
  function Line(fname: string, id: string): (s: string) {
    fname + " " + id
  }

  function Lines(r: seq<Slot>): (ls: seq<string>)
    ensures |ls| == |r|
  {
    seq(|r|, k requires 0 <= k < |r| => Line(r[k].fname, r[k].id))
  }

  // The slot that is k places after the oldest one, and back.
  function Place(oldest: nat, k: nat): (i: nat)
    requires oldest < STNBUF && k < STNBUF
    ensures i < STNBUF && i == (oldest + k) % STNBUF
  {
    if oldest + k < STNBUF then oldest + k else oldest + k - STNBUF
  }

  function Age(oldest: nat, i: nat): (k: nat)
    requires oldest < STNBUF && i < STNBUF
    ensures k < STNBUF && Place(oldest, k) == i
  {
    if i >= oldest then i - oldest else i + STNBUF - oldest
  }

  // The first occurrence of c at or after i; the length when there is none.
  function Find(s: string, c: char, i: nat): (k: nat)
    requires i <= |s|
    ensures i <= k <= |s| && (k < |s| ==> s[k] == c)
    ensures forall j :: i <= j < k ==> s[j] != c
    decreases |s| - i
  {
    if i == |s| || s[i] == c then i else Find(s, c, i + 1)
  }

  // The Message-ID in a reply: from the first '<' to the first '>' after it.
  function ReplyId(line: string): (id: Option<string>) {
    var a := Find(line, '<', 0);
    if a == |line| then None
    else
      var b := Find(line, '>', a);
      Some(line[a..if b < |line| then b + 1 else b])
  }

  // How many more final replies the peer can give to one article: the fast retries that
  // are left and the reply that ends them, once more after a 238 while it is not sent.
  function Budget(s: Slot): (n: nat)
    requires s.retry <= STNRETRY
    ensures 1 <= n <= 2 * STNRETRY + 2
  {
    STNRETRY - s.retry + 1 + (if s.art then STNRETRY + 1 else 0)
  }

  predicate Retries(r: seq<Slot>) {
    forall k :: 0 <= k < |r| ==> r[k].retry <= STNRETRY
  }

  function RingBudget(r: seq<Slot>): (n: nat)
    requires Retries(r)
  {
    if r == [] then 0 else Budget(r[0]) + RingBudget(r[1..])
  }

  lemma BudgetPositive(r: seq<Slot>)
    requires Retries(r)
    ensures r != [] ==> RingBudget(r) >= 1
  {
  }

  lemma {:induction false} BudgetSnoc(r: seq<Slot>, s: Slot)
    requires Retries(r) && s.retry <= STNRETRY
    ensures Retries(r + [s]) && RingBudget(r + [s]) == RingBudget(r) + Budget(s)
  {
    if r == [] {
      assert r + [s] == [s];
    } else {
      BudgetSnoc(r[1..], s);
      assert (r + [s])[1..] == r[1..] + [s];
    }
  }

  // ----- what a peer that follows sections 2.4 and 2.5 of RFC 4644 may answer -----

  // The reply echoes the id of the command whole, and has a code the command may get.
  ghost predicate Echoes(c: Command, r: Reply) {
    Named(r.code) ==>
      && (exists prefix, rest :: '<' !in prefix && r.line == prefix + c.id + rest)
      && (c.Check? <==> r.code == 238 || r.code == 431 || r.code == 438)
  }

  // An id in angle brackets without a '>' inside.
  predicate Plain(id: string) {
    id != "" && id[0] == '<' && Find(id, '>', 0) == |id| - 1
  }

  // An echoed id is found whole in the reply when it is plain ...
  lemma EchoInOrder(c: Command, r: Reply)
    requires Echoes(c, r) && Plain(c.id)
    ensures InOrder(c, r)
  {
    if Named(r.code) {
      var prefix, rest :| '<' !in prefix && r.line == prefix + c.id + rest;
      EchoedId(prefix, c.id, rest);
    }
  }

  // ... and among the ids in angle brackets only then.
  lemma NotPlainNotInOrder(c: Command, r: Reply)
    requires Named(r.code) && Echoes(c, r)
    requires c.id != "" && c.id[0] == '<' && c.id[|c.id| - 1] == '>' && !Plain(c.id)
    ensures !InOrder(c, r)
  {
    var prefix, rest :| '<' !in prefix && r.line == prefix + c.id + rest;
    EchoedId(prefix, c.id, rest);
  }

  ghost predicate AllEcho(sent: seq<Command>, log: seq<Reply>) {
    |log| <= |sent| && forall k :: 0 <= k < |log| ==> Echoes(sent[k], log[k])
  }

  ghost predicate AllPlain(sent: seq<Command>) {
    forall k :: 0 <= k < |sent| ==> Plain(sent[k].id)
  }

  lemma AllEchoInOrder(sent: seq<Command>, log: seq<Reply>)
    requires AllEcho(sent, log) && AllPlain(sent)
    ensures AllInOrder(sent, log)
  {
    hide Echoes, InOrder, Plain;
    forall k | 0 <= k < |log|
      ensures InOrder(sent[k], log[k])
    {
      EchoInOrder(sent[k], log[k]);
    }
  }

  // The same as the program reads it: the id it finds in the reply is that of the command.
  predicate InOrder(c: Command, r: Reply) {
    Named(r.code) ==>
      && ReplyId(r.line) == Some(c.id)
      && (c.Check? <==> r.code == 238 || r.code == 431 || r.code == 438)
  }

  // A reply "nnn <id> ..." carries the id whole if and only if the id, which starts with
  // '<', has its first '>' at its end.
  lemma EchoedId(prefix: string, id: string, rest: string)
    requires forall j :: 0 <= j < |prefix| ==> prefix[j] != '<'
    requires id != "" && id[0] == '<' && id[|id| - 1] == '>'
    ensures ReplyId(prefix + id + rest) == Some(id) <==> Find(id, '>', 0) == |id| - 1
  {
    var s := prefix + id + rest;
    var a, b := |prefix|, Find(id, '>', 0);
    assert s[a] == '<' && (b < |id| && s[a + b] == id[b] == '>');
    assert Find(s, '<', 0) == a by { FindIs(s, '<', 0, a); }
    forall j | a <= j < a + b
      ensures s[j] != '>'
    {
      assert s[j] == id[j - a];
    }
    FindIs(s, '>', a, a + b);
    assert s[a..a + b + 1] == id[..b + 1];
  }

  lemma {:induction false} FindIs(s: string, c: char, i: nat, k: nat)
    requires i <= k < |s| && s[k] == c && forall j :: i <= j < k ==> s[j] != c
    ensures Find(s, c, i) == k
    decreases k - i
  {
    if i < k { FindIs(s, c, i + 1, k); }
  }

  // ----- sequences of slots, commands and replies -----

  function Ids(r: seq<Slot>): (ids: set<string>) {
    set k | 0 <= k < |r| :: r[k].id
  }

  lemma TraceMore(sent: seq<Command>, more: seq<Command>, log: seq<Reply>)
    requires |log| <= |sent| && sent <= more
    ensures AllInOrder(sent, log) <==> AllInOrder(more, log)
  {
  }

  // A 238 does not answer a TAKETHIS.
  lemma NotTaken(c: Command, r: Reply)
    ensures c.TakeThis? && r.code == 238 ==> !InOrder(c, r)
  {
  }

  lemma NotInOrder(c: Command, r: Reply, id: string)
    requires c.id == id
    ensures Named(r.code) && ReplyId(r.line) != Some(id) ==> !InOrder(c, r)
  {
  }

  ghost predicate AllInOrder(sent: seq<Command>, log: seq<Reply>) {
    |log| <= |sent| && forall k :: 0 <= k < |log| ==> InOrder(sent[k], log[k])
  }

  lemma TraceStep(sent: seq<Command>, log: seq<Reply>, r: Reply, polite: bool)
    requires |log| < |sent| && (polite <==> AllInOrder(sent, log))
    ensures AllInOrder(sent, log + [r]) <==> polite && InOrder(sent[|log|], r)
  {
    assert (log + [r])[|log|] == r;
    if AllInOrder(sent, log + [r]) {
      assert forall k :: 0 <= k < |log| ==> log[k] == (log + [r])[k];
    }
  }

  // A line held by the code moves to the settled ones, or into the temporary file.
  lemma SettleOne(settled: multiset<string>, temp: seq<string>, ring: multiset<string>, line: string)
    ensures settled + multiset(temp) + ring + multiset{line}
      == settled + multiset{line} + multiset(temp) + ring + multiset{}
    ensures settled + multiset(temp) + ring + multiset{line} == settled + multiset(temp + [line]) + ring + multiset{}
  {
  }

  lemma LinesArt(r: seq<Slot>, k: nat)
    requires k < |r|
    ensures Lines(r[k := r[k].(art := false)]) == Lines(r)
  {
  }

  lemma LinesSnoc(r: seq<Slot>, s: Slot)
    ensures Lines(r + [s]) == Lines(r) + [Line(s.fname, s.id)]
    ensures multiset(Lines(r + [s])) == multiset(Lines(r)) + multiset{Line(s.fname, s.id)}
  {
    assert Lines(r + [s]) == Lines(r) + [Line(s.fname, s.id)];
  }

  lemma LinesFront(r: seq<Slot>)
    requires r != []
    ensures Lines(r) == [Line(r[0].fname, r[0].id)] + Lines(r[1..])
    ensures multiset(Lines(r)) == multiset{Line(r[0].fname, r[0].id)} + multiset(Lines(r[1..]))
  {
    assert Lines(r) == [Line(r[0].fname, r[0].id)] + Lines(r[1..]);
  }

  lemma PutAside(settled: multiset<string>, temp: seq<string>, ring: multiset<string>, line: string)
    ensures settled + multiset(temp) + ring + multiset{} + multiset{line}
      == settled + multiset(temp + [line]) + ring + multiset{}
  {
  }

  lemma NotAmong(r: seq<Slot>, id: string)
    ensures id !in Ids(r) ==> forall k :: 0 <= k < |r| ==> r[k].id != id
  {
  }

  // ----- what one reply does to the ring -----

  // The count of articles wanted since the last one that was not.
  function NoFail(log: seq<Reply>): (n: nat) {
    if log == [] then 0 else
      var before, code := NoFail(log[..|log| - 1]), log[|log| - 1].code;
      if code == 238 then before + 1 else if code == 438 || code == 439 || code == 501 then 0 else before
  }

  // The reply makes the sender send something about the article again.
  predicate Again(st: Slot, code: int) {
    code == 238 || (code == 431 && st.retry < STNRETRY)
  }

  // What is then kept in the ring.
  function Renewed(st: Slot, code: int): (t: Slot) {
    if code == 238 then st.(retry := 0, art := false) else st.(retry := st.retry + 1)
  }

  // The ring is what the peer has not answered yet, in the order it was sent; as long as
  // the peer keeps to the protocol, the article is open exactly while a CHECK is out.
  ghost predicate InFlight(sent: seq<Command>, acted: nat, ring: seq<Slot>, polite: bool) {
    && |sent| == acted + |ring|
    && (forall k :: 0 <= k < |ring| ==> sent[acted + k].id == ring[k].id)
    && (polite ==> forall k :: 0 <= k < |ring| ==> (sent[acted + k].Check? <==> ring[k].art))
  }

  // No article had, or can still get, more than 2 * STNRETRY + 2 final replies.
  ghost predicate WithinBudget(charged: seq<nat>, ring: seq<Slot>, acted: nat, entered: nat)
    requires Retries(ring)
  {
    && |charged| == |ring|
    && (forall k :: 0 <= k < |ring| ==> charged[k] + Budget(ring[k]) <= 2 * STNRETRY + 2)
    && acted + RingBudget(ring) <= (2 * STNRETRY + 2) * entered
  }

  // How one reply to the oldest command changes the ring and what was sent.
  ghost predicate Moved(sent0: seq<Command>, ring0: seq<Slot>, sent: seq<Command>, ring: seq<Slot>, r: Reply) {
    && ring0 != []
    && (Again(ring0[0], r.code) ==>
          && ring == ring0[1..] + [Renewed(ring0[0], r.code)] && (r.code == 238 ==> ring0[0].art)
          && sent == sent0 + [if r.code == 238 then TakeThis(ring0[0].id) else Check(ring0[0].id)])
    && (!Again(ring0[0], r.code) ==> sent == sent0 && ring == ring0[1..])
  }

  lemma InFlightStep(sent0: seq<Command>, ring0: seq<Slot>, sent: seq<Command>, ring: seq<Slot>,
                     acted: nat, polite: bool, r: Reply)
    requires acted > 0 && Moved(sent0, ring0, sent, ring, r) && InFlight(sent0, acted - 1, ring0, polite)
    requires polite ==> InOrder(sent0[acted - 1], r)
    ensures InFlight(sent, acted, ring, polite)
  {
    forall k | 0 <= k < |ring|
      ensures sent[acted + k].id == ring[k].id
      ensures polite ==> (sent[acted + k].Check? <==> ring[k].art)
    {
      if k < |ring0| - 1 {
        assert ring[k] == ring0[k + 1] && sent[acted + k] == sent0[acted - 1 + (k + 1)];
      }
    }
  }

  lemma BudgetStep(charged0: seq<nat>, ring0: seq<Slot>, charged: seq<nat>, ring: seq<Slot>,
                   acted: nat, entered: nat, r: Reply)
    requires ring0 != [] && Retries(ring0) && Retries(ring) && acted > 0
    requires Again(ring0[0], r.code) ==>
      ring == ring0[1..] + [Renewed(ring0[0], r.code)] && (r.code == 238 ==> ring0[0].art)
    requires !Again(ring0[0], r.code) ==> ring == ring0[1..]
    requires WithinBudget(charged0, ring0, acted - 1, entered)
    requires charged == charged0[1..] + (if Again(ring0[0], r.code) then [charged0[0] + 1] else [])
    ensures WithinBudget(charged, ring, acted, entered) && RingBudget(ring) < RingBudget(ring0)
  {
    if Again(ring0[0], r.code) {
      BudgetSnoc(ring0[1..], Renewed(ring0[0], r.code));
    }
    forall k | 0 <= k < |ring|
      ensures charged[k] + Budget(ring[k]) <= 2 * STNRETRY + 2
    {
      if k < |ring0| - 1 {
        assert ring[k] == ring0[k + 1] && charged[k] == charged0[k + 1];
      }
    }
  }

  lemma IdsStep(ring0: seq<Slot>, ring: seq<Slot>, r: Reply)
    requires ring0 != []
    requires ring == ring0[1..] + (if Again(ring0[0], r.code) then [Renewed(ring0[0], r.code)] else [])
    ensures Ids(ring) <= Ids(ring0)
  {
    forall k | 0 <= k < |ring|
      ensures ring[k].id in Ids(ring0)
    {
      if k < |ring0| - 1 { assert ring[k] == ring0[k + 1]; } else { assert ring[k].id == ring0[0].id; }
    }
  }

  // ----- what a new article does to it -----

  lemma IdsSnoc(ring0: seq<Slot>, ring: seq<Slot>)
    requires |ring| == |ring0| + 1 && ring[..|ring0|] == ring0
    ensures Ids(ring) <= Ids(ring0) + {ring[|ring0|].id}
  {
    forall k | 0 <= k < |ring0|
      ensures ring[k].id in Ids(ring0)
    {
      assert ring[k] == ring0[k];
    }
  }

  lemma InFlightSnoc(sent0: seq<Command>, ring0: seq<Slot>, sent: seq<Command>, ring: seq<Slot>,
                     acted: nat, polite: bool)
    requires |ring| == |ring0| + 1 && ring[..|ring0|] == ring0 && InFlight(sent0, acted, ring0, polite)
    requires var s := ring[|ring0|]; sent == sent0 + [if s.art then Check(s.id) else TakeThis(s.id)]
    ensures InFlight(sent, acted, ring, polite)
  {
    forall k | 0 <= k < |ring|
      ensures sent[acted + k].id == ring[k].id
      ensures polite ==> (sent[acted + k].Check? <==> ring[k].art)
    {
      if k < |ring0| { assert ring[k] == ring0[k]; }
    }
  }

  lemma BudgetPlus(charged0: seq<nat>, ring0: seq<Slot>, ring: seq<Slot>, acted: nat, entered0: nat)
    requires |ring| == |ring0| + 1 && ring[..|ring0|] == ring0 && Retries(ring0) && Retries(ring)
    requires WithinBudget(charged0, ring0, acted, entered0)
    ensures WithinBudget(charged0 + [0], ring, acted, entered0 + 1)
  {
    assert ring == ring0 + [ring[|ring0|]];
    BudgetSnoc(ring0, ring[|ring0|]);
    forall k | 0 <= k < |ring|
      ensures (charged0 + [0])[k] + Budget(ring[k]) <= 2 * STNRETRY + 2
    {
      if k < |ring0| { assert ring[k] == ring0[k]; }
    }
  }
}
