// The streaming mode of backends/innxmit.c: a ring of articles in flight.
module Innxmit {
  import opened StreamRing
  import opened Wrappers

  // Why `strlisten` returned.
  datatype Heard =
    | Good
    | NoReply      // no line could be read
    | CantFind     // the reply names an id that is not in the ring
    | OutOfOrder   // ... or not the oldest one
    | CantParse    // ... or none
    | GiveUp       // 400 or 403
    | Unexpected   // any other code
    | Ordering     // strel: not the oldest slot
    | NoSlot       // stalloc: no free slot, or the file name is too long
    | NotSent      // the resubmission could not be sent
    | NoArticle    // takethis: the article was sent already
    | Stopped      // the program ended: the temporary file could not be written

  // Errors of the ring itself, as opposed to the connection.
  predicate Confused(h: Heard) {
    h == CantFind || h == OutOfOrder || h == CantParse || h == Ordering || h == NoArticle
  }

  // What becomes of the batch file.
  datatype Exit =
    | Untouched                         // left as it was
    | Rewritten(lines: seq<string>)     // replaced by these lines
    | Removed                           // everything was dealt with

  // What `QIOread` and the parsing of a line give.
  datatype Item =
    | TooLong                           // line longer than the buffer: skipped
    | ReadError
    | Ignored(raw: string)              // blank, malformed, or with too long an id
    | Article(raw: string, fname: string, id: Option<string>)

  // What `article_open` gives.
  datatype Opened =
    | Missing(counted: bool)            // not there any more
    | Broken                            // put back into the batch
    | Ready(header: Option<string>)     // open, with the Message-ID of its header

  // What became of a line of the batch file.
  datatype Outcome =
    | Skipped                             // too long, blank or malformed
    | Gone                                // the article is not there any more
    | SetAside(line: string)              // it could not be read
    | Nameless                            // it has no Message-ID
    | Duplicate(id: string)               // its id was taken up before
    | Taken(line: string, id: string)     // taken up

  // What can become of a line, given what is known of its article.
  predicate Fits(i: Item, art: Opened, o: Outcome) {
    match i
    case TooLong => o.Skipped?
    case ReadError => false
    case Ignored(_) => o.Skipped?
    case Article(_, fname, mid) =>
      match art
      case Missing(_) => o.Gone?
      case Broken => o == SetAside(CurrentLine(fname, mid))
      case Ready(header) =>
        if mid.None? && header.None? then o.Nameless? else
          var id := if mid.Some? then mid.value else header.value;
          || o == Duplicate(id)
          || (o.Taken? && o.id == Copy(id, MAXLEN_COMMAND)
              && (o.line == Line(fname, id) || o.line == Line(fname, o.id)))
  }

  // The lines of all that was taken up or set aside.
  function TakenLines(os: seq<Outcome>): (lines: multiset<string>) {
    if os == [] then multiset{} else TakenLines(os[..|os| - 1]) + LineOf(os[|os| - 1])
  }

  function LineOf(o: Outcome): (lines: multiset<string>) {
    if o.Taken? || o.SetAside? then multiset{o.line} else multiset{}
  }

  function TakenIds(os: seq<Outcome>): (ids: set<string>) {
    set k | 0 <= k < |os| && os[k].Taken? :: os[k].id
  }

  // Every line has the outcome that fits it, and no id is called a duplicate that was
  // not taken up before.
  ghost predicate AllFit(items: seq<Item>, arts: seq<Opened>, os: seq<Outcome>) {
    && |os| <= |items| && |os| <= |arts|
    && forall k :: 0 <= k < |os| ==>
      Fits(items[k], arts[k], os[k]) && (os[k].Duplicate? ==> os[k].id in TakenIds(os[..k]))
  }

  lemma FitsMore(items: seq<Item>, arts: seq<Opened>, os: seq<Outcome>, o: Outcome)
    requires AllFit(items, arts, os) && |os| < |items| && |os| < |arts|
    requires Fits(items[|os|], arts[|os|], o) && (o.Duplicate? ==> o.id in TakenIds(os))
    ensures AllFit(items, arts, os + [o])
  {
    var more := os + [o];
    hide Fits, TakenIds;
    forall k | 0 <= k < |more|
      ensures Fits(items[k], arts[k], more[k]) && (more[k].Duplicate? ==> more[k].id in TakenIds(more[..k]))
    {
      assert if k < |os| then more[..k] == os[..k] && more[k] == os[k] else more[..k] == os && more[k] == o;
    }
  }

  lemma TakenMore(os: seq<Outcome>, o: Outcome)
    ensures TakenLines(os + [o]) == TakenLines(os) + LineOf(o)
    ensures TakenIds(os + [o]) == TakenIds(os) + if o.Taken? then {o.id} else {}
  {
    var more := os + [o];
    assert more[..|os|] == os && more[|os|] == o;
    forall k | 0 <= k < |os|
      ensures more[k] == os[k]
    {
    }
  }

  // How many of the replies have such a code.
  function Codes(log: seq<Reply>, codes: set<int>): (n: nat) {
    if log == [] then 0 else Codes(log[..|log| - 1], codes) + if log[|log| - 1].code in codes then 1 else 0
  }

  // What the counters must be after these replies.
  ghost predicate Said(log: seq<Reply>, c: Counters) {
    && c.accepted == Codes(log, {239}) && c.rejected == Codes(log, {439}) && c.refused == Codes(log, {438, 501})
    && c.nofail == NoFail(log)
  }

  // What the program counts of the replies.
  datatype Counters = Counters(accepted: nat, rejected: nat, refused: nat, nofail: nat)

  // The counters after one more reply.
  function CountedOn(c: Counters, code: int): (d: Counters) {
    if code == 239 then c.(accepted := c.accepted + 1)
    else if code == 439 then c.(rejected := c.rejected + 1, nofail := 0)
    else if code == 438 || code == 501 then c.(refused := c.refused + 1, nofail := 0)
    else if code == 238 then c.(nofail := c.nofail + 1)
    else c
  }

  lemma SaidStep(log: seq<Reply>, acted: nat, r: Reply, c: Counters)
    requires |log| == acted + 1 && log[acted] == r && Said(log[..acted], c)
    ensures Said(log[..acted + 1], CountedOn(c, r.code))
  {
    assert log[..acted + 1][..acted] == log[..acted];
  }

  // What the program has heard, and what has failed on its side: commands or articles
  // that could not be sent, and work on the temporary file.
  datatype Contact = Contact(replies: seq<Reply>, log: seq<Reply>, cutOff: nat, spoiled: nat)

  // A code that strlisten acts on.
  predicate Heeded(code: int) { Named(code) || code == 501 }

  // Why a reply ends the run.
  predicate Reason(h: Heard, r: Reply) {
    match h
    case GiveUp => r.code == 400 || r.code == 403
    case Unexpected => !Heeded(r.code) && r.code != 400 && r.code != 403
    case CantParse => Named(r.code) && ReplyId(r.line).None?
    case CantFind => Named(r.code) && ReplyId(r.line).Some?
    case OutOfOrder => Named(r.code) && ReplyId(r.line).Some?
    case NoArticle => r.code == 238
    case _ => Heeded(r.code)
  }

  // The outcome is that of a reply.
  predicate ByReply(h: Heard) {
    h == GiveUp || h == Unexpected || h == CantParse || h == CantFind || h == OutOfOrder || h == NoArticle
  }

  // From a to b: what was heard was logged, and all of it heeded but for a reply that
  // ended the run; and only a failure, or the end of the replies, ends it otherwise.
  ghost predicate Told(h: Heard, a: Contact, b: Contact) {
    && Spoken(a.replies, a.log, b.replies, b.log) && |a.log| <= |b.log|
    && (if h == NotSent then b.cutOff > a.cutOff else b.cutOff == a.cutOff)
    && (if h == Stopped then b.spoiled > a.spoiled else b.spoiled == a.spoiled)
    && (h == NoReply ==> b.replies == [])
    && (ByReply(h) ==> |a.log| < |b.log| && Reason(h, b.log[|b.log| - 1]))
    && (forall k :: |a.log| <= k < |b.log| && (k < |b.log| - 1 || !ByReply(h) || h == NoArticle) ==>
          Heeded(b.log[k].code))
  }

  lemma ToldNothing(a: Contact)
    ensures Told(Good, a, a)
  {
    assert a.replies[0..] == a.replies && a.replies[..0] == [];
  }

  lemma ToldThen(h: Heard, a: Contact, b: Contact, c: Contact)
    requires Told(Good, a, b) && Told(h, b, c)
    ensures Told(h, a, c)
  {
    SpokenThen(a.replies, a.log, b.replies, b.log, c.replies, c.log);
    SpokenLog(a, b);
    SpokenLog(b, c);
    hide Spoken, Reason, Heeded;
  }

  lemma SpokenLog(a: Contact, b: Contact)
    requires Spoken(a.replies, a.log, b.replies, b.log)
    ensures a.log <= b.log
  {
  }

  predicate ItemOk(i: Item) {
    i.Article? ==> i.fname != "" && (i.id.Some? ==> Indexable(i.id.value))
  }

  lemma {:induction false} RawSnoc(items: seq<Item>, i: Item)
    ensures Raw(items + [i]) == Raw(items) + Raw([i])
  {
    if items == [] {
      assert items + [i] == [i];
    } else {
      RawSnoc(items[1..], i);
      assert (items + [i])[1..] == items[1..] + [i];
    }
  }

  function Raw(items: seq<Item>): (ls: seq<string>) {
    if items == [] then []
    else (if items[0].Ignored? || items[0].Article? then [items[0].raw] else []) + Raw(items[1..])
  }

  function CurrentLine(fname: string, id: Option<string>): (s: string) {
    if id.Some? then Line(fname, id.value) else fname
  }

  function Lone(line: Option<string>): (ls: seq<string>) {
    if line.Some? then [line.value] else []
  }

  // The line in the program's hands.
  function Held(hand: Option<string>): (lines: multiset<string>) {
    if hand.Some? then multiset{hand.value} else multiset{}
  }

  // Every live slot has a name that can be requeued, and retries within bounds.
  ghost predicate SlotsFit(ring: seq<Slot>) {
    && (forall k :: 0 <= k < |ring| ==> ring[k].fname != "" && |ring[k].fname| < SPOOLNAMEBUFF)
    && Retries(ring)
  }

  // The ids are found again, and no two live slots have the same one.
  ghost predicate IdsFit(ring: seq<Slot>, odd: bool, hash: string -> int) {
    && (forall k :: 0 <= k < |ring| ==>
          |ring[k].id| < MAXLEN_COMMAND && (!odd ==> ring[k].id != "" && ring[k].hash == hash(ring[k].id)))
    && (!odd ==> forall j, k :: 0 <= j < k < |ring| ==> ring[j].id != ring[k].id)
  }

  lemma SnocFits(r: seq<Slot>, st: Slot, odd: bool, hash: string -> int)
    requires SlotsFit(r) && IdsFit(r, odd, hash)
    requires st.fname != "" && |st.fname| < SPOOLNAMEBUFF && st.retry <= STNRETRY && |st.id| < MAXLEN_COMMAND
    requires !odd ==> st.id != "" && st.hash == hash(st.id) && forall k :: 0 <= k < |r| ==> r[k].id != st.id
    ensures SlotsFit(r + [st]) && IdsFit(r + [st], odd, hash)
  {
  }

  class Sender {
    const stbuf: array<Slot>
    const hash: string -> int      // `stidhash`
    const doCheck: bool            // DoCheck
    const alwaysRewrite: bool      // AlwaysRewrite
    var stnq: nat
    var stoldest: nat
    var stnofail: nat
    var offered: nat
    var accepted: nat
    var refused: nat
    var rejected: nat
    var missing: nat
    var retries: nat
    var temp: Option<seq<string>>  // lines of the temporary file, once it is open
    var replies: seq<Reply>        // what the peer will still say
    var sent: seq<Command>         // commands written so far
    ghost var ring: seq<Slot>      // the articles in flight, oldest first
    ghost var charged: seq<nat>    // how many final replies each of them had
    ghost var log: seq<Reply>      // the final replies so far
    ghost var acted: nat           // how many of them were acted on
    ghost var given: multiset<string>    // lines of all articles taken up so far
    ghost var settled: multiset<string>  // those that had a final answer
    ghost var polite: bool         // every final reply so far was one RFC 4644 allows
    ghost var deferred: nat        // articles put back after a 431
    ghost var entered: nat         // articles that entered the ring
    ghost var odd: bool            // some id was empty or too long to store
    ghost var cutOff: nat          // how often something could not be sent
    ghost var texts: nat           // how many articles were sent
    ghost var spoiled: nat         // how often the temporary file could not be written

    // The array holds the ring from stoldest on, and nothing else.
    ghost predicate RingOk()
      reads `stnq, `stoldest, `ring, stbuf
    {
      && stbuf.Length == STNBUF && stoldest < STNBUF
      && stnq == |ring| <= STNBUF
      && (forall i :: 0 <= i < STNBUF ==>
            if Age(stoldest, i) < stnq then stbuf[i] == ring[Age(stoldest, i)] else stbuf[i].id == "")
    }

    ghost predicate SlotsOk()
      reads `ring
    {
      SlotsFit(ring)
    }

    ghost predicate IdsOk()
      reads `ring, `odd
    {
      IdsFit(ring, odd, hash)
    }

    ghost function TempLines(): (ls: seq<string>)
      reads `temp
    {
      if temp.Some? then temp.value else []
    }

    // Nothing is lost: what was taken up had a final answer, is in the temporary file,
    // or is in the ring, or is `held` by the code that runs.
    ghost predicate KeptBut(held: multiset<string>)
      reads `given, `settled, `temp, `ring
    {
      given == settled + multiset(TempLines()) + multiset(Lines(ring)) + held
    }

    ghost predicate Kept()
      reads `given, `settled, `temp, `ring
    {
      KeptBut(multiset{})
    }

    // `polite` says what it should about the commands and the replies to them.
    ghost predicate Trace()
      reads `sent, `log, `polite
    {
      |log| <= |sent| && (polite <==> AllInOrder(sent, log))
    }

    // No article had more replies than it may have, and the ring is not said to be
    // confused unless the peer has broken the rules.
    ghost predicate Fair(h: Heard)
      reads `sent, `log, `polite, `entered, `odd
    {
      Trace() && |log| <= (2 * STNRETRY + 2) * entered && (Confused(h) && !odd ==> !polite)
    }

    ghost predicate Pipeline()
      reads `sent, `acted, `ring, `polite
    {
      InFlight(sent, acted, ring, polite)
    }

    ghost predicate Counted()
      reads `offered, `accepted, `rejected, `refused, `retries, `deferred, `stnq
    {
      offered == accepted + rejected + refused + retries + deferred + stnq
    }

    ghost predicate Bounded()
      reads `charged, `ring, `acted, `entered
      requires Retries(ring)
    {
      WithinBudget(charged, ring, acted, entered)
    }

    // As many articles had a final answer as the counters say.
    ghost predicate Tallied()
      reads `settled, `accepted, `rejected, `refused
    {
      |settled| == accepted + rejected + refused
    }

    // The counters say what the peer has said, as far as it was acted on.
    ghost predicate Answered()
      reads `accepted, `rejected, `refused, `stnofail, `log, `acted
    {
      acted <= |log| && Said(log[..acted], Counts())
    }

    ghost function Counts(): Counters
      reads `accepted, `rejected, `refused, `stnofail
    {
      Counters(accepted, rejected, refused, stnofail)
    }

    ghost function Now(): Contact
      reads `replies, `log, `cutOff, `spoiled
    {
      Contact(replies, log, cutOff, spoiled)
    }

    // A new article is announced by a CHECK, until enough of them were wanted.
    predicate Careful()
      reads `stnofail
    {
      doCheck && stnofail < STNC
    }

    ghost predicate Sound()
      reads `stnq, `stoldest, `ring, `odd, `given, `settled, `temp, `accepted, `rejected, `refused, stbuf
    {
      RingOk() && SlotsOk() && IdsOk() && Kept() && Tallied()
    }

    ghost predicate Valid()
      reads this, stbuf
    {
      Sound() && Trace() && Pipeline() && Counted() && Bounded() && Answered() && acted == |log|
    }

    // What holds whenever an article has been dealt with, or could not be.
    ghost predicate After(h: Heard, hand: Option<string>)
      reads this, stbuf
    {
      (h != Stopped ==> Sound()) && (h == Good ==> Valid() && hand == None) && Fair(h)
    }

    // The state after MODE STREAM was accepted.
    constructor (hash: string -> int, doCheck: bool, alwaysRewrite: bool, replies: seq<Reply>)
      ensures Valid() && ring == [] && given == settled == multiset{} && temp == None && entered == 0 && !odd && polite
      ensures Now() == Contact(replies, [], 0, 0)
      ensures fresh(stbuf)
    {
      this.hash, this.doCheck, this.alwaysRewrite, this.replies := hash, doCheck, alwaysRewrite, replies;
      stbuf := new Slot[STNBUF](_ => FREE);
      stnq, stoldest, stnofail, temp, sent := 0, 0, 0, None, [];
      offered, accepted, refused, rejected, missing, retries := 0, 0, 0, 0, 0, 0;
      ring, charged, log, acted, given, settled := [], [], [], 0, multiset{}, multiset{};
      deferred, entered, odd, polite, cutOff, texts, spoiled := 0, 0, false, true, 0, 0, 0;
      new;
      assert Lines([]) == [];
    }

    // ----- the ring -----

    predicate Hit(s: Slot, id: string, h: int) {
      s.id != "" && s.hash == h && s.id == id
    }

    // `stindex`
    method StIndex(id: string, h: int) returns (i: int)
      requires stbuf.Length == STNBUF
      ensures -1 <= i < STNBUF
      ensures i >= 0 ==> Hit(stbuf[i], id, h) && forall j :: 0 <= j < i ==> !Hit(stbuf[j], id, h)
      ensures i < 0 ==> forall j :: 0 <= j < STNBUF ==> !Hit(stbuf[j], id, h)
    {
      i := 0;
      while i < STNBUF
        invariant 0 <= i <= STNBUF
        invariant forall j :: 0 <= j < i ==> !Hit(stbuf[j], id, h)
      {
        if stbuf[i].id != "" && stbuf[i].hash == h && stbuf[i].id == id {
          return;
        }
        i := i + 1;
      }
      i := -1;
    }

    // `stalloc`
    method StAlloc(fname: string, id: string, art: bool, h: int, retry: nat) returns (i: int)
      requires RingOk()
      modifies this`stnq, this`ring, stbuf
      ensures RingOk()
      ensures i < 0 <==> old(stnq) >= STNBUF || |fname| >= SPOOLNAMEBUFF
      ensures i < 0 ==> ring == old(ring)
      ensures i >= 0 ==>
        && old(stnq) < STNBUF && i == Place(stoldest, old(stnq))
        && ring == old(ring) + [Slot(fname, Copy(id, MAXLEN_COMMAND), retry, art, h)]
    {
      if stnq >= STNBUF {
        return -1;
      }
      i := (stoldest + stnq) % STNBUF;
      assert i == Place(stoldest, stnq);
      if |fname| >= SPOOLNAMEBUFF {
        return -1;
      }
      stbuf[i] := Slot(Copy(fname, SPOOLNAMEBUFF), Copy(id, MAXLEN_COMMAND), retry, art, h);
      ring := ring + [stbuf[i]];
      stnq := stnq + 1;
    }

    // `strel`: the oldest slot only.
    method StRel(i: nat) returns (failed: bool)
      requires RingOk() && i < STNBUF && stnq > 0
      modifies this`stnq, this`stoldest, this`ring, stbuf
      ensures RingOk()
      ensures failed <==> i != old(stoldest)
      ensures failed ==> ring == old(ring) && stoldest == old(stoldest)
      ensures !failed ==> ring == old(ring)[1..] && stnq == old(stnq) - 1
      ensures stbuf[..] == if failed then old(stbuf[..])
                           else old(stbuf[..])[i := old(stbuf[i]).(art := false, id := "", fname := "")]
    {
      if i != stoldest {
        return true;
      }
      stbuf[i] := stbuf[i].(art := false, id := "", fname := "");
      stoldest := (stoldest + 1) % STNBUF;
      stnq := stnq - 1;
      ring := ring[1..];
      failed := false;
    }

    // ----- talking to the peer -----

    // `REMwrite`: a command is on its way, or the connection is gone.
    method Write(c: Command) returns (ok: bool)
      modifies this`sent, this`cutOff
      ensures sent == if ok then old(sent) + [c] else old(sent)
      ensures cutOff == old(cutOff) + if ok then 0 else 1
    {
      ok := *;
      if ok {
        sent := sent + [c];
      } else {
        cutOff := cutOff + 1;
      }
    }

    // `REMsendarticle`: the text of the article.
    method SendArticle() returns (ok: bool)
      modifies this`cutOff, this`texts
      ensures cutOff == old(cutOff) + if ok then 0 else 1
      ensures texts == old(texts) + if ok then 1 else 0
    {
      ok := *;
      if ok {
        texts := texts + 1;
      } else {
        cutOff := cutOff + 1;
      }
    }

    // `check`
    method CheckArticle(i: nat) returns (failed: bool)
      requires stbuf.Length == STNBUF && i < STNBUF
      modifies this`sent, this`cutOff, this`offered
      ensures !failed ==> sent == old(sent) + [Check(stbuf[i].id)] && offered == old(offered) + 1
      ensures failed ==> sent == old(sent) && offered == old(offered)
      ensures cutOff == old(cutOff) + if failed then 1 else 0
    {
      var ok := Write(Check(stbuf[i].id));
      if !ok {
        return true;
      }
      offered := offered + 1;
      failed := false;
    }

    // `takethis`: command and article; afterwards the article is not kept open.
    method TakeThisArticle(i: nat) returns (h: Heard)
      requires Sound() && i < STNBUF && Age(stoldest, i) < stnq
      modifies this`sent, this`cutOff, this`texts, this`ring, stbuf
      ensures Sound()
      ensures h == Good || h == NotSent || h == NoArticle
      ensures h == NoArticle <==> !old(stbuf[i].art)
      ensures texts == old(texts) + if h == Good then 1 else 0
      ensures h == Good ==>
        && sent == old(sent) + [TakeThis(old(stbuf[i].id))]
        && ring == old(ring)[Age(stoldest, i) := old(stbuf[i]).(art := false)]
      ensures h != Good ==> ring == old(ring) && old(sent) <= sent
      ensures cutOff == old(cutOff) + if h == NotSent then 1 else 0
    {
      hide Sound, Age;
      SoundSize();
      if !stbuf[i].art {
        h := NoArticle;
      } else {
        var ok := Write(TakeThis(stbuf[i].id));
        if ok {
          ok := SendArticle();
        }
        if ok {
          Sent(i);
        }
        h := if ok then Good else NotSent;
      }
    }

    // The article is let go.
    method Sent(i: nat)
      requires Sound() && i < STNBUF && Age(stoldest, i) < stnq
      modifies this`ring, stbuf
      ensures Sound() && ring == old(ring)[Age(stoldest, i) := old(stbuf[i]).(art := false)]
    {
      ghost var k := Age(stoldest, i);
      LinesArt(ring, k);
      hide Lines;
      stbuf[i] := stbuf[i].(art := false);
      ring := ring[k := stbuf[i]];
    }

    // `REMread` until a reply that is not informational: the first such one, if there is
    // one, and no more of the replies than that.
    method ReadReply() returns (r: Option<Reply>)
      modifies this`replies, this`log
      ensures Spoken(old(replies), old(log), replies, log)
      ensures r.None? <==> Finals(old(replies)) == []
      ensures r.None? ==> log == old(log) && replies == []
      ensures r.Some? ==> !Informational(r.value) && log == old(log) + [r.value]
      ensures r.Some? ==> |replies| < |old(replies)| && old(replies)[|old(replies)| - |replies| - 1] == r.value
    {
      ghost var rs := replies;
      PassedNothing(rs);
      hide Passed;
      while |replies| > 0
        invariant log == old(log) && Passed(rs, replies)
        decreases |replies|
      {
        var reply := replies[0];
        if Informational(reply) {
          PassedOne(rs, replies);
        } else {
          HeardOne(rs, log, replies);
        }
        replies := replies[1..];
        if !Informational(reply) {
          log := log + [reply];
          return Some(reply);
        }
      }
      PassedAll(rs, log, replies);
      r := None;
    }

    // Open the temporary file, if it is not open yet, and write a line to it (`Requeue`).
    // On a write error the program ends and the batch file stays as it is.
    method Requeue(line: Option<string>) returns (ok: bool)
      modifies this`temp, this`spoiled
      ensures ok ==> temp == Some(old(TempLines()) + Lone(line))
      ensures spoiled == old(spoiled) + if ok then 0 else 1
    {
      ok := *;
      if !ok {
        spoiled := spoiled + 1;
      } else {
        var lines := if temp.Some? then temp.value else [];
        temp := Some(lines + Lone(line));
      }
    }

    // What the first slot with an id, or its absence, says of the ring.
    lemma FoundSlot(id: string, i: int)
      requires RingOk() && IdsOk() && stnq > 0 && -1 <= i < STNBUF
      requires i >= 0 ==> Hit(stbuf[i], id, hash(id))
      requires i < 0 ==> forall j :: 0 <= j < STNBUF ==> !Hit(stbuf[j], id, hash(id))
      ensures i >= 0 ==> id in Ids(ring) && (i == stoldest ==> id == ring[0].id)
      ensures !odd ==> (i < 0 <==> id !in Ids(ring)) && (i == stoldest <==> id == ring[0].id)
    {
      if i >= 0 {
        assert ring[Age(stoldest, i)].id == id;
        assert i == stoldest <==> Age(stoldest, i) == 0;
      }
      if !odd && id in Ids(ring) {
        var k :| 0 <= k < |ring| && ring[k].id == id;
        assert Age(stoldest, Place(stoldest, k)) == k && stbuf[Place(stoldest, k)] == ring[k];
      }
    }

    // The first switch of `strlisten`: does the reply belong to the oldest command?
    method Locate(r: Reply) returns (h: Heard)
      requires RingOk() && IdsOk() && stnq > 0
      ensures h in {Good, CantFind, OutOfOrder, CantParse, GiveUp, Unexpected} && Reason(h, r)
      ensures h == Good && Named(r.code) ==> ReplyId(r.line) == Some(ring[0].id)
      ensures h == OutOfOrder ==> ReplyId(r.line).value in Ids(ring)
      ensures !odd && Named(r.code) && ReplyId(r.line).Some? ==>
        var id := ReplyId(r.line).value;
        && (h == Good <==> id == ring[0].id) && (h == OutOfOrder <==> id != ring[0].id && id in Ids(ring))
        && (h == CantFind <==> id !in Ids(ring))
    {
      if r.code == 501 {
        return Good;
      } else if Named(r.code) {
        match ReplyId(r.line)
        case None => return CantParse;
        case Some(id) =>
          var i := StIndex(id, hash(id));
          FoundSlot(id, i);
          if i < 0 {
            return CantFind;
          }
          if i != stoldest {
            return OutOfOrder;
          }
          return Good;
      } else if r.code == 400 || r.code == 403 {
        return GiveUp;
      } else {
        return Unexpected;
      }
    }

    // A slot at the end of the ring, with the name that the code holds.
    method Alloc(fname: string, id: string, art: bool, h: int, retry: nat) returns (i: int)
      requires RingOk() && SlotsOk() && IdsOk() && Tallied() && stnq < STNBUF && retry <= STNRETRY && fname != ""
      requires |fname| < SPOOLNAMEBUFF ==>
        var st := Slot(fname, Copy(id, MAXLEN_COMMAND), retry, art, h);
        && KeptBut(multiset{Line(st.fname, st.id)})
        && (!odd ==> st.id != "" && st.hash == hash(st.id) && forall k :: 0 <= k < |ring| ==> ring[k].id != st.id)
      requires |fname| >= SPOOLNAMEBUFF ==> Kept()
      modifies this`stnq, this`ring, stbuf
      ensures Sound() && i < STNBUF
      ensures i < 0 <==> |fname| >= SPOOLNAMEBUFF
      ensures i < 0 ==> ring == old(ring)
      ensures i >= 0 ==>
        && ring == old(ring) + [Slot(fname, Copy(id, MAXLEN_COMMAND), retry, art, h)]
        && Age(stoldest, i) == |ring| - 1 && stbuf.Length == STNBUF && stbuf[i] == ring[|ring| - 1]
        && stnq == |ring| == old(stnq) + 1
    {
      hide Lines, Line, SlotsFit, IdsFit;
      ghost var r0 := ring;
      i := StAlloc(fname, id, art, h, retry);
      if i >= 0 {
        ghost var st := ring[|r0|];
        assert ring == r0 + [st] && stbuf[i] == st && |ring| == stnq;
        SnocFits(r0, st, odd, hash);
        hide RingOk;
        SnocKept(r0, st);
      }
    }

    lemma SnocKept(r0: seq<Slot>, st: Slot)
      requires ring == r0 + [st]
      requires given == settled + multiset(TempLines()) + multiset(Lines(r0)) + multiset{Line(st.fname, st.id)}
      ensures Kept()
    {
      LinesSnoc(r0, st);
    }

    // ... and its command is sent again.
    method Resubmit(st: Slot, again: bool) returns (h: Heard)
      requires RingOk() && SlotsOk() && IdsOk() && Tallied() && KeptBut(multiset{Line(st.fname, st.id)})
      requires stnq < STNBUF && st.retry <= STNRETRY && st.fname != "" && |st.fname| < SPOOLNAMEBUFF
      requires |st.id| < MAXLEN_COMMAND
      requires !odd ==> st.id != "" && st.hash == hash(st.id) && forall k :: 0 <= k < |ring| ==> ring[k].id != st.id
      modifies this`stnq, this`ring, this`sent, this`cutOff, this`texts, this`offered, stbuf
      ensures Sound() && stnq == old(stnq) + 1
      ensures h == Good || h == NotSent || h == NoArticle
      ensures h == NoArticle <==> !again && !st.art
      ensures h == Good ==>
        && sent == old(sent) + [if again then Check(st.id) else TakeThis(st.id)]
        && ring == old(ring) + [if again then st else st.(art := false)]
        && offered == old(offered) + (if again then 1 else 0)
      ensures old(sent) <= sent && cutOff == old(cutOff) + if h == NotSent then 1 else 0
    {
      hide RingOk, SlotsOk, IdsOk, KeptBut, Kept, Line;
      var i := Alloc(st.fname, st.id, st.art, st.hash, st.retry);
      assert ring[|ring| - 1] == st;
      hide Sound;
      assert stbuf[i] == st;
      if again {
        var failed := CheckArticle(i);
        h := if failed then NotSent else Good;
      } else {
        h := TakeThisArticle(i);
      }
    }

    // The oldest slot is released, and its contents are kept aside.
    method Steal() returns (st: Slot, failed: bool)
      requires Sound() && stnq > 0
      modifies this`stnq, this`stoldest, this`ring, stbuf
      ensures stnq + 1 == old(stnq)
      ensures !failed && st == old(ring)[0] && ring == old(ring)[1..]
      ensures RingOk() && SlotsOk() && IdsOk() && Tallied() && KeptBut(multiset{Line(st.fname, st.id)})
      ensures stnq < STNBUF && st.retry <= STNRETRY && st.fname != "" && |st.fname| < SPOOLNAMEBUFF
      ensures |st.id| < MAXLEN_COMMAND
      ensures !odd ==> st.id != "" && st.hash == hash(st.id) && forall k :: 0 <= k < |ring| ==> ring[k].id != st.id
    {
      assert Age(stoldest, stoldest) == 0;
      st := stbuf[stoldest];
      LinesFront(ring);
      hide Lines;
      failed := StRel(stoldest);
      assert SlotsOk();
      assert IdsOk();
      assert KeptBut(multiset{Line(st.fname, st.id)});
    }

    // An article had its final answer ...
    ghost method Settle(line: string)
      requires KeptBut(multiset{line})
      modifies this`settled
      ensures Kept() && settled == old(settled) + multiset{line}
    {
      SettleOne(settled, TempLines(), multiset(Lines(ring)), line);
      settled := settled + multiset{line};
    }

    // ... or goes back into the batch file.
    method Defer(line: string) returns (ok: bool)
      requires KeptBut(multiset{line})
      modifies this`temp, this`spoiled, this`deferred
      ensures ok ==> Kept() && deferred == old(deferred) + 1 && TempLines() == old(TempLines()) + [line]
      ensures spoiled == old(spoiled) + if ok then 0 else 1
    {
      SettleOne(settled, TempLines(), multiset(Lines(ring)), line);
      ok := Requeue(Some(line));
      if ok {
        deferred := deferred + 1;
      }
    }

    // The peer said what it has to say about an article.
    method Conclude(st: Slot, code: int) returns (h: Heard)
      requires RingOk() && SlotsOk() && IdsOk() && Tallied() && KeptBut(multiset{Line(st.fname, st.id)})
      requires Heeded(code) && code != 238
      modifies this`temp, this`spoiled, this`deferred, this`accepted, this`rejected, this`refused, this`stnofail
      modifies this`settled
      ensures h == Good || h == Stopped
      ensures h == Good ==> Sound()
      ensures h == Good ==>
        accepted + rejected + refused + deferred == old(accepted) + old(rejected) + old(refused) + old(deferred) + 1
      ensures h == Good ==> Counts() == CountedOn(old(Counts()), code)
      ensures h == Good ==>
        TempLines() == old(TempLines()) + if code == 431 then [Line(st.fname, st.id)] else []
      ensures spoiled == old(spoiled) + if h == Stopped then 1 else 0
    {
      hide RingOk, SlotsOk, IdsOk, KeptBut, Kept, Line, Tallied, Counts;
      if code == 431 {
        var ok := Defer(Line(st.fname, st.id));
        if !ok {
          return Stopped;
        }
        SameCounts();
      } else {
        Decide(Line(st.fname, st.id), code);
      }
      h := Good;
    }

    lemma SameCounts()
      ensures Counts() == Counters(accepted, rejected, refused, stnofail)
    {
    }

    // The answer is final.
    method Decide(line: string, code: int)
      requires KeptBut(multiset{line}) && Tallied() && (code == 239 || code == 439 || code == 438 || code == 501)
      modifies this`accepted, this`rejected, this`refused, this`stnofail, this`settled
      ensures Kept() && Tallied() && Counts() == CountedOn(old(Counts()), code)
      ensures accepted + rejected + refused == old(accepted) + old(rejected) + old(refused) + 1
    {
      hide KeptBut, Kept;
      match code {
        case 239 =>
          accepted := accepted + 1;
        case 439 =>
          rejected := rejected + 1;
          stnofail := 0;
        case _ =>  // 501 and 438
          refused := refused + 1;
          stnofail := 0;
      }
      Settle(line);
    }

    // Fast retry of a CHECK, or the article after a 238.
    method SendAgain(st: Slot, code: int) returns (h: Heard)
      requires RingOk() && SlotsOk() && IdsOk() && Tallied() && KeptBut(multiset{Line(st.fname, st.id)})
      requires stnq < STNBUF && st.retry <= STNRETRY && st.fname != "" && |st.fname| < SPOOLNAMEBUFF
      requires |st.id| < MAXLEN_COMMAND && Again(st, code)
      requires !odd ==> st.id != "" && st.hash == hash(st.id) && forall k :: 0 <= k < |ring| ==> ring[k].id != st.id
      modifies this`stnq, this`ring, this`sent, this`cutOff, this`texts, this`offered, this`retries, this`stnofail
      modifies stbuf
      ensures Sound() && old(sent) <= sent && stnq == old(stnq) + 1
      ensures h == Good || h == NotSent || h == NoArticle
      ensures h == NoArticle ==> code == 238 && !st.art
      ensures h == Good ==>
        && ring == old(ring) + [Renewed(st, code)]
        && sent == old(sent) + [if code == 238 then TakeThis(st.id) else Check(st.id)]
        && (code == 238 ==> st.art)
        && offered - retries == old(offered) - old(retries)
      ensures h == Good ==> Counts() == CountedOn(old(Counts()), code)
      ensures cutOff == old(cutOff) + if h == NotSent then 1 else 0
    {
      hide SlotsOk, IdsOk, KeptBut, Line, RingOk, Sound;
      if code == 431 {
        retries := retries + 1;
        h := Resubmit(st.(retry := st.retry + 1), true);
      } else {
        stnofail := stnofail + 1;
        h := Resubmit(st.(retry := 0), false);
      }
    }

    lemma SoundSize()
      requires Sound()
      ensures |ring| == stnq <= STNBUF == stbuf.Length
    {
    }

    // The second switch of `strlisten`, for a reply to the oldest command.
    method Act(r: Reply) returns (h: Heard)
      requires Sound() && stnq > 0 && Heeded(r.code)
      modifies this`stnq, this`stoldest, this`ring, this`sent, this`cutOff, this`texts, this`offered, this`retries
      modifies this`stnofail, stbuf
      modifies this`temp, this`spoiled, this`deferred, this`accepted, this`rejected, this`refused, this`settled
      ensures h == Good || h == NotSent || h == NoArticle || h == Stopped
      ensures h != Stopped ==> Sound()
      ensures old(sent) <= sent
      ensures h == NoArticle ==> r.code == 238 && !old(ring)[0].art
      ensures h == Good ==> Moved(old(sent), old(ring), sent, ring, r)
      ensures h == Good && old(Counted()) ==> Counted()
      ensures h == Good ==> Counts() == CountedOn(old(Counts()), r.code) && stnq >= old(stnq) - 1
      ensures cutOff == old(cutOff) + if h == NotSent then 1 else 0
      ensures spoiled == old(spoiled) + if h == Stopped then 1 else 0
    {
      hide SlotsOk, IdsOk, KeptBut, Kept, Line, RingOk;
      assert |ring| == stnq by { SoundSize(); }
      var st, failed := Steal();
      hide SlotsOk, IdsOk, KeptBut, Line, RingOk, Sound, Renewed;
      if Again(st, r.code) {
        h := SendAgain(st, r.code);
      } else {
        h := Conclude(st, r.code);
      }
    }

    // All is well but for the last reply, which was not acted on yet.
    ghost predicate Unacted(r: Reply)
      reads this, stbuf
    {
      && Sound() && Trace() && Pipeline() && Counted() && Bounded() && Answered()
      && |log| == acted + 1 && log[acted] == r && (polite ==> InOrder(sent[acted], r))
    }

    // The first half of `strlisten`: read one final reply and find the command it answers.
    method Hear() returns (h: Heard, r: Reply)
      requires Valid() && stnq > 0
      modifies this`replies, this`log, this`polite
      ensures Sound() && Fair(h)
      ensures h == Good ==> Unacted(r)
      ensures h in {Good, NoReply, CantFind, OutOfOrder, CantParse, GiveUp, Unexpected}
      ensures Told(h, old(Now()), Now()) && (h == NoReply <==> Finals(old(replies)) == [])
      ensures log == if h == NoReply then old(log) else old(log) + [r]
      ensures h != NoReply ==> Reason(h, r)
    {
      ghost var a := Now();
      hide Valid, Sound, Fair, Unacted, InOrder, Spoken, Finals, Reason;
      ValidBound();
      var reply := HearReply();
      r := Reply(0, "");
      if reply.None? {
        return NoReply, r;
      }
      r := reply.value;
      UnactedParts(r);
      h := Locate(r);
      OneHeard(h, a, Now(), r);
      NotInOrder(sent[acted], r, ring[0].id);
      UnactedFair(h, r);
    }

    lemma UnactedParts(r: Reply)
      requires Unacted(r) && stnq > 0
      ensures Sound() && RingOk() && IdsOk() && |ring| == stnq && acted < |sent| && sent[acted].id == ring[0].id
      ensures polite ==> InOrder(sent[acted], r)
    {
      hide RingBudget, AllInOrder, KeptBut;
      assert sent[acted + 0].id == ring[0].id;
    }

    lemma OneHeard(h: Heard, a: Contact, b: Contact, r: Reply)
      requires Spoken(a.replies, a.log, b.replies, b.log) && b.log == a.log + [r] && Reason(h, r)
      requires h == Good || (ByReply(h) && h != NoArticle)
      requires b.cutOff == a.cutOff && b.spoiled == a.spoiled
      ensures Told(h, a, b)
    {
      hide Spoken;
    }

    lemma UnactedFair(h: Heard, r: Reply)
      requires Unacted(r) && Fair(Good) && (Confused(h) && !odd ==> !polite)
      ensures Fair(h)
    {
    }

    method HearReply() returns (r: Option<Reply>)
      requires Valid() && stnq > 0
      modifies this`replies, this`log, this`polite
      ensures r.None? ==> Sound() && Fair(NoReply)
      ensures r.Some? ==> Unacted(r.value) && Fair(Good)
      ensures r.None? <==> Finals(old(replies)) == []
      ensures r.None? ==> Told(NoReply, old(Now()), Now()) && log == old(log)
      ensures r.Some? ==> Spoken(old(replies), old(log), replies, log) && log == old(log) + [r.value]
    {
      hide Spoken, Finals;
      hide Valid, Counted, Bounded, InOrder, Said, AllInOrder, InFlight, Sound, Unacted, Fair;
      RoomForReply();
      ValidBound();
      ValidParts();
      OldestCommand();
      r := ReadReply();
      if r.None? {
        StillFair(Good, NoReply);
      } else {
        assert log[..acted] == old(log) == old(log)[..acted];
        Judge(old(log), r.value);
        hide Answered, Trace, Pipeline;
        IsUnacted(r.value);
      }
    }

    lemma StillFair(h0: Heard, h: Heard)
      requires Fair(h0) && !Confused(h)
      ensures Fair(h)
    {
    }

    lemma IsUnacted(r: Reply)
      requires Sound() && Trace() && Pipeline() && Counted() && Bounded() && Answered()
      requires |log| == acted + 1 && log[acted] == r && (polite ==> InOrder(sent[acted], r))
      requires acted + 1 <= (2 * STNRETRY + 2) * entered
      ensures Unacted(r) && Fair(Good)
    {
    }

    lemma OldestCommand()
      requires Valid() && stnq > 0
      ensures |ring| == stnq && acted < |sent| && sent[acted].id == ring[0].id
    {
      hide RingBudget;
      assert sent[acted + 0].id == ring[0].id;
    }

    // Whether the peer still keeps to the rules.
    ghost method Judge(log0: seq<Reply>, r: Reply)
      requires |log0| == acted < |sent| && log == log0 + [r] && (polite <==> AllInOrder(sent, log0)) && Pipeline()
      modifies this`polite
      ensures Trace() && polite == (old(polite) && InOrder(sent[acted], r)) && Pipeline()
    {
      TraceStep(sent, log0, r, polite);
      hide AllInOrder, InOrder;
      polite := polite && InOrder(sent[acted], r);
    }

    lemma SoundParts()
      requires Sound()
      ensures Retries(ring) && |ring| == stnq
    {
    }

    // The second half: act on the reply to the oldest command.
    method Respond(r: Reply) returns (h: Heard)
      requires Unacted(r) && stnq > 0 && Heeded(r.code) && Fair(Good)
      modifies this`stnq, this`stoldest, this`ring, this`sent, this`cutOff, this`texts, this`offered, this`retries
      modifies this`stnofail
      modifies this`temp, this`spoiled, this`deferred, this`accepted, this`rejected, this`refused, this`settled
      modifies this`charged, this`acted, stbuf
      ensures cutOff == old(cutOff) + if h == NotSent then 1 else 0
      ensures spoiled == old(spoiled) + if h == Stopped then 1 else 0
      ensures h == NoArticle ==> r.code == 238
      ensures h == Good ==> stnq >= old(stnq) - 1
      ensures h != Stopped ==> Sound()
      ensures h == Good ==> Valid() && RingBudget(ring) < RingBudget(old(ring)) && Ids(ring) <= Ids(old(ring))
      ensures Fair(h)
      ensures h == Good || h == NotSent || h == NoArticle || h == Stopped
    {
      hide Valid, Unacted, Fair, Sound, Named, Counted, AllInOrder, Moved, InOrder, RingBudget, WithinBudget, Ids, Said;
      hide CountedOn, InFlight;
      UnactedIs(r);
      NextCommand(r);
      ghost var sent0 := sent;
      h := Act(r);
      TraceMore(sent0, sent, log);
      if h == Good {
        SoundParts();
        SaidStep(log, acted, r, old(Counts()));
        Book(sent0, old(ring), r);
        IsValid();
      }
      IsFair(h);
    }

    lemma IsFair(h: Heard)
      requires Trace() && |log| <= (2 * STNRETRY + 2) * entered && (Confused(h) && !odd ==> !polite)
      ensures Fair(h)
    {
    }

    lemma UnactedIs(r: Reply)
      requires Unacted(r) && Fair(Good)
      ensures Sound() && Trace() && Pipeline() && Counted() && Bounded() && Answered() && Retries(ring)
      ensures |log| == acted + 1 && log[acted] == r && acted < |sent| && (polite ==> InOrder(sent[acted], r))
      ensures |log| <= (2 * STNRETRY + 2) * entered
    {
    }

    lemma IsValid()
      requires Sound() && Trace() && Pipeline() && Counted() && Bounded() && Answered() && acted == |log|
      ensures Valid()
    {
    }

    // As long as the peer is polite, the article that a TAKETHIS would send is open.
    lemma NextCommand(r: Reply)
      requires Unacted(r) && stnq > 0
      ensures |ring| == stnq && (polite && r.code == 238 ==> ring[0].art)
    {
      hide RingBudget;
      NotTaken(sent[acted], r);
      assert acted < |sent| && (polite ==> (sent[acted + 0].Check? <==> ring[0].art));
    }

    // The bookkeeping of a reply that was acted on.
    ghost method Book(sent0: seq<Command>, ring0: seq<Slot>, r: Reply)
      requires Moved(sent0, ring0, sent, ring, r) && InFlight(sent0, acted, ring0, polite)
      requires polite ==> InOrder(sent0[acted], r)
      requires Retries(ring0) && Retries(ring) && WithinBudget(charged, ring0, acted, entered)
      modifies this`charged, this`acted
      ensures Pipeline() && Bounded() && acted == old(acted) + 1
      ensures RingBudget(ring) < RingBudget(ring0) && Ids(ring) <= Ids(ring0)
    {
      charged := charged[1..] + (if Again(ring0[0], r.code) then [charged[0] + 1] else []);
      acted := acted + 1;
      InFlightStep(sent0, ring0, sent, ring, acted, polite, r);
      BudgetStep(old(charged), ring0, charged, ring, acted, entered, r);
      IdsStep(ring0, ring, r);
    }

    // `strlisten`: wait for one final reply and act on it.
    method StrListen() returns (h: Heard)
      requires Valid() && stnq > 0
      modifies this`stnq, this`stoldest, this`ring, this`sent, this`cutOff, this`texts, this`offered, this`retries
      modifies this`stnofail
      modifies this`temp, this`spoiled, this`deferred, this`accepted, this`rejected, this`refused, this`settled
      modifies this`charged, this`acted, this`replies, this`log, this`polite, stbuf
      ensures Told(h, old(Now()), Now()) && (h == NoReply <==> Finals(old(replies)) == [])
      ensures |log| == |old(log)| + if h == NoReply then 0 else 1
      ensures h == Good ==> stnq >= old(stnq) - 1
      ensures h != Stopped ==> Sound()
      ensures h == Good ==> Valid() && RingBudget(ring) < RingBudget(old(ring)) && Ids(ring) <= Ids(old(ring))
      ensures Fair(h) && (Confused(h) && !odd && AllPlain(sent) ==> !AllEcho(sent, log))
      ensures h != NoSlot && h != Ordering
    {
      hide Valid, Sound, Pipeline, Counted, Bounded, Trace, Answered, InOrder, Fair, RingBudget, Ids;
      hide Told, Finals;
      var r;
      ghost var a := Now();
      h, r := Hear();
      if h == Good {
        ghost var b := Now();
        h := Respond(r);
        ActedOn(h, a, b, Now());
      }
      NotEchoed(h);
    }

    // What comes of acting on the last reply.
    lemma ActedOn(h: Heard, a: Contact, b: Contact, c: Contact)
      requires Told(Good, a, b) && |b.log| > |a.log| && c == b.(cutOff := c.cutOff, spoiled := c.spoiled)
      requires h == Good || h == NotSent || h == Stopped || (h == NoArticle && Reason(h, b.log[|b.log| - 1]))
      requires c.cutOff == b.cutOff + (if h == NotSent then 1 else 0)
      requires c.spoiled == b.spoiled + (if h == Stopped then 1 else 0)
      ensures Told(h, a, c)
    {
      hide Spoken, Heeded;
    }

    // The first command for an article.
    function Announced(id: string): Command
      reads `stnofail
    {
      if Careful() then Check(id) else TakeThis(id)
    }

    // An article enters the ring and its first command is sent.
    method Offer(fname: string, id: string, h: int) returns (heard: Heard)
      requires Valid() && stnq < STNBUF && fname != "" && h == hash(id) && (!odd ==> id !in Ids(ring))
      modifies this`stnq, this`ring, this`odd, this`given, this`entered, this`sent, this`cutOff, this`texts
      modifies this`offered, this`charged, stbuf
      ensures Sound() && Fair(heard)
      ensures odd == (old(odd) || (heard != NoSlot && !Indexable(id)))
      ensures heard == NoSlot <==> |fname| >= SPOOLNAMEBUFF
      ensures given == old(given) +
        if heard == NoSlot then multiset{} else multiset{Line(fname, Copy(id, MAXLEN_COMMAND))}
      ensures heard == Good || heard == NotSent || heard == NoSlot
      ensures heard == Good ==> Valid() && Ids(ring) <= Ids(old(ring)) + {Copy(id, MAXLEN_COMMAND)}
      ensures heard == Good ==> stnq == old(stnq) + 1 && sent == old(sent) + [Announced(Copy(id, MAXLEN_COMMAND))]
      ensures cutOff == old(cutOff) + if heard == NotSent then 1 else 0
    {
      hide Valid, Sound, Fair, AllInOrder, RingBudget, Ids, Line, InFlight, WithinBudget, Said;
      ghost var r0, sent0 := ring, sent;
      ValidParts();
      ValidBound();
      SoundParts();
      FairIs();
      heard := EnterAndSend(fname, id, h);
      TraceMore(sent0, sent, log);
      IsFair(heard);
      if heard == Good {
        SoundParts();
        IdsSnoc(r0, ring);
        Charge(sent0, r0);
        IsValid();
      }
    }

    // The bookkeeping of a new article.
    ghost method Charge(sent0: seq<Command>, r0: seq<Slot>)
      requires entered > 0 && Retries(r0) && Retries(ring)
      requires InFlight(sent0, acted, r0, polite) && WithinBudget(charged, r0, acted, entered - 1)
      requires |ring| == |r0| + 1 && ring[..|r0|] == r0 && ring[|r0|].retry == 0
      requires var st := ring[|r0|]; sent == sent0 + [if st.art then Check(st.id) else TakeThis(st.id)]
      modifies this`charged
      ensures Pipeline() && Bounded()
    {
      InFlightSnoc(sent0, r0, sent, ring, acted, polite);
      BudgetPlus(charged, r0, ring, acted, entered - 1);
      hide WithinBudget;
      charged := charged + [0];
    }

    lemma FairIs()
      requires Fair(Good)
      ensures Trace() && |log| <= (2 * STNRETRY + 2) * entered
    {
    }

    method EnterAndSend(fname: string, id: string, h: int) returns (heard: Heard)
      requires Sound() && stnq < STNBUF && fname != "" && h == hash(id) && (!odd ==> id !in Ids(ring))
      modifies this`stnq, this`ring, this`odd, this`given, this`entered, this`sent, this`cutOff, this`texts
      modifies this`offered, stbuf
      ensures Sound() && old(sent) <= sent
      ensures odd == (old(odd) || (heard != NoSlot && !Indexable(id)))
      ensures heard == NoSlot <==> |fname| >= SPOOLNAMEBUFF
      ensures given == old(given) +
        if heard == NoSlot then multiset{} else multiset{Line(fname, Copy(id, MAXLEN_COMMAND))}
      ensures entered == old(entered) + if heard == NoSlot then 0 else 1
      ensures heard == Good || heard == NotSent || heard == NoSlot
      ensures heard == Good ==>
        && offered == old(offered) + 1 && stnq == old(stnq) + 1
        && |ring| == |old(ring)| + 1 && ring[..|old(ring)|] == old(ring)
        && var s := ring[|old(ring)|];
           && s.id == Copy(id, MAXLEN_COMMAND) && s.retry == 0
           && sent == old(sent) + [if s.art then Check(s.id) else TakeThis(s.id)]
           && s.art == Careful()
      ensures cutOff == old(cutOff) + if heard == NotSent then 1 else 0
    {
      hide SlotsOk, IdsOk, KeptBut, Kept, Line, RingOk;
      var i := Enter(fname, id, h);
      if i < 0 {
        return NoSlot;
      }
      hide Sound;
      ghost var r1 := ring;
      assert r1[..|old(ring)|] == old(ring);
      heard := First(i);
    }

    // The first command for the article in slot i.
    method First(i: nat) returns (heard: Heard)
      requires Sound() && i < STNBUF && |ring| > 0 && Age(stoldest, i) == |ring| - 1 && stbuf[i].art
      requires |ring| == stnq && stbuf[i] == ring[|ring| - 1] && stbuf.Length == STNBUF
      modifies this`sent, this`cutOff, this`texts, this`offered, this`ring, stbuf
      ensures Sound() && old(sent) <= sent
      ensures heard == Good || heard == NotSent
      ensures heard == Good ==>
        && offered == old(offered) + 1
        && stnq == old(stnq) && |ring| == |old(ring)| && ring[..|ring| - 1] == old(ring)[..|ring| - 1]
        && ring[|ring| - 1] == old(ring)[|ring| - 1].(art := ring[|ring| - 1].art)
        && var s := ring[|ring| - 1];
           s.art == Careful() && sent == old(sent) + [if s.art then Check(s.id) else TakeThis(s.id)]
      ensures cutOff == old(cutOff) + if heard == NotSent then 1 else 0
    {
      hide RingOk, SlotsOk, IdsOk, KeptBut;
      if doCheck && stnofail < STNC {
        var failed := CheckArticle(i);
        heard := if failed then NotSent else Good;
      } else {
        offered := offered + 1;
        heard := TakeThisArticle(i);
      }
    }

    // The slot of a new article.
    method Enter(fname: string, id: string, h: int) returns (i: int)
      requires Sound() && stnq < STNBUF && fname != "" && h == hash(id) && (!odd ==> id !in Ids(ring))
      modifies this`stnq, this`ring, this`odd, this`given, this`entered, stbuf
      ensures Sound() && i < STNBUF
      ensures i < 0 <==> |fname| >= SPOOLNAMEBUFF
      ensures i < 0 ==> ring == old(ring) && odd == old(odd) && given == old(given) && entered == old(entered)
      ensures i >= 0 ==>
        && Age(stoldest, i) == |ring| - 1 && stbuf.Length == STNBUF && stbuf[i] == ring[|ring| - 1]
        && stnq == |ring| == old(stnq) + 1
        && ring == old(ring) + [Slot(fname, Copy(id, MAXLEN_COMMAND), 0, true, h)]
        && given == old(given) + multiset{Line(fname, Copy(id, MAXLEN_COMMAND))}
        && entered == old(entered) + 1
        && odd == (old(odd) || !Indexable(id))
    {
      hide Line, RingOk, Kept, KeptBut, Lines, Tallied;
      if |fname| < SPOOLNAMEBUFF {
        Receive(Line(fname, Copy(id, MAXLEN_COMMAND)));
        entered := entered + 1;
        odd := odd || !Indexable(id);
        NotAmong(ring, id);
      }
      hide Ids;
      i := Alloc(fname, id, true, h, 0);
    }

    // An article is taken up: the code holds its line.
    ghost method Receive(line: string)
      requires Kept()
      modifies this`given
      ensures KeptBut(multiset{line}) && given == old(given) + multiset{line}
    {
      hide Lines;
      given := given + multiset{line};
    }

    // Nothing was decided that would have to be kept.
    predicate Undecided()
      reads `accepted, `rejected, `refused, `missing
    {
      !alwaysRewrite && accepted == 0 && rejected == 0 && refused == 0 && missing == 0
    }

    // `RequeueRestAndExit` in streaming mode: the articles in flight, the current one and
    // every line not read yet go back into the batch file.
    method RequeueRest(current: Option<string>, rest: seq<Item>) returns (e: Exit)
      requires Sound()
      modifies this`stnq, this`stoldest, this`ring, this`temp, this`spoiled, stbuf
      ensures e != Removed
      ensures e.Rewritten? ==>
        && e.lines == old(TempLines()) + Lines(old(ring)) + Lone(current) + Raw(rest)
        && ReadError !in rest
      ensures spoiled >= old(spoiled)
      ensures e == Untouched <==> Undecided() || spoiled > old(spoiled) || ReadError in rest
    {
      hide Sound, Lines, Raw, Lone;
      if !alwaysRewrite && accepted == 0 && rejected == 0 && refused == 0 && missing == 0 {
        return Untouched;
      }
      var ok := RequeueAll(current, rest);
      e := Untouched;
      if ok {
        e := CloseAndRename();
      }
    }

    // Write the ring, the current article and the rest to the temporary file.
    method RequeueAll(current: Option<string>, rest: seq<Item>) returns (ok: bool)
      requires Sound()
      modifies this`stnq, this`stoldest, this`ring, this`temp, this`spoiled, stbuf
      ensures spoiled >= old(spoiled) && (ok <==> spoiled == old(spoiled) && ReadError !in rest)
      ensures ok ==> temp == Some(old(TempLines()) + Lines(old(ring)) + Lone(current) + Raw(rest))
    {
      hide Sound, Lines, Raw, Lone;
      ok := RequeueRing();
      if ok {
        ok := Requeue(current);
      }
      if ok {
        ok := CopyRest(rest);
      }
    }

    // The loop over the articles in flight, oldest first.
    method RequeueRing() returns (ok: bool)
      requires Sound()
      modifies this`stnq, this`stoldest, this`ring, this`temp, this`spoiled, stbuf
      ensures ok ==> TempLines() == old(TempLines()) + Lines(old(ring))
      ensures spoiled == old(spoiled) + if ok then 0 else 1
    {
      hide RingOk, IdsOk, KeptBut, Lines;
      while stnq > 0
        invariant spoiled == old(spoiled)
        invariant RingOk() && SlotsOk()
        invariant TempLines() + Lines(ring) == old(TempLines()) + Lines(old(ring))
        decreases stnq
      {
        ok := RequeueOldest();
        if !ok {
          return false;
        }
      }
      NothingLeft();
      ok := true;
    }

    lemma NothingLeft()
      requires RingOk() && stnq == 0
      ensures Lines(ring) == []
    {
    }

    method RequeueOldest() returns (ok: bool)
      requires RingOk() && SlotsOk() && stnq > 0
      modifies this`stnq, this`stoldest, this`ring, this`temp, this`spoiled, stbuf
      ensures ok ==> RingOk() && SlotsOk() && stnq < old(stnq)
      ensures ok ==> TempLines() + Lines(ring) == old(TempLines()) + Lines(old(ring))
      ensures spoiled == old(spoiled) + if ok then 0 else 1
    {
      var i := stoldest;
      assert Age(stoldest, i) == 0 && stbuf[i] == ring[0];
      LinesFront(ring);
      if stbuf[i].fname != "" {
        ok := Requeue(Some(Line(stbuf[i].fname, stbuf[i].id)));
        if !ok {
          return false;
        }
        var failed := StRel(i);
      }
    }

    // The loop over the lines that were not read yet.
    method CopyRest(rest: seq<Item>) returns (ok: bool)
      requires temp.Some?
      modifies this`temp, this`spoiled
      ensures ok ==> temp == Some(old(temp.value) + Raw(rest)) && ReadError !in rest && spoiled == old(spoiled)
      ensures !ok ==> (ReadError in rest && spoiled == old(spoiled)) || spoiled == old(spoiled) + 1
    {
      assert rest[..0] == [];
      for n := 0 to |rest|
        invariant temp.Some? && temp.value == old(temp.value) + Raw(rest[..n])
        invariant spoiled == old(spoiled) && forall k :: 0 <= k < n ==> rest[k] != ReadError
      {
        assert rest[..n + 1] == rest[..n] + [rest[n]];
        RawSnoc(rest[..n], rest[n]);
        match rest[n]
        case TooLong =>
        case ReadError =>
          return false;
        case _ =>
          ok := Requeue(Some(rest[n].raw));
          if !ok {
            return false;
          }
      }
      assert rest[..|rest|] == rest;
      ok := true;
    }

    // `CloseAndRename`
    method CloseAndRename() returns (e: Exit)
      requires temp.Some?
      modifies this`spoiled
      ensures e == if spoiled == old(spoiled) then Rewritten(temp.value) else Untouched
      ensures old(spoiled) <= spoiled <= old(spoiled) + 1
    {
      var closed: bool := *;
      if !closed {
        spoiled := spoiled + 1;
        return Untouched;
      }
      e := Rewritten(temp.value);
    }

    method Aside(line: string) returns (ok: bool)
      requires Kept()
      modifies this`temp, this`spoiled, this`given
      ensures ok ==> Kept() && given == old(given) + multiset{line} && TempLines() == old(TempLines()) + [line]
      ensures spoiled == old(spoiled) + if ok then 0 else 1
    {
      PutAside(settled, TempLines(), multiset(Lines(ring)), line);
      ok := Requeue(Some(line));
      if ok {
        given := given + multiset{line};
      }
    }

    // `article_open`; an article that cannot be read goes back into the batch file.
    method Open(line: string, art: Opened) returns (ok: bool)
      requires Valid()
      modifies this`missing, this`temp, this`spoiled, this`given
      ensures ok ==> Valid() && given == old(given) + (if art.Broken? then multiset{line} else multiset{})
      ensures !art.Broken? ==> ok && temp == old(temp)
      ensures missing == old(missing) + if art.Missing? && art.counted then 1 else 0
      ensures spoiled == old(spoiled) + if ok then 0 else 1
    {
      hide RingOk, IdsOk, KeptBut, Pipeline, Counted, Trace, InOrder, RingBudget, Answered, Tallied;
      ok := true;
      match art {
        case Missing(counted) =>
          if counted {
            missing := missing + 1;
          }
        case Ready(_) =>
        case Broken =>
          ok := Aside(line);
      }
      assert ok ==> Sound();
    }

    lemma ValidBound()
      requires Valid()
      ensures Fair(Good) && Fair(Stopped) && stnq <= STNBUF == stbuf.Length
      ensures Sound() && Answered() && acted == |log|
    {
    }

    lemma ValidParts()
      requires Valid()
      ensures Sound() && Trace() && Pipeline() && Counted() && Bounded() && Answered() && acted == |log|
    {
    }

    lemma SoundTally()
      requires Sound()
      ensures |settled| == accepted + rejected + refused
    {
    }

    // While an article is in flight one more reply is within bounds.
    lemma RoomForReply()
      requires Valid() && stnq > 0
      ensures acted + 1 <= (2 * STNRETRY + 2) * entered
    {
      SoundParts();
      BudgetPositive(ring);
    }

    // A peer that echoes plain ids whole does not confuse the ring.
    lemma NotEchoed(h: Heard)
      requires Fair(h)
      ensures Confused(h) && !odd && AllPlain(sent) ==> !AllEcho(sent, log)
    {
      if AllPlain(sent) && AllEcho(sent, log) {
        AllEchoInOrder(sent, log);
      }
    }

    lemma EmptyKept()
      requires Kept() && ring == []
      ensures Accounted(TempLines(), None)
      ensures temp.None? ==> given == settled
    {
      assert Lines(ring) == [];
    }

    lemma KeptIsAccounted(hand: Option<string>)
      requires Kept()
      ensures Accounted(TempLines() + Lines(ring) + Lone(hand), hand)
    {
    }

    // Wait for answers while more than `low` articles are in flight.
    method Drain(low: nat) returns (h: Heard)
      requires Valid()
      modifies this`stnq, this`stoldest, this`ring, this`sent, this`cutOff, this`texts, this`offered, this`retries
      modifies this`stnofail
      modifies this`temp, this`spoiled, this`deferred, this`accepted, this`rejected, this`refused, this`settled
      modifies this`charged, this`acted, this`replies, this`log, this`polite, stbuf
      ensures h != Stopped ==> Sound()
      ensures h == Good ==> Valid() && |ring| == stnq && Ids(ring) <= Ids(old(ring))
      ensures h == Good ==> stnq == if old(stnq) > low then low else old(stnq)
      ensures old(stnq) <= low ==> h == Good && log == old(log)
      ensures Told(h, old(Now()), Now())
      ensures Fair(h)
      ensures h != NoSlot
    {
      ghost var a := Now();
      ValidBound();
      ToldNothing(a);
      hide Sound, Trace, Pipeline, Counted, Bounded, Answered, Fair, AllPlain, AllEcho, Told;
      while stnq > low
        invariant Fair(Good) && Told(Good, a, Now())
        invariant Valid() && Ids(ring) <= Ids(old(ring))
        invariant stnq >= low || stnq == old(stnq)
        invariant stnq <= low < old(stnq) ==> stnq == low
        invariant old(stnq) <= low ==> log == old(log) && stnq == old(stnq)
        decreases RingBudget(ring)
      {
        ghost var b := Now();
        h := StrListen();
        ToldThen(h, a, b, Now());
        if h != Good {
          return;
        }
      }
      h := Good;
    }

    // What the main loop does with one article.  `hand` is its line when the program must
    // give up before the article is in the ring.
    method TakeUp(fname: string, mid: Option<string>, art: Opened, ghost i: Item)
      returns (h: Heard, hand: Option<string>, ghost o: Outcome)
      requires Valid() && fname != "" && i.Article? && i.fname == fname && i.id == mid
      modifies this, stbuf
      ensures After(h, hand)
      ensures h != Stopped ==> Fits(i, art, o)
      ensures h != Stopped ==> given + Held(hand) == old(given) + LineOf(o)
      ensures h != Stopped && o.Duplicate? ==> o.id in Ids(old(ring))
      ensures h != Stopped && o.Taken? && mid.Some? && !old(odd) ==> mid.value !in Ids(old(ring))
      ensures h == Good ==> Ids(ring) <= Ids(old(ring)) + if o.Taken? then {o.id} else {}
      ensures missing == old(missing) + if art.Missing? && art.counted then 1 else 0
      ensures Told(h, old(Now()), Now()) && (h == NoSlot ==> |fname| >= SPOOLNAMEBUFF)
    {
      hide Valid, Sound, Fair, After, Ids, Line, CurrentLine, Told, Held, LineOf;
      hand := None;
      NoLines();
      h, o := Look(CurrentLine(fname, mid), art);
      match art {
        case Missing(_) =>
        case Broken =>
        case Ready(header) =>
          if mid.None? && header.None? {
            o := Nameless;
          } else {
            h, hand, o := Consider(fname, if mid.Some? then mid.value else header.value);
          }
      }
    }

    lemma NoLines()
      ensures LineOf(Nameless) == LineOf(Gone) == multiset{}
    {
    }

    // Open the article, and say what becomes of one that is not there.
    method Look(line: string, art: Opened) returns (h: Heard, ghost o: Outcome)
      requires Valid()
      modifies this`missing, this`temp, this`spoiled, this`given
      ensures After(h, None) && Told(h, old(Now()), Now()) && (h == Good || (h == Stopped && art.Broken?))
      ensures o == if art.Broken? then SetAside(line) else Gone
      ensures h == Good ==> Valid() && given + Held(None) == old(given) + LineOf(o)
      ensures art.Ready? ==> given == old(given) && Now() == old(Now())
      ensures missing == old(missing) + if art.Missing? && art.counted then 1 else 0
    {
      hide Valid, Sound, Fair, After, Told;
      ValidBound();
      ghost var a := Now();
      ToldNothing(a);
      var ok := Open(line, art);
      o := if art.Broken? then SetAside(line) else Gone;
      if ok {
        h := Good;
      } else {
        h := Stopped;
        ToldStopped(a, Now());
      }
      IsAfter(h);
    }

    lemma IsAfter(h: Heard)
      requires (h == Good && Valid()) || (h == Stopped && Fair(h))
      ensures After(h, None)
    {
    }

    lemma LaunchedAfter(h: Heard, hand: Option<string>)
      requires Sound() || h == Stopped
      requires Fair(h) && (h == Good ==> Valid() && hand == None)
      ensures After(h, hand)
    {
    }

    lemma ToldStopped(a: Contact, b: Contact)
      requires b == a.(spoiled := a.spoiled + 1)
      ensures Told(Stopped, a, b)
    {
      ToldNothing(a);
    }

    lemma ToldNotSent(h: Heard, a: Contact, b: Contact)
      requires b == a.(cutOff := a.cutOff + if h == NotSent then 1 else 0)
      requires h == Good || h == NotSent || h == NoSlot
      ensures Told(h, a, b)
    {
      ToldNothing(a);
    }

    // An article that is there, with its Message-ID.
    method Consider(fname: string, id: string) returns (h: Heard, hand: Option<string>, ghost o: Outcome)
      requires Valid() && fname != ""
      modifies this`stnq, this`stoldest, this`ring, this`sent, this`cutOff, this`texts, this`offered, this`retries
      modifies this`stnofail
      modifies this`temp, this`spoiled, this`deferred, this`accepted, this`rejected, this`refused, this`settled
      modifies this`charged, this`acted, this`replies, this`log, this`polite
      modifies this`odd, this`given, this`entered, stbuf
      ensures After(h, hand)
      ensures o == Duplicate(id)
        || (o.Taken? && o.id == Copy(id, MAXLEN_COMMAND) && (o.line == Line(fname, id) || o.line == Line(fname, o.id)))
      ensures given + Held(hand) == old(given) + LineOf(o)
      ensures o.Duplicate? ==> id in Ids(old(ring))
      ensures o.Taken? && !old(odd) ==> id !in Ids(old(ring))
      ensures h == Good ==> Ids(ring) <= Ids(old(ring)) + if o.Taken? then {o.id} else {}
      ensures Told(h, old(Now()), Now()) && (h == NoSlot ==> |fname| >= SPOOLNAMEBUFF)
    {
      hide Valid, Sound, Fair, After, Ids, Line, Told;
      ValidBound();
      ToldNothing(Now());
      IsAfter(Good);
      var dup := StIndex(id, hash(id));
      if dup >= 0 {
        HitInRing(id, dup);
        h, hand, o := Good, None, Duplicate(id);
      } else {
        NotInRing(id);
        h, hand, o := Launch(fname, id);
      }
    }

    // With CHECK the ring may be filled, without it only by half.
    function Limit(): nat
      reads `stnofail
    {
      if Careful() then STNBUF else STNBUFL
    }

    // An article that is not in the ring enters it, when there is room again.
    method Launch(fname: string, id: string) returns (h: Heard, hand: Option<string>, ghost o: Outcome)
      requires Valid() && fname != "" && (!odd ==> id !in Ids(ring))
      modifies this`stnq, this`stoldest, this`ring, this`sent, this`cutOff, this`texts, this`offered, this`retries
      modifies this`stnofail
      modifies this`temp, this`spoiled, this`deferred, this`accepted, this`rejected, this`refused, this`settled
      modifies this`charged, this`acted, this`replies, this`log, this`polite
      modifies this`odd, this`given, this`entered, stbuf
      ensures After(h, hand)
      ensures o.Taken? && o.id == Copy(id, MAXLEN_COMMAND) && (o.line == Line(fname, id) || o.line == Line(fname, o.id))
      ensures given + Held(hand) == old(given) + LineOf(o)
      ensures h == Good ==> Ids(ring) <= Ids(old(ring)) + {o.id}
      ensures h == Good ==> sent != [] && sent[|sent| - 1] == Announced(o.id)
      ensures h == Good ==> stnq == 1 + if old(stnq) >= old(Limit()) then STNBUFL - 1 else old(stnq)
      ensures old(stnq) < old(Limit()) ==> log == old(log)
      ensures Told(h, old(Now()), Now()) && (h == NoSlot ==> |fname| >= SPOOLNAMEBUFF)
    {
      ghost var a := Now();
      ghost var ids := Ids(ring);
      hide Valid, Sound, Fair, After, Ids, Line, Held, LineOf, Told;
      o := Taken(Line(fname, id), Copy(id, MAXLEN_COMMAND));
      hand := Some(Line(fname, id));
      InHand(given, o);
      h := MakeRoom();
      if h == Good {
        ghost var b := Now();
        h := Offer(fname, id, hash(id));
        ToldNotSent(h, b, Now());
        ToldThen(h, a, b, Now());
        if h != NoSlot {
          hand := None;
          o := Taken(Line(fname, o.id), o.id);
          InRing(old(given), o);
        }
      }
      LaunchedAfter(h, hand);
    }

    lemma InHand(given: multiset<string>, o: Outcome)
      requires o.Taken?
      ensures given + Held(Some(o.line)) == given + LineOf(o)
    {
    }

    lemma InRing(given: multiset<string>, o: Outcome)
      requires o.Taken?
      ensures given + multiset{o.line} + Held(None) == given + LineOf(o)
    {
    }

    // Wait for answers when the ring is full, or half full.
    method MakeRoom() returns (h: Heard)
      requires Valid()
      modifies this`stnq, this`stoldest, this`ring, this`sent, this`cutOff, this`texts, this`offered, this`retries
      modifies this`stnofail
      modifies this`temp, this`spoiled, this`deferred, this`accepted, this`rejected, this`refused, this`settled
      modifies this`charged, this`acted, this`replies, this`log, this`polite, stbuf
      ensures (h == Stopped || Sound()) && Fair(h) && h != NoSlot && Told(h, old(Now()), Now())
      ensures h == Good ==> Valid() && stnq < STNBUF && Ids(ring) <= Ids(old(ring))
      ensures h == Good ==> stnq == if old(stnq) >= old(Limit()) then STNBUFL - 1 else old(stnq)
      ensures old(stnq) < old(Limit()) ==> h == Good && log == old(log)
    {
      ValidBound();
      ToldNothing(Now());
      hide Valid, Sound, Fair, Ids, Told;
      h := Good;
      var lim := if doCheck && stnofail < STNC then STNBUF else STNBUFL;
      if stnq >= lim {
        h := Drain(STNBUFL - 1);
      }
    }

    lemma HitInRing(id: string, i: nat)
      requires Sound() && i < STNBUF && Hit(stbuf[i], id, hash(id))
      ensures id in Ids(ring)
    {
      assert ring[Age(stoldest, i)].id == id;
    }

    // An id that stindex does not find is not in the ring.
    lemma NotInRing(id: string)
      requires Sound()
      requires forall j :: 0 <= j < STNBUF ==> !Hit(stbuf[j], id, hash(id))
      ensures !odd ==> id !in Ids(ring)
    {
      forall k | 0 <= k < |ring|
        ensures !odd ==> ring[k].id != id
      {
        var i := Place(stoldest, k);
        assert Age(stoldest, i) == k && !Hit(stbuf[i], id, hash(id));
      }
    }

    // The lines put back, with the articles that had a final answer, are all that was
    // taken up, and the article in the program's hands.
    ghost predicate Accounted(lines: seq<string>, hand: Option<string>)
      reads `settled, `given
    {
      settled + multiset(lines) == given + Held(hand)
    }

    // The main loop over the batch file and the final wait for answers.  `arts` is what
    // article_open gives for each item, `upto` the number of items read, `hand` the line
    // of an article that was read but is not in the ring, `os` what became of the items,
    // `back` the lines put back ahead of the unread rest.
    method Transmit(items: seq<Item>, arts: seq<Opened>)
      returns (e: Exit, why: Heard, upto: nat, hand: Option<string>, ghost os: seq<Outcome>, ghost back: seq<string>)
      requires Valid() && ring == [] && |arts| == |items| && forall k :: 0 <= k < |items| ==> ItemOk(items[k])
      modifies this, stbuf
      ensures upto <= |items|
      ensures why != Stopped ==> |os| == upto && AllFit(items, arts, os)
      ensures why != Stopped ==>
        given + Held(hand) == old(given) + TakenLines(os) && |settled| == accepted + rejected + refused
      ensures e.Rewritten? ==>
        e.lines == back + Raw(items[upto..]) && ReadError !in items[upto..] && Accounted(back, hand)
      ensures e == Removed ==> upto == |items| && given == settled
      ensures why == Good && e.Rewritten? ==> upto == |items| && hand == None
      ensures why == Good ==> Answered() && acted == |log|
      ensures missing == old(missing) + Losses(items[..upto], arts)
      ensures Spoken(old(replies), old(log), replies, log) && Ended(why, old(Now()), Now())
      ensures why == NoSlot ==> upto > 0 && LongName(items[upto - 1])
      ensures why == Good && upto < |items| ==> items[upto] == ReadError
      ensures e == Removed <==> why == Good && upto == |items| && temp.None?
      ensures e == Untouched <==>
        || spoiled > old(spoiled) || ReadError in items[upto..] || (why != Good && Undecided())
      ensures Fair(why) && (Confused(why) && !odd && AllPlain(sent) ==> !AllEcho(sent, log))
    {
      hide Valid, Sound, Fair, Accounted, Answered, Held, TakenLines, AllFit, ItemOk, AllPlain, AllEcho;
      hide Told, Ended, LongName, Losses, Spoken;
      ghost var a := Now();
      var ok;
      ok, why, hand, upto, os := ReadAndWait(items, arts);
      ghost var c := Now();
      e, back := Untouched, [];
      if why != Stopped {
        SoundTally();
        if ok {
          e, back := Finish(why, hand, items[upto..]);
        }
      }
      EndOf(why, a, c, Now());
      NotEchoed(why);
    }

    // All items, and the answers to them.
    method ReadAndWait(items: seq<Item>, arts: seq<Opened>)
      returns (ok: bool, why: Heard, hand: Option<string>, upto: nat, ghost os: seq<Outcome>)
      requires Valid() && ring == [] && |arts| == |items| && forall k :: 0 <= k < |items| ==> ItemOk(items[k])
      modifies this, stbuf
      ensures upto <= |items| && Fair(why) && Told(why, old(Now()), Now())
      ensures why != Stopped ==> Sound() && |os| == upto && AllFit(items, arts, os)
      ensures why != Stopped ==> given + Held(hand) == old(given) + TakenLines(os)
      ensures why == Good ==> hand == None && Answered() && acted == |log|
      ensures missing == old(missing) + Losses(items[..upto], arts)
      ensures why == NoSlot ==> upto > 0 && LongName(items[upto - 1])
      ensures ok && why == Good ==> upto == |items| && ring == [] && items[upto..] == [] && Raw(items[upto..]) == []
      ensures !ok ==> why == Good && upto < |items| && items[upto] == ReadError && ReadError in items[upto..]
    {
      hide Valid, Sound, Fair, Held, TakenLines, AllFit, ItemOk, Told, LongName, Losses, HaveRead;
      ghost var a, given0, missing0 := Now(), given, missing;
      ok, why, hand, upto, os := ReadItems(items, arts);
      ReadParts(items, arts, upto, why, hand, os, given0, missing0, a);
      if ok && why == Good {
        ghost var b := Now();
        why := Drain(0);
        ToldThen(why, a, b, Now());
      }
      if why == Good {
        ValidBound();
      }
      assert !ok ==> items[upto..][0] == ReadError;
    }

    // What holds when so many items have been read; given0, missing0 and a are from the
    // beginning.
    ghost predicate HaveRead(items: seq<Item>, arts: seq<Opened>, upto: nat, why: Heard, hand: Option<string>,
                             os: seq<Outcome>, given0: multiset<string>, missing0: nat, a: Contact)
      requires |items| == |arts|
      reads this, stbuf
    {
      && upto <= |items| && After(why, hand) && Told(why, a, Now())
      && (why != Stopped ==> |os| == upto && AllFit(items, arts, os) && given + Held(hand) == given0 + TakenLines(os))
      && (why == Good ==> Ids(ring) <= TakenIds(os))
      && missing == missing0 + Losses(items[..upto], arts)
      && (why == NoSlot ==> upto > 0 && LongName(items[upto - 1]))
    }

    lemma NothingRead(items: seq<Item>, arts: seq<Opened>)
      requires |items| == |arts| && Valid() && ring == []
      ensures HaveRead(items, arts, 0, Good, None, [], given, missing, Now())
    {
      ValidBound();
      ToldNothing(Now());
      NothingTaken(items, arts);
      hide Valid, Sound, Fair, Told;
    }

    lemma ReadParts(items: seq<Item>, arts: seq<Opened>, upto: nat, why: Heard, hand: Option<string>,
                    os: seq<Outcome>, given0: multiset<string>, missing0: nat, a: Contact)
      requires |items| == |arts| && HaveRead(items, arts, upto, why, hand, os, given0, missing0, a)
      ensures upto <= |items| && Told(why, a, Now()) && Fair(why)
      ensures why != Stopped ==>
        Sound() && |os| == upto && AllFit(items, arts, os) && given + Held(hand) == given0 + TakenLines(os)
      ensures why == Good ==> Valid() && hand == None
      ensures missing == missing0 + Losses(items[..upto], arts)
      ensures why == NoSlot ==> upto > 0 && LongName(items[upto - 1])
    {
    }

    // The main loop over the batch file; not `ok` when it cannot be read.
    method ReadItems(items: seq<Item>, arts: seq<Opened>)
      returns (ok: bool, why: Heard, hand: Option<string>, upto: nat, ghost os: seq<Outcome>)
      requires Valid() && ring == [] && |arts| == |items| && forall k :: 0 <= k < |items| ==> ItemOk(items[k])
      modifies this, stbuf
      ensures HaveRead(items, arts, upto, why, hand, os, old(given), old(missing), old(Now()))
      ensures upto <= |items| && (ok && why == Good ==> upto == |items|)
      ensures !ok ==> why == Good && upto < |items| && items[upto] == ReadError
    {
      NothingRead(items, arts);
      hide Valid, HaveRead, ItemOk;
      ok, why, hand, upto, os := true, Good, None, 0, [];
      while upto < |items| && why == Good
        invariant upto <= |items|
        invariant HaveRead(items, arts, upto, why, hand, os, old(given), old(missing), old(Now()))
        decreases |items| - upto
      {
        if items[upto].ReadError? {
          ok := false;
          return;
        }
        why, hand, os := Next(items, arts, upto, os, old(given), old(missing), old(Now()));
        upto := upto + 1;
      }
    }

    // The next item.
    method Next(items: seq<Item>, arts: seq<Opened>, upto: nat, ghost os0: seq<Outcome>,
                ghost given0: multiset<string>, ghost missing0: nat, ghost a: Contact)
      returns (h: Heard, hand: Option<string>, ghost os: seq<Outcome>)
      requires upto < |items| == |arts| && ItemOk(items[upto]) && !items[upto].ReadError?
      requires HaveRead(items, arts, upto, Good, None, os0, given0, missing0, a)
      modifies this, stbuf
      ensures HaveRead(items, arts, upto + 1, h, hand, os, given0, missing0, a)
    {
      ReadParts(items, arts, upto, Good, None, os0, given0, missing0, a);
      assert Ids(ring) <= TakenIds(os0);
      ghost var b := Now();
      ghost var given1, missing1, ids := given, missing, Ids(ring);
      hide Valid, Sound, Fair, After, Held, TakenLines, TakenIds, AllFit, Fits, LineOf, Told, Losses, Lost, LongName;
      hide HaveRead, Ids;
      ghost var o;
      h, hand, o := One(items[upto], arts[upto]);
      os := os0 + [o];
      ToldThen(h, a, b, Now());
      OneLoss(items, arts, upto);
      if h != Stopped {
        FitsMore(items, arts, os0, o);
        TakenMore(os0, o);
        TakenSum(given1, given, hand, given0, os0, o);
      }
      ReadOn(items, arts, upto + 1, h, hand, os, given0, missing0, a);
    }

    lemma ReadOn(items: seq<Item>, arts: seq<Opened>, upto: nat, why: Heard, hand: Option<string>,
                 os: seq<Outcome>, given0: multiset<string>, missing0: nat, a: Contact)
      requires |items| == |arts| && upto <= |items| && After(why, hand) && Told(why, a, Now())
      requires why != Stopped ==>
        |os| == upto && AllFit(items, arts, os) && given + Held(hand) == given0 + TakenLines(os)
      requires why == Good ==> Ids(ring) <= TakenIds(os)
      requires missing == missing0 + Losses(items[..upto], arts)
      requires why == NoSlot ==> upto > 0 && LongName(items[upto - 1])
      ensures HaveRead(items, arts, upto, why, hand, os, given0, missing0, a)
    {
    }

    // One item.
    method One(i: Item, art: Opened) returns (h: Heard, hand: Option<string>, ghost o: Outcome)
      requires Valid() && ItemOk(i) && !i.ReadError?
      modifies this, stbuf
      ensures After(h, hand) && Told(h, old(Now()), Now())
      ensures h != Stopped ==> Fits(i, art, o) && given + Held(hand) == old(given) + LineOf(o)
      ensures h != Stopped && o.Duplicate? ==> o.id in Ids(old(ring))
      ensures h == Good ==> Ids(ring) <= Ids(old(ring)) + if o.Taken? then {o.id} else {}
      ensures missing == old(missing) + if Lost(i, art) then 1 else 0
      ensures h == NoSlot ==> LongName(i)
    {
      ValidBound();
      ToldNothing(Now());
      IsAfter(Good);
      hide Valid, Sound, Fair, After, Told, Ids, CurrentLine, Line;
      h, hand, o := Good, None, Skipped;
      match i {
        case TooLong =>
        case Ignored(_) =>
        case Article(_, fname, mid) =>
          h, hand, o := TakeUp(fname, mid, art, i);
      }
    }

    // The end of the run: what becomes of the batch file.
    method Finish(why: Heard, hand: Option<string>, rest: seq<Item>) returns (e: Exit, ghost back: seq<string>)
      requires Sound() && (why == Good ==> ring == [] && hand == None)
      modifies this`stnq, this`stoldest, this`ring, this`temp, this`spoiled, stbuf
      ensures e.Rewritten? && why != Good ==> e.lines == back + Raw(rest) && ReadError !in rest
      ensures e.Rewritten? && why == Good ==> e.lines == back
      ensures e.Rewritten? ==> Accounted(back, hand)
      ensures back == old(TempLines()) + Lines(old(ring)) + Lone(hand)
      ensures e == Removed ==> given == settled
      ensures e == Removed <==> why == Good && old(temp).None?
      ensures spoiled >= old(spoiled) && (why == Good ==> temp == old(temp))
      ensures e == Untouched <==> spoiled > old(spoiled) || (why != Good && (Undecided() || ReadError in rest))
    {
      hide RingOk, SlotsOk, IdsOk, KeptBut, Accounted, Tallied;
      if why != Good {
        back := TempLines() + Lines(ring) + Lone(hand);
        KeptIsAccounted(hand);
        e := RequeueRest(hand, rest);
      } else if temp.Some? {
        back := temp.value;
        EmptyKept();
        e := CloseAndRename();
      } else {
        back := [];
        EmptyKept();
        e := Removed;
      }
    }
  }

  // Why the run ended: every other outcome than a normal one has its cause in the
  // replies, or in a failure.
  ghost predicate Ended(h: Heard, a: Contact, b: Contact) {
    && b.spoiled >= a.spoiled && (h == NotSent <==> b.cutOff > a.cutOff) && (h == Stopped ==> b.spoiled > a.spoiled)
    && (h == NoReply ==> b.replies == [])
    && (ByReply(h) ==> |a.log| < |b.log| && Reason(h, b.log[|b.log| - 1]))
    && (h == Good ==> forall k :: |a.log| <= k < |b.log| ==> Heeded(b.log[k].code))
  }

  lemma EndOf(h: Heard, a: Contact, b: Contact, c: Contact)
    requires Told(h, a, b) && c == b.(spoiled := c.spoiled) && c.spoiled >= b.spoiled
    ensures Spoken(a.replies, a.log, c.replies, c.log) && Ended(h, a, c) && b.spoiled >= a.spoiled
    ensures if h == Stopped then b.spoiled > a.spoiled else b.spoiled == a.spoiled
  {
    hide Spoken, Reason, Heeded;
  }

  // The article is counted as missing.
  predicate Lost(i: Item, art: Opened) { i.Article? && art.Missing? && art.counted }

  // The name of the file does not fit into a slot.
  predicate LongName(i: Item) { i.Article? && |i.fname| >= SPOOLNAMEBUFF }

  function Losses(items: seq<Item>, arts: seq<Opened>): (n: nat)
    requires |items| <= |arts|
  {
    if items == [] then 0 else
      var n := |items| - 1;
      Losses(items[..n], arts) + if Lost(items[n], arts[n]) then 1 else 0
  }

  lemma OneLoss(items: seq<Item>, arts: seq<Opened>, n: nat)
    requires n < |items| <= |arts|
    ensures Losses(items[..n + 1], arts) == Losses(items[..n], arts) + if Lost(items[n], arts[n]) then 1 else 0
  {
    assert items[..n + 1][..n] == items[..n];
  }

  lemma TakenSum(g0: multiset<string>, g: multiset<string>, hand: Option<string>, given0: multiset<string>,
                 os: seq<Outcome>, o: Outcome)
    requires g0 + Held(None) == given0 + TakenLines(os) && g + Held(hand) == g0 + LineOf(o)
    ensures g + Held(hand) == given0 + TakenLines(os + [o])
  {
    TakenMore(os, o);
    hide TakenLines, LineOf;
    assert g0 + Held(None) == g0;
  }

  lemma NothingTaken(items: seq<Item>, arts: seq<Opened>)
    ensures AllFit(items, arts, []) && TakenLines([]) == multiset{}
  {
  }
}
