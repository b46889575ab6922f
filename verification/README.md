# INN: seven cores, modelled and proved

A Dafny 4.11 model of seven self-contained parts of the INN news server, with proofs
of what each of them is for.

* **The news encoding** (`frontends/encode.c`, `frontends/decode.c`): `SixBit`, `Encoder`,
  `DecodeSpec`, `Decoder`, `CodecRoundTrip`. Bytes become sextets, thirteen sextets become
  six base-91 pairs; both programs keep carry-over buffers of different lengths. Decoding
  gives back exactly the input, for every input.
* **Wire articles** (`frontends/sm.c`): `WireSplit`, `WireStore`. What is stored does not
  depend on how the reads cut the stream.
* **Lock files** (`backends/shlock.c`): `LockMachine`, `LockSafety`, `LockProgress`. Any
  number of processes, interleaved by system calls and crashing anywhere, take over stale
  locks with nothing but link counts. Mutual exclusion holds after every run.
* **The streaming sender** (`backends/innxmit.c`): `StreamRing`, `Innxmit`, `BatchLine`. The ring of
  commands in flight (sections 2.4 and 2.5 of RFC 4644, section 3.5 of RFC 3977): order,
  bounded replies, conserved counts, and no article lost.
* **The channels of innd** (`innd/chan.c`): `WriteLog`, `ChannelMoments`, `ChannelTable`,
  `ChanFair`, `ReadLoop`. Three sets of descriptors with cached maxima, partial writes,
  registrations that are not lost, and a round-robin sweep that is fair.
* **Active files** (`backends/actsync.c`): `GroupName`, `ActiveFile`, `AliasSpec`,
  `AliasMarks`, `AliasChains`, `AliasExact`, `AliasComplete`, `AliasMisses`, `ActiveMerge`. The
  name scanner, the alias chains and the merge of two hosts.
* **Two tables** (`backends/ninpaths.c`: `DumpScan`, `DumpFormat`, `DumpTriples`, `PathTable`,
  `Ninpaths`, `PathLines`; `history/his.c`: `HistoryCache`). Dumps of a host graph that read back and add up, and a
  cache that is not to be noticed.

`FiniteSets` holds two facts about sets, and `Wrappers` a datatype, that several of them use.

`dafny verify dfyconfig.toml` checks everything.

## How the model is made

The programs change their state in place, and so do the classes here; each method is
proved against functions on values, and the theorems are about those functions or about
invariants that every method keeps. Ghost fields record what the programs do not keep:
the sextets pushed so far, the commands sent, the log of the select loop, and what fails
outside the program: reads, writes and selects, each with its answer. The lock
protocol is a state machine on values, one step for each system call, because its point
is the interleaving of processes.

What comes from outside is nondeterministic or a parameter: the bytes a read returns, the
descriptors a select reports, the outcome of a write, the articles that are there, the
replies of the peer, the callbacks of channels (any list of operations), hash functions,
the clock. A peer of `innxmit` is called polite as long as the id that the program finds
in each of its replies, and the code, belong to the oldest command that was not answered;
a peer that follows sections 2.4 and 2.5 of RFC 4644 and echoes that command's id whole is
polite when no id has a ">" inside (`StreamRing.AllEchoInOrder`). Everything that is not
said of such peers only holds for every peer.

Assumptions:

* `shlock`: processes agree on the format of the lock file and its reads do not fail; an
  owner that died stays dead, though its process id may be seen as alive again; an inode
  is used again only when no name and no open descriptor is left; only a live owner
  releases. The test of the change time is a step that may give up.
* `innxmit`: ids from the batch file are not empty and shorter than the command buffer,
  as the program checks (`BatchLine.ReadLineOk`); an id from an article header that is not is noted in the ghost
  flag `odd`, after which replies may be mistaken for those to other articles.
* `his`: the file is keyed by the hash, a failed write leaves it unchanged, and it is not
  expired behind the cache. An id that hashes to all zeroes is the one exception, and
  `HistoryCache.History.Check` says exactly when it matters.
* `actsync`: names are compared character by character in the "C" locale; qsort is any
  sort by the order given. Lines of a file have different numbers, so that the message
  about two matching elements cannot come up.
* `ninpaths`: counters fit their type.

Findings, each proved:

* The limit on the connections of a peer never comes to bear (`ReadLoop.NeverLimited`). The
  count it is compared with begins at 0, is never set for a connection with the count 0,
  and so stays 0, although doc/pod/incoming.conf.pod:118-165 documents max-connections
  and hold-time. `ChannelMoments.Over` is the condition under which it would.
* `mark_eq_probs` passes over a line together with a name it misses, so that it can mark a
  group whose target is there (`AliasExact.MarksTooMuch`). It is right about what it leaves
  alone, always; and it marks nothing exactly when there is nothing to mark. On a sorted
  array that repeats no name it marks exactly the bad groups when no "=" group strays: none
  stands for a name that is not there, none runs into a loop beside its own
  (`AliasComplete.Complete`); only strays get a good group marked
  (`AliasComplete.StraysToBlame`), and pass by pass that happens exactly when the line it
  needs was passed over for a name missed before (`AliasMisses.GoodMarkedExactly`).
* `merge_grps` outputs a name twice exactly when host1 lists it and host2 lists it more
  than once (`ActiveMerge.OutputOnce`; `ActiveMerge.SentTwice` is an input).
* A dump of `ninpaths` without a site, as after a Path line without a host, or with an
  empty name, as from a Path line that begins with "!", is not read back
  (`DumpFormat.ParseExact`, `PathLines.EmptyLine`, `PathLines.DelimiterLine`); with an empty
  name it can even be read as a dump of other hosts (`PathLines.Misread`). For lines without
  white space these are the only two cases (`PathLines.SolidDumpable`). A tally below 1
  becomes 1.
* The history cache denies an id that hashes to its empty value as long as its slot was
  never used (`HistoryCache.Overlooked`).
* An article whose Message-ID comes from its header and is not in angle brackets, or is
  longer than 250 characters, is put back into the batch file in a line that the next run
  ignores (`BatchLine.LineReread` says exactly when; `BatchLine.LineLost` is an input).
* A Message-ID with a ">" inside is not recognised in a reply that echoes it whole
  (`StreamRing.NotPlainNotInOrder`).

## Model

| member | source | states |
|---|---|---|
| CodecRoundTrip.RoundTrip | frontends/decode.c:111-161 | for every byte sequence the decoder gets exactly the input back: every character is in range, the tail has an even number of digits, the end mark asks for no more sextets than the last piece holds, and the file is well terminated |
| CodecRoundTrip.EncodeThenDecode | frontends/encode.c:98-115 | the two programs run one after the other return the input, report no bad data and print no warning |
| CodecRoundTrip.WireLength | frontends/encode.c:63-69 | the output has exactly 12q + 3 + 2*ceil(min(r,12)/2) characters, where 4*(L/3+1) = 13q + r |
| CodecRoundTrip.PairCharsPrintable | frontends/encode.c:37-60 | every data character lies in 0x20..0x7A, and no pair of characters of the data is the end mark |
| CodecRoundTrip.WirePrintable | frontends/encode.c:36-94 | every character of the output is in range, and its digits are the whole blocks, the end mark with its count, and the flushed tail |
| CodecRoundTrip.WireRange | frontends/encode.c:7-25 | every character of the output is one from 0x20 to 0x7A, and the end mark is "zz" |
| CodecRoundTrip.PairMeans | frontends/encode.c:37-60 | two characters, read in base 91 from 0x20 on, are two sextets and a carried bit: of a full buffer the bits of the thirteenth sextet, the highest first; of an odd tail a 1 in the first pair only |
| CodecRoundTrip.QuadMeans | frontends/encode.c:80-83 | three bytes and their four sextets are the same number of 24 bits; the last group ends with its length |
| CodecRoundTrip.UnpackDump | frontends/decode.c:60-107 | unpacking the characters made of n sextets gives those n sextets, the thirteenth of them collected from the top bits |
| CodecRoundTrip.TailPiece | frontends/decode.c:60-107 | whatever the fill of the buffer at the end, the flushed tail unpacks to the pending sextets |
| CodecRoundTrip.JoinedBlocks | frontends/decode.c:60-107 | the whole blocks unpack to the sextets they were made of |
| CodecRoundTrip.ReadWire | frontends/decode.c:125-148 | the decoder cuts the output into the blocks the encoder made, finds the end mark where it is, and takes its count |
| CodecRoundTrip.FinalOfSextets | frontends/decode.c:37-56 | the last sextet group, cut by its own count, ends the bytes exactly where the input ended |
| SixBit.Sextets | frontends/encode.c:73-94 | one group of four sextets for every three bytes, and one more for the end |
| Encoder.Encoder.DumpCode | frontends/encode.c:37-60 | prints the characters of the first n sextets of the buffer, the thirteenth as carry bits |
| Encoder.Encoder.Store | frontends/encode.c:91-93 | the sextet goes into the next slot, what the earlier blocks left behind stays |
| Encoder.Encoder.Push | frontends/encode.c:85-93 | a full buffer is printed first; the sextets so far are the old ones and the new one |
| Encoder.Encoder.Encode | frontends/encode.c:73-94 | three bytes enter the stream as their four sextets |
| Encoder.Encoder.FlushOut | frontends/encode.c:63-69 | prints the end mark, the count and what is in the buffer |
| Encoder.Encoder.EncodeAll | frontends/encode.c:98-115 | the output for an input of any length is its wire form |
| Decoder.Decoder.UnpackBlock | frontends/decode.c:69-78 | the digits of a block become two sextets a pair, and one more of their top bits |
| Decoder.Decoder.Pack6 | frontends/decode.c:38-56 | four sextets are printed as bytes, three of them or, at the end, as many as the last sextet says |
| Decoder.Decoder.Pack12 | frontends/decode.c:60-107 | the sextets of a block join those before it; at the end of the input all are cut by the last one, with a warning when that is 3 or more |
| Decoder.Reader.Turn | frontends/decode.c:135-147 | a full block is decoded one block late, while the other array is filled |
| Decoder.Reader.Take | frontends/decode.c:128-147 | one character moves the reader as the parse of the characters says, end marks included |
| Decoder.Reader.AtEnd | frontends/decode.c:150-157 | the waiting block and the piece that was begun are decoded, with the count of the last end mark |
| Decoder.Reader.DecodeAll | frontends/decode.c:111-161 | for every input: bad data exactly when a character is out of range, otherwise the output and the warning of the parsed characters |
| Decoder.EvenUnpack | frontends/decode.c:69-78 | with an even number of digits what an earlier block left in the array does not matter |
| WireStore.Session.StoreWireArticles | frontends/sm.c:165-231 | for every way the reads cut the stream: the articles stored are those of the leftmost split of what was read that are not longer than the cap; it fails exactly when a read did, and otherwise all input is read; garbage is reported exactly when the input ends inside an article; and the result is good exactly when no read failed, nothing was refused, too long, or cut off over the cap |
| WireStore.Session.StoreOne | frontends/sm.c:186-202 | a complete article is stored, or skipped when it has outgrown the buffer, and the search goes on after it |
| WireStore.Session.StoreComplete | frontends/sm.c:186-202 | afterwards no terminator is left in the data |
| WireStore.Session.Rewind | frontends/sm.c:217-223 | only the last four bytes can still begin a terminator |
| WireStore.Session.Settle | frontends/sm.c:204-223 | there is room before the next read: the buffer has grown, or the article is being skipped and only its last four bytes are kept |
| WireStore.CapReached | frontends/sm.c:204-212 | the growth rule reaches the cap and stops there |
| WireStore.Advance | frontends/sm.c:186-202 | a terminator with none before it ends the next article of the split |
| WireStore.NoMore | frontends/sm.c:217-221 | without a terminator the rest is the tail of the split |
| WireStore.BooksStep | frontends/sm.c:186-202 | storing what fits and skipping what does not keeps the stored articles those of the split that fit |
| WireStore.Buffer.Find | lib/buffer.c:241-263 | finds the first terminator from an offset on, or that there is none |
| WireStore.Buffer.Read | lib/buffer.c:271-282 | takes any part of the stream that there is room for; no bytes only at its end or without room; a failed read is counted |
| WireStore.Buffer.Resize | lib/buffer.c:83-89 | never shrinks, rounds up to a multiple of 1024, keeps the data |
| WireStore.Buffer.Compact | lib/buffer.c:97-104 | moves the data to the front and changes none of it |
| WireSplit.SplitSound | frontends/sm.c:186-202 | every piece of the split ends with the terminator and has no earlier one, and the pieces with the tail make the stream |
| WireSplit.SplitUnique | frontends/sm.c:186-202 | there is no other such cutting |
| WireSplit.SplitAppend | frontends/sm.c:165-231 | what was split off stays split off when more arrives |
| WireSplit.SplitPrefix | frontends/sm.c:165-231 | the articles of a part of the stream are the first articles of the whole |
| LockSafety.NextKeepsInv | backends/shlock.c:201-314 | every action of every process, and every crash, death and release, keeps the invariant: a temporary file has one name until it is linked, and a process past the inode and link-count test works on a dead lock file that still has the lock name and its second name |
| LockSafety.StepKeepsInv | backends/shlock.c:201-314 | each of the fifteen places of the program keeps it |
| LockSafety.PastStep | backends/shlock.c:272-290 | two processes cannot both find two links: a second one would make a third name |
| LockSafety.InvAlways | backends/shlock.c:127-314 | the invariant holds after every run of any number of processes |
| LockSafety.MutualExclusion | backends/shlock.c:233-300 | after every run at most one live owner holds the lock, and the lock file names it |
| LockSafety.LiveLockStays | backends/shlock.c:233-300 | a lock file that names a live owner is removed by that owner and by nobody else |
| LockSafety.OneTakeover | backends/shlock.c:276-300 | at most one process is about to remove the lock file, which is the one it opened and found dead |
| LockProgress.StaleLockIsTaken | backends/shlock.c:233-314 | a process that meets the lock of a dead owner takes it in eleven steps when nobody interferes, and leaves the lock file with its own inode under the one name "lock"; the temporary names and the old file are gone |
| LockProgress.FreeLockIsTaken | backends/shlock.c:232-303 | a free lock is taken in two steps, and the lock file has the one name "lock" |
| LockProgress.LockIsHandedOn | backends/shlock.c:201-314 | one after the other: whoever takes a free lock and dies leaves it so that the next process, from its first system call on, takes it over |
| LockProgress.LiveLockIsLeft | backends/shlock.c:252-258 | a process that finds a live owner gives up, and leaves only its own temporary file removed |
| LockProgress.LinkedLockIsLeft | backends/shlock.c:264-270 | so does one that finds a second link to the lock file |
| LockProgress.LostRaceIsLeft | backends/shlock.c:272-290 | and one that has linked it and then finds another lock file or a third name |
| Innxmit.Sender.StIndex | backends/innxmit.c:205-227 | the first slot with the id and the hash, or that there is none |
| Innxmit.Sender.StAlloc | backends/innxmit.c:256-278 | a new slot at the end of the ring, unless it is full or the name too long; every slot outside keeps an empty id |
| Innxmit.Sender.StRel | backends/innxmit.c:287-301 | the oldest slot leaves the ring; any other is refused |
| Innxmit.Sender.CheckArticle | backends/innxmit.c:798-820 | a CHECK is sent and the article counted as offered |
| Innxmit.Sender.TakeThisArticle | backends/innxmit.c:830-859 | a TAKETHIS is sent and the article let go; without an article at hand nothing is |
| Innxmit.Sender.ReadReply | backends/innxmit.c:883-898 | the first reply that is not informational, with what comes before it passed over; none exactly when all that the peer still says is informational |
| Innxmit.Sender.Locate | backends/innxmit.c:916-948 | exactly when a reply names no article, when its id is not in the ring, and when its article is not the oldest; otherwise it answers the oldest |
| StreamRing.HeardOne | backends/innxmit.c:883-898 | one reply heard is the next of those the peer says that are not informational |
| Innxmit.Sender.StrListen | backends/innxmit.c:873-1018 | one final reply, from any peer, entered in the log as the next one that is not informational; it ends with "no reply" exactly when none is left. On a normal return the window is still the unanswered commands in order, nothing is lost, offered = accepted + rejected + refused + retries + put back + in flight, the counters are the numbers of such replies in the log, and the replies that can still come are fewer; no ordering error at all, no other confusion while the peer keeps to RFC 4644 as the program reads it, and none from a peer that echoes plain ids whole |
| StreamRing.AllEchoInOrder | backends/innxmit.c:916-948 | a peer that echoes every id whole, with a code its command may get, is in order when the ids have no ">" inside |
| StreamRing.NotPlainNotInOrder | backends/innxmit.c:916-921 | an id in angle brackets with a ">" inside, echoed whole, is not recognised |
| Innxmit.Sender.Respond | backends/innxmit.c:950-1017 | acting on the reply to the oldest article keeps all of that |
| Innxmit.Sender.Offer | backends/innxmit.c:1506-1520 | an article enters the ring with a CHECK or a TAKETHIS |
| Innxmit.Sender.Drain | backends/innxmit.c:1498-1504 | the loop that waits until few articles are in flight ends, whatever the peer says |
| Innxmit.Sender.MakeRoom | backends/innxmit.c:1498-1504 | before a new article the ring is emptied down to what the number of articles sent without a failure allows |
| Innxmit.Sender.TakeUp | backends/innxmit.c:1456-1521 | what becomes of one article fits what is known of it: gone, set aside, without an id, a duplicate of an id in the ring, or taken up; its line is then in the books or in hand; the pipeline, the counts and the bound on replies are kept |
| Innxmit.Sender.Hear | backends/innxmit.c:873-948 | one final reply is entered in the log; a normal return means that it answers the oldest command |
| Innxmit.Sender.RequeueRing | backends/innxmit.c:465-483 | all articles in flight are written to the temporary file, oldest first |
| Innxmit.Sender.CopyRest | backends/innxmit.c:486-505 | all lines not read yet follow them |
| Innxmit.Sender.RequeueRest | backends/innxmit.c:454-509 | the rewritten batch has what was put back before, the ring, the current article and all unread lines, or the batch is left as it was: the first exactly when something was decided and no write failed |
| Innxmit.Sender.Transmit | backends/innxmit.c:1421-1595 | over a whole run against any peer: the log is what the peer said, without the informational replies, as far as it was heard; every item has an outcome that fits it, and a duplicate is one of an id taken up before; the lines taken up or set aside, the one in hand included, are exactly those with a final answer and those at the front of the rewritten batch, before all unread lines; as many had a final answer as the counters say; the batch is removed exactly when every one had and nothing failed, and left as it was exactly when nothing was decided or its rewriting failed; at most 12 replies for each article that entered |
| BatchLine.LineReread | backends/innxmit.c:1420-1460 | an article that is put back is read again, in the next run, as the same file with the same id exactly when the id is in angle brackets and at most 250 characters long, and the line does not seem to begin with the directory of the articles; with another id the line is ignored then |
| BatchLine.ItemReread | backends/innxmit.c:1420-1460 | so what was read from a batch file is read again as the same but for the directory |
| BatchLine.ReadLineOk | backends/innxmit.c:1415-1460 | an article that is taken from a line has a name without blanks, and an id that can be stored whole |
| BatchLine.LineLost | backends/innxmit.c:741-767 | an id from a header, without angle brackets, is put back in a line that the next run ignores |
| StreamRing.InFlightStep | backends/innxmit.c:950-1015 | one reply moves the window by one command, the resubmitted one last |
| StreamRing.BudgetStep | backends/innxmit.c:961-1011 | every reply uses up one of the at most 2*STNRETRY + 2 an article can get |
| StreamRing.BudgetPlus | backends/innxmit.c:1506-1520 | a new article adds exactly that many |
| StreamRing.IdsStep | backends/innxmit.c:950-1011 | a reply brings no new id into the ring |
| StreamRing.EchoedId | backends/innxmit.c:916-921 | a reply is matched by its whole id exactly when the id has no earlier ">" |
| ChannelTable.Channels.ResetLast | innd/chan.c:596-603 | the highest descriptor bounds the read and write sets and, above 1, is in one |
| ChannelTable.Channels.ResetLastSleeping | innd/chan.c:611-618 | the same for the sleep set |
| ChannelTable.Channels.ReadAdd | innd/chan.c:625-634 | adds to the read set and keeps the bookkeeping |
| ChannelTable.Channels.ReadRemove | innd/chan.c:641-647 | removes from it and keeps the bookkeeping |
| ChannelTable.Channels.SleepAdd | innd/chan.c:655-671 | adds to the sleep set; the count is its size |
| ChannelTable.Channels.SleepRemove | innd/chan.c:678-688 | removes from it |
| ChannelTable.Channels.WakeUp | innd/chan.c:707-715 | every channel asleep on the event wakes at once, no other does |
| ChannelTable.Channels.WriteAdd | innd/chan.c:723-730 | adds to the write set exactly when there is output |
| ChannelTable.Channels.WriteRemove | innd/chan.c:737-749 | removes from it |
| ChannelTable.Channels.Create | innd/chan.c:180-265 | a fresh channel at its descriptor, listed as prioritized when it is a control or remconn one, in an array that never outgrows the table |
| ChannelTable.Channels.Close | innd/chan.c:413-479 | the channel is in no set and not prioritized any more, its slot is free; of a peer with a connection limit the first other active connection begins to read, with its count |
| ChannelTable.Channels.Promote | innd/chan.c:376-405 | which one that is, exactly; nothing else changes |
| ChannelMoments.FirstPeerIs | innd/chan.c:386-403 | that one is of the same peer and counts as active, and none before it does |
| ChannelTable.Channels.Deprioritize | innd/chan.c:434-436 | its place among the prioritized ones becomes vacant |
| ChannelTable.Pigeonhole | innd/chan.c:247-261 | why there is room: distinct open descriptors are fewer than the table |
| WriteLog.AttemptMeans | innd/chan.c:897-922 | of any series of answers that CHANwrite lets happen it reports as many bytes as the kernel took; when none, the last answer, which no signal caused |
| ChannelTable.Channels.ChanWrite | innd/chan.c:897-922 | what is reported as written went out, in order; the answers of the kernel are those of one attempt: the whole until no signal interrupts and then, when that took nothing or was too long, pieces of at most BUFSIZ until one fails |
| ChannelTable.Channels.Output | innd/chan.c:1108-1124 | written bytes leave the pending ones and no others do |
| ChannelTable.Channels.WriteSleep | innd/chan.c:968-990 | a blocked channel is closed exactly when it has blocked more than badiocount times and is of a kind that can be done without; otherwise it sleeps, for as many times blockbackoff, with all of its output |
| ChannelTable.Channels.Failed | innd/chan.c:1125-1147 | the channel is closed exactly on a broken pipe, or when it would block once too often and can be done without; it goes to sleep, out of the write set, exactly when it would block otherwise, or has failed badiocount times; else it stays in the write set; all of its output is kept |
| ChannelTable.Channels.WriteOut | innd/chan.c:1105-1162 | one attempt to write what is pending and its result: what went out moves from pending to written and clears the error counts, with the callback due exactly when all went out; what failed is as above; no other channel is touched; it ends no wait but its own, by closing or by writing all |
| ChannelTable.Channels.HandledEnds | innd/chan.c:1105-1162 | so a waiting channel waits on, is written out, or is closed after a write that failed |
| ChannelMoments.OneEnds | innd/chan.c:723-749 | what is done to one channel makes no other one that is registered with output pending lose its registration |
| ChannelTable.Channels.Flush | innd/chan.c:929-950 | what the kernel took has moved from pending to written, and nothing else; it succeeds exactly when nothing is pending, and the channel is then not in the write set; it gives up only after a write that took nothing, and the channel is registered as it was |
| ChannelTable.Channels.Awake | innd/chan.c:1326-1347 | only open channels are found asleep; one that was waiting to write is in the write set again, one with a callback has it called, and one with neither is closed |
| ChannelTable.Channels.CheckIdle | innd/chan.c:1349-1369 | a channel is closed for its silence exactly when it is a rejected one silent for more than 10 seconds, or a peer silent for more than peertimeout whose time to be logged has come |
| ChannelTable.Channels.CountActive | innd/chan.c:1041-1063 | the count of a channel that counts as active is one more than the active connections of its peer; that of another one stays |
| ChannelMoments.NeverOver | innd/chan.c:1289-1293 | where no connection counts as active none is over the limit |
| ReadLoop.NeverLimited | innd/chan.c:1174-1385 | from the start of the daemon on, whatever limits its peers are given and for any number of turns: no connection ever counts as active, and none ever runs into the connection limit |
| ChannelTable.Channels.Run | innd/chan.c:180-990 | any operation of a callback keeps the bookkeeping and written + pending = queued for every open channel; whoever is registered with output pending stays so, unless this operation closes it, flushes it, or takes it out of the write set or the sleep set; nobody else stops reading or loses its priority; no connection begins to count as active |
| ChannelTable.Channels.Callback | innd/chan.c:1160-1162 | the same over any list of operations |
| ChannelMoments.SinceThen | innd/chan.c:1174-1385 | registrations that are kept from one moment to a second and from there to a third are kept from the first to the third; so is that a channel is dropped only after a write that failed |
| ChanFair.Fairness | innd/chan.c:1258-1383 | between two services of a descriptor every other one that stays registered and is reported ready by every select, or stays asleep with its time come, and is not turned away at the connection limit, is served |
| ChanFair.UnlimitedFairness | innd/chan.c:1258-1383 | and, as nobody ever is turned away there, simply every other one |
| ChanFair.StaysAhead | innd/chan.c:1280-1383 | the sweep, once past a waiting descriptor, comes to it before it comes back, although sweeps break off and their ends move |
| ChanFair.SweepEnd | innd/chan.c:1280-1285 | a sweep ends beyond every descriptor that was ready when it began |
| ReadLoop.Loop.Wait | innd/chan.c:1213-1233 | a select reports any registered descriptors, and the time is read after it; or it fails, which is counted |
| ReadLoop.Loop.ServePrioritized | innd/chan.c:1258-1272 | every prioritized channel that was reported ready is read, and is not ready any more, before the sweep, unless a callback closed it or stopped its reading; and how many are left to be served is lowered and capped for each |
| ReadLoop.Loop.BeginSweep | innd/chan.c:1280-1285 | a sweep begins where the last one stopped, or at 0 |
| ReadLoop.Loop.Exceeds | innd/chan.c:1289-1293 | whether the connection is one too many, counted anew |
| ReadLoop.Loop.Limit | innd/chan.c:1294-1305 | such a channel is closed exactly when its hold time is over, otherwise it stops reading and is passed over |
| ReadLoop.Loop.LookToWrite | innd/chan.c:1319-1323 | a channel is written to exactly when it is registered and was reported, with the result above, and its callback called exactly when all went out |
| ReadLoop.Loop.LookAtSleep | innd/chan.c:1325-1347 | a sleeper is woken exactly when its time has come by the clock, and otherwise nothing changes |
| ReadLoop.Loop.Look | innd/chan.c:1308-1374 | one descriptor is looked at: it is served when it is registered and was reported or its time has come, its reader first; it is not idle for too long afterwards; the sweep moves on; nobody loses its registration without a reason |
| ReadLoop.Loop.One | innd/chan.c:1286-1382 | the body of the sweep: turned away exactly when over the limit, and the end exactly when nothing is left to do |
| ReadLoop.Loop.SweepAll | innd/chan.c:1280-1383 | a sweep begins where the last one stopped, or at 0, and looks at every descriptor once round, unless it stops when nothing is left to do or its first connection is closed at the limit; what it did is a run in the sense of the fairness theorem; nobody loses its registration without a reason |
| ReadLoop.Loop.Turn | innd/chan.c:1193-1384 | after a select that reported something, or with a sleeper due, a sweep follows; after one that failed nothing does; the log gains one select exactly when it did not fail |
| ReadLoop.Loop.ReadLoop | innd/chan.c:1174-1385 | for any number of turns and any callbacks the bookkeeping holds and the log, with as many selects as did not fail, is a run the fairness theorem is about; a channel registered with output pending stays in the write set or asleep until all is written, it is closed, or a callback takes it out; it is dropped only after a write that failed with a broken pipe or would block |
| GroupName.BadName | backends/actsync.c:1145-1231 | 0 exactly for names whose dot-separated components are non-empty words over letters, digits, "+", "-" and "_", with at most gFlag dots when that is positive, and no component of digits only when that is checked |
| GroupName.PartsSplit | backends/actsync.c:1119-1143 | the components are what stands between the dots |
| GroupName.PartsUnique | backends/actsync.c:1119-1143 | and there is no other way to see them |
| GroupName.WordyAre | backends/actsync.c:1145-1231 | the characters of a component, one by one |
| ActiveFile.KeysTotal | backends/actsync.c:1563-1602 | the order of both sorts (unskipped first, the name stood for, the name, host1 first, the line number) says the opposite of two lines when they are exchanged |
| ActiveFile.KeysTrans | backends/actsync.c:2263-2318 | and it is transitive, so that sorting by it means something |
| ActiveFile.SortOrders | backends/actsync.c:1629-1631 | after a sort everything is in order |
| AliasSpec.PendingIs | backends/actsync.c:2380-2385 | after the sort exactly the records that are not skipped are in front, their names ascending |
| AliasSpec.Turn | backends/actsync.c:2386-2467 | every turn moves on in the lines or the records, although the index is taken back, and no record changes its group: every pass ends |
| AliasMarks.One | backends/actsync.c:2388-2467 | the loop body does that turn; the branch for skipped records is never taken |
| AliasMarks.ScanPass | backends/actsync.c:2386-2487 | a pass, and the loop for what it leaves over; how many records it found bad and how many it left |
| AliasMarks.Resolve | backends/actsync.c:2371-2488 | up to sixteen passes |
| AliasMarks.MakeRecords | backends/actsync.c:2356-2369 | a record for every "=" group of the host that is free of errors |
| AliasMarks.MarkLong | backends/actsync.c:2490-2505 | what is left after them is marked as a long chain |
| AliasMarks.MarkEqProbs | backends/actsync.c:2333-2516 | the marks made in place, for every array, and their number |
| AliasChains.Soundness | backends/actsync.c:2333-2516 | every "=" group that is left without an error reaches, in at most EQ_LOOP links through groups of the host that were free of errors and never by way of its own name, a group that is no alias and free of errors; only such "=" groups are ever marked; one marked as a loop comes back to itself, one marked as a long chain has more than EQ_LOOP links |
| AliasChains.TurnFollows | backends/actsync.c:2388-2467 | a turn takes every record to where one more link leads, or settles it |
| AliasChains.ScanFollows | backends/actsync.c:2386-2487 | so does a pass |
| AliasChains.StepsFollow | backends/actsync.c:2377-2488 | so do all passes, and no group is forgotten |
| AliasExact.MarksNothing | backends/actsync.c:2333-2516 | on a sorted array nothing is marked exactly when every "=" group of the host reaches a real group by first matches in at most EQ_LOOP links |
| AliasExact.NoProblems | backends/actsync.c:2509-2515 | the number of new errors is 0 exactly then |
| AliasExact.MarksTooMuch | backends/actsync.c:2451-2466 | completeness is false: after a missed name a "=" group that stands for a group which is there is marked as standing for nothing |
| AliasComplete.Complete | backends/actsync.c:2333-2516 | on a sorted array in which no name is repeated, no "=" group stands for a name that is not there and none runs into a loop it is not part of: a "=" group is left alone exactly when it is good, and marked as a loop exactly when its chain is one of at most EQ_LOOP links |
| AliasComplete.StraysToBlame | backends/actsync.c:2451-2466 | the converse: a good group that is marked, or any mark of a missing name, means that the array has such a stray or a repeated name |
| AliasComplete.GoodIsArrival | backends/actsync.c:2388-2467 | good, as the passes follow names, is the same as reaching a real group line by line |
| AliasMisses.MissedExactly | backends/actsync.c:2386-2487 | one pass over a sorted array takes a name for missing exactly when every line with that name that is still free of errors was passed over for names missed before |
| AliasMisses.TakenBy | backends/actsync.c:2451-2466 | a line is passed over only for a name that sorts before its own, and the group of that name is marked |
| AliasMisses.MissingExactly | backends/actsync.c:2333-2516 | over all passes a group has the mark of a missing name exactly when that happened to it in one of them |
| AliasMisses.GoodMarkedExactly | backends/actsync.c:2333-2516 | on a sorted array without repeated names a good group is marked exactly then |
| ActiveMerge.MergeWalk | backends/actsync.c:1648-1743 | the walk in place gives every line what the specification says, for every sorted array |
| ActiveMerge.Select | backends/actsync.c:1691-1742 | both hosts, host2 only or host1 only; "internal error #8" is never reached |
| ActiveMerge.Duplicates | backends/actsync.c:1660-1677 | exactly the repeated lines of the host are marked as duplicates |
| ActiveMerge.MergedHere | backends/actsync.c:1691-1698 | why: a line with a partner is of host1, and the partner is the first line of host2 that counts |
| ActiveMerge.MergeGrps | backends/actsync.c:1616-1756 | sort, mark host2, walk, mark host1 |
| ActiveMerge.MergeMeans | backends/actsync.c:1691-1736 | where no host repeats a group: on both hosts host1's entry with the type of host2, on host2 only a new group, on host1 only the old entry, to be removed exactly when -m is off; hi and low by -o k and -o K |
| ActiveMerge.OutputOnce | backends/actsync.c:1648-1743 | every group that counts is output, and no name twice, exactly when no name counts for host1 and more than once for host2 |
| ActiveMerge.MergedOnce | backends/actsync.c:1616-1756 | the same of the whole merge, with its sort and both markings |
| ActiveMerge.SentTwice | backends/actsync.c:1648-1743 | a group that host1 lists once and host2 twice is output twice, whatever the options |
| ActiveMerge.LowestLineKept | backends/actsync.c:1616-1756 | of the lines that a host has for a group the one with the lowest line number is output, or is the one of host2 that gives its type |
| DumpScan.NumScan | backends/ninpaths.c:166-186 | what %ld writes %ld reads, up to a character that is no digit |
| DumpFormat.Parse | backends/ninpaths.c:226-323 | whatever the input, a dump in the right format has as many sites as its header says, at least one, and no link that is taken up leads to an unknown site |
| DumpFormat.ParseExact | backends/ninpaths.c:121-139 | a dump is read back, with every site, count and link, exactly when there is a site and every name is non-empty, has no white space and is shorter than 128 |
| DumpFormat.ParseBack | backends/ninpaths.c:142-193 | the one half, by its records |
| DumpFormat.ParsedReadable | backends/ninpaths.c:247-255 | the other: no other name is ever read |
| DumpFormat.SitesBack | backends/ninpaths.c:155-168 | the S-records, with their line breaks |
| DumpFormat.RecsBack | backends/ninpaths.c:174-191 | the L-records, with tallies of 1 left out and read back as 1 |
| DumpTriples.TriplesDumpBack | backends/ninpaths.c:226-323 | a version 3.0 dump of any sites with readable names and any links: every link is read from the first site to the second with its tally, up to the first to an unknown site, and the dump is in the right format exactly when there is none, there is a site, and it ends with the right numbers |
| DumpTriples.TriplesBack | backends/ninpaths.c:260-271 | the triples give back exactly these links, in order |
| DumpFormat.RecsDumpBack | backends/ninpaths.c:226-323 | the same for version 3.1, with any records and any number at the end |
| DumpFormat.CommaAlone | backends/ninpaths.c:274-277 | a count whose comma has no number after it has a tally of 1 |
| Ninpaths.Paths.Hhost | backends/ninpaths.c:77-100 | the one record of a name, new at the head of its chain |
| Ninpaths.Paths.TallyRec | backends/ninpaths.c:104-118 | the one record of a pair of hosts is counted, no other changes |
| Ninpaths.DumpOrder | backends/ninpaths.c:155-172 | a dump meets every host once: the count of sites is never wrong |
| Ninpaths.Paths.WriteSites | backends/ninpaths.c:155-172 | the S-records in chain order, each host numbered by its place |
| Ninpaths.Paths.WriteLinks | backends/ninpaths.c:177-191 | the L-records with the same numbers, and how many links |
| Ninpaths.Paths.WriteDump | backends/ninpaths.c:142-193 | the dump of the table, or nothing when no path was seen |
| Ninpaths.Paths.ReadSites | backends/ninpaths.c:247-255 | every S-record adds its count to its host |
| Ninpaths.Paths.ReadCounts | backends/ninpaths.c:274-289 | every count of an L-record adds its tally to its pair |
| Ninpaths.Paths.ReadLinks | backends/ninpaths.c:272-289 | so do all L-records |
| Ninpaths.Paths.ReadTriples | backends/ninpaths.c:260-271 | and those of version 3.0 |
| Ninpaths.Paths.ReadDump | backends/ninpaths.c:226-323 | for every input: 0 exactly when its format is right, and all counts, tallies and hosts it names up to the first error are added pointwise |
| Ninpaths.Transfer | backends/ninpaths.c:142-323 | a dump read into a table adds every count and every pairwise tally of the dumped one, knows its hosts, and adds the totals; a tally below 1 comes back as 1, all others as they are; what is read is the dump exactly when every name can be read and there is one, and otherwise whatever the text says |
| Ninpaths.DumpAdds | backends/ninpaths.c:142-323 | the records of a dump add up to the table it was made from |
| PathTable.SitesAddUp | backends/ninpaths.c:155-168 | its S-records to the counts |
| PathTable.LinksAddUp | backends/ninpaths.c:177-191 | its L-records to the tallies, by the numbers of the S-records |
| Ninpaths.Paths.PathLine | backends/ninpaths.c:352-381 | every host of a Path line, up to one with too long a name, is counted, and every step from one host to another one |
| Ninpaths.Paths.TakePaths | backends/ninpaths.c:386-421 | after any Path lines every count has grown by how often the lines name the host, every tally by how often they go from one host to the other, and the known hosts are those known before and those named |
| PathLines.DumpableExactly | backends/ninpaths.c:142-193 | the dump of a new table can be read back exactly when some line names a host and every name of every line can be read |
| PathLines.SolidDumpable | backends/ninpaths.c:352-421 | for lines without white space: exactly when some line has a host and no line begins with "!" |
| PathLines.ByDump | backends/ninpaths.c:142-421 | Path lines counted in one table and its dump read into another: the second table is then the count of the lines, exactly under that condition; otherwise another dump is read, or none |
| PathLines.EmptyLine | backends/ninpaths.c:241-246 | a Path line without a host makes a dump that is refused |
| PathLines.DelimiterLine | backends/ninpaths.c:352-381 | the line "!a" makes a host without a name, and a dump that does not read back |
| PathLines.Misread | backends/ninpaths.c:247-255 | such a dump can be read without an error as that of other hosts |
| DumpFormat.NoSites | backends/ninpaths.c:241-246 | a dump without sites is refused |
| PathLines.PathReadable | backends/ninpaths.c:352-381 | all names of a line without white space can be read back, unless it begins with "!" |
| HistoryCache.History.Run | history/his.c:87-385 | over any sequence of check, write, remember, replace, resizing and taking statistics the contents are those of the history file without the cache, and so are the answers, but that a check of an id that hashes to all zeroes may deny it; the counters are those of the checks since they were last cleared |
| HistoryCache.AgreeExactly | history/his.c:234-265 | without such ids all answers are those of the history file |
| HistoryCache.Overlooked | history/his.c:106-128 | an id that hashes to all zeroes, in the file when the cache is new, is denied |
| HistoryCache.History.Check | history/his.c:234-265 | the answer is that of the history file, except exactly when the id hashes to the empty value, its slot was never used, and the file has it; exactly the one of the four counters for it grows; what was not in the cache is then in its slot, and no other slot changes |
| HistoryCache.History.Put | history/his.c:268-327 | a successful write is in the file and in the cache, a failed one changes nothing |
| HistoryCache.History.SetCache | history/his.c:357-369 | a new empty cache of as many entries as fit, or none; cleared statistics |
| HistoryCache.History.TakeStats | history/his.c:376-385 | returns the statistics and clears them |
| HistoryCache.History.CacheAdd | history/his.c:87-100 | one slot is overwritten and every slot is honest again |
| HistoryCache.History.CacheLookup | history/his.c:106-128 | a hit and a miss are true of the file |
| HistoryCache.LocMeans | history/his.c:87-100 | the place of a hash is what its last four bytes spell, from the front or from the back by the order of bytes of the machine |
| HistoryCache.LocTells | history/his.c:87-100 | so that two hashes are told apart exactly by these bytes |

## Left out

- Decoder.Reader.DecodeAll: says nothing about the output when the input, against the format, ends with an odd number of digits after its last whole block, since the program then reads a character that an earlier block left behind; the same holds when the end mark announces more sextets than the last piece has, where the program reads beyond its array (status `Overrun`).
- Decoder.Reader.AtEnd: the same, for the last piece alone.
- Innxmit.Sender.StrListen: that no reply is taken for an unknown article is stated for polite peers, and ids that could be stored whole; for other peers the program does report it.
- ChannelTable.Channels.Run: skips an operation on a channel that is not open, where the program leaves that to its callers; the buffers of a channel are strings, without their growth and compaction.
- ReadLoop.Loop.ReadLoop: for a number of turns given by the caller, where the program goes on for ever.
- AliasComplete.Complete: for arrays that repeat no name; with repeated names `AliasMisses.MissingExactly` says which groups are marked for a missing name, by the state of the passes.
- Ninpaths.Transfer: the averages and times of a dump are carried as numbers, the floating-point average of the ages is not kept; for a dump with names that cannot be read it says that another dump is read, and not which.
- WireStore.Session.StoreWireArticles: the storage manager is any that may refuse an article; that the program dies on an article without the headers it needs is not modelled, nor are the dies on failed allocation.
- The lock protocol is not also written as imperative code for a single process: its steps interleave with those of other processes, and are modelled on values.
- `shlock`: the binary and the ASCII format of the process id, the -c option and the loop over temporary file names.
- `innxmit`: the IHAVE path, signals and time-outs, purging, headers-only feeds, article sizes and statistics, the escaping of articles.
- `chan.c`: names, diagnosis, reading into buffers, timers and logging; resizing of the table; what a site does when its channel is about to be closed (`SITEchanclose`); that some callbacks also set the time a channel was last active.
- `actsync`: reading active and ignore files, the ignore patterns, output and execution of the result, the guard on the percentage of changes.
- `ninpaths`: the report, the choice of files, trimming of header lines.
- `his.c`: the methods under the cache, walking and expiring, timing logs, null handles.
- Sockets, processes, options and messages everywhere.
