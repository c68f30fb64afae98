# outrelay-agent: stream resume, direct migration, interception and selection

A Dafny 4.11 model of the outrelay agent. `dafny verify dfyconfig.toml` checks all of it.

The agent tunnels application streams through a relay. When the relay connection dies it reconnects,
and each stream resumes where it stopped: both sides exchange byte positions, retransmit what the
other has not received from a bounded ring, and go on. The model covers that protocol and the code
around it.

| file | what it models |
|---|---|
| `ResumeState.dfy` | byte counters and the bounded ring of one stream |
| `ResumeProtocol.dfy` | two sides, links that break, resumes and checkpoints, as a step system |
| `ResumeRecovery.dfy` | when a stream can be brought back, and when a resume is inexact |
| `ParkWake.dfy` | parking, waking and abandoning a stream, in every interleaving |
| `Session.dfy` | `ResumableStream` and `Session` as objects: Read, Write, Reconnect |
| `Waiters.dfy` | the stream-mode and candidate-answer waiter tables |
| `Connect.dfy` | the dial race, the reconnect backoff, fresh stream ids |
| `VipAllocator.dfy` | the virtual-IP allocator |
| `Dns.dfy` | suffix normalisation and the read-only DNS lookup |
| `Candidates.dfy` | the stable candidate sort and the connectivity check |
| `Common.dfy` | shared definitions |

A step system has a `Step` datatype, a predicate `Enabled`, and a function `Do`; a run is a sequence
of steps, of any length. `Reachable` states are the ends of runs; in `ResumeProtocol` they are the
ends of disciplined runs (see Findings), and `Arises` names the ends of all runs.

## Assumptions

- The library that owns the resume state is not part of this model. `ResumeState` gives it a contract
  read off its call sites and the tests beside them
  (`pkg/session/checkpoints_internal_test.go:19-39`, `pkg/session/resume_internal_test.go:24-88`): a
  write appends and evicts the oldest bytes beyond the capacity, a checkpoint raises the peer's ack
  and frees the ring below it, a position the ring no longer holds is refused. An ack beyond the bytes
  sent is taken as if it were the number sent.
- The relay pairs the two outstanding STREAM_RESUME frames of a stream, gives each side the other's
  frame, and from then on carries bytes in order in both directions, until either direction breaks. A
  broken direction delivers at most a prefix of what it held and swallows what is written to it.
- A transport on a closed connection neither yields nor accepts bytes. So `ResumeProtocol` is about
  streams carried by the relay; a stream already moved to a direct connection keeps a live transport
  while `Resume` runs, and is outside it.
- A stream has one reader and one writer at a time, as a bridge does. Their calls are not atomic: in
  `ResumeProtocol` the bytes and the counter move in separate steps, in `DirectMigration` the fetch of
  the transport is a third. Only one migration of a stream is followed, and its relay path does not
  break meanwhile.
- A registered waiter channel is waited on by one call, as the callers do.
- Dial outcomes, context expiry, clock and network are parameters: scripts, sets or functions that
  range over every possibility.
- Strings have ASCII letter case only (section 2.3.3 of RFC 1035).

## Findings

- Read and Write hold no lock between the transport call and the counter update, so a resume can
  start in between. `ResumeExactIff` shows that a resume is then exact if and only if both backlogs
  fit and, in each direction, what the reader has not counted makes up for what the writer has not
  logged; where no direction lags at both ends, if and only if nothing lags
  (`ResumeExactlyWhenQuiet`). Bytes read but not counted are otherwise delivered twice
  (`UncountedBytesArriveTwice`), bytes written but not logged are never sent again
  (`UnloggedBytesAreSkipped`) or make the resume fail (`UnloggedBytesRefused`). The theorems of
  `ResumeProtocol` about delivered bytes are about runs in which every STREAM_RESUME is written with
  the received counter up to date and every retransmission is read with the ring up to date
  (`Disciplined`); everything else about a run is free.
- A checkpoint can overtake a resume. If the peer counts bytes after it offered its position and a
  checkpoint with the new count is applied before the retransmission, the bytes at the offered position
  are gone from the ring and the resume fails, even when nothing is missing (`CheckpointDuringResume`,
  `LateCheckpointWitness`). In the code this takes a control reader that survives a reconnect, which
  nothing rules out: the reader loads the control stream without a lock (`pkg/session/promote.go:78`).
  `GapInAnyRun` says what a resume finds in every run whatever.
- A backlog larger than the ring is lost for good once it is logged (`LostForGood`), but a write that is
  not logged yet can go in a second round, so a backlog that does not fit may still be delivered
  (`UnloggedGoInTwoRounds`, `TwoRoundsWitness`).
- `MigrateToDirect` retransmits nothing, although the comment on `completeResume` says the migration
  path shares it, and `handleDirectStream` holds no lock from its retransmission to its swap.
  `MigrationExactIff` gives the exact condition under which no byte is lost or repeated, for every
  interleaving; `AcceptExactIff` gives the one the responder could check. The frame carries the
  position that would tell it, and the code does not compare it. What the responder's application
  writes while it accepts is lost however well the rest is timed (`LateWriteIsLost`).
- A finished wait for a stream-mode notice cancels by stream id, so if the id was registered again
  meanwhile it removes the newer waiter (`CancelDropsNewer`).
- Checkpoints, resumes and migrations all carry the sender's own position (`MyPosition`), and no
  receiver ever looks at it.
- The `reconnecting` flag is stored and never read, and the retry deadline of Read and Write counts
  from the start of the call; the model follows the code, not the comments.
- With a DNS suffix configured a bare name is refused, although the comment on the server lists it. A
  service name with an upper-case letter is allocated as it is and no query can reach it
  (`UpperCaseNeverResolves`). A suffix configured with a trailing dot makes name plus suffix
  unresolvable without a further dot (`EverySpellingResolves`).
- `ForgetStream` abandons whichever wrapper the table holds under the id, so after an id collision
  closing the older wrapper abandons the newer one.

## Model

| member | source | states |
|---|---|---|
| `ResumeState.WriteTracks` | pkg/session/session.go:507-511 | after OnWrite the ring is exactly the unacknowledged, unevicted end of the whole log |
| `ResumeState.CheckpointTracks` | pkg/session/checkpoints.go:76-84 | the same after any checkpoint, late or repeated; the ack becomes the highest so far and no acknowledged byte stays in the ring |
| `ResumeState.ChunksCompose` | pkg/session/session.go:494-528 | cutting a write into partial writes leaves no trace in the resume state |
| `ResumeState.RetransmitExact` | pkg/session/session.go:673-676 | at any position at or above the ack the ring returns the log's own bytes, and refuses exactly when they exceed the capacity |
| `ResumeState.TrimmingIsInvisible` | pkg/session/checkpoints.go:72-84 | for every history and position, checkpoints leave what a resume can retransmit unchanged if and only if it asks for no acknowledged byte that capacity would have kept |
| `ResumeProtocol.StepInv` | pkg/session/session.go:457-683 | every disciplined step of the protocol keeps the invariant: prefixes, in-flight bytes, ring contents, honest acks, paired positions |
| `ResumeProtocol.ReadIsPrefixOfWritten` | pkg/session/session.go:457-683 | in every disciplined run with any number of losses and resumes, what a side has read is a prefix of what the other wrote |
| `ResumeProtocol.NothingIsMissing` | pkg/session/session.go:633-683 | in every disciplined run, once both sides have replayed onto one link, read plus in flight is the writer's whole log |
| `ResumeProtocol.AcksAreHonest` | pkg/session/checkpoints.go:50-84 | in every run whatever, no ack emitted or recorded exceeds what was read; the ring drops only read bytes or what capacity forces out, and holds exactly the rest of the logged bytes |
| `ResumeProtocol.GivingUpIsFinal` | pkg/session/session.go:788-795 | after a failed resume or an abandonment, no run whatever moves another byte through that stream, in either direction |
| `ResumeProtocol.BreakCutsOff` | pkg/session/session.go:469-487 | in every run, a reader still on a link whose direction broke has read no more than the bytes that survived |
| `ResumeProtocol.RoundTrimsToUndelivered` | pkg/session/checkpoints.go:50-84 | one emitted and applied checkpoint cuts the ring to exactly the bytes the peer has not counted, up to capacity |
| `ResumeProtocol.GapInAnyRun` | pkg/session/session.go:660-683 | in every run whatever, a paired side's retransmission is refused below the highest ack or what capacity leaves, refused beyond what it logged, and else is exactly the logged bytes from the offered position |
| `ResumeProtocol.CheckpointDuringResume` | pkg/session/checkpoints.go:72-84 | in every run whatever, a checkpoint exchanged during a resume makes it fail if and only if it fails anyway or the peer has counted past the position it offered; else it changes nothing |
| `ResumeProtocol.ResumeOutcome` | pkg/session/session.go:660-683 | in a disciplined run a paired side's retransmission succeeds if and only if what it logged reaches what the peer read and the difference fits the ring, and is precisely that difference; with nothing unlogged it is the peer's whole backlog and never asked for beyond Sent |
| `ResumeRecovery.Drain` | pkg/session/session.go:457-489 | on an unbroken link, reading what is in flight makes received equal to everything the peer wrote |
| `ResumeRecovery.Recover` | pkg/session/session.go:701-797 | from any state in which neither side gave up and the backlogs fit, some run delivers every byte both ways |
| `ResumeRecovery.PartOfTheGapArrives` | pkg/session/session.go:673-683 | a resume that fails half-way has delivered exactly the part of the gap it wrote |
| `ResumeRecovery.LostForGood` | pkg/session/session.go:630-683 | from every closed state of any run, once the logged unread bytes exceed the ring, no run whatever lets the peer read another byte |
| `ResumeRecovery.RecoverableIffItFits` | pkg/session/session.go:630-683 | two closed sides with nothing unlogged can get back in step, by any run whatever, if and only if both backlogs fit |
| `ResumeRecovery.RecoverableExactlyWhenItFits` | pkg/session/session.go:630-683 | with unlogged bytes too, two closed sides can get back in step by a disciplined run if and only if both backlogs fit |
| `ResumeRecovery.UnloggedGoInTwoRounds` | pkg/session/session.go:507-511 | if the logged unread bytes fit and the unlogged ones fit, some run delivers everything, although together they may not fit |
| `ResumeRecovery.TwoRoundsWitness` | pkg/session/session.go:507-511 | a reachable state with a backlog larger than the ring that some run delivers and no disciplined run does |
| `ResumeRecovery.ResumeExactIff` | pkg/session/session.go:457-528 | a resume between closed sides is exact if and only if both backlogs fit and in each direction the uncounted and the unlogged bytes are equally many and interchangeable |
| `ResumeRecovery.ResumeExactlyWhenQuiet` | pkg/session/session.go:457-528 | where no direction lags at both ends, a resume is exact if and only if no counter lags and both backlogs fit |
| `ResumeRecovery.UncountedBytesArriveTwice` | pkg/session/session.go:469-473 | from every state with bytes read but not counted and the gaps held, some run makes the side read exactly that many bytes more than were written |
| `ResumeRecovery.UnloggedBytesAreSkipped` | pkg/session/session.go:507-511 | from every state with bytes written but not logged and not yet read, some run makes the peer read the next byte in their place |
| `ResumeRecovery.UnloggedBytesRefused` | pkg/session/session.go:673-676 | a paired side is asked for bytes beyond its ring if and only if the peer has counted past what it logged, and then the resume fails |
| `ResumeRecovery.UncountedWitness` | pkg/session/session.go:469-473 | such states are reachable, by an explicit run |
| `ResumeRecovery.UnloggedWitness` | pkg/session/session.go:507-511 | the same for bytes written but not logged |
| `ResumeRecovery.CancellingWitness` | pkg/session/session.go:457-528 | a reachable resume that is exact although both sides lag |
| `ResumeRecovery.LateCheckpointWitness` | pkg/session/checkpoints.go:72-84 | a resume in progress with nothing missing that replays, and that one checkpoint makes fail |
| `DirectMigration.StartsOnRelay` | pkg/session/promote.go:568-587 | every live, unbroken state of the relay protocol, calls in progress included, is a starting point of a migration with the same bytes in flight |
| `DirectMigration.StepInv` | pkg/session/promote.go:512-587 | every step of readers, writers, snapshot, retransmission and the two swaps keeps, in each direction, the order relay bytes, retransmission, direct bytes, and the counters behind them |
| `DirectMigration.RunInv` | pkg/session/promote.go:512-587 | so does every run, with calls caught by a swap in mid-air |
| `DirectMigration.ResponderRepairsItsDirection` | pkg/session/promote.go:540-556 | the retransmission makes the responder's direction exact if the initiator takes nothing from the relay past its frame and the responder puts nothing there past its retransmission |
| `DirectMigration.MigrationExactIff` | pkg/session/promote.go:512-587 | once no call will touch the relay again, the stream stays exact in every continuation if and only if the positions at which the sides left the relay fit together |
| `DirectMigration.ExactIffNoWindow` | pkg/session/promote.go:540-587 | if either window stayed empty: if and only if both did and the responder left nothing on the relay |
| `DirectMigration.AcceptExactIff` | pkg/session/promote.go:543-556 | behind a quiescent initiator, an idle responder that accepts keeps the stream exact if and only if its position equals the one in the frame |
| `DirectMigration.AckDuringMigration` | pkg/session/promote.go:543-548 | a checkpoint applied before the retransmission makes it impossible if and only if it was already, or it acknowledges bytes beyond the frame's position; else it changes nothing |
| `DirectMigration.LateWriteIsLost` | pkg/session/promote.go:543-556 | bytes the responder writes between retransmission and swap, or after the swap in a call begun before it, are lost, and only they: the initiator's bytes, read and in flight, are the responder's log without them |
| `DirectMigration.InFlightWitness` | pkg/session/promote.go:568-587 | a reachable migration by a quiescent initiator that loses a byte in flight |
| `DirectMigration.LateWitness` | pkg/session/promote.go:549-556 | and one that loses a byte the responder wrote while accepting |
| `ParkWake.StepInv` | pkg/session/session.go:457-601 | every step of every caller, SwapInner and markAbandoned keeps channels single-use and snapshots current or about to be woken |
| `ParkWake.NoDoubleClose` | pkg/session/session.go:563-601 | no generation channel is closed twice, and each owed close is owed once |
| `ParkWake.NoLostWakeup` | pkg/session/session.go:457-548 | a parked caller on an open channel holds the current transport of a live stream, or a SwapInner in flight owes it the close |
| `ParkWake.NoStrandedReader` | pkg/session/session.go:581-600 | a reader inside a replaced transport has it cancelled, or a SwapInner in flight owes that |
| `ParkWake.SwapWakesEveryone` | pkg/session/session.go:457-601 | after a SwapInner completes, everyone that fetched its transport before it and has parked can wake, and finds a transport other than the one it failed on, neither cancelled nor about to be, or ErrStreamLost |
| `ParkWake.SwapLeavesNothingOwed` | pkg/session/session.go:588-601 | a SwapInner that has run to its end has replaced transport and channel, closed and cancelled the old ones, owes nothing and has moved no caller |
| `ParkWake.AbandonWakesEveryone` | pkg/session/session.go:563-573 | nobody can stay parked on an abandoned stream |
| `ParkWake.AbandonIsTerminal` | pkg/session/session.go:457-505 | iterations that start after abandonment return ErrStreamLost and move no counter, whatever runs later, SwapInner included |
| `ParkWake.AbandonedOnce` | pkg/session/session.go:563-573 | abandoning again, at any later time, changes nothing |
| `ParkWake.EveryByteCounts` | pkg/session/session.go:469-511 | over every run, a caller's counter moves by exactly the bytes its transports moved |
| `ParkWake.ReturnsTell` | pkg/session/session.go:457-530 | data is returned exactly after a transfer, ErrStreamLost only on an abandoned stream, the transport's error otherwise; a partial write and a wake-up loop again |
| `Session.WriteRidesOutLosses` | pkg/session/session.go:491-530 | errors followed by a swap in time are invisible: Write delivers all the transports accept and returns nil exactly when that is everything |
| `Session.WriteEnds` | pkg/session/session.go:491-530 | the first turn that does not recover ends Write with what was accepted until then: ErrStreamLost, io.EOF or the unanswered error |
| `Session.ReadRidesOutLosses` | pkg/session/session.go:457-489 | Read goes past errors followed by a swap in time and returns the bytes, the count and the error of the first other turn, or ErrStreamLost |
| `Session.ResumableStream.WriteOnce` | pkg/session/session.go:495-527 | one iteration: the chunk accepted, and whether the call ends |
| `Session.ResumableStream.Write` | pkg/session/session.go:491-530 | exactly p[..n] joins the log, in order and once; the error is nil if and only if n is len(p) |
| `Session.ResumableStream.Read` | pkg/session/session.go:457-489 | exactly the returned bytes are counted and appended; an abandoned stream returns none |
| `Session.ResumableStream.SwapInner` | pkg/session/session.go:588-601 | installs the transport and a new generation; never revives an abandoned stream, moves no counter |
| `Session.ResumableStream.MarkAbandoned` | pkg/session/session.go:563-573 | idempotent and final |
| `Session.CopyIntoStream` | pkg/session/session.go:1004-1025 | from the local connection: it reads buffer by buffer up to the first error; what the stream accepts is a prefix of that, and all of it unless a write failed or is unfinished |
| `Session.CopyFromStream` | pkg/session/session.go:1004-1025 | the same from the stream to the local connection |
| `Session.Session.WrapStream` | pkg/session/session.go:381-396 | a fresh, live, empty wrapper with the given ring replaces what the table held under its id |
| `Session.Session.ForgetStream` | pkg/session/session.go:402-410 | removes the id and abandons the wrapper the table held; no active stream is abandoned |
| `Session.Session.CloseStream` | pkg/session/session.go:550-559 | forgets the id and abandons the wrapper, also when the table held another one |
| `Session.Session.ApplyCheckpoint` | pkg/session/checkpoints.go:76-84 | only the named stream's ring moves |
| `Session.Session.EmitOnce` | pkg/session/checkpoints.go:50-70 | one frame per active stream with its own counters, until the control stream refuses one |
| `Session.Session.Resume` | pkg/session/session.go:633-683 | fails on a missing or mismatched echo; else succeeds if and only if the ring still reaches the peer's position and the gap can be written; then writes exactly the rest of the log and swaps; else leaves the wrapper alone |
| `Session.DialError` | pkg/session/session.go:716-754 | the error of the first refused dial; the generic one if and only if no dial was refused |
| `Session.Session.DialRelay` | pkg/session/session.go:716-754 | the winner is the connection of the first address to complete HELLO, nothing is dialed after it, every other opened connection is closed; else the first dial error |
| `Session.Session.RegisterAll` | pkg/session/session.go:765-782 | every exposed service is registered exactly once, or an unacknowledged one is named |
| `Session.Session.ActiveStreams` | pkg/session/session.go:859-867 | each active wrapper exactly once |
| `Session.Session.ResumeAll` | pkg/session/session.go:788-795 | independent of order, the table splits into the streams that can resume, live on the connection, and the others, removed and abandoned |
| `Session.Session.Reconnect` | pkg/session/session.go:701-797 | a failed reconnect touches no stream; a successful one partitions them as above, onto the first connection to complete HELLO; exactly the old and the half-open connections are closed; counters, rings and histories never move |
| `Waiters.StepInv` | pkg/session/promote.go:241-361 | every step of readers, waiters and cancels keeps each waiter at nothing or the first message of its own channel |
| `Waiters.WaitReturnsFirst` | pkg/session/promote.go:346-361 | a wait ends with the first notice its channel accepted or with cancellation, leaves no entry for its channel, and none for its stream if that was registered once |
| `Waiters.NoticesAreForTheirStream` | pkg/session/promote.go:241-334 | in every run, the message a wait returns was delivered for the very stream it waited on |
| `Waiters.DeliveredAtOnce` | pkg/session/promote.go:241-361 | lookup, send and receive in a row end the wait of that stream with that message; a notice leaves the entry, an answer takes it |
| `Waiters.RegisteredWait` | pkg/session/promote.go:289-361 | from every state, a registration and a wait on it are answered by the next delivery for that stream, and no entry stays |
| `Waiters.SecondIsDropped` | pkg/session/promote.go:241-334 | a second notice finds the slot full and is dropped, a second answer finds no entry |
| `Waiters.ExpiredOrCancelled` | pkg/session/promote.go:302-361 | a wait whose context fires ends with that and leaves no entry; a wait after a cancel is refused |
| `Waiters.FirstIsNeverDropped` | pkg/session/promote.go:313-334 | a notice is dropped as "waiter full" only after one was accepted |
| `Waiters.DeliveryReachesWaiter` | pkg/session/promote.go:289-361 | a waiting call can still get a notice if and only if one is in its slot, a reader holds one for it, or its entry is in place |
| `Waiters.CancelDropsNewer` | pkg/session/promote.go:302-361 | after a cancel, or another wait's deferred one, the same holds, except that an entry under the cancelled stream id no longer counts |
| `Waiters.AnswersNeverOverflow` | pkg/session/promote.go:241-267 | each answer channel accepts at most one answer, so "waiter full" is unreachable, even with re-registration and several readers |
| `VipAllocator.ParsedPrefix` | pkg/intercept/vip.go:30-45 | only IPv4 ranges are accepted; the prefix is aligned, inside the address space and contains the given address |
| `VipAllocator.NthIsNext` | pkg/intercept/vip.go:60-75 | the k-th address of the closed form is usable and reached by skipping at most two unusable ones |
| `VipAllocator.NothingAfterLast` | pkg/intercept/vip.go:60-69 | after the last one only unusable addresses are left |
| `VipAllocator.RankInvertsNth` | pkg/intercept/vip.go:60-75 | the closed form never gives one address to two positions |
| `VipAllocator.NthInvertsRank` | pkg/intercept/vip.go:106-112 | the closed form misses no usable address of the prefix |
| `VipAllocator.ServesFirstDistinct` | pkg/intercept/vip.go:54-77 | after any requests the pool serves exactly the first distinct names that fit it |
| `VipAllocator.IndexesAreInverse` | pkg/intercept/vip.go:73-74 | the name and address indexes are mutually inverse |
| `VipAllocator.AllocatedBelowCursor` | pkg/intercept/vip.go:60-75 | the allocated addresses are exactly the usable ones below the cursor |
| `VipAllocator.Allocator.Search` | pkg/intercept/vip.go:60-75 | the loop skips to the next usable address or reports exhaustion; the "taken" branch is unreachable |
| `VipAllocator.Allocator.Allocate` | pkg/intercept/vip.go:54-77 | the k-th new name gets the k-th address, a known name keeps its own also after exhaustion, and a full pool changes neither index |
| `VipAllocator.Allocator.AllocateAll` | cmd/outrelay-agent/main.go:346-352 | the allocation order after any list of requests |
| `VipAllocator.Allocator.CursorSplitsPool` | pkg/intercept/vip.go:54-77 | in every state, allocated is the same as usable, in the prefix and below `next` |
| `VipAllocator.Allocator.LookupsAgree` | pkg/intercept/vip.go:81-94 | LookupName gives an address if and only if Lookup gives the name back |
| `Dns.NormalizedSuffix` | pkg/intercept/dns.go:51-54 | the kept suffix is lower-case, dot-prefixed unless empty, and normalising again changes nothing |
| `Dns.KeptSuffix` | pkg/intercept/dns.go:51-54 | the kept suffix is the configured one between white space, in lower case, with a dot in front |
| `Dns.ResolvesExactly` | pkg/intercept/dns.go:179-191 | a query resolves if and only if, lower-cased and without one trailing dot, it is a non-empty allocated name plus the suffix |
| `Dns.EverySpellingResolves` | pkg/intercept/dns.go:179-191 | any letter case of name plus suffix plus a dot resolves; without the dot if and only if it does not end in one already |
| `Dns.UpperCaseNeverResolves` | pkg/intercept/dns.go:180-190 | a name allocated with an upper-case letter is never resolved |
| `Dns.ProxyAgrees` | pkg/intercept/tproxy_linux.go:98-104 | an address is the answer to a query if and only if the proxy's reverse lookup gives the queried name, lower-cased and stripped |
| `Candidates.SwapIsStable` | pkg/candidate/candidate.go:175-177 | exchanging neighbours of different priority keeps every priority's order |
| `Candidates.Insert` | pkg/candidate/candidate.go:175-177 | one pass extends the sorted part, stably |
| `Candidates.Sort` | pkg/candidate/candidate.go:172-180 | a fresh array, descending, with the candidates of each priority in input order |
| `Candidates.SortedIsUnique` | pkg/candidate/candidate.go:169-172 | descending and stable determine the result |
| `Candidates.FirstInSortedIsBest` | pkg/p2p/check.go:100-144 | the first success in the sorted list is the highest-priority, then earliest, reachable candidate of the input |
| `Candidates.BestLocal` | pkg/p2p/check.go:129-132 | the reported local candidate is the highest-priority, earliest one |
| `Candidates.Check` | pkg/p2p/check.go:99-146 | the best valid reachable remote if and only if the context lasts for all dials up to it, ErrNoPair if and only if none is good and the context outlasts every dial, a context error otherwise; and the exact number of dials |
| `Connect.DialAnyHappy` | pkg/session/session.go:172-228 | for every arrival order, the first session wins, every later one is closed once and the winner never, and the first error is returned only when all failed |
| `Connect.OpensInOrder` | pkg/session/session.go:199-222 | the sessions that opened are listed in order of arrival |
| `Connect.FirstOpened` | pkg/session/session.go:199-228 | none opened, or the winner opened after failures only |
| `Connect.ReconnectEpisode` | pkg/session/session.go:819-851 | the wait after the k-th failed attempt, from 0, is min(2^k, 30) seconds, one wait per failure |
| `Connect.RunWithReconnect` | pkg/session/session.go:806-854 | every loss episode starts again at one second, up to the first that never reconnects |
| `Connect.BackoffGrows` | pkg/session/session.go:845-850 | waits never shrink and never pass the cap |
| `Connect.BackoffIs` | pkg/session/session.go:821-850 | the waits are 1, 2, 4, 8, 16 and then 30 seconds |
| `Connect.FreshStreamID` | pkg/session/session.go:361-371 | with a non-repeating generator, an inactive id after at most one draw more than there are active ids |

## Left out

- QUIC, TCP, TLS, UDP and ORP framing: a stream is a byte channel that may break, a frame is a datatype.
- `cmd/outrelay-agent/main.go`: flags, TLS material and wiring.
- Forward mode (`pkg/forward`, `pkg/session/forward.go`): resource bring-up over foreign libraries.
- The explicit and transparent proxy accept loops, `DNSServer.Run` and `respond`: packet and socket I/O around the modelled lookups.
- `pkg/p2p/promoter.go` and `pkg/p2p/demoter.go`: straight-line calls of injected hooks.
- `HostCandidates`, `hostPriority`, `QueryServerReflexive`, `warmupPunch`: host network state and single-branch classification.
- Liveness of a resume in the wild: it needs the relay's matcher; `Recover` shows that a delivering run exists, not that every run delivers.
- CloseWrite and half-close: no byte of either direction depends on them.
- Wall-clock time beyond an abstract timeout step, and 64-bit overflow of byte positions.
- At most one control reader: not assumed, since the reader loads the control stream without a lock.
- The sender's own position in STREAM_RESUME on the relay: no receiver reads it; checkpoints and the direct path keep theirs.
- ReadIsPrefixOfWritten: only for disciplined runs. It is false of the others; `ResumeExactIff` is the exact condition for one resume, and `UncountedBytesArriveTwice` and `UnloggedBytesAreSkipped` show what breaks.
- NothingIsMissing: only for disciplined runs, for the same reason.
- StepInv: in `ResumeProtocol`, only for steps that offer with the received counter and retransmit with the ring up to date; the others break it, and `AcksAreHonest` and `GapInAnyRun` are what every run keeps.
- ResumeOutcome: only for disciplined runs; `GapInAnyRun` covers all runs.
- RecoverableExactlyWhenItFits: about disciplined runs. Over all runs, `RecoverableIffItFits` is the condition when nothing is unlogged; with unlogged bytes `LostForGood` gives a necessary and `UnloggedGoInTwoRounds` a sufficient one, and between them delivery would depend on repeated bytes happening to equal skipped ones.
- ResumeExactIff: the two sides retransmit with no counter update between pairing and retransmission; a write logged in between is as if it had been logged before.
- Search: the source's loop is inside Allocate; the model splits it out and names the address it is heading for as a ghost argument.
- Session.ResumableStream.Write: other goroutines act between iterations (swap, abandon, checkpoint), not inside one; the finer grain is in `ParkWake` and `ResumeProtocol`.
- FreshStreamID: a generator that repeats itself is excluded; the source's loop need not end on one.
- Check: dialing is a function of the candidate, so two equal candidates answer alike.
- RegisterAll: a failed write and a missing acknowledgement of a REGISTER are one outcome.
