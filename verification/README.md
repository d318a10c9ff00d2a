# Session layer of pnos-net: model and proofs

This project models the session layer of `pnos-net` (`crates/pnos-net/src/session/`) and two
smaller cores beside it, the STUN response reader and the peer cache, and proves what they
promise. `dafny verify dfyconfig.toml` checks everything. Nothing here was executed; the
statements are about the model, which follows the Rust code branch by branch.

## How the parts fit together

- **Values.** `Registry` has the three maps of the session registry as a value and compares
  them with a plain list of live sessions. `Stats` compares the counters with the log of calls
  that updated them. `Arbitration` has `activate` and `disconnect` as functions on one node.
- **Two nodes.** `Convergence` lets both ends of a set of crossing connections run
  `activate` in any order, with closes that travel as end-of-file.
- **Any interleaving.** `Lifecycle` is the same code as a step system: every registry lock,
  every counter update and every event is one step, and any number of tasks take them. One
  invariant (`LifecycleInvariant`) gives conservation and the absence of orphans
  (`LifecycleResults`), the admission bound (`Admission`), and the run that makes the counters
  drift (`CounterDrift`). `Rest` shows that the tasks always come to rest, `Traces` that closes
  are counted once and when the counters are right, `ShutdownSignal` what `shutdown`
  achieves, and `AtRest` that a session that is gone is closed and its loop gone with it.
  `Uninterrupted` closes the gap between the two views: an activation that no other task
  interrupts ends exactly where the atomic function does. `Overtaking` says what an
  interruption between lookup and insert can do to it.
- **Bytes and time.** `Frames` is the codec, `Transport` reads and writes frames in place on a
  buffer and a stream, `Keepalive` runs two ends against a clock, and `Expiry`, `Cooldown` and
  `Lpd` compare tables that forget with the history of everything entered.
- **Streams.** `Streams` has what runs of calls do to the streams of all sessions as a value,
  and proves framing over whole runs; `Framing` states it of the manager and shows how a
  manager gets where its peer misreads.
- **Objects.** `RegistryStore`, `Sessions`, `Stats.SessionStats`, `Cooldown` and `Manager` are
  the classes that update state in place; every method of `Manager.SessionManager` moves the
  node value as the `Arbitration` functions say and the streams as a call of `Streams` does,
  and keeps books, sessions and streams in agreement.
- **Choice of peers.** `Filters` says what it means to filter a list, for the several places
  that do. `Addresses` is the path choice, `Sorting` the stable library sort,
  `Replenish` the selection of candidates. `Stun` and `PeerCache` stand alone; `PruneRule`
  compares what `prune` keeps with what it is documented to keep.

## Where the code differs from what it says

Each of these is a theorem below; the model keeps what the code does.

1. *Shutdown can be missed.* `bind` drops the only receiver of the shutdown channel
   (mod.rs:186), and sending on a watch channel without receivers leaves its value unchanged
   (mod.rs:574). A session is left in some state of rest after `shutdown` if and only if no
   receive loop or accept loop is parked when the signal is sent and a session is on its way in:
   an attempt before or in its handshake, or an activation before its insert
   (`ShutdownLeavesNothingExactlyIfHeard`). A fresh manager that accepts no connections gets
   there with its first attempt (`ShutdownIsMissed`).
2. *The documented `established - closed == active` is not an invariant.* A `disconnect`
   between `insert` (mod.rs:422) and `record_established` (mod.rs:433) counts the close first;
   `active` saturates at zero and is one too large for good (`CountersCanDrift`); a debug build
   stops at its assertion in stats.rs:64-70 instead. The equation holds
   exactly in the runs in which closes never outnumber establishes
   (`InvariantHoldsExactlyWhenNeverBehind`), and in every run that counts no session's close
   before its establish (`OrderedRunsKeepTheCounters`). `is_consistent`, which saturates as
   well, does not notice the drift at once (`CheckPassesExactly`).
3. *A failed keepalive reply is only logged* (heartbeat.rs:246-251), *and so is a failed write of
   a broadcast* (mod.rs:534-536), unlike a failed send or probe, which ends the session. The
   stream of a session that stays registered then ends in part of a frame if and only if the
   write broke off inside it, for a reply after one to four of its five bytes
   (`HandleKeepalive`, `Broadcast`). Where every failed write ends its session, framing holds in
   every run (`PeersGetOnlySentFrames`); in any run nothing follows a cut if and only if no
   call writes behind one (`NothingFollowsACutInRuns`), as a send after such a reply does. What the
   peer then reads is known for every cut and every frame: after four bytes of a reply it always
   reads something, after one, two or three bytes only if the frame counts at least 256, 65536 or
   16777216 bytes, and else it never reads anything again (`FrameAfterACutReply`). What it reads
   was sent by nobody, but for the coincidences listed there; a manager gets there in three
   calls (`MisframingIsReached`).
4. *A dial error need not leave all addresses in cooldown:* it does if and only if the
   cooldown that the first dial started outlasts the second dial (`FailedConnect`).
5. *Unique-local IPv6 addresses* are recognised with the mask 0xffc0 (types.rs:178), so of
   fc00::/7, the block of section 3.1 of RFC 4193 named in the comment, only fc00::/10 counts as
   local (`UniqueLocalIsLanExactlyBelowFc40`).
6. *The peer cache* ranks local before loopback addresses, the reverse of the path choice
   (`RanksAgreeExceptOnLocalAddresses`), and stores the time of a failure as that of the last
   success (`UpsertKeepsRefines`). `prune` is documented to keep the nodes with a success in the
   last seven days. It keeps others, namely those whose attempts in these days all failed while an
   address that ever worked has not failed twenty times in a row (`KeptWithoutRecentSuccess`),
   and it drops some with such a success, namely those of which every address that worked has
   failed twenty times in a row since (`DroppedDespiteRecentSuccess`).
7. *Arbitration is to decide alike at both ends* (mod.rs:388), but its lookup and the insert are
   two steps. A newcomer that won, or met no session, is still discarded exactly if a session of
   its peer was put in between them (`DiscardedOnlyForALaterSession`), also for one of the
   direction it would have won against (`NewcomerIsOvertaken`).
8. *The read-buffer limit* of a frame and a megabyte is never reached; the smallest limit that
   is never exceeded is MAX_FRAME_SIZE + 3 bytes (`LimitIsSafeExactlyFrom`).

## Model

| member | source | states |
|---|---|---|
| `Convergence.BothEndsConverge` | crates/pnos-net/src/session/mod.rs:384-472 | In every quiescent state of two nodes that dial each other, both registries hold exactly the connection dialled by the smaller identifier and every other connection is closed, whatever the order of activations and end-of-files. |
| `Convergence.SmallerConnectionIsNeverLost` | crates/pnos-net/src/session/mod.rs:388-431 | In every reachable state the smaller identifier's connection is at each end still to come or registered and found by peer, never discarded, replaced or closed. |
| `Convergence.RunsAreFinite` | crates/pnos-net/src/session/acceptor.rs:146-185 | No run has more than four steps per connection, so a quiescent state is always reached. |
| `Convergence.StepKeepsInv` | crates/pnos-net/src/session/mod.rs:388-472 | Every activation, end-of-file and abandoned handshake keeps the three fates of each connection apart and uses up work. |
| `Arbitration.SurvivorIsRegistered` | crates/pnos-net/src/session/mod.rs:384-472 | After any batch of activations for one peer the first in the expected direction, or else the first of all, is registered; every other one is closed and counted exactly once as closed or as a discarded duplicate; no other session is touched. |
| `Arbitration.SurvivorIsFound` | crates/pnos-net/src/session/registry.rs:99-104 | The survivor is what a lookup by peer finds. |
| `Arbitration.WinnerReplaces` | crates/pnos-net/src/session/mod.rs:408-447 | A winning newcomer takes the registered session's place, and that one is closed and counted once. |
| `Arbitration.LoserIsDiscarded` | crates/pnos-net/src/session/mod.rs:398-406 | A losing newcomer is closed and counted as a duplicate, and the registry stays as it was. |
| `Uninterrupted.UninterruptedActivationIsAtomic` | crates/pnos-net/src/session/mod.rs:384-472 | An activation whose steps no other task interrupts ends with the tables, log, closed sessions and duplicate count the atomic one leads to. |
| `Uninterrupted.StepPays` | crates/pnos-net/src/session/mod.rs:384-472 | Each single step brings an activation on and leaves unchanged where the books will stand when it is done. |
| `LifecycleResults.BooksBalance` | crates/pnos-net/src/session/mod.rs:422-472 | With any number of tasks in the middle of something, establishes counted plus inserts not yet counted equal closes counted plus removals not yet counted plus registered sessions. |
| `LifecycleResults.EverySessionIsInOnePlace` | crates/pnos-net/src/session/mod.rs:451-472 | A session once inserted is in exactly one of registry, one task that winds it up, or the announced ones; it is announced as connected and as disconnected at most once. |
| `LifecycleResults.QuiescentBooks` | crates/pnos-net/src/session/mod.rs:433-471 | With nothing in flight, established minus closed is the size of the registry, and the sessions with a Connected and no Disconnected event are those registered. |
| `LifecycleResults.RemovalIsOfTheHeldSession` | crates/pnos-net/src/session/registry.rs:84-93 | The removal after the identity check, though a step of its own, removes the very session the caller holds. |
| `LifecycleResults.NoOrphan` | crates/pnos-net/src/session/acceptor.rs:146-185 | A registered session has an `activate` between insert and loop spawn, or a receive loop that is still to disconnect it. |
| `LifecycleResults.GoneForever` | crates/pnos-net/src/session/registry.rs:65-93 | A session that has left the registry never comes back. |
| `LifecycleResults.ExitedLoopLeavesNothing` | crates/pnos-net/src/session/acceptor.rs:180-184 | Once the receive loop has returned, its session is absent in every later state. |
| `LifecycleInvariant.RunKeepsInv` | crates/pnos-net/src/session/mod.rs:384-600 | The invariant behind these results is kept by every step of every task in every run. |
| `Overtaking.DiscardedOnlyForALaterSession` | crates/pnos-net/src/session/mod.rs:388-431 | However the tasks interleave, a newcomer that won its arbitration or met no session is discarded by the insert exactly if a session of its peer is registered by then, and that one was put in since the lookup. |
| `Overtaking.NewcomerIsOvertaken` | crates/pnos-net/src/session/mod.rs:388-431 | A reachable state in which the newcomer of the expected direction is discarded for one of the other direction. |
| `Admission.SessionsStayWithinLimit` | crates/pnos-net/src/session/mod.rs:293-296 | If at most n attempts are ever past the limit check together, live sessions and attempts past the check never exceed max_sessions + n - 1; one at a time, live sessions never exceed the limit. |
| `Admission.AttemptUsesMoreOnlyBelowLimit` | crates/pnos-net/src/session/acceptor.rs:64-76 | Only an attempt that passes the check adds to what is used, and it passes only below the limit. |
| `ShutdownSignal.ShutdownLeavesNothingExactlyIfHeard` | crates/pnos-net/src/session/mod.rs:570-600 | In every reachable state in which `shutdown` is about to send its signal: no session is left in any state the manager can come to rest in if and only if the signal finds a receiver or no attempt or activation can still insert one; and then every establish has its close. |
| `ShutdownSignal.DryShutdownLeavesNothing` | crates/pnos-net/src/session/mod.rs:570-588 | Once nothing can insert a session any more, the drain leaves none, whether anyone hears the signal or not, and every establish has its close. |
| `ShutdownSignal.ShutdownIsMissed` | crates/pnos-net/src/session/mod.rs:186 | A reachable state of a manager about to send a signal that nobody hears, and a run from it that comes to rest with a session registered. |
| `ShutdownSignal.RestIsReached` | crates/pnos-net/src/session/mod.rs:384-600 | From every reachable state some run of the manager's own steps comes to rest, so that what holds at rest is not said of nothing. |
| `Rest.ComeToRest` | crates/pnos-net/src/session/acceptor.rs:141-187 | Every state of the invariant has such a run: each step of a task leaves it less to do. |
| `ShutdownSignal.HeardShutdownLeavesNothing` | crates/pnos-net/src/session/mod.rs:570-600 | Once the signal is out and nothing more can happen, the registry is empty and established equals closed, also for sessions inserted after the drain. |
| `ShutdownSignal.ShutdownRunsOnce` | crates/pnos-net/src/session/mod.rs:571-573 | However often `shutdown` is called, at most one call gets past the flag, and the signal is out only after its send. |
| `ShutdownSignal.LostSignalStrandsASession` | crates/pnos-net/src/session/mod.rs:186 | If no receiver is parked when the signal is sent and a session is on its way in, some run comes to rest with a session still registered. |
| `Traces.OrderedRunsKeepTheCounters` | crates/pnos-net/src/session/stats.rs:1-11 | In every run that counts no session's close before its establish, established minus closed is active. |
| `AtRest.ClosedExactlyIfGone` | crates/pnos-net/src/session/mod.rs:451-472 | In every reachable state of rest the sessions ever taken in that are closed are exactly those not registered; the receive loop of a registered session waits and that of any other has returned; a session turned away is closed. |
| `Traces.ClosedSessionsAreOver` | crates/pnos-net/src/session/mod.rs:451-472 | In every reachable state a closed session is not registered and was admitted or turned away, and one whose close is counted is not registered, was admitted, and is not about to be counted again by any task. |
| `CounterDrift.CountersCanDrift` | crates/pnos-net/src/session/mod.rs:422-433 | In a reachable state no session is live, established equals closed and active is 1, and no later call ever makes the equation true again. |
| `Stats.ActiveIdentity` | crates/pnos-net/src/session/stats.rs:61-90 | After any sequence of calls active is established minus closed plus the largest excess of closes over establishes in any prefix. |
| `Stats.InvariantHoldsExactlyWhenNeverBehind` | crates/pnos-net/src/session/stats.rs:1-11 | The documented equation holds if and only if closes outnumber establishes in no prefix. |
| `Stats.OrderedLogsAreNeverBehind` | crates/pnos-net/src/session/stats.rs:1-11 | Recording each session's establish before its close is enough for the equation. |
| `Stats.CheckPassesExactly` | crates/pnos-net/src/session/stats.rs:162-165 | The self-check passes if and only if closes were never ahead or are ahead right now by as much as they ever were. |
| `Stats.DriftIsForGood` | crates/pnos-net/src/session/stats.rs:74-90 | No later call makes a drift of active smaller. |
| `Stats.SessionStats.RecordEstablished` | crates/pnos-net/src/session/stats.rs:61-72 | Keeps the counters equal to those of the log, with one more establish. |
| `Stats.SessionStats.RecordClosed` | crates/pnos-net/src/session/stats.rs:74-90 | Keeps the counters equal to those of the log, with one more close and active saturating at zero. |
| `Stats.SessionStats.CheckConsistent` | crates/pnos-net/src/session/stats.rs:162-165 | Agrees with the check on the log, and passes whenever closes were never ahead. |
| `Registry.TablesRepresentLog` | crates/pnos-net/src/session/registry.rs:51-158 | After any log of operations with fresh identifiers the maps represent the list of live sessions: one per peer, and an address leads to the session taken in last there exactly as long as that one is live. |
| `Registry.OneSessionPerPeer` | crates/pnos-net/src/session/registry.rs:95-104 | At most one session per peer, and it is what the lookup by peer gives. |
| `Registry.AddressLookupFindsTheLatest` | crates/pnos-net/src/session/registry.rs:106-111 | After any log of operations with fresh identifiers the lookup by address finds the session taken in last there exactly as long as it is live, and else none. |
| `Registry.RemovalDisturbsNoOther` | crates/pnos-net/src/session/registry.rs:65-82 | Removing a session, however late, leaves every other session and all entries that lead to it alone. |
| `RegistryStore.SessionRegistry.Insert` | crates/pnos-net/src/session/registry.rs:51-63 | Registers a session or refuses it with the live one of the same peer, and leaves the maps as the value operation does. |
| `RegistryStore.SessionRegistry.Remove` | crates/pnos-net/src/session/registry.rs:65-82 | Removes by identifier and clears an index entry only if it still leads to the removed session. |
| `RegistryStore.SessionRegistry.RemoveIf` | crates/pnos-net/src/session/registry.rs:84-93 | Removes only the very session object the caller holds. |
| `RegistryStore.SessionRegistry.GetByPeer` | crates/pnos-net/src/session/registry.rs:99-104 | Finds the live session of a peer and misses none. |
| `RegistryStore.SessionRegistry.SessionOfAddr` | crates/pnos-net/src/session/registry.rs:106-111 | Finds the live session of that address that the maps' value has for it, and none exactly if that has none. |
| `RegistryStore.SessionRegistry.Drain` | crates/pnos-net/src/session/registry.rs:151-158 | Empties all three maps and returns every session once. |
| `Sessions.SessionIds.Next` | crates/pnos-net/src/session/session.rs:32-36 | Never hands out an identifier twice. |
| `Manager.SessionManager.Disconnect` | crates/pnos-net/src/session/mod.rs:451-472 | Moves the node as the atomic disconnect does, closes, counts and announces the session once, and does nothing for an absent one. |
| `Manager.SessionManager.Activate` | crates/pnos-net/src/session/mod.rs:384-448 | Moves the node as the atomic activate does, answers the session that stays, and announces exactly this: the newcomer as connected, with its peer, address and direction; before it the session it replaces as disconnected; or, if a session of its peer stays, that the newcomer was rejected for it. At most one session more is registered. |
| `Manager.SessionManager.Admit` | crates/pnos-net/src/session/mod.rs:417-448 | Registers and counts the session and announces it with its own identifier, peer, address and direction, or discards it and names the session that its peer has. |
| `Manager.SessionManager.AnnouncedIs` | crates/pnos-net/src/session/mod.rs:384-448 | The answer and the events of an activation, as the calls above it pass them on, by the session of the peer and the two directions. |
| `Manager.SessionManager.DiscardDuplicate` | crates/pnos-net/src/session/mod.rs:398-406 | Closes the newcomer, counts it as a duplicate and reports the session that stays. |
| `Manager.SessionManager.Stop` | crates/pnos-net/src/session/mod.rs:570-588 | The first call empties the registry, closes, counts and announces each session of it once, as shut down, and leaves nothing active and as many closes as establishes; later calls change nothing. |
| `Manager.SessionManager.Send` | crates/pnos-net/src/session/mod.rs:492-503 | Makes one write on the session's stream and none on any other, or reports why not; a failed write ends the session in the same call and announces it, an unencodable frame writes nothing; no registered session is left with part of a frame on its stream, and something follows a cut only where this stream was cut already. |
| `Manager.SessionManager.Broadcast` | crates/pnos-net/src/session/mod.rs:522-540 | Makes one write on the stream of every registered session but the excluded one, whatever their order, and counts those that went well; the sessions whose write broke off stay registered and are exactly the newly torn ones. |
| `Manager.SessionManager.SendTo` | crates/pnos-net/src/session/mod.rs:505-516 | The same, the bytes written included, for the session of a peer. |
| `Manager.SessionManager.Teardown` | crates/pnos-net/src/session/mod.rs:481-490 | Ends and announces the session, so that the registered sessions with part of a frame on their stream are those before without it. |
| `Manager.SessionManager.TickSession` | crates/pnos-net/src/session/heartbeat.rs:94-141 | Reaps exactly after more than the idle timeout without a frame, and probes exactly if there is a probe kind and nothing was sent for the interval, for a session that may have left the registry since the snapshot; ends and announces the session when it is reaped or a probe fails for any reason; something follows a cut only where a probe goes on a stream cut before. |
| `Manager.SessionManager.HandleKeepalive` | crates/pnos-net/src/session/heartbeat.rs:225-260 | Consumes exactly frames of the two configured kinds, and answers exactly probes for which another kind of reply is configured; the stream ends in part of a frame if and only if a reply was due whose write broke off after one to four of its five bytes, and only that adds to the registered sessions with such a stream; something follows a cut only where a reply goes on a stream cut before. |
| `Manager.SessionManager.ReceiveLoop` | crates/pnos-net/src/session/acceptor.rs:146-185 | Takes in all frames of the stream in order, hands on exactly those of neither keepalive kind, in order, and leaves the session ended and announced; something follows a cut exactly if a reply lands on the stream when it, or a reply before, left part of a frame there. |
| `Manager.SessionManager.ProbesAreAnswered` | crates/pnos-net/src/session/heartbeat.rs:241-252 | What the loop writes is one reply for each frame of the probe kind, in order, and nothing for any other frame. |
| `Manager.SessionManager.Connect` | crates/pnos-net/src/session/mod.rs:264-381 | Refuses while shutting down, reuses the session of the peer, or that of the first listed address that has one, refuses at the limit, refuses if every address is cooling, and dials in no other case and always in this one: first the usable addresses of the best level there is, then, only if that fails, all other usable ones. It marks what failed, announces what the arbitration of an identified peer's connection decides, and never takes the sessions above the limit. |
| `Manager.SessionManager.Precheck` | crates/pnos-net/src/session/mod.rs:270-306 | The same cases in the same order, as the plan; the addresses it plans to dial are, in order, exactly those of which every mark has run out; a reuse, and nothing else, is counted as a discarded duplicate. |
| `Manager.SessionManager.PlanInOrder` | crates/pnos-net/src/session/mod.rs:270-306 | The plan of a call, case by case, by the registered sessions, the limit and the marks in force. |
| `Manager.DialledAre` | crates/pnos-net/src/session/mod.rs:308-337 | The first list dialled is of the best level among the usable addresses; there is a second one exactly if the first dial fails and there are others, and it is all the others; the call gives up on dialling exactly if all its dials fail. |
| `Manager.AnswerIs` | crates/pnos-net/src/session/mod.rs:317-380 | Which marks a call adds, against whom, for which addresses and at what times, and which connection is put up for arbitration, for every outcome of the dials and of the handshake. |
| `Manager.SessionManager.DialBoth` | crates/pnos-net/src/session/mod.rs:308-337 | Hands the dialler the preferred and, if that fails, the fallback list; the second cooldown filter drops nothing; each failed list is marked at its time. |
| `Manager.SessionManager.Greet` | crates/pnos-net/src/session/mod.rs:346-380 | A failed or unverified handshake marks one address, for the peer asked for or the one named without proof, and changes nothing else; a verified one is activated and announced. |
| `Manager.SessionManager.AcceptInbound` | crates/pnos-net/src/session/acceptor.rs:58-137 | Puts a connection up for arbitration exactly if the node is not shutting down, is below the limit, and the handshake gives a verified identity; turns it away otherwise, for the limit, the handshake or the identity, in this order, with its event and its count; never takes the sessions above the limit. |
| `Manager.FailedConnect` | crates/pnos-net/src/session/mod.rs:298-337 | Only usable addresses are dialled; a dial error means all of them were; they are then all in cooldown if and only if the first dial's cooldown outlasts the second dial. |
| `Framing.PeersGetOnlySentFrames` | crates/pnos-net/src/session/mod.rs:481-516 | After any run of calls in which every failed write ended its session, each stream ever held is the frames reported as sent and then at most part of one that was not, or that frame; any part of it that has reached the other end reads as the first of the frames given to the session, in order, and no others. |
| `Framing.PeersGetOnlyWholeFrames` | crates/pnos-net/src/session/mod.rs:481-540 | After any run that writes nothing behind a cut, replies and broadcasts included, any received part reads as frames that got on the stream whole, in order, and no others. |
| `Framing.PeersMisreadAfterACutReply` | crates/pnos-net/src/session/heartbeat.rs:241-252 | What the peer of a session reads, or that it never reads again, when one more frame follows a cut reply, for every cut and every frame. |
| `Transport.WritingAfterACutMisframes` | crates/pnos-net/src/session/heartbeat.rs:241-252 | The smallest stream of this kind: four bytes of a reply and an empty frame. |
| `Framing.ReplyCutThenSend` | crates/pnos-net/src/session/heartbeat.rs:241-252 | Any manager with an intact session gets there by one cut reply and one send. |
| `Framing.MisframingIsReached` | crates/pnos-net/src/session/heartbeat.rs:241-252 | A fresh manager does so with its first session, and the peer reads a frame nobody sent. |
| `Streams.StreamsOfStrictRuns` | crates/pnos-net/src/session/frame.rs:208-246 | The framing result over runs of calls on the streams of all sessions, as a value. |
| `Streams.NothingFollowsACutInRuns` | crates/pnos-net/src/session/frame.rs:208-246 | In any run of calls nothing follows a cut on any stream at the end if and only if no call of the run put a byte behind one. |
| `Streams.StrictRunsKeepReliable` | crates/pnos-net/src/session/mod.rs:481-516 | Where every failed write ends its session, no write failed on a registered session's stream and at most the last one on a past session's. |
| `Cooldown.CooldownTable.InCooldown` | crates/pnos-net/src/session/mod.rs:610-624 | True if and only if some mark ever made of the pair has not run out, lazy deletion notwithstanding. |
| `Cooldown.NotCoolingKeeps` | crates/pnos-net/src/session/mod.rs:298-303 | The candidates left are, in order, exactly those of which every mark has run out. |
| `Cooldown.CooldownTable.Mark` | crates/pnos-net/src/session/mod.rs:626-629 | Adds one mark, of which the table keeps what can still matter. |
| `Cooldown.CooldownTable.Prune` | crates/pnos-net/src/session/mod.rs:638-642 | Drops exactly what has run out, so no later answer changes. |
| `Cooldown.FailedDialsLeaveAllCooling` | crates/pnos-net/src/session/mod.rs:315-336 | The exact condition for all usable addresses to be in cooldown after both dials failed. |
| `Cooldown.SlowSecondDialFreesTheFirst` | crates/pnos-net/src/session/mod.rs:317-335 | A concrete case in which the local address is free again when `connect` returns its error. |
| `Expiry.LookupIsExact` | crates/pnos-net/src/session/mod.rs:610-624 | A table that kept what can still matter answers as the whole history does. |
| `Expiry.DroppingStaleKeepsFaithful` | crates/pnos-net/src/session/mod.rs:638-642 | Dropping what has run out, and time passing, keep such a table. |
| `Lpd.LpdDiscoveryService.ShouldEmit` | crates/pnos-net/src/discovery/lpd.rs:364-380 | True if and only if every emission of the key is at least 15 seconds ago, whatever was cleaned up; then the key is emitted. |
| `Keepalive.TimeoutsAreSafeExactlyFromTheBound` | crates/pnos-net/src/session/heartbeat.rs:74-144 | No timed run reaps a live end if and only if each idle timeout is at least the bound of interval, tick period, delay and creation skew. |
| `Keepalive.IdleNeverExceedsBound` | crates/pnos-net/src/session/session.rs:140-169 | As long as neither end has reaped, an end has heard from the other within the bound. |
| `Keepalive.LiveSessionsAreNeverReaped` | crates/pnos-net/src/session/heartbeat.rs:96-107 | With idle timeouts of at least the bound, `tick` never reaps a live session. |
| `Keepalive.SmallerTimeoutReapsALivePeer` | crates/pnos-net/src/session/heartbeat.rs:96-107 | With a smaller one, some timed run reaps a live and punctual peer. |
| `Frames.DecodeIsExact` | crates/pnos-net/src/session/frame.rs:94-117 | `decode_frame` gives a frame if and only if the bytes begin with that frame's encoding. |
| `Frames.EncodingLayout` | crates/pnos-net/src/session/frame.rs:78-92 | Exactly kinds of one byte and payloads below 2^24 bytes have an encoding: four bytes of length, most significant first, that count kind and payload, then the kind, then the payload. |
| `Frames.FrontExactly` | crates/pnos-net/src/session/frame.rs:94-148 | A buffer starts with a frame exactly if it begins with its encoding, and is malformed exactly if its first four bytes, read as a number, are 0 or more than 2^24. |
| `Frames.SizeAgreesWithDecode` | crates/pnos-net/src/session/frame.rs:119-148 | `frame_size_in_buffer` finds a frame exactly when `decode_frame` does, with the encoded length, and parsing that many bytes gives the same frame. |
| `Frames.EncodesExactlyWhatDecodes` | crates/pnos-net/src/session/frame.rs:78-117 | `encode_frame` refuses exactly the frames that no bytes decode to, and what it gives decodes to the frame. |
| `Frames.UniquelyDecodable` | crates/pnos-net/src/session/frame.rs:78-117 | Concatenated encodings determine their frames. |
| `Frames.NothingButSentFrames` | crates/pnos-net/src/session/frame.rs:219-256 | Any part of a stream of whole frames and one broken one holds frames that were sent, in order, and no others. |
| `Transport.FrameTransport.RecvFrame` | crates/pnos-net/src/session/frame.rs:301-329 | Gives the next frame of the stream, or its error, whatever the split into reads, and leaves the rest pending. |
| `Transport.FrameTransport.RecvWithin` | crates/pnos-net/src/session/frame.rs:301-329 | With a buffer limit of MAX_FRAME_SIZE + 3 or more the answer depends on the bytes only and the limit is not hit; the buffer stays within one frame and one read. |
| `Transport.FrameTransport.ReceiveAll` | crates/pnos-net/src/session/acceptor.rs:152-179 | Repeated receiving hands on all frames of the stream, in order, up to the first error. |
| `Transport.FrameTransport.SendFrame` | crates/pnos-net/src/session/frame.rs:219-257 | Makes at most one write of the encoding, whole or in part; a stream that was intact has a residue behind its frames exactly if the write broke off inside the frame. |
| `Transport.LimitIsSafeExactlyFrom` | crates/pnos-net/src/session/frame.rs:42 | A buffer limit is never exceeded while waiting if and only if it is at least 16777219, which is MAX_FRAME_SIZE + 3. |
| `Transport.StreamIsReassembled` | crates/pnos-net/src/session/frame.rs:301-329 | Encoded frames and part of one more, split into reads in any way, come out as exactly those frames with the part buffered. |
| `Transport.ReceiverGetsOnlySentFrames` | crates/pnos-net/src/session/frame.rs:219-257 | From any part of what writes put on a stream, if nothing followed a cut among them, a receiver gets a prefix of the frames delivered whole. |
| `Transport.IntactExactlyIfNothingIsLeft` | crates/pnos-net/src/session/frame.rs:219-257 | Such a stream holds the frames delivered, and has something behind them exactly if a write was torn. |
| `Transport.FrameAfterACut` | crates/pnos-net/src/session/frame.rs:219-246 | For every frame cut anywhere and every frame behind it: when a receiver reads on, when what it reads next is neither of the two, and when it never reads again, by lengths and cut. |
| `Transport.FrameAfterACutReply` | crates/pnos-net/src/session/heartbeat.rs:241-252 | The same for an empty reply, in closed form: it reads on exactly after four bytes or from a length of 256 to the power of the bytes sent. |
| `Addresses.DialPlan` | crates/pnos-net/src/types.rs:291-342 | Preferred and fallback together are the given addresses, in order inside each level, and every preferred one is of a strictly better level. |
| `Addresses.SelectPreferredAddrs` | crates/pnos-net/src/types.rs:315-329 | Gives, in order, exactly the loopback addresses if there are any, else exactly the local ones if there are any, else all. |
| `Addresses.FallbackAddrs` | crates/pnos-net/src/types.rs:331-342 | Gives what that choice leaves out: the local addresses and then the public ones, or the public ones, each in order, or none. |
| `Addresses.GroupEndpoints` | crates/pnos-net/src/types.rs:291-313 | One pass sorts the addresses into loopback, local and public ones, each list exactly those of its class, in order. |
| `Addresses.V4Classes` | crates/pnos-net/src/types.rs:164-174 | Of IPv4, 127.0.0.0/8 is loopback, exactly 10.0.0.0/8, 172.16.0.0/12 and 192.168.0.0/16 are local, and the rest is public, with an address read as one number. |
| `Addresses.V6Classes` | crates/pnos-net/src/types.rs:175-185 | Of IPv6, exactly ::1 is loopback and exactly fe80::/10 and fc00::/10 are local. |
| `Addresses.BestLevelFirst` | crates/pnos-net/src/types.rs:308-342 | The preferred addresses are those than which none listed is of a better level; the fallback list goes from better levels to worse. |
| `Addresses.UniqueLocalIsLanExactlyBelowFc40` | crates/pnos-net/src/types.rs:164-187 | Of fc00::/7 exactly the addresses below fc40:: are taken for local ones, the others for public IPv6. |
| `Addresses.Fd00IsTakenForPublicIpv6` | crates/pnos-net/src/types.rs:176-183 | An address of fd00::/8, where unique-local addresses are assigned, is taken for public IPv6. |
| `Replenish.Choose` | crates/pnos-net/src/session/heartbeat.rs:152-190 | None when shutting down; otherwise candidates with addresses and without a session, each no more often than listed, by falling score and then rising identifier, within target, limit and share; one that could be chosen is left out only when one of the three is reached, and scores no better than any chosen. |
| `Replenish.ChoiceIgnoresPoolOrder` | crates/pnos-net/src/session/heartbeat.rs:165-190 | For distinct peers the choice is the same whatever order the candidates are listed in. |
| `Replenish.ChoiceIsTheTop` | crates/pnos-net/src/session/heartbeat.rs:165-190 | The chosen are unconnected candidates with addresses, by falling score and then rising identifier; whoever is left out scores no better than any of them, and as well only with an identifier not smaller; nobody is left out while there is need. |
| `Replenish.RoundStaysWithinTarget` | crates/pnos-net/src/session/heartbeat.rs:153-163 | Sessions and chosen candidates together stay within target and limit, and a round starts at most max_per_tick; whoever is left out is so because one of the three is reached. |
| `Sorting.OrderedIsUnique` | crates/pnos-net/src/session/heartbeat.rs:181-185 | Without ties an ordering is determined by the elements alone. |
| `Sorting.SortIsStable` | crates/pnos-net/src/discovery/peer_cache.rs:209-213 | Elements of equal rank keep their order. |
| `Stun.ParseMappedAddress` | crates/pnos-net/src/nat/stun.rs:103-152 | On any bytes, with every index in bounds, gives the last XOR-mapped address that can be decoded, else the last mapped one, and nothing but for a success response to the request. |
| `Stun.MappedAddressIsFound` | crates/pnos-net/src/nat/stun.rs:103-217 | Of a response with at most one address of each kind among any padded attributes the XOR-mapped IPv4 address is found, else the mapped one if there is one. |
| `Stun.ResponseIsUnderstood` | crates/pnos-net/src/nat/stun.rs:114-152 | A response laid out field by field is read as exactly its attributes, whatever bytes follow it. |
| `Stun.MappedRoundTrip` | crates/pnos-net/src/nat/stun.rs:155-184 | Decoding undoes the encoding of IPv4 and IPv6 mapped addresses. |
| `Stun.XorRoundTrip` | crates/pnos-net/src/nat/stun.rs:187-217 | Decoding undoes the XOR encoding of IPv4 addresses. |
| `Stun.XorDigits` | crates/pnos-net/src/nat/stun.rs:187-217 | Exclusive or as used here has, digit by digit, a one exactly where the two numbers differ. |
| `Stun.CutAttributeIsPassedOver` | crates/pnos-net/src/nat/stun.rs:126-138 | An attribute that declares more bytes than there are is passed over, and all before it are read. |
| `Stun.MappedBytesAreRead` | crates/pnos-net/src/nat/stun.rs:155-172 | A response given byte by byte with a MAPPED-ADDRESS of IPv4 is read as that address and port. |
| `Stun.XorBytesAreRead` | crates/pnos-net/src/nat/stun.rs:187-210 | A response given byte by byte with an XOR-MAPPED-ADDRESS of IPv4 is read against the magic cookie 0x2112A442. |
| `Stun.MappedV6BytesAreRead` | crates/pnos-net/src/nat/stun.rs:173-181 | A response given byte by byte with a MAPPED-ADDRESS of IPv6 is read as its eight segments. |
| `Stun.SampleResponseIsRead` | crates/pnos-net/src/nat/stun.rs:187-210 | The address attribute of the sample response in section 2.2 of RFC 5769 is read as 192.0.2.1, port 32853. |
| `PeerCache.PeerCache.Upsert` | crates/pnos-net/src/discovery/peer_cache.rs:127-187 | Moves the one entry of the attempt on, leaves every other entry alone, and keeps the cache telling its log; as long as nothing was pruned every node's own count is the largest of its endpoints. |
| `PeerCache.UpsertKeepsRemembers` | crates/pnos-net/src/discovery/peer_cache.rs:127-187 | `last_seen` and the node's own address are those of the last attempt ever made on the node, and what the counters of an address tell is the end of all attempts ever made on it. |
| `PeerCache.UpsertKeepsRefines` | crates/pnos-net/src/discovery/peer_cache.rs:127-187 | Identifiers and addresses stay unique; each success count is the saturated number of successes and each failure count the saturated trailing run of failures; the time kept is that of the last attempt. |
| `PeerCache.UpsertKeepsCounts` | crates/pnos-net/src/discovery/peer_cache.rs:160-166 | A node's own count stays the largest of its endpoints. |
| `PeerCache.UpsertKeepsKinds` | crates/pnos-net/src/discovery/peer_cache.rs:279-292 | Every endpoint has the kind of its address, by the classes of the path choice, and a text that is no address counts as public. |
| `PeerCache.PeerCache.Prune` | crates/pnos-net/src/discovery/peer_cache.rs:192-215 | Two filters, a sort and a cut, step by step, leave the specified top nodes, and of what is left the counters still tell every attempt. |
| `PeerCache.PrunedIsTheTop` | crates/pnos-net/src/discovery/peer_cache.rs:192-215 | What stays are nodes of the cache without the endpoints that failed twenty times in a row, in order, each tried in the last 604800 seconds and with an endpoint that ever worked; they come by falling sums of successes, whoever qualifies and is left out has no larger sum, and nobody is left out while there is room. |
| `PeerCache.TotalIsTheSum` | crates/pnos-net/src/discovery/peer_cache.rs:209-212 | The figure nodes are ordered by is the sum of the success counts of all their endpoints, modulo 2^32. |
| `PeerCache.PruningIsIdempotent` | crates/pnos-net/src/discovery/peer_cache.rs:192-215 | Pruning twice at one time is pruning once. |
| `PeerCache.PruningIsStable` | crates/pnos-net/src/discovery/peer_cache.rs:209-214 | Equally successful nodes stay in the order the cache had them in. |
| `PeerCache.PruneKeepsRefines` | crates/pnos-net/src/discovery/peer_cache.rs:196-206 | Pruning forgets whole endpoints: what is left tells all its attempts and has fewer than twenty trailing failures. |
| `PeerCache.PruneKeepsCountsExactlyIfAttained` | crates/pnos-net/src/discovery/peer_cache.rs:196-199 | Pruning leaves a node's own count right if and only if an endpoint that stays attains it. |
| `PruneRule.PassesExactly` | crates/pnos-net/src/discovery/peer_cache.rs:196-206 | A node passes the filters if and only if the last attempt on it was in the last seven days and an address that once worked has not failed twenty times in a row since. |
| `PruneRule.KeptWithoutRecentSuccess` | crates/pnos-net/src/discovery/peer_cache.rs:189-206 | Exactly when a node is kept, by the filters and where there is room by `prune`, that had no success in the last seven days, against the documented rule. |
| `PruneRule.DroppedDespiteRecentSuccess` | crates/pnos-net/src/discovery/peer_cache.rs:189-206 | Exactly when a node is dropped, by the filters and where there is room by `prune`, that had one, against the documented rule, whether the clock went back or not. |
| `PruneRule.FirstPrune` | crates/pnos-net/src/discovery/peer_cache.rs:189-215 | What the first prune keeps and drops, with and without a success in the last seven days, in terms of the attempts alone. |
| `PruneRule.OldSuccessIsKept` | crates/pnos-net/src/discovery/peer_cache.rs:189-206 | A concrete node of the first kind: one success eight days ago and one failure just now. |
| `PruneRule.RecentSuccessIsDropped` | crates/pnos-net/src/discovery/peer_cache.rs:189-206 | A concrete node of the second kind: one success twenty seconds ago and twenty failures since. |
| `PeerCache.BestAddr` | crates/pnos-net/src/discovery/peer_cache.rs:252-265 | Gives the first of the best endpoints by kind, latency and successes that are not failing, and none if all are. |
| `PeerCache.BestExactly` | crates/pnos-net/src/discovery/peer_cache.rs:252-265 | The best endpoint: of the best kind among those not failing, then of unknown or else the smallest latency, then with the most successes, then the first. |
| `PeerCache.KindsInOrder` | crates/pnos-net/src/discovery/peer_cache.rs:269-277 | Local before loopback before public before IPv6 before anything else. |
| `PeerCache.BestHasNotFailedTooOften` | crates/pnos-net/src/discovery/peer_cache.rs:252-265 | The best endpoint has fewer than twenty trailing failures in the log. |
| `PeerCache.RanksAgreeExceptOnLocalAddresses` | crates/pnos-net/src/discovery/peer_cache.rs:269-277 | This ranking agrees with the path choice on every pair of levels except loopback and local. |

## Left out

- Sockets, tasks and libraries: a dial, a read, a write and a handshake are results handed to the methods; a cancelled or timed-out write is one that fails after any part of its frame.
- Cancellation of `disconnect` between the removal and its count: both are steps that are always taken.
- Manager.SessionManager.Connect: each phase reads the clock once, where the code reads it for every address.
- Manager.SessionManager.TickSession: one session at a time; the tasks that `tick` starts for all sessions run side by side only in `Lifecycle`, where reaping is a call of `disconnect`; that `tick` does nothing while shutting down is not modelled.
- Manager.SessionManager.Send: one sender at a time; of several senders queued on one writer lock the next writes before the session is gone, which is a run of `Streams` with a write behind a cut but no method here.
- Manager.SessionManager.Broadcast: `broadcast_encoded`, which writes bytes encoded elsewhere, is not modelled.
- Convergence.BothEndsConverge: `activate` is atomic at each node and only one connection is dialled by the smaller identifier; with several of them each end keeps its own first, and the code does not promise that they agree.
- Manager.SessionManager.ReceiveLoop: it runs to the first error of the stream; that it also stops at the shutdown signal and when its session is closed is modelled in `Lifecycle`. The frames handed on are its result, not events; round-trip times and the probe tracker are left out.
- Stats.SessionStats.RecordEstablished: the two increments inside a `record_*` call are one step, and so are those of a close; the assertion a debug build makes after them, which the drifting run trips, is not modelled.
- Byte and frame counters, and the wrap-around of 64-bit counters, identifiers and times.
- Closing a transport is the closed flag of its session only.
- A clock that goes back.
- Replenish.ChoiceIgnoresPoolOrder: for distinct peers; candidates of one peer listed twice with equal scores are taken in the order of the list.
- PeerCache.PeerCache.Upsert: how an address is read from its text is a parameter; reading and writing the cache file, `top_addrs` and `all_endpoints` are not modelled.
- PeerCache.PrunedIsTheTop: success totals are sums of 32 bits that wrap as in a release build; a debug build stops instead.
- `pcp.rs`, `nat_pmp.rs`, the NAT state and metrics modules, event deduplication, back-off loops, `pnos-comm` and `pnos-bench`: small tables or plumbing around foreign calls.
