# A model of the aztna client's hardest parts

The client keeps private names resolvable on a laptop (operating-system resolver rules, a
loopback DNS responder, forwarders) and carries TCP and UDP traffic to gateways with one-use
tokens. This project models the parts of it with the most state, branching or arithmetic, and
proves what they keep over every run. `dafny verify dfyconfig.toml` checks it.

| files | what they model |
|---|---|
| `Prelude`, `IntMaps` | options and results, machine integers, sums over maps |
| `ResolverFiles`, `Reconcile`, `ReconcileLaws`, `TickByName` | the macOS resolver files, the reconciler's tick, the lease and its no-install hold |
| `LeaseProtocol` | client ticks, watchdog checks, time, crashes and other software over one rule store (macOS) |
| `WindowsWatchdog` | the companion and the scheduled task over mutex, journal and heartbeat (Windows) |
| `UdpFrag`, `Reassembly`, `ReassemblyLaws`, `ReassemblyHistory`, `RecutLaws` | datagram fragmentation, sending, bounded reassembly, datagrams cut anew in mid-send |
| `UdpForwarder`, `UdpForwarderLaws`, `UdpForwarderHistory` | the forwarder's flow, session and reassembler maps |
| `Punycode`, `PunycodeLaws`, `Rfc3492`, `NamePolicy`, `NamePolicyLaws`, `NameByText` | the label encoder against an independent decoder, name normalisation, the operator's suffix policy |
| `DnsResponder`, `DnsLaws`, `ZoneManager`, `ZoneSync`, `ZoneAnswers`, `Decimals` | the query parser and reply builder, the zone refresh, refreshes and queries interleaved, numbers in text |
| `TokenLadder`, `TokenLadderLaws`, `DestByScript` | one `serve_dest` connection; one-use tokens over all connections |
| `Der`, `Csr`, `Pkcs10` | the two DER builders, the certification request against an independent reader |
| `Calendar`, `Receipts` | the two date formulas against a day-by-day calendar, update receipts |

Each object whose fields the source updates is a class whose methods are proved against a
specification function; the laws are about those functions. What each function computes is said a
second time without it: by name, by peer, by slot or by byte, from the run's events or the text
itself (`TickByName`, `ReassemblyHistory`, `UdpForwarderHistory`, `NameByText`, `ZoneAnswers`,
`DestByScript`), or by a decoder or reader that shares nothing with the builder (`Rfc3492`,
`Pkcs10`). What the outside world decides (the
clock, random generations, the fate of a system call, what the controller or a gateway answers,
which of several equally old slots a hash map yields) is a parameter or an event, so a law
quantifies over all of it.

## What the proofs found

Where the code and its comments disagree, the model follows the code.

- The client truncates the heartbeat's age to whole seconds and the macOS watchdog does not, so
  for heartbeats more than 25 and less than 26 seconds old the watchdog removes the rules and the
  client's next tick trusts its cache (`LeaseProtocol.WindowIsOneSecond`, `WindowRun`). A check
  that falls between a tick's lease decision and its end does the same (`MidTickRun`), and so does
  a removal that takes effect after it timed out (`LateRemovalRun`). These and their like are all
  there is: the cache is backed at all times exactly if no step is one of them
  (`CacheBackedOrCleared`).
- A rule so lost stays lost, cached and not there, exactly until a lease is stale to the client, a
  tick re-reads the cache because it reported some other rule added or removed, the session ends
  or the process restarts (`LostUntilRecovery`). A client with no stale lease whose desired names
  are all cached already, which has nothing else to do, never puts it back (`WindowLosesForGood`).
- `check_main` re-reads the heartbeat so as not to race a tick, and its comment calls that race
  closed. Before the very first heartbeat both readings find none: a check after the first tick's
  installs takes the rules (`FirstTickRun`), even if the heartbeat is written between its second
  reading and its removals (`StraddlingCheckRun`).
- On Windows one stale tick journals a new generation while the session's mutex keeps its old
  name, so every later run of the scheduled task cleans a live client
  (`WindowsWatchdog.JournalDiverges`, `TaskSparesUntilDiverged`).
- `lease_decision` calls an unknown age "first cycle of this process"; the heartbeat file
  survives restarts, so a first cycle is stale exactly when that file is old
  (`LeaseProtocol.FirstTickStaleIff`).
- `add` writes `<stem>.aztna-tmp`, so a foreign rule of that name is overwritten
  (`ResolverFiles.AddSparesForeign`); and a write of that file that stops inside the marker line
  leaves a file nobody owns (`TornWriteIsForeign`). No check removes it, nor any tick
  (`LeaseProtocol.ForeignStays`) until one adds a name that has the same temporary file
  (`ReconcileLaws.TornFileSwept`).
- `normalize_name` trims before it strips a trailing dot: on `"x ."` a second call changes the
  result (`NamePolicyLaws.IdempotenceFails`). It is idempotent exactly on inputs whose last label
  does not end, and whose first does not start, with white space as plain ASCII
  (`NormalizeIdempotent`).
- The additions `delta += ...` of the label encoder are not checked, in spite of the comment
  "reject rather than wrap". Some label of every length over 3855 code points makes one of them
  pass 2^32, and no shorter label does (`PunycodeLaws.OverflowsIff`).
- `fragment` accepts datagrams of 65508 to 65535 bytes that `accept` never takes
  (`ReassemblyLaws.OversizeNeverAccepted`). A datagram cut again in mid-send, the second
  cut's pieces all arriving in order, is delivered only if no piece of the first arrived, or the
  new size is a multiple of the old one and no new piece's stretch holds some of its old pieces
  but not all (`RecutLaws.InOrderDeliveredIff`): never when the path's maximum shrank and a piece got
  through (`ShrunkNeverChains`), the case the second cut is there for. `udp_frag_send` also reports
  success when frames of the first cut were lost (`UdpFrag.FragSend`). `Evicted` is never
  returned (`EvictedNeverReturned`).
- The prune before a flow is opened, meant to retire the peer's old flow, never finds one: the
  stale branch has already removed it, without its session entries
  (`UdpForwarderLaws.OpeningPrunesNothing`). So the leak and the late tombstone that kills a new
  flow, which `prune_flow`'s comment calls fixed, remain (`LapsedFlowRun`,
  `SessionsGrowWithoutFlows`). When a leaked session's id is handed out again, one peer can be
  sent a datagram that holds another's bytes (`SessionsCanMix`); without a leak it cannot
  (`SessionsNeverMix`).
- A query's type and class are read where section 4.1.4 of RFC 1035 has them exactly when its
  name holds no pointer, or labels run over its first pointer and end on that pointer's second
  byte by accident (`DnsLaws.TypeReadInPlaceIff`, `PointerUnderLabel`); names of 256 bytes
  pass, one more than section 2.3.4 allows (`NamesAccepted`); and address parts that are no
  numbers are dropped (`JunkPartsAreDropped`).
- An endpoint handed to another name keeps forwarding to the old one: forwarders always follow
  the zones exactly if that never happens (`ZoneManager.AlwaysFollowsIff`).
- A refused credential refresh in `serve_dest` counts one failure and sleeps not at all; the
  back-off its comment refers to is slept exactly when every dial failed
  (`TokenLadderLaws.BacksOffIff`, `SleptIff`).

## Model

| member | source | states |
|---|---|---|
| ResolverFiles.MarkerIdentifies | client/src/splitdns/mod.rs:44-61 | a first line is taken for a generation's exactly when it is that generation's marker line, so no foreign line is ours and no two generations share one |
| ResolverFiles.MarkerText | client/src/splitdns/mod.rs:44-61 | the marker line is `# aztna:w43:`, the generation and ` managed` |
| ResolverFiles.TmpNameText | client/src/splitdns/resolver_files.rs:83-87 | a name's temporary file has `.aztna-tmp` for what follows its last dot, or behind it if it has none but a leading one |
| ResolverFiles.ResolverDir.Enumerate | client/src/splitdns/resolver_files.rs:33-64 | every file that is not a dotfile is listed exactly once, with its owner |
| ResolverFiles.ResolverDir.Add | client/src/splitdns/resolver_files.rs:69-89 | a file that is not ours is refused and left alone; otherwise the rule is written through its temporary file, for a write that fails at once, half-way through the temporary file, before the rename or after it |
| ResolverFiles.ResolverDir.Remove | client/src/splitdns/resolver_files.rs:92-105 | only our files are removed; a missing one is no error |
| ResolverFiles.AddOutcome | client/src/splitdns/resolver_files.rs:69-89 | when an add reports success, and what each file is after it, for every way the write can fail |
| ResolverFiles.RemoveOutcome | client/src/splitdns/resolver_files.rs:92-105 | when a removal reports success, and that only that file, and only if it is ours, can go |
| ResolverFiles.AddSparesForeign | client/src/splitdns/resolver_files.rs:83-87 | adding destroys a foreign file exactly when it bears the temporary file's name |
| ResolverFiles.TornWriteIsForeign | client/src/splitdns/resolver_files.rs:83-87 | a temporary file whose write stops is a file nobody owns if and only if it stops inside its marker line |
| Reconcile.RemoveAllTagged | client/src/splitdns/watchdog_macos.rs:76-85 | every owned rule of any generation whose removal takes effect goes, nothing else does, and the count is of the removals reported |
| Reconcile.Reconciler.DropConflicts | client/src/splitdns/reconciler.rs:178-183 | the desired names left are those no foreign rule holds |
| Reconcile.Reconciler.RemoveDoomed | client/src/splitdns/reconciler.rs:196-217 | unwanted rules and rules of other generations go, and leave the cache when the removal is reported |
| Reconcile.Reconciler.InstallMissing | client/src/splitdns/reconciler.rs:220-260 | the names missing from the cache, not from the directory, are added in order; the cache is re-read only after a change |
| Reconcile.Reconciler.OfGeneration | client/src/splitdns/reconciler.rs:252-258 | the re-read cache is exactly the listed rules of the current generation |
| Reconcile.Reconciler.Tick | client/src/splitdns/reconciler.rs:126-289 | a tick's whole effect on client and disk, with the desired list the name policy determines and the heartbeat written last |
| Reconcile.Reconciler.Shutdown | client/src/splitdns/reconciler.rs:294-316 | session end removes all owned rules, empties the cache and resets the journal |
| ReconcileLaws.TickConvergesIffBacked | client/src/splitdns/reconciler.rs:164-260 | an error-free tick that may install leaves the owned rules equal to the desired names no foreign rule holds, all of the current generation, if and only if every wanted cached name still has an owned rule |
| ReconcileLaws.TickSparesForeign | client/src/splitdns/reconciler.rs:178-248 | a foreign file is unchanged by the tick exactly if it is not named like the temporary file of a name to be added, and is gone otherwise |
| ReconcileLaws.TornFileSwept | client/src/splitdns/resolver_files.rs:69-89 | an error-free tick removes a torn temporary file if and only if it adds a name that goes by way of it |
| ReconcileLaws.TickSettles | client/src/splitdns/reconciler.rs:164-260 | from an exact cache the tick leaves the cache equal to the wanted names as well |
| ReconcileLaws.SecondTickIdle | client/src/splitdns/reconciler.rs:164-260 | a second tick on the same inputs adds and removes nothing and leaves the cache as it is |
| ReconcileLaws.StaleTickEmpties | client/src/splitdns/reconciler.rs:133-151 | an error-free stale tick installs nothing and leaves no owned rule at all |
| ReconcileLaws.HoldIffUnhealed | client/src/splitdns/reconciler.rs:40-47 | over every history of cycles the hold is on exactly when some stale cycle has not been followed by one that is not stale and whose fetch succeeded; a fresh heartbeat alone never lifts it |
| ReconcileLaws.NoInstallWhileHeld | client/src/splitdns/reconciler.rs:219-225 | no add is called in any cycle while a stale cycle is unhealed |
| TickByName.WantedAre | client/src/splitdns/reconciler.rs:178-183 | a cycle wants exactly the desired names, in their order, that no listed foreign rule holds |
| TickByName.CallsByName | client/src/splitdns/reconciler.rs:219-248 | add is called for exactly the desired names nobody else holds that are not in the cache or were just reported removed, and for none under a hold |
| TickByName.FileAfterTick | client/src/splitdns/reconciler.rs:164-248 | for every desired list, cache and fate of each call: each file is written with this generation's marker, gone, or as it was, exactly as its own name's calls turned out |
| TickByName.CacheAfterTick | client/src/splitdns/reconciler.rs:196-260 | the cache is read anew exactly if some call reported success and the second listing works, and otherwise loses exactly the names reported removed; hold and generation stay |
| TickByName.RecordsAfterTick | client/src/splitdns/reconciler.rs:262-289 | the heartbeat is always written; the journal, after a listing, with the generation and the cache as they then are |
| TickByName.ClientAfterLease | client/src/splitdns/reconciler.rs:126-151 | a heartbeat of 26 s or more starts the client over under the minted generation, with an empty cache and the hold; any other leaves it alone but for a successful fetch that lifts the hold |
| TickByName.FileAfterCleaning | client/src/splitdns/watchdog_macos.rs:76-85 | session end and checks remove exactly our listed rules whose removal takes effect |
| TickByName.CountedRemovals | client/src/splitdns/watchdog_macos.rs:76-85 | the removals counted are those of our rules reported as removed |
| TickByName.TickServesDesired | client/src/splitdns/reconciler.rs:126-289 | after an error-free cycle without a hold, from an exact cache, owned rules and cache are exactly the desired names that no foreign rule holds, each with this generation's marker |
| LeaseProtocol.CheckMain | client/src/splitdns/watchdog_macos.rs:191-204 | a check removes all owned rules when both its readings of the heartbeat find it missing, unreadable or over 25 s old in microseconds, and nothing otherwise |
| LeaseProtocol.LookThenSweep | client/src/splitdns/watchdog_macos.rs:191-204 | a check taken apart into the reading it acts on and its removals, with nothing between, is the check |
| LeaseProtocol.ForeignStays | client/src/splitdns/resolver_files.rs:69-105 | in every run a file that is not ours stays as it is until other software changes it or a tick adds a name whose temporary file it is |
| LeaseProtocol.ForeignSurvives | client/src/splitdns/resolver_files.rs:69-105 | in every run a foreign rule not named like a temporary file is touched by nobody but other software |
| LeaseProtocol.CacheBackedOrCleared | client/src/splitdns/reconciler.rs:126-289 | in every interleaving of the three parts of each tick, checks (whole, or taken apart into a reading and removals), time, crashes, restarts and other software: at all times each cached rule (leftover temporary files aside) exists under the current generation or the next tick is stale and clears the cache, if and only if no step takes a cached rule: a check that removes one in a tick or before a tick not stale to the client, or a tick that removes an unwanted one late and does not re-read the cache |
| LeaseProtocol.StepCoherentIff | client/src/splitdns/reconciler.rs:126-289 | the same for one step, from any state that has the invariant |
| LeaseProtocol.TakenIsLost | client/src/splitdns/watchdog_macos.rs:76-85 | after such a step some cached name has no owned rule |
| LeaseProtocol.LostUntilRecovery | client/src/splitdns/reconciler.rs:220-260 | over every run a cached name without a rule stays so if and only if no lease is stale to the client, no tick re-reads the cache, and there is no session end or restart |
| LeaseProtocol.RecoveryMends | client/src/splitdns/reconciler.rs:133-260 | after any of those every cached rule exists under the current generation |
| LeaseProtocol.WindowIsOneSecond | client/src/splitdns/reconciler.rs:340-352 | the watchdog sees a stale heartbeat the client takes for fresh exactly at ages strictly between 25 s and 26 s |
| LeaseProtocol.WindowRemovalBreaks | client/src/splitdns/watchdog_macos.rs:97-108 | a working check against a backed cache keeps the invariant if and only if it does not fall in that window |
| LeaseProtocol.MidTickRemovalBreaks | client/src/splitdns/watchdog_macos.rs:191-204 | a check that removes a cached rule after a tick's lease decision and before its heartbeat breaks it |
| LeaseProtocol.LateRemovalBreaks | client/src/splitdns/reconciler.rs:203-215 | with no hold, a tick's removal of the one owned rule that takes effect but is reported as failed breaks it and leaves no rule under an unchanged cache |
| LeaseProtocol.CheckWipes | client/src/splitdns/watchdog_macos.rs:191-204 | a working check of a stale heartbeat, in a tick or between ticks, leaves no owned rule and the client's cache as it was |
| LeaseProtocol.WipedForGood | client/src/splitdns/reconciler.rs:220-225 | in every further run of a healthy client whose desired names are cached, none of the rules ever comes back |
| LeaseProtocol.WindowRun | client/src/splitdns/watchdog_macos.rs:191-204 | from a blank disk: start, install a name, 25.5 s, a check; the invariant is broken, no rule is left, the cache keeps the name and no tick was stale |
| LeaseProtocol.WindowLosesForGood | client/src/splitdns/reconciler.rs:220-225 | in every healthy continuation of that run the name has no rule and stays in the cache |
| LeaseProtocol.MidTickRun | client/src/splitdns/watchdog_macos.rs:191-204 | a run in which a check during a tick of twenty seconds takes the rule and the same tick ends without putting it back |
| LeaseProtocol.FirstTickRun | client/src/splitdns/watchdog_macos.rs:185-204 | a run in which a check before the first heartbeat takes the rule just installed, and the client goes on with the name cached |
| LeaseProtocol.StraddlingCheckRun | client/src/splitdns/watchdog_macos.rs:185-204 | a run in which a check read no heartbeat, the first tick then writes it, and the check goes on to take the rule |
| LeaseProtocol.LateRemovalRun | client/src/splitdns/reconciler.rs:203-215 | a run in which a withdrawn name's removal takes effect late: the rule is gone and the cache keeps the name |
| LeaseProtocol.FirstTickStaleIff | client/src/splitdns/reconciler.rs:340-352 | the first tick after any start sets the hold if and only if the heartbeat found on disk is stale |
| LeaseProtocol.HeldCacheEmpty | client/src/splitdns/reconciler.rs:133-151 | over every run the cache is empty while the hold is on |
| LeaseProtocol.WorkThenBeat | client/src/splitdns/reconciler.rs:164-289 | the two later parts of a tick, with no time between them, are the reconciler's own tick |
| LeaseProtocol.ShutdownLeavesNothing | client/src/splitdns/reconciler.rs:294-316 | a session end whose calls work leaves no rule of ours, foreign files as they were, an empty cache and a journal of a fresh generation |
| LeaseProtocol.CleanedInTime | client/src/splitdns/watchdog_macos.rs:191-204 | once the client stops, no owned rule is left later than 30 s after the stop or the heartbeat's 25 s, whichever is last |
| LeaseProtocol.LiveClientNeverCleaned | client/src/splitdns/watchdog_macos.rs:97-108 | while time never passes beyond 25 s after the heartbeat, and no check begun before it still acts on a stale reading, no check changes anything, in every interleaving |
| WindowsWatchdog.Nrpt.CheckMain | client/src/splitdns/watchdog.rs:377-418 | the task cleans unless the journalled generation's mutex is held and the heartbeat is fresh, and does nothing without a journal |
| WindowsWatchdog.Nrpt.CompanionMain | client/src/splitdns/watchdog.rs:311-373 | what every sequence of stand-down, abandonment, acquisition and timeouts makes of the rules |
| WindowsWatchdog.CompanionCleansIff | client/src/splitdns/watchdog.rs:347-370 | the companion cleans exactly if an abandonment or a stale timeout comes before any stand-down; graceful ends never clean |
| WindowsWatchdog.TaskSparesIffSameGeneration | client/src/splitdns/watchdog.rs:387-410 | for a live client with a fresh heartbeat the task spares the rules if and only if the journal names the session's generation |
| WindowsWatchdog.TaskCleansIff | client/src/splitdns/watchdog.rs:377-418 | one run of the task cleans our rules if and only if there is a journal and not both a live client of its generation and a heartbeat of at most 25 s |
| WindowsWatchdog.CompanionSpares | client/src/splitdns/watchdog.rs:347-370 | the companion never touches a live client's rules while the heartbeat is fresh |
| WindowsWatchdog.WaitCleansIff | client/src/splitdns/watchdog.rs:347-370 | one wait cleans our rules if and only if the companion is watching, not stood down, and the client dead or its heartbeat stale; when it stops watching |
| WindowsWatchdog.TickLeaves | client/src/splitdns/reconciler.rs:126-289 | the generation, journal and heartbeat a tick leaves behind |
| WindowsWatchdog.ActivationLeaves | client/src/splitdns/watchdog.rs:208-225 | what an activation starts with |
| WindowsWatchdog.JournalDiverges | client/src/splitdns/reconciler.rs:136-274 | over every run of a session the journal names its generation exactly until a journal is written after a stale tick, and never again after |
| WindowsWatchdog.TaskSparesUntilDiverged | client/src/splitdns/watchdog.rs:377-418 | from activation on, at every moment with a fresh heartbeat, the task spares the rules if and only if that has not happened |
| WindowsWatchdog.TaskCleansDeadOrHung | client/src/splitdns/watchdog.rs:396-417 | a check after the client died or its heartbeat turned stale leaves no owned rule and every other rule as it was |
| WindowsWatchdog.CleanedInTime | client/src/splitdns/watchdog.rs:377-418 | with checks at most 60 s apart nothing owned is left 60 s after a death, or after a hung client's 25 s |
| WindowsWatchdog.CompanionCleansDead | client/src/splitdns/watchdog.rs:357-361 | a watching companion cleans a dead client's rules on its next wait and exits |
| UdpFrag.DecodeWire | crates/aztna-common/src/udp_frag.rs:24-45 | decoding an encoded frame gives the frame |
| UdpFrag.WireDecode | crates/aztna-common/src/udp_frag.rs:24-45 | encoding a decoded frame gives the bytes |
| UdpFrag.WireLayout | crates/aztna-common/src/udp_frag.rs:24-30 | which header bytes hold session id, datagram id, offset and total length, most significant first |
| UdpFrag.Encode | crates/aztna-common/src/udp_frag.rs:24-30 | a frame is appended in wire layout |
| UdpFrag.Fragment | crates/aztna-common/src/udp_frag.rs:51-80 | refuses exactly what cannot be framed; otherwise frame k carries the k-th piece and the pieces reach the end; empty data gives no frame |
| UdpFrag.CutCarriesEveryOffset | crates/aztna-common/src/udp_frag.rs:62-78 | every fragment offset of the datagram is carried by some frame |
| UdpFrag.FragSend | client/src/lib.rs:2211-2232 | what is sent is the frames of the first cut that went out before the first one too large, then a start of the second cut, all of it on success; every frame is a slice of the one datagram under one id, and losses in the first cut are not reported |
| UdpFrag.GoneOutPieces | client/src/lib.rs:2217-2221 | the frames that went out of the first cut are pieces of it from before the one too large |
| UdpFrag.Resend | client/src/lib.rs:2222-2230 | the second attempt sends a start of its cut and, on success, all of it |
| Reassembly.Reassembler.Accept | crates/aztna-common/src/udp_frag.rs:146-214 | the new slot table and outcome, for some choice of oldest slots to evict |
| Reassembly.Reassembler.OldestId | crates/aztna-common/src/udp_frag.rs:216-221 | a slot seen first no later than any other |
| Reassembly.Reassembler.ReapOlder | crates/aztna-common/src/udp_frag.rs:133-144 | exactly the slots older than the gap go, and the count is theirs |
| Reassembly.Contiguous | crates/aztna-common/src/udp_frag.rs:185-197 | the walk finds no gap exactly when the chunks assemble, and ends at their length |
| ReassemblyLaws.ResourceBounds | crates/aztna-common/src/udp_frag.rs:146-214 | over every run at most max(1, max_slots) slots are held, and each slot's counter is the sum of its chunks and at most max_bytes |
| ReassemblyLaws.EvictedNeverReturned | crates/aztna-common/src/udp_frag.rs:170-179 | so global pressure never evicts, and Evicted is never returned |
| ReassemblyLaws.BufferedWithinCap | crates/aztna-common/src/udp_frag.rs:122-125 | the total buffered never exceeds max_bytes times max(1, max_slots) |
| ReassemblyLaws.CompletedIsOriginal | crates/aztna-common/src/udp_frag.rs:158-208 | while all frames of an id are slices of one datagram, whatever the mix of sizes, repeats and overlaps, anything completed for it is that datagram |
| ReassemblyLaws.ReusedIdSplices | crates/aztna-common/src/udp_frag.rs:158-208 | frames of two datagrams under one id can complete as a splice of both |
| ReassemblyLaws.DeliveredWhenAllSeen | crates/aztna-common/src/udp_frag.rs:146-214 | fragments in any order, repeated, among frames of other ids, with a slot for each id: the datagram is returned whole at the first moment all offsets have been seen, and every earlier frame is answered Partial |
| ReassemblyLaws.StuckUntilDropped | crates/aztna-common/src/udp_frag.rs:185-197 | a slot with overlapping chunks or a premature empty one completes nothing until it is dropped |
| ReassemblyLaws.ShrinkingMidSendNeverDelivers | client/src/lib.rs:2217-2230 | once the first large piece and the second small one are in, whatever else arrives completes nothing for as long as the slot lives |
| RecutLaws.FinishedIffChained | crates/aztna-common/src/udp_frag.rs:184-208 | non-empty slices of a datagram, of any sizes, complete it if and only if one starts at zero, each ends where another starts or at the end, and none starts inside another |
| RecutLaws.SlicesDeliveredWhenChained | crates/aztna-common/src/udp_frag.rs:146-214 | such slices in any order, repeated, among frames of other ids, with a slot for each id: the datagram is returned whole at the first moment they chain, and answered Partial before |
| RecutLaws.KeptOfTwoCuts | crates/aztna-common/src/udp_frag.rs:181-184 | of a datagram sent in two cuts the slot keeps the first cut's pieces that arrived and those of the second at other offsets |
| RecutLaws.TwoCutsDelivered | client/src/lib.rs:2217-2230 | whatever pieces of the two cuts arrive, in any order, interleaving and number: returned whole at the first moment the pieces that came first chain, and Partial before |
| RecutLaws.KeptOfEitherCut | crates/aztna-common/src/udp_frag.rs:181-184 | what the slot keeps of two interleaved cuts |
| RecutLaws.RoomForBothCuts | crates/aztna-common/src/udp_frag.rs:164-168 | a slot with room for three times the datagram never refuses a piece of either cut |
| RecutLaws.TwoCutsChainIff | client/src/lib.rs:2217-2230 | with all of the second cut in they chain if and only if no piece of the first arrived, or the new size is a multiple of the old and each new piece's stretch had none or all of its old pieces |
| RecutLaws.EitherCutChainsIff | client/src/lib.rs:2217-2230 | the same for two interleaved cuts, of the pieces of the first that came first |
| RecutLaws.InOrderChainIff | client/src/lib.rs:2217-2230 | with the second cut in order they chain exactly at its last piece, under that condition |
| RecutLaws.InOrderDeliveredIff | client/src/lib.rs:2217-2230 | over runs: with the second cut in order every frame is answered Partial except its last, which returns the datagram if and only if that condition holds |
| RecutLaws.ShrunkNeverChains | client/src/lib.rs:2217-2230 | once any piece of a larger first cut is in, no in-order second cut completes the datagram |
| RecutLaws.PrefixFitsIff | crates/aztna-common/src/udp_frag.rs:184-197 | a first cut without gaps chains with any pieces of the second if and only if the second picks up where the first stopped, all of it from there is in and none of it lies inside a piece of the first |
| RecutLaws.MixedBytes | crates/aztna-common/src/udp_frag.rs:170-179 | two cuts together buffer at most twice the datagram |
| ReassemblyLaws.OversizeNeverAccepted | crates/aztna-common/src/udp_frag.rs:149-151 | a fragment is out of bounds exactly if its datagram is over 65507 bytes, and is then refused without effect |
| ReassemblyHistory.SlotHistory | crates/aztna-common/src/udp_frag.rs:153-183 | over every run from an empty table a slot's total and first-seen instant are those of the frame that opened it, and its chunks are those of its id's frames since, the first at each offset |
| ReassemblyHistory.HeldSince | crates/aztna-common/src/udp_frag.rs:153-163 | that frame is the one since which the slot was never absent |
| ReassemblyHistory.SweepDropsIff | crates/aztna-common/src/udp_frag.rs:133-144 | over every run a sweep drops a slot if and only if its first frame came more than the gap ago, and changes no other |
| ReassemblyHistory.OldestGoes | crates/aztna-common/src/udp_frag.rs:152-157 | over every run, a new datagram finding all slots taken ends exactly one other, whose first frame came no later than any other's |
| ReassemblyHistory.OwnSlotGoesIff | crates/aztna-common/src/udp_frag.rs:163-214 | over every run a datagram's own slot goes if and only if it is completed or its chunks would pass the byte cap, and without slot pressure no other goes |
| ReassemblyHistory.OutOfBoundsIgnored | crates/aztna-common/src/udp_frag.rs:149-151 | a frame out of bounds changes nothing |
| UdpForwarder.Forwarder.PruneFlow | client/src/lib.rs:2422-2452 | a flow goes with the session and reassembler it owns; a raw flow owns none |
| UdpForwarder.Forwarder.OnDatagram | client/src/lib.rs:2504-2522 | a live flow is stamped and its id stepped, wrapping; any other flow leaves the flow table alone behind |
| UdpForwarder.Forwarder.RetireQuic | client/src/lib.rs:2625-2639 | a lost connection's flows go, each with its session entries |
| UdpForwarder.Forwarder.OpenQuic | client/src/lib.rs:2692-2712 | a session and its flow are entered for the peer after pruning, due two seconds before the token lapses |
| UdpForwarder.Forwarder.OpenRaw | client/src/lib.rs:2765-2772 | a raw flow replaces the peer's flow and that flow's session |
| UdpForwarder.Forwarder.Sweep | client/src/lib.rs:2802-2816 | exactly the flows that are not live go, each with its session entries |
| UdpForwarder.Forwarder.OnFrame | client/src/lib.rs:2372-2412 | a tombstone ends its session and peer's flow, an unknown session is ignored, any other frame is reassembled and a finished datagram goes to the session's peer |
| UdpForwarder.Forwarder.OnRawDeny | client/src/lib.rs:2786-2790 | a DENY from a raw pump removes the peer's flow, whatever it is, and nothing else |
| UdpForwarderLaws.RunKeepsInv | client/src/lib.rs:2380-2816 | in every run each live QUIC flow's session leads back to its own peer and reassemblers belong to known sessions |
| UdpForwarderLaws.OpeningPrunesNothing | client/src/lib.rs:2694-2698 | in every reachable state the prune before opening a flow changes nothing |
| UdpForwarderLaws.StepKeepsOwnedIff | client/src/lib.rs:2517-2520 | a step leaves every session owned by a live flow if and only if it is not a datagram finding its QUIC flow lapsed nor an old raw pump's DENY hitting a QUIC flow |
| UdpForwarderLaws.AlwaysOwnedIff | client/src/lib.rs:2422-2452 | a run keeps every session owned throughout if and only if it has no such step |
| UdpForwarderLaws.ForwarderOwnedIff | client/src/lib.rs:2422-2452 | from the empty maps a run keeps every session owned if and only if it never leaks one |
| UdpForwarderLaws.OwnedBound | client/src/lib.rs:2416-2421 | while sessions are owned there are no more of them than flows |
| UdpForwarderLaws.SupersededTombstone | client/src/lib.rs:2380-2394 | while sessions are owned a tombstone for a superseded session changes nothing |
| UdpForwarderLaws.StrayTombstone | client/src/lib.rs:2380-2394 | a tombstone for a session left behind removes the peer's new flow and leaves its session behind in turn |
| UdpForwarderLaws.LapsedFlowRun | client/src/lib.rs:2517-2520 | from every state with a lapsed QUIC flow: the peer's next datagram, a new session and the old one's tombstone lead there |
| UdpForwarderLaws.SessionsGrowWithoutFlows | client/src/lib.rs:2518 | with one peer and at most one flow the session map reaches every size up to 2^32 |
| UdpForwarderLaws.DeliveredToOwner | client/src/lib.rs:2396-2412 | while sessions are owned a reassembled datagram goes to the peer whose live flow carries its session |
| UdpForwarderLaws.OpensOnEmpty | client/src/lib.rs:2692-2712 | while sessions are owned a new session finds no reassembler under its id |
| UdpForwarderLaws.SessionsNeverMix | client/src/lib.rs:2396-2412 | in every run that never leaks, a session's reassembler holds what came in since that session opened, and nothing of an earlier one with its id |
| UdpForwarderLaws.SessionsCanMix | client/src/lib.rs:2396-2412 | a run with a leak after which one peer is sent a datagram made of its own and another peer's halves |
| UdpForwarderLaws.SplitAcceptLeaks | client/src/lib.rs:2396-2405 | a prune between the reader's lookup and its store leaves a reassembler without a session |
| UdpForwarderLaws.SplitOpenUnroutes | client/src/lib.rs:2699-2712 | a tombstone between the two inserts of an opening leaves a flow whose session leads nowhere |
| UdpForwarderHistory.FlowAfter | client/src/lib.rs:2380-2816 | each peer's flow after each event: opened, ended, stamped with its id stepped, or as it was |
| UdpForwarderHistory.SessionAfter | client/src/lib.rs:2380-2816 | each session after each event: it comes with a flow and goes by its tombstone or with its flow when that is retired or swept |
| UdpForwarderHistory.ReassemblerAfter | client/src/lib.rs:2396-2412 | each session's reassembler takes in the session's frames, 16 slots of 256 KiB, and what completes goes to the session's peer |
| UdpForwarderHistory.ServedAfter | client/src/lib.rs:2504-2816 | whom the receive loop is establishing a flow for, and which raw pumps run, after each event |
| UdpForwarderHistory.FlowHistory | client/src/lib.rs:2504-2522 | over every run a flow is the one opened for the peer: due two seconds before the token lapses, active at the peer's last datagram, its id stepped once for each |
| UdpForwarderHistory.GoesOutIff | client/src/lib.rs:2504-2522 | over every run a datagram goes out if and only if the token has more than two seconds left and the last datagram came less than the idle time ago |
| UdpForwarderHistory.IdsDiffer | client/src/lib.rs:2509 | two datagrams of one flow fewer than 65536 apart go out under different ids |
| Punycode.EmitInteger | client/src/splitdns/mod.rs:288-306 | a delta is written as its mixed-radix digits, without u32 overflow in the digit counter |
| Punycode.Adapt | client/src/splitdns/mod.rs:246-255 | the bias is the adaptation function's and stays under 2^29 |
| Punycode.InsertPass | client/src/splitdns/mod.rs:282-313 | one pass of the inner loop, with h counting the code points below n throughout |
| Punycode.PunycodeEncode | client/src/splitdns/mod.rs:237-316 | the u32 loop computes the encoding, refuses where a checked step fails and overflows only at the unchecked ones |
| Punycode.ReadIntegerDigits | client/src/splitdns/mod.rs:288-306 | reading a variable-length integer undoes writing it, whatever follows |
| PunycodeLaws.DecodeEncode | client/src/splitdns/mod.rs:237-316 | the decoder of section 6.2 of RFC 3492, written with its own parameters, gives back every label that was encoded |
| PunycodeLaws.EncodeInjective | client/src/splitdns/mod.rs:237-316 | distinct labels have distinct encodings |
| PunycodeLaws.EncodeCharacters | client/src/splitdns/mod.rs:257-270 | an encoding consists of the label's ASCII, a hyphen, lower-case letters and digits |
| PunycodeLaws.EncodeEndsInDigit | client/src/splitdns/mod.rs:288-306 | the encoding of a label that is not all ASCII ends in a letter or digit |
| PunycodeLaws.EncodesIff | client/src/splitdns/mod.rs:278-313 | a label is encoded if and only if the delta of section 6.3 of RFC 3492, in unbounded arithmetic, never passes 2^32 - 1 on it |
| PunycodeLaws.SafeLengthIsExact | client/src/splitdns/mod.rs:278-286 | all labels of a given length encode if and only if it is at most 3855 code points |
| PunycodeLaws.OverflowsIff | client/src/splitdns/mod.rs:278-313 | an unchecked addition passes 2^32 on some label of a given length if and only if that is over 3855 code points |
| PunycodeLaws.RefusesIff | client/src/splitdns/mod.rs:278-286 | the checked multiplication refuses some label of a given length if and only if that is over 3855 code points |
| NamePolicy.NormalizeName | client/src/splitdns/mod.rs:139-169 | the normal form or the first reason against it, in the source's order |
| NamePolicy.DesiredNamespaces | client/src/splitdns/mod.rs:200-231 | a strictly sorted list of exactly the normal forms of allowed zone names, and all others rejected in order with their reasons |
| NamePolicyLaws.SuffixMatchIsLabelAligned | client/src/splitdns/mod.rs:182-184 | a name matches a suffix exactly when its label list ends with the suffix's |
| NamePolicyLaws.SortedListsEqual | client/src/splitdns/mod.rs:229 | the desired list is determined by its members, whatever order the zone map yields |
| NamePolicyLaws.EveryNameAccounted | client/src/splitdns/mod.rs:200-231 | every zone name is represented or rejected with the right reason, never both |
| NamePolicyLaws.NormalFormShape | client/src/splitdns/mod.rs:139-169 | a normal form is ASCII without capitals or stars, and no label of it is empty |
| NamePolicyLaws.NormalizeIdempotent | client/src/splitdns/mod.rs:139-169 | normalising again changes nothing if and only if the cleaned input's last label is not plain ASCII ending in white space nor its first plain ASCII starting with it |
| NamePolicyLaws.IdempotentWithoutBlankDot | client/src/splitdns/mod.rs:139-169 | so it is idempotent on every input without white space before a stripped trailing dot |
| NamePolicyLaws.IdempotenceFails | client/src/splitdns/mod.rs:139-145 | "x ." becomes "x " and that becomes "x" |
| NameByText.WhiteIs | client/src/splitdns/mod.rs:140 | white space is the 25 code points of Unicode's White_Space property |
| NameByText.TrimIs | client/src/splitdns/mod.rs:139-143 | all white space around a name is taken off and nothing else |
| NameByText.CleanedIs | client/src/splitdns/mod.rs:139-143 | lower-cased text loses one trailing dot |
| NameByText.RefusedIff | client/src/splitdns/mod.rs:144-158 | exactly when each refusal is given, by the text: empty, a star, a leading dot, two dots together or one at the end, an address |
| NameByText.Ipv4Iff | client/src/splitdns/mod.rs:171-180 | a text is taken for an IPv4 literal if and only if it is four numbers up to 255 with dots between |
| NameByText.AddressIff | client/src/splitdns/mod.rs:171-180 | a text is taken for an address if and only if it is such, or an IPv6 literal, or has a colon and no letter, brackets around the last two aside |
| NameByText.ShortNamesEncode | client/src/splitdns/mod.rs:159-168 | no name whose labels have at most 3855 characters is refused by the encoder |
| NameByText.LabelsDecode | client/src/splitdns/mod.rs:159-168 | each label of a normal form is the cleaned text's, or `xn--` and what the decoder of RFC 3492 reads as it |
| NameByText.PlainNameStays | client/src/splitdns/mod.rs:139-169 | a fit name of lower-case ASCII is its own normal form, with white space around it or a dot behind it |
| NameByText.OrderIff | client/src/splitdns/mod.rs:229 | names are listed in the order of their characters |
| NameByText.RejectedInOrder | client/src/splitdns/mod.rs:200-228 | names are rejected in the order of the zone, each with its reason |
| DnsResponder.ReadName | client/src/dns.rs:50-88 | the loop ends on every byte string, inside its bounds, with the name the parser function gives and its dotted text |
| DnsResponder.ParseQuery | client/src/dns.rs:37-100 | the whole parser, for every byte string |
| DnsResponder.BuildReply | client/src/dns.rs:110-149 | the reply as header, echoed question and at most one address record |
| DnsLaws.ParsedShape | client/src/dns.rs:50-99 | an accepted name is whole labels and the root, at most 256 bytes; its lookup key has no capitals and no trailing dot |
| DnsLaws.ParseReads | client/src/dns.rs:37-100 | which packets are questions, and the id, recursion flag, type and class read of them, by their bytes |
| DnsLaws.LabelsThenPointer | client/src/dns.rs:50-88 | labels and a pointer read as the labels and what stands at the pointer's fourteen bits |
| DnsLaws.CompressedNameReads | client/src/dns.rs:50-88 | so a compressed name reads as its labels followed by the name pointed to |
| DnsLaws.PointerLimit | client/src/dns.rs:63-74 | sixteen pointers in a row are followed and a seventeenth is refused |
| DnsLaws.NamesAccepted | client/src/dns.rs:75-86 | the names queries can carry are exactly the whole names of at most 256 bytes |
| DnsLaws.ReadingEnds | client/src/dns.rs:50-88 | reading a name ends just behind a zero byte, and without a pointer where the name ends on the wire |
| DnsLaws.TypeReadInPlaceIff | client/src/dns.rs:63-99 | type and class of an accepted query are read where section 4.1.4 of RFC 1035 has them if and only if the name holds no pointer, or its first pointer's second byte is zero and the labels after the last pointer end there |
| DnsLaws.TypeAgreesIff | client/src/dns.rs:63-99 | read elsewhere they have the right values if and only if the same four bytes stand in both places |
| DnsLaws.ReadingEndsAtLast | client/src/dns.rs:50-88 | reading a name ends where the labels after the last pointer followed do |
| DnsLaws.PointerUnderLabel | client/src/dns.rs:63-88 | a pointer that a label runs over, after which type and class are read in place |
| DnsLaws.CompressedTypeIsReadAtTarget | client/src/dns.rs:63-99 | a name that is one pointer to a zero byte of the header has its type and class read behind that byte |
| DnsLaws.ReplyEchoesQuestion | client/src/dns.rs:110-149 | every reply, its reply bit cleared, parses back to the question it answers |
| DnsLaws.ReplyFits | client/src/dns.rs:128-147 | no reply is over 288 bytes |
| DnsLaws.ResponseCode | client/src/dns.rs:115-127 | code 2 until synced, then 0 exactly for known names and 3 otherwise; an answer is counted only for a known name's address question |
| DnsLaws.AddressReply | client/src/dns.rs:140-147 | an address record is sent exactly then, with its class, five seconds, four bytes and a pointer that reads back as the question's name |
| DnsLaws.DottedQuadAnswered | client/src/dns.rs:111-114 | a zone entry in dotted form is answered with its four numbers |
| DnsLaws.JunkPartsAreDropped | client/src/dns.rs:111-114 | a part that is no number makes no difference to the address |
| DnsLaws.LookupIgnoresCase | client/src/dns.rs:96 | a query for a name, in any case, is looked up under its lower-case text |
| DnsLaws.LowerIs | client/src/dns.rs:96 | in the key each capital becomes its small letter and nothing else changes |
| Decimals.OctetReadIff | client/src/dns.rs:111-114 | a part reads as a byte if and only if it is that number, with any zeros and at most one plus sign in front |
| ZoneManager.ZoneTable.Replace | client/src/lib.rs:3681-3687 | the map becomes the last entry of each lower-case name |
| ZoneManager.ZoneTable.AdjustForwarders | client/src/lib.rs:3638-3679 | unwanted forwarders stop, missing ones start where they can bind, running ones are left as they are |
| ZoneManager.ZoneTable.Refresh | client/src/lib.rs:3628-3740 | what each kind of fetch does to map, flag and forwarders, and what the reconciler is ticked with |
| ZoneManager.ZoneTable.Cancel | client/src/lib.rs:3743-3764 | at the session's end the map is cleared and the forwarders stop, the flag stays |
| ZoneManager.ZoneTable.AnswerWire | client/src/dns.rs:153-176 | the reply to a packet from the flag and the map, none for a malformed one |
| ZoneAnswers.AnswerBytes | client/src/dns.rs:153-176 | for every map, flag and packet that parses: the response code by the mapped name, and the mapped address in the last four bytes of the answer to an address question |
| ZoneAnswers.QuadIsSent | client/src/dns.rs:111-147 | a dotted entry is answered with code 0 and its four numbers |
| ZoneAnswers.PartsRead | client/src/dns.rs:111-114 | an entry's bytes are its readable parts in order, and it has an address if and only if there are four |
| ZoneAnswers.DroppedIff | client/src/dns.rs:153-159 | exactly the packets that do not parse get no reply |
| ZoneManager.LastEntryWins | client/src/lib.rs:3683-3686 | a name maps to the address of the last entry that spells it in any case |
| ZoneManager.ForwardersFollowIff | client/src/lib.rs:3638-3679 | running forwarders send where the zones say if and only if no kept endpoint had another target before |
| ZoneManager.WantedIff | client/src/lib.rs:3638-3650 | forwarders are wanted for exactly the listed endpoints and send to the name and port of the last entry that lists them |
| ZoneManager.RunsIff | client/src/lib.rs:3638-3679 | over every run of refreshes a forwarder runs if and only if some refresh listed it and it could bind, and none since left it out or was denied |
| ZoneManager.AlwaysFollowsIff | client/src/lib.rs:3638-3679 | over every run of refreshes running forwarders always send where the zones say if and only if no refresh hands a running endpoint to another target |
| ZoneManager.KeepsFirstTarget | client/src/lib.rs:3638-3679 | for as long as it runs a forwarder sends where the zones said when it was started |
| ZoneSync.RunKeepsInv | client/src/lib.rs:3681-3693 | over every run the map is one whole published map whenever no writer holds it |
| ZoneSync.AnswersAreWhole | client/src/dns.rs:153-176 | in every interleaving each answer is read from one whole map no older than the query, so after a denial never from one that still held the names |
| ZoneSync.DefinitiveIff | client/src/dns.rs:153-176 | all replies other than SERVFAIL are read from maps no older than the first Ok or Denied refresh, in every run, if and only if the flag is loaded before the map and stored after the replace |
| ZoneSync.PublishedAsAsked | client/src/lib.rs:3681-3693 | in every interleaving the maps published, and the one under way, are what the refreshes asked for, in their order |
| ZoneSync.UndisturbedRefresh | client/src/lib.rs:3681-3720 | a refresh whose steps nothing comes between leaves map and flag as the zone manager's refresh does |
| ZoneSync.UndisturbedEnd | client/src/lib.rs:3743-3764 | the session's end clears the map and leaves the flag; a failed fetch changes nothing |
| ZoneAnswers.SentIsAnswer | client/src/dns.rs:153-176 | in every interleaving each reply is the one given on the flag loaded and the published map read |
| ZoneAnswers.UndisturbedAnswer | client/src/dns.rs:153-176 | a query whose steps nothing comes between is sent the reply on the state as it is |
| TokenLadder.FirstDialed | client/src/lib.rs:3299-3326 | the gateway used is the first whose dial works; only failed dials move on |
| TokenLadder.ClimbLadder | client/src/lib.rs:3132-3218 | the two admission rounds: what was shown where, the credential held for the relay, whether it may be burned |
| TokenLadder.DestServer.Connection | client/src/lib.rs:2998-3449 | all presentations and the end of one connection, for every answer of the world |
| TokenLadder.DestServer.Present | client/src/lib.rs:3364-3436 | a possibly burned credential is replaced or the attempt aborted, never shown |
| TokenLadderLaws.BurnedIsExact | client/src/lib.rs:3132-3218 | the credential held for the relay is flagged as burned if and only if it was shown to an admission endpoint |
| TokenLadderLaws.BacksOffIff | client/src/lib.rs:3327-3412 | a connection backs off if and only if there were relays and every dial failed; it is aborted if and only if a shown credential could not be replaced, which counts one failure |
| TokenLadderLaws.SleptIff | client/src/lib.rs:3327-3344 | over every run a destination sleeps if and only if some connection found every relay dead |
| DestByScript.RelaysAre | client/src/lib.rs:3273-3289 | the relays are the ids and addresses of the gateways that have both, in order |
| DestByScript.ShownIff | client/src/lib.rs:3132-3406 | which token is shown to which admission endpoint and to which relay, by the decisions' gateways, the dials and the answers alone |
| DestByScript.ShownInOrder | client/src/lib.rs:3132-3406 | the order of the presentations: first token, second token, relay |
| DestByScript.DirectIff | client/src/lib.rs:3218-3266 | direct if and only if an admission was won whose body names an address and a port first and the dial works, with those values |
| DestByScript.EndsAtRelay | client/src/lib.rs:3406-3449 | how a connection that shows a token at a relay ends, by the write and the acknowledgement |
| DestByScript.RelayedIff | client/src/lib.rs:3299-3449 | relayed through a gateway if and only if a token was shown at its relay and acknowledged, denied if and only if that was a DENY |
| DestByScript.EndsEarlyIff | client/src/lib.rs:2998-3298 | when a connection is refused, has no token or has no gateway |
| DestByScript.FailuresAre | client/src/lib.rs:3327-3440 | the failures counted after each connection |
| DestByScript.BackoffTable | client/src/lib.rs:3332-3334 | the back-off by the failures counted |
| TokenLadderLaws.ServedShowsMinted | client/src/lib.rs:3132-3406 | a connection shows no token more often than the controller minted it |
| TokenLadderLaws.NoTokenTwice | client/src/lib.rs:3132-3406 | if no token is minted twice, none is shown twice, over any number of destinations and connections, in every interleaving, wherever the log is cut off, and for every answer of the world |
| Der.DerLen | client/src/identity.rs:55-66 | a length is appended in its short or long form, cut to sixteen bits |
| Der.ReadTlvOfTlv | client/src/identity.rs:55-73 | the strict reader gives back tag, content and rest if and only if the content is under 65536 bytes |
| Der.TlvOfReadTlv | client/src/identity.rs:55-73 | whatever the strict reader accepts is what the builder writes, so lengths are minimal and encodings unique |
| Der.DerUintBe | client/src/identity.rs:75-87 | the loop builds the INTEGER of the bytes without leading zeros |
| Der.UintKeepsValue | client/src/identity.rs:75-87 | its content is non-negative, minimal and of the same value (section 8.3 of X.690) |
| Der.UintUnique | client/src/identity.rs:75-87 | each number has one such content |
| Der.ShortLenAgreesIff | client/src/tpmtls.rs:95-99 | the second copy's length equals the first's if and only if it is under 256 |
| Der.RawToDer | client/src/tpmtls.rs:82-110 | on every 64-byte signature the second copy builds exactly what the first would |
| Csr.SpkiFromPoint | client/src/identity.rs:90-102 | the key info around a point |
| Csr.BuildTpmCsr | client/src/identity.rs:424-452 | the request embeds the very bytes whose digest was signed; a signing failure is passed on |
| Csr.CsrReadsBackIff | client/src/identity.rs:424-452 | a strict reader with its own tags and object identifiers gets back host name, point, signed bytes and the signature's two numbers if and only if the content is under 65536 bytes |
| Csr.OrdinaryRequestsFit | client/src/identity.rs:424-452 | which holds whenever host name and point are at most 65000 bytes together |
| Calendar.FormulasAgree | client/src/posture_collector.rs:318-327 | the two formulas agree for every year, month and day number |
| Calendar.NextDayIsOneDayLater | client/src/posture_collector.rs:318-327 | the day after any valid date is 86400 seconds later |
| Calendar.CountingAgrees | client/src/posture_collector.rs:692-710 | both formulas number the days as counting them one by one from 1970-01-01 does, forwards and backwards |
| Calendar.EveryDateIsCounted | client/src/posture_collector.rs:318-327 | every valid date is the one that counting its number of days reaches |
| Calendar.StrictlyMonotone | client/src/posture_collector.rs:318-327 | a date is earlier than another if and only if its time is |
| Calendar.ExtraDaysRollOver | client/src/posture_collector.rs:700-707 | days past the end of a month, which the parser accepts, count on into the next |
| Receipts.NewestUpdateReceipt | client/src/posture_collector.rs:662-687 | the largest readable date of an update receipt, or none if there is none |
| Receipts.IsoTextReads | client/src/posture_collector.rs:692-710 | a valid date's own text reads as that date, whatever follows it |
| Receipts.PlainTextReads | client/src/posture_collector.rs:302-313 | the Windows form of the same date reads as the same time |
| Receipts.IsoTextReadIff | client/src/posture_collector.rs:692-710 | any year, month and day of four, two and two digits is read if and only if the month is 1 to 12 and the day 1 to 31 |
| Receipts.IsoReadIff | client/src/posture_collector.rs:692-710 | exactly which texts are read as a date, signs and leading zeros included, and as which time |
| Receipts.ReceiptDateIff | client/src/posture_collector.rs:662-682 | a chunk's date is what stands between the first date tag after the first date key and the next closing tag, if the chunk mentions an update package |
| Receipts.ChunksAre | client/src/posture_collector.rs:664 | the chunks are what stands between the separators |
| Receipts.OneChunk | client/src/posture_collector.rs:664 | a text without the separator is one chunk |
| Receipts.ReceiptsOrderedByDate | client/src/posture_collector.rs:662-687 | receipts are ordered as their dates are, so the newest is the chronologically latest |

## Left out

- Punycode.PunycodeEncode: labels of 2^32 code points or more, whose count does not fit the source's u32 variables.
- Punycode.PunycodeEncode: an overflow of the unchecked additions is one outcome, Overflowed; a debug build panics there and a release build wraps.
- ZoneSync.DefinitiveIff: assumes that threads see each other's stores in order; the source loads and stores the flag with relaxed ordering, which promises less.
- UdpForwarderLaws.RunKeepsInv: each operation is one step; the maps have a lock each, and SplitAcceptLeaks and SplitOpenUnroutes show what falls between them.
- UdpForwarderLaws.AlwaysOwnedIff: the gateway hands out no session id that a live flow is using.
- UdpForwarder.Forwarder.OnFrame: a session's reassembler is kept as its slot table and rebuilt for each call, so the object's identity is not modelled.
- LeaseProtocol.CacheBackedOrCleared: a tick's removals, installs and journal between its lease decision and its heartbeat are one step.
- LeaseProtocol.CacheBackedOrCleared: a call that timed out takes effect within its own step or not at all; in the source the blocking task runs on (client/src/splitdns/channel.rs:42-44) and may take effect during a later step or tick.
- LeaseProtocol.CacheBackedOrCleared: only the client writes the heartbeat, and the clock does not run backwards.
- WindowsWatchdog.Nrpt.RemoveAllTagged: the rule store's calls succeed on Windows; failing and late calls are modelled on macOS.
- WindowsWatchdog.CompanionCleansDead: that the companion gets the mutex before the session takes it is a signal of CompanionMain, not a state of the system over which the runs are.
- WindowsWatchdog.JournalDiverges: what a Windows tick does to the rules is left open, since several rules there may share a namespace.
- TokenLadderLaws.NoTokenTwice: rests on the controller never minting a token twice.
- ReassemblyLaws.DeliveredWhenAllSeen: the fragments are of one size; two sizes are the subject of RecutLaws.
- RecutLaws.TwoCutsDelivered: the slot's byte cap is not reached, which RoomForBothCuts shows of caps of three times the datagram's size; the forwarder's 256 KiB are more than that.
- TokenLadderLaws.SleptIff: the random part of the back-off.
- ResolverFiles.ResolverDir.Add: names containing a slash, and failures to create the directory other than as a failed call.
- Unicode lower-casing, the IPv6 literal parser, the alphabetic test and lossy UTF-8 decoding are parameters; the laws that need more say what they ask of them.
- Sockets, QUIC, TLS, HTTP, JSON and the time-outs around them: their outcomes are parameters.
- NRPT and WMI calls, launchd and Task Scheduler registration, Win32 handles, the retry wrapper's timing.
- SHA-256, base64 and PEM framing, ECDSA, the TPM and at-rest wrapping; the digest and the signature are parameters.
- The last-known decision kept by `serve_dest` for log messages, metrics, events and evidence files.
- The choice of relay carrier, the dead-connection flag's timing, enrolment, service IPC, posture facts other than dates, packaging: shallow branching.
- The pump of each connection's bytes after it is established.
