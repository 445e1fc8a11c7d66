# Fleet-monitoring agent: a verified model

A Dafny model of the stateful algorithms of a switch-fleet monitoring agent, with proofs about every input, every run
and every reachable state. `dafny verify dfyconfig.toml` checks all of it.

| file | what it models |
|---|---|
| `BulkWalk.dfy`, `Oids.dfy` | the GETBULK table walk (section 4.2.3 of RFC 3416): paging, the dotted-text subtree test, the row cap |
| `AlertBatcher.dfy` | the lock-and-timer protocol that coalesces alert emails, as a class and as an interleaved step system |
| `SwitchMonitor.dfy`, `AlertPipeline.dfy`, `MonitorRuns.dfy` | the reachability poll with its failure counter, mute and dedup; all monitors composed with the batcher; one monitor across restarts |
| `Thresholds.dfy` | incremental threshold state against the whole observation history |
| `AgentState.dfy`, `MongoStore.dfy`, `MongoState.dfy` | the shared state, what a restart can lose, the MongoDB backend as a refinement of the snapshot, and the two composed |
| `InterfacePoll.dfy` | utilisation from counter deltas, with baselines that survive a restart |
| `LoginLimiter.dfy`, `TrapLimiter.dfy` | pruned deques and a pruned map against full history |
| `Scheduler.dfy` | daily tasks with a tolerance window, and interval tasks |
| `Fdb.dfy`, `MacSearch.dfy` | MAC table assembly and the edge-port search over a sorted, limited cursor |
| `Backups.dfy` | config files, checksum sidecars and retention on a map-based file system, and their verification |
| `Dicts.dfy`, `Text.dfy` | insertion-ordered dicts, text of numbers and blanks |

Objects whose methods change fields are classes; each method is proved equal to a specification function of the old
state, and the long-run theorems are lemmas about those functions. Clocks are parameters that never run backwards (where a lock orders the calls, in the order of the lock).
Network replies, probe answers, digests, CIDR matching and rounding are oracles: function values or inputs of which only
the stated property is used. Where Python leaves an order open (unordered bulk writes, cursors, `glob`, dict iteration,
equal sort keys) the model takes an arbitrary one, so the results hold for all of them.

What was found where the code and its own comments or expectations differ; the model follows the code:

- The scheduler's header promises that a late tick never skips a task for the whole day (`aruba_agent/scheduler.py:7-9`).
  `Scheduler.GuaranteedExactly` gives the exact condition: gaps between ticks no longer than the part of the tolerance
  window that lies on the date. From 00:01 on that allows 120 s; at 00:00 only half the window is left, and gaps of
  60 s + 2 µs can already skip the day (`Scheduler.SafeGaps`).
- Daily runs are recorded per function object (`id(fn)`), so the same object registered at two times of day runs once a
  day: `Scheduler.CallableExactly` says exactly on which days, for every list of registrations. `main.py` is not
  affected, since it registers bound methods, each of which is an object of its own.
- `_flush` drops a timer from the table without cancelling it, so after a race with `flush_all` a timer may flush before
  the collection window of its email (`aruba_agent/alert_batcher.py:5-8`) has passed. `AlertBatcher.TimelyExactly` gives
  the exact condition, for every positive window: the window is kept in every schedule if and only if `flush_all` is not
  called - and nothing in the repository calls it. Even with it no event is lost (`AlertBatcher.RunSafe`), and only a
  timer that is not its kind's table entry can be early (`AlertBatcher.TableTimerIsTimely`).
- Retention 0 removes nothing, and a negative retention removes the first files, possibly the new one
  (`Backups.RetentionMet`).
- A save followed by a load is not the identity: a switch without a name or host disappears and an empty mode becomes
  "auto" (`AgentState.SaveLoadRoundTrip` is an if-and-only-if).
- Deleting a switch that is down and finding it again makes its next transition DOWN a second time
  (`MonitorRuns.RemovedWhileDown`); `MonitorRuns.AlternatesExactly` shows that nothing else breaks the alternation of
  DOWN and RESTORED, restarts included, except a restart that forgets a switch without a name or host.
- Dedup timestamps and the days of daily runs live in memory only. A restart may therefore repeat an alert inside its
  dedup window, or a daily run inside its tolerance window: these histories count since the last restart.
- A failure threshold below one behaves like one (`SwitchMonitor.PollsAreHistory`).

## Model

| member | source | states |
|---|---|---|
| Oids.SubtreeTest | aruba_agent/snmp.py:656 | the string test on dotted decimals holds exactly when the base's arcs are a prefix of the OID's arcs |
| Oids.SuffixOfArcs | aruba_agent/snmp.py:657 | the sliced suffix is the dotted form of the remaining arcs |
| Oids.SubtreeIsConvex | aruba_agent/snmp.py:655-665 | between a base and an OID below it lie only OIDs below it |
| Oids.BelowIsAfter | aruba_agent/snmp.py:626-628 | everything below a base comes after it in the order of a MIB |
| BulkWalk.WalkColumn | aruba_agent/snmp.py:629-667 | against any agent at all, a column ends within max_rows requests |
| BulkWalk.ReadReply | aruba_agent/snmp.py:642-665 | the loop over a reply's items and cells is the reply specification: errors stop it, in-subtree cells become rows, others only set stop |
| BulkWalk.ReadColumn | aruba_agent/snmp.py:630-667 | the paging loop is the column specification for every agent, start table and error; a raised call leaves no table |
| BulkWalk.SnmpAgent.BulkWalk | aruba_agent/snmp.py:508-678 | for every agent: a raised request ends the call with None and engine_error, nothing else gives None, a reported error never leaves last_error empty, and last_error is one that a request reported; at most bases times max_rows requests |
| BulkWalk.CallRaises | aruba_agent/snmp.py:668-672 | a request that raises makes the whole walk None, with engine_error, and is its last; None comes from nothing else |
| BulkWalk.CallErrors | aruba_agent/snmp.py:649-654 | last_error is set when a request reports an error, never cleared by a later column, and only ever one that was reported |
| BulkWalk.ErrorStops | aruba_agent/snmp.py:649-654 | a reply that begins with an engine or PDU error adds no row, ends its column and names the error |
| BulkWalk.PairsAre | aruba_agent/snmp.py:604-623 | of a reply's cells exactly those whose OID begins with a digit are looked at, in order |
| BulkWalk.ListingIsBlock | aruba_agent/snmp.py:655-665 | in a sorted MIB the subtree is one contiguous block right after the base, so cells behind its end add nothing |
| BulkWalk.BeyondEntry | tests/test_snmp_bulk_walk.py:107-116 | continuing from the k-th entry yields exactly the entries behind it |
| BulkWalk.WalkTable | aruba_agent/snmp.py:632-667 | from any page boundary the walk collects the rows in order, up to the cap rounded up to whole pages |
| BulkWalk.ColumnIsPrefix | aruba_agent/snmp.py:629-667 | against a finite sorted MIB a column is a prefix, in order, of the base's subtree listing |
| BulkWalk.CollectedBounds | aruba_agent/snmp.py:515-516 | that prefix is at least min(size, max_rows), below max_rows + max_repetitions, and whole when the column fits the cap |
| BulkWalk.ColumnRowsDistinct | aruba_agent/snmp.py:657-658 | no two rows of a column share a suffix, so no row overwrites another |
| BulkWalk.WalkIsExact | aruba_agent/snmp.py:508-678 | the call over several (possibly repeated) bases succeeds without error and returns for each exactly its prefix, nothing of a neighbour |
| AlertBatcher.AlertBatcher.Add | aruba_agent/alert_batcher.py:35-48 | queues the event and starts a timer only for a kind without one; with batching disabled hands it back and changes nothing |
| AlertBatcher.AlertBatcher.Flush | aruba_agent/alert_batcher.py:61-66 | pops the kind's entries and its timer entry without cancelling the timer |
| AlertBatcher.AlertBatcher.BeginFlushAll | aruba_agent/alert_batcher.py:50-56 | lists the pending kinds, cancels exactly the table's timers that are still waiting, leaves every other timer and what is pending alone, empties the table |
| AlertBatcher.StepKeeps | aruba_agent/alert_batcher.py:35-66 | every step of every thread keeps the invariant: conservation, single sending, no stranded event |
| AlertBatcher.RunSafe | aruba_agent/alert_batcher.py:35-66 | under every interleaving, popped batches followed by what is pending are the added events in order; no batch is empty or sent twice; every pending event has a live timer due within its window or is on a running flush_all's list |
| AlertBatcher.WaitBound | aruba_agent/alert_batcher.py:42-66 | while no waiting or firing timer is overdue by more than a slack, every pending event is at most the window plus the slack old, or its kind is on a running flush_all's list |
| AlertBatcher.TableTimerIsTimely | aruba_agent/alert_batcher.py:42-66 | in every reachable state a firing timer that is its kind's table entry finds events, the oldest of them a whole window old; only another timer can flush early |
| AlertBatcher.TimelyExactly | aruba_agent/alert_batcher.py:5-8 | every timer flush of every schedule lets the oldest event wait for the whole window if and only if flush_all is never called |
| AlertBatcher.StaleTimerArmed | aruba_agent/alert_batcher.py:50-66 | for every window, a reachable state with an armed timer that no table entry knows |
| AlertBatcher.StaleTimerFlushesEarly | aruba_agent/alert_batcher.py:61-66 | for every window, a run in which it may flush an event at the very moment of its add |
| Thresholds.HostIn | aruba_agent/thresholds.py:36-46 | true exactly when some pattern equals the name or host or is a network containing the host |
| Thresholds.MatchScope | aruba_agent/thresholds.py:49-56 | a host is in scope iff no pattern excludes it and, unless none is given, one includes it: exclusion wins |
| Thresholds.CallObsIs | aruba_agent/thresholds.py:72-96 | a call looks at exactly the pairs of an enabled, well-formed rule and a sample of its metric that is in scope and has a value |
| Thresholds.ObservationMeans | aruba_agent/thresholds.py:72-97 | the observations of a call, exactly: an enabled rule with a known operator, a number and a duration, a sample of its metric in scope with a value; names, values and severity of both, and a breach iff the value is above, at or above, below, or at or below the number, as the operator says |
| Thresholds.RuleObsSum | aruba_agent/thresholds.py:77-96 | the samples of a rule are looked at in order |
| Thresholds.GroupByMetric | aruba_agent/thresholds.py:68-70 | each group holds the samples of its metric in order |
| Thresholds.ThresholdEvaluator.Observe | aruba_agent/thresholds.py:96-109 | one sample in scope moves state and emits events as the step functions say |
| Thresholds.ThresholdEvaluator.Evaluate | aruba_agent/thresholds.py:65-110 | a call replays its observations, rules in order and samples in order, over the stored state and returns what they emit |
| Thresholds.ThresholdEvaluator.ActiveAlerts | aruba_agent/thresholds.py:112-120 | lists exactly the alerted entries, each key once |
| Thresholds.CallsReplayHistory | aruba_agent/thresholds.py:65-110 | any sequence of calls leaves the state, and returns the events, of one replay of the whole history |
| Thresholds.TrailingRunIs | aruba_agent/thresholds.py:97-107 | the trailing run is exactly the key's observations since its last non-breach |
| Thresholds.StateIsHistory | aruba_agent/thresholds.py:96-109 | a key has an entry iff its trailing run is non-empty; since is the start of the run; alerted iff some observation of the run came at least its rule's duration after since |
| Thresholds.EventsAreHistory | aruba_agent/thresholds.py:103-109 | a fire is emitted exactly by the first sustained observation of a run, a clear exactly by the end of a sustained run, at most one of them, with the observation's key, host, value, severity and time |
| Thresholds.FiresBeyond | aruba_agent/thresholds.py:65-110 | from rule and samples to events: the first call with a rule of duration 0 fires for a device and instance iff their sample of the metric is in scope and beyond the number |
| Thresholds.FiresAndClearsAlternate | aruba_agent/thresholds.py:103-120 | for every history and key, fires and clears alternate starting with a fire, and the key is active iff the last fire is unmatched |
| AgentState.LoadAfterSave | aruba_agent/state.py:153-260 | a reload drops switches without name or host, turns an empty mode into auto, and keeps everything else in order |
| AgentState.SaveLoadRoundTrip | aruba_agent/state.py:153-260 | memory is restored completely if and only if every switch has a name, a host and a mode |
| AgentState.EntryMeans | aruba_agent/state.py:168-193 | what a snapshot entry is read as, field by field: absent, null and empty texts, the default of every absent field, and no switch without a name or a host |
| AgentState.LoadedLast | aruba_agent/state.py:168-193 | of several entries with a name the last readable one counts, and a name without one is not loaded |
| AgentState.LoadedDefaults | aruba_agent/state.py:158-213 | an absent snapshot is an empty state, and an absent part of one is an empty part |
| AgentState.SaveSyncs | aruba_agent/state.py:222-260 | after a save a reload has memory's durable state, which counts the switches that have a name and a host |
| AgentState.ReloadLosesNothing | aruba_agent/state.py:153-260 | between any two calls a reload gives all of memory's switches back, filtered by nothing, if and only if each of them has a name and a host |
| AgentState.SameCore | aruba_agent/state.py:153-260 | memories with the same durable state agree on the core of every switch that can be stored, found under its name |
| AgentState.EditedKeeps | aruba_agent/state.py:264-481 | a call keeps a switch's name and host, saves whenever it changes its core, and flips is_down only as an update of is_down |
| AgentState.CalledSound | aruba_agent/state.py:264-506 | every call, removal and registration included, keeps that a reload gives the durable state of memory; derived from which calls save |
| AgentState.SavesWhole | aruba_agent/state.py:222-260 | a call saves all of memory as it leaves it or leaves the store alone |
| AgentState.StoreIsSnapshot | aruba_agent/state.py:222-506 | after any sequence of calls the store holds the snapshot of some memory, perhaps an older one, with the durable state of today's |
| AgentState.LagKeepsCores | aruba_agent/state.py:462-481 | replacing a switch by one with the same core leaves the durable state alone |
| AgentState.UpdatedApplies | aruba_agent/state.py:462-481 | an update replaces just the fields it gives |
| AgentState.AgentState.constructor | aruba_agent/state.py:119-220 | memory starts as the loaded snapshot |
| AgentState.AgentState.RegisterSwitch | aruba_agent/state.py:264-285 | adds a switch of which nothing is known - up, unmuted, managed, SNMP healthy - at the end, or sets the mode of a known one; saves exactly when something changed |
| AgentState.AgentState.PinVendor | aruba_agent/state.py:315-323 | sets the vendor of a known switch only, and saves exactly when it changed |
| AgentState.AgentState.SetSwitchProfile | aruba_agent/state.py:325-340 | sets the profile of a known switch only, and saves exactly then |
| AgentState.AgentState.SetOsVersion | aruba_agent/state.py:342-359 | true, changed and saved exactly when the version differs |
| AgentState.AgentState.SetSnmpHealth | aruba_agent/state.py:361-373 | true, changed and saved exactly on a flip |
| AgentState.AgentState.SetAlertMute | aruba_agent/state.py:376-389 | sets or clears the mute and its end together, and saves exactly for a known switch |
| AgentState.AgentState.AlertsSuppressed | aruba_agent/state.py:391-403 | true exactly while muted without an end or before it; an expired mute is cleared and saved, nothing else changes |
| AgentState.AgentState.SetUnmanaged | aruba_agent/state.py:405-414 | pauses or resumes a known switch, and saves exactly then |
| AgentState.AgentState.RemoveSwitch | aruba_agent/state.py:416-431 | removes exactly that switch, and saves exactly then |
| AgentState.AgentState.UpdateSwitch | aruba_agent/state.py:462-481 | changes exactly the given fields; it saves exactly on an is_down flip, and yet a reload gives the durable state |
| AgentState.AgentState.OverwriteMode | aruba_agent/web/app.py:1177-1180 | the web UI's unsaved mode write touches neither the store nor anything durable |
| AgentState.AgentState.SetBackupResult | aruba_agent/state.py:485-493 | replaces the backup result and saves |
| AgentState.AgentState.SetDeviceInventory | aruba_agent/state.py:497-501 | replaces the inventory and its run time and saves |
| AgentState.AgentState.SetArpLastRun | aruba_agent/state.py:503-506 | records one location's run time and saves |
| MongoStore.MongoStore.Save | aruba_agent/store/mongo_store.py:119-143 | from any prior contents and for every order of the bulk operations, exactly the named switches remain, each as one of its documents, and the runtime keys are the payload's |
| MongoStore.MongoStore.Load | aruba_agent/store/mongo_store.py:97-117 | nothing stored gives None, otherwise every document once in some order and the runtime keys |
| MongoStore.MongoStore.SaveThenLoad | aruba_agent/store/mongo_store.py:97-143 | for distinct names, a save then a load yields exactly the payload's named switches and runtime keys, removed devices gone |
| MongoStore.DistinctDocs | aruba_agent/store/mongo_store.py:125-134 | with distinct names the collection is the payload as a map by name, so the order of the operations cannot show |
| MongoState.MongoRestores | aruba_agent/store/mongo_store.py:97-143 | the agent state saved to MongoDB and loaded again in any order of documents has under every name what the plain snapshot restores, and everything else unchanged |
| MongoState.SaveAndRestart | aruba_agent/store/mongo_store.py:97-143 | the same for the store with any prior contents |
| MongoState.CallsSurvive | aruba_agent/store/mongo_store.py:97-143 | after any sequence of calls since a first save, whatever order the documents come back in, a restart gives every storable switch its core under its name and everything else as in memory |
| SwitchMonitor.SwitchMonitor.Poll | aruba_agent/monitors/switch_poller.py:269-354 | one poll, from probe answers and mode to the switch it leaves: up iff ping answers (icmp), SNMP or else ping and SSH answer (SNMP modes), REST answers (otherwise); failures, is_down, last_seen, last_event and the SNMP health of each case; skipped when unmanaged or unknown; exactly a transition's alert with its verdict |
| SwitchMonitor.PollMeans | aruba_agent/monitors/switch_poller.py:245-340 | what a poll leaves of each field of a managed switch, and that SNMP counts as unhealthy exactly in an SNMP mode when ping and SSH answer without it |
| SwitchMonitor.SwitchMonitor.MaybeSendAlert | aruba_agent/monitors/switch_poller.py:467-512 | exactly one of muted, suppressed, handed to the batcher; suppression also refreshes the window |
| SwitchMonitor.Reachability | aruba_agent/monitors/switch_poller.py:245-267 | up exactly when SNMP answers or both ping and SSH do; SNMP counts as unhealthy exactly for a switch that is up without it |
| SwitchMonitor.UpRecorded | aruba_agent/monitors/switch_poller.py:291-314 | the calls a successful poll makes leave exactly its record, in the store exactly when SNMP health or is_down changed |
| SwitchMonitor.FailureRecorded | aruba_agent/monitors/switch_poller.py:328-340 | so do the calls of a failed poll |
| SwitchMonitor.PollsAreHistory | aruba_agent/monitors/switch_poller.py:269-354 | from a fresh switch, failures is the length of the trailing run of failed polls, down iff that run reaches the threshold, DOWN and RESTORED strictly alternate |
| MonitorRuns.RestartKeepsDown | aruba_agent/state.py:153-260 | in any state that the calls can lead to, a restart keeps every storable switch registered and down or up as it was, and brings back no other |
| MonitorRuns.TransitionsAlternate | aruba_agent/monitors/switch_poller.py:269-354 | over every run of polls, calls of the agent state (removal included) and restarts in which no step takes the switch away while it is down, DOWN and RESTORED strictly alternate and the switch is down iff the last one was DOWN |
| MonitorRuns.AlternatesExactly | aruba_agent/state.py:416-431 | the condition is exact: from any such state a run goes on alternating if and only if no step of it took the switch away while it was down |
| MonitorRuns.DownAgain | aruba_agent/state.py:416-431 | whenever the switch is down it can be deleted, found again and fail again, and the next transition is DOWN |
| MonitorRuns.RemovedWhileDown | aruba_agent/state.py:416-431 | so for every threshold a run sees DOWN, DOWN |
| MonitorRuns.PollSound | aruba_agent/monitors/switch_poller.py:269-354 | a poll leaves a store that a reload restores memory from, its transition is exactly the flip of is_down, and it never takes the switch away |
| SwitchMonitor.LastUnmuted | aruba_agent/monitors/switch_poller.py:488-505 | the kept timestamp is that of the kind's last unmuted transition, suppressed or not |
| SwitchMonitor.VerdictsAreHistory | aruba_agent/monitors/switch_poller.py:483-512 | since the monitor was created, a transition is handed off iff unmuted and, for a positive window, no unmuted one of its kind came less than the window before |
| AlertPipeline.StepKeeps | aruba_agent/monitors/switch_poller.py:507-512 | decisions of all monitors and all batcher steps keep: the batcher's log is the hand-offs |
| AlertPipeline.HandOffsDelivered | aruba_agent/alert_batcher.py:35-66 | under every interleaving each kind's hand-offs, in order, are its popped batches followed by what is pending, and each popped batch is sent once |
| AlertPipeline.HandOffsAreHistory | aruba_agent/monitors/switch_poller.py:483-512 | in every run of the whole fleet a transition of a switch is handed off iff unmuted and, for a positive dedup window, no unmuted one of the same switch and kind came less than the window before |
| InterfacePoll.UtilInRange | aruba_agent/interfaces.py:90-104 | every utilisation lies in 0..100, whatever the counters do |
| InterfacePoll.UtilIsShare | aruba_agent/interfaces.py:90-104 | a utilisation exists exactly for a counter that did not go down, elapsed time and a speed, and is the counted bits' share of the line's capacity, capped at 100 |
| InterfacePoll.DecodeEncode | aruba_agent/store/mongo_store.py:206-233 | counters survive the integer-to-string-to-integer encoding |
| InterfacePoll.InterfacePollTask.LoadPrev | aruba_agent/tasks/interface_poll.py:145-165 | a cold device gets, and caches, exactly what the store's counters decode to |
| InterfacePoll.SortRowsIs | aruba_agent/tasks/interface_poll.py:136 | the shown table has the polled rows, each as often, numbers before texts and ascending |
| InterfacePoll.ShownInOrder | aruba_agent/tasks/interface_poll.py:237-241 | of any two rows shown the upper one has no greater index: numbers by value, before all other texts, and those as words |
| InterfacePoll.InterfacePollTask.PollOne | aruba_agent/tasks/interface_poll.py:105-141 | baselines, table, recorded metrics and stored counters after a poll; a failed walk changes nothing, and a poll touches no other device |
| InterfacePoll.AlikeStep | aruba_agent/tasks/interface_poll.py:115-141 | worlds that differ only in what is cached in memory stay alike through a poll and show the same table |
| InterfacePoll.BaselinesAreLastPoll | aruba_agent/tasks/interface_poll.py:115-118 | whatever restarts lie between, a poll works from the counters of the device's last successful poll |
| InterfacePoll.BaselinesSinceRestart | aruba_agent/tasks/interface_poll.py:115-118 | without kept counters it works from those of the last successful poll since the last restart |
| InterfacePoll.UtilisationIsDelta | aruba_agent/tasks/interface_poll.py:115-141 | over any run of polls and restarts, with kept counters or without, the table is in index order and shows for each interface its own counters' change since the device's last successful poll that is remembered, or nothing when that poll did not exist or lacked the interface |
| InterfacePoll.MetricsAreDeltas | aruba_agent/tasks/interface_poll.py:127-135 | over any such run the metrics that a successful poll appends are exactly, and each once: for every polled interface the inbound counter's change as in_util and the outbound one's as out_util, when recording is on and the value exists and is positive or zeros are recorded |
| InterfacePoll.RestartsInvisible | aruba_agent/tasks/interface_poll.py:115-175 | with a counter-keeping store, any run of polls and restarts shows the tables and records the metrics of the run with its restarts erased |
| InterfacePoll.OutputsInRange | aruba_agent/interfaces.py:90-104 | in every run, restarts or not, all utilisations shown lie in 0..100 |
| InterfacePoll.RestartsInvisibleExactly | aruba_agent/tasks/interface_poll.py:145-151 | restarts are invisible to every run of polls and restarts if and only if the store keeps counters |
| InterfacePoll.RestartShows | aruba_agent/tasks/interface_poll.py:145-151 | without them, from any state, a restart between two polls of a device changes what is shown as soon as the polls share one interface whose inbound utilisation can be computed |
| InterfacePoll.RestartVisibleWithoutCounters | aruba_agent/tasks/interface_poll.py:145-151 | without them the first poll after a restart shows no utilisation at all |
| LoginLimiter.Prune | aruba_agent/web/app.py:124-127 | what is left counts exactly as the deque does from the cutoff on |
| LoginLimiter.PruneKeeps | aruba_agent/web/app.py:129-136 | pruning a key is unobservable and its new length is the full-history count |
| LoginLimiter.AppendKeeps | aruba_agent/web/app.py:138-142 | appending keeps the agreement of all deques with the full history |
| LoginLimiter.ClearKeeps | aruba_agent/web/app.py:144-149 | so does a success, which forgets its key |
| LoginLimiter.InWindowIs | aruba_agent/web/app.py:124-149 | the count is the number of failures of the address (of the user) that are inside the window and have had no success of that address (user) since |
| LoginLimiter.LoginRateLimiter.IsLocked | aruba_agent/web/app.py:129-136 | locked iff the failures of the address, or those of the user, that are inside the window and not followed by its success number at least the maximum |
| LoginLimiter.LoginRateLimiter.RecordFailure | aruba_agent/web/app.py:138-142 | the failure joins the history of both keys |
| LoginLimiter.LoginRateLimiter.RecordSuccess | aruba_agent/web/app.py:144-149 | the success joins the history of both keys |
| TrapLimiter.TrapReceiver.RateOk | aruba_agent/trap_receiver.py:125-139 | the answer is that of a map that is never pruned |
| TrapLimiter.TrapReceiver.HandleTrap | aruba_agent/trap_receiver.py:101-112 | an unwanted trap neither alerts nor counts |
| TrapLimiter.AcceptedIsHistory | aruba_agent/trap_receiver.py:130-134 | an email goes out iff every earlier email of its (switch, trap) is at least the window ago, the first one once the clock has reached the window |
| TrapLimiter.EmailsApart | aruba_agent/trap_receiver.py:125-134 | accepted emails of one (switch, trap) are at least the window apart |
| TrapLimiter.EmailsInSpan | aruba_agent/trap_receiver.py:125-134 | a span of length L holds at most floor(L / W) + 1 of them |
| Scheduler.Scheduler.AddInterval | aruba_agent/scheduler.py:37-44 | exactly when the callable is due from then on: after the interval, or with run_at_start at every clock reading past the length of the interval; at registration itself iff run_at_start; no other callable is affected |
| Scheduler.Scheduler.Tick | aruba_agent/scheduler.py:46-74 | which daily and interval callables start, and both tables after the tick |
| Scheduler.TickExactly | aruba_agent/scheduler.py:49-64 | for every task list a tick starts a callable exactly once if one of its registrations is due and it has not run that day, otherwise not at all, and records just that |
| Scheduler.StartsAreDailyRun | aruba_agent/scheduler.py:49-64 | over any run of ticks each callable starts as if it were alone, whatever else is registered |
| Scheduler.CallableExactly | aruba_agent/scheduler.py:49-64 | since the scheduler was created, one function object starts exactly once on each day with a tick inside the window of at least one of its registrations, and on no other day |
| Scheduler.SharedCallableStarves | aruba_agent/scheduler.py:49-64 | of any two times of day of one function object, both ticked at exactly, only one run comes out |
| Scheduler.OncePerDay | aruba_agent/scheduler.py:49-64 | over any run of ticks, firings fall on strictly increasing days |
| Scheduler.FiresWhenDue | aruba_agent/scheduler.py:49-64 | it fires on exactly the days on which some tick is inside the window of some registration |
| Scheduler.GuaranteedExactly | aruba_agent/scheduler.py:46-64 | firing on a spanned day is guaranteed iff tick gaps are at most the width of the window on that date |
| Scheduler.SafeGaps | aruba_agent/scheduler.py:46-64 | 120 s is safe from 00:01 on; at 00:00 60 s is and 60 s + 2 µs is not |
| Scheduler.RunsApart | aruba_agent/scheduler.py:66-74 | whenever the last run was, consecutive interval runs are at least I and less than I + G apart, the first at least I after it, and after every tick less than I has passed since the last run: no catch-up bursts |
| Scheduler.RunsAreIntervalRun | aruba_agent/scheduler.py:66-74 | over any run of ticks each interval callable runs as if it were alone |
| Scheduler.FirstRun | aruba_agent/scheduler.py:37-44 | the first run is at the first tick when the interval has passed by then, as with run_at_start, and less than I + G after the last run when the ticks begin within a gap of it |
| Scheduler.RunsInSpan | aruba_agent/scheduler.py:66-74 | from the first run to the last tick, with k further runs over a span S, k * I <= S < k * (I + G) + I |
| Scheduler.RunsSinceLast | aruba_agent/scheduler.py:66-74 | the same bound counted from the registration, for a task that starts waiting |
| Scheduler.RunsInAnySpan | aruba_agent/scheduler.py:66-74 | any span [a, b] with a run on either side holds a number m of runs with (m - 1) * I <= b - a < (m + 1) * (I + G) |
| Fdb.NormalizeFormat | aruba_agent/fdb.py:43-57 | normalising a canonical address, formatted or not, gives it back |
| Fdb.NormalizedIsCanonical | aruba_agent/fdb.py:43-49 | whatever is normalised is 12 lower-case hex digits |
| Fdb.NormalizeExactly | aruba_agent/fdb.py:43-49 | a text is normalised to m iff it spells the 12 digits of m, in either case and with any separators |
| Fdb.DecimalsAreCanonical | aruba_agent/fdb.py:60-68 | every address taken from a row index is canonical, whatever numbers it holds |
| Fdb.MacOfReads | aruba_agent/fdb.py:60-68 | the text of octets, read two hex digits at a time, the high one first, is those octets |
| Fdb.HexOctetsRead | aruba_agent/fdb.py:60-68 | decimal parts become an address iff all are numbers, and it reads back as the numbers modulo 256 |
| Fdb.ParseWalkedSuffix | aruba_agent/fdb.py:60-89 | the dotted index of a VLAN and six octets parses back to exactly them |
| Fdb.WalkedCell | aruba_agent/fdb.py:109-131 | a walked cell of port 0 is not learned, any other is learned with its VLAN and address on the port's ifIndex, the port itself when unmapped |
| Fdb.PortsAre | aruba_agent/fdb.py:101-107 | a bridge port, blanks aside, is mapped exactly when some entry gives a number for it, and to the number of the last such entry |
| Fdb.PortBlanks | aruba_agent/fdb.py:109-113 | blanks around a port change nothing |
| Fdb.ResolvesExactly | aruba_agent/fdb.py:101-113 | a bridge port is on the interface that the last usable entry gives it, else on its own number; blank and 0 are on none |
| Fdb.WalkedSays | aruba_agent/fdb.py:71-131 | a walked cell of a VLAN, six octets and a port says exactly that, and nothing for port 0 |
| Fdb.RawRowsAre | aruba_agent/fdb.py:114-131 | the collected rows are exactly what the cells are learned as |
| Fdb.DedupKeepsFirsts | aruba_agent/fdb.py:133-144 | each (mac, ifindex) is kept once, as its first row and so with the first VLAN seen |
| Fdb.CountsStep | aruba_agent/fdb.py:138-140 | adding a row keeps, for every interface, set size equal to number of kept rows |
| Fdb.Deduplicate | aruba_agent/fdb.py:133-144 | the loop yields those first rows and the per-interface address sets |
| Fdb.AssembleFdb | aruba_agent/fdb.py:92-157 | from the Q-BRIDGE table when it has rows, else from the bridge table: every address that a cell says is on an interface has its record, every record is what some cell is the first to say, with that cell's VLAN and an address that reads back as its octets; none twice; the name and the printed address of each; port_mac_count is the number of records on the same interface |
| MacSearch.FdbStore.SaveFdb | aruba_agent/store/mongo_store.py:247-268 | the device's rows are exactly the records in order, and every other device keeps its rows in order |
| MacSearch.FdbStore.SearchFdb | aruba_agent/store/mongo_store.py:270-284 | distinct matching rows, ascending; what the limit cuts off is nowhere smaller, and nothing is cut off below the limit |
| MacSearch.EdgeRowIsEdge | aruba_agent/tasks/l2_discovery.py:127-134 | each row of the edge search is minimal among all the device's stored rows, in spite of the truncation |
| MacSearch.EveryDeviceShown | aruba_agent/tasks/l2_discovery.py:124-134 | while the limit covers the matching rows, every device with the address is in the answer |
| MacSearch.EdgeAnswer | aruba_agent/tasks/l2_discovery.py:118-134 | one row per device, ascending, at most the limit, each minimal, complete below the limit |
| MacSearch.WalkedIsFound | aruba_agent/tasks/l2_discovery.py:118-134 | from the walk to the answer: an address that a cell says is on an interface is found by every spelling of its octets, on that device and interface, and the edge search names the device while the limit covers the matches |
| MacSearch.Search | aruba_agent/tasks/l2_discovery.py:118-134 | the method: nothing for a malformed address, the cursor's rows, or the edge answer |
| Backups.SidecarApart | aruba_agent/tasks/backup.py:133-136 | a sidecar never matches a backup pattern and belongs to one file only |
| Backups.TargetIs | aruba_agent/tasks/backup.py:253-307 | a backup goes to its host's directory under host, time stamp and an extension that says whether it is encrypted |
| Backups.TargetsApart | aruba_agent/tasks/backup.py:253-307 | two backups get the same file iff host, time stamp and kind are the same |
| Backups.BackupTask.Cleanup | aruba_agent/tasks/backup.py:126-151 | over the host's backups oldest first, exactly the slice before the last `retention` is removed with its sidecars |
| Backups.BackupTask.Run | aruba_agent/tasks/backup.py:309-321 | the loop of writes and cleanups is a run of the step function |
| Backups.BackupTask.Verify | aruba_agent/tasks/backup.py:379-445 | the counts are the numbers of files that match and do not match, and the list is exactly the latter |
| Backups.CleanupKeepsTail | aruba_agent/tasks/backup.py:126-151 | over any file system exactly the tail of the order is left; removed files take their sidecars along, kept ones keep theirs, contents never change |
| Backups.RemovedPrecedeKept | aruba_agent/tasks/backup.py:137-138 | every removed file is at most as recent as every kept one |
| Backups.RetentionMet | aruba_agent/tasks/backup.py:126-151 | a backup leaves at most `retention` files iff retention is at least 1; 0 removes nothing, a negative one up to everything |
| Backups.OtherHosts | aruba_agent/tasks/backup.py:126-151 | a backup of one host leaves every other host's backups alone |
| Backups.RetentionHolds | aruba_agent/tasks/backup.py:309-321 | after any sequence of backups every host backed up has at most `retention` files |
| Backups.NewestKept | aruba_agent/tasks/backup.py:309-321 | the new backup survives its own cleanup when it is its host's newest file |
| Backups.NewestSurvive | aruba_agent/tasks/backup.py:309-321 | from an empty directory and with strictly increasing write times, after any sequence of backups a host's surviving files are exactly its last min(retention, k) of the k files ever written, by last write |
| Backups.RunsStayPaired | aruba_agent/tasks/backup.py:309-321 | whatever is backed up and whatever cannot be deleted, every sidecar beside its file records its digest |
| Backups.RunsStayComplete | aruba_agent/tasks/backup.py:309-321 | files and sidecars come and go together |
| Backups.SidecarReads | aruba_agent/tasks/backup.py:316-319 | a written sidecar reads back as its digest |
| Backups.VerdictExactly | aruba_agent/tasks/backup.py:406-441 | a backup is ok iff the first word of its sidecar is the digest of its bytes in either case, bad when it differs or there is no word, missing iff there is no sidecar |
| Backups.PairedVerifies | aruba_agent/tasks/backup.py:379-445 | with paired sidecars no file is bad, and each one with a sidecar is ok |
| Backups.BitRotFound | aruba_agent/tasks/backup.py:421-436 | a changed file is reported bad exactly when its digest changed, and no other verdict changes |
| Backups.BackupsVerify | aruba_agent/tasks/backup.py:309-445 | from an empty directory, after any sequence of backups every backup verifies |

## Left out

- BulkWalk.ReadReply: pysnmp's reply shapes are taken as already flattened (rows or flat lists, items that are not 4-tuples are Skipped), and value formatting as done.
- BulkWalk.WalkIsExact: the base OID's own instance is not in the listing, because a GETBULK starts strictly after its OID; end-of-MIB markers are not modelled, and an empty base OID is excluded.
- Credentials, profile selection and the SNMPv3 context of a walk; `last_detail` texts.
- AlertBatcher.WaitBound: supposes that timers are overdue by at most a stated slack, and gives no bound for events that a running flush_all has taken over; the code promises neither.
- Email subjects and bodies are opaque, and a send never fails.
- SwitchMonitor.SwitchMonitor.Poll: vendor, hostname and OS-version resolution after a healthy poll, the monitor without a batcher, jitter, and the several clock readings of one poll, which are taken as one.
- AgentState.AgentState.UpdateSwitch: keyword updates other than the ones its callers pass. In `MonitorRuns` only the poll passes is_down, as in the repository (`aruba_agent/monitors/switch_poller.py:314` and `:340`).
- AgentState.LoadAfterSave: datetimes are integers, so ISO text is taken as exact; malformed snapshots (with which the code starts empty) and failing saves are not modelled.
- The read-only getters and `to_dict` of the agent state, which only look fields up.
- MongoStore.MongoStore.Save: connection errors, which the code logs and swallows, and the difference between a missing and an empty name, which the code treats alike.
- InterfacePoll.UtilInRange: arithmetic is over reals; rounding is any monotone function that fixes 0 and 100.
- InterfacePoll.InterfacePollTask.PollOne: the choice of eligible switches, the guard that lets one sweep run at a time, the table assembly from columns, and errors of the store.
- Thresholds.HostIn: CIDR membership is an oracle; splitting of comma- and blank-separated scopes is taken as done.
- LoginLimiter.LoginRateLimiter.IsLocked: the clock is read before the lock is taken, so two threads could append out of order; the model takes clock readings as nondecreasing in the order in which calls get the lock. The same holds of TrapLimiter.TrapReceiver.RateOk.
- TrapLimiter.TrapReceiver.HandleTrap: classification, storing and summarising of a trap; whether the policy wants it is an input.
- Scheduler.Scheduler.Tick: parsing of HH:MM is taken as done (an unparsable one is None), time zones and daylight saving do not exist, and the callables' own threads are not modelled.
- Fdb.AssembleFdb: numbers in Python's other spellings (a plus sign, underscores, non-ASCII digits) and non-ASCII blanks.
- MacSearch.FdbStore.SearchFdb: the other columns of a row, and a single batch (a negative limit) that the server cuts off at its message size.
- Backups.BackupTask.Cleanup: host names with glob characters. Files that cannot be deleted are modelled; the results on counts assume there are none.
- Backups.BackupTask.Verify: an unreadable file and a sidecar that is not ASCII; symbolic links.
- Backups.BackupTask.Run: downloading, encrypting (the bytes to be written are an input) and the report of a run.
- The JSON-file stores, vendor drivers, LLDP tables, web routes, authentication and configuration files.
