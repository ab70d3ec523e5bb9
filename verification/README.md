# SSHFlow connection manager: a verified model

The SSHFlow daemon is a bounded cache of OpenSSH control masters. The CLI asks it
for a connection to a destination; the daemon reuses a live master, drops a dead
one, evicts the least recently used one when `maxConnections` is reached, starts a
new one, or asks the CLI to start one interactively and hand it over. A health task
revives or drops dead masters, and a metrics store counts what happens.

The model has these parts.

- `Decimal`, `Splitting`, `Destination`: destination texts, `HostTarget` with
  `parse`, `key` and `display`, and a grammar of destination texts that `parse` is
  proved to read.
- `Metrics`, `MetricsTheorems`, `Restarts`, `Ranking`, `Listing`, `Duration`: the store as a
  class over its four fields and its file, proved against functions on its contents, and
  those functions against a replay of the full log, with the closed form of the handshake
  baseline, and with restarts and failing writes.
- `Connections`, `Recency`: the connection table as a class, and its timestamps
  against a move-to-front list.
- `Daemon`: `ensure_connection`, `evict_lru`, the state-changing requests and the
  health pass as methods of one class, proved against functions on the daemon's
  state. `Ledger` says what they reply, leave, announce and record; `Lifecycle`, `Health`
  and `ExactLru` prove what runs of them keep.
- `Interleaving`, `InterleavingTheorems`, `InterleavingRuns`: the same protocol with
  one access to the table per step, any number of sessions, the health task and close
  requests interleaved, and exactly when the limit is kept. `Uninterrupted` ties the
  steps to the whole operations. `Orphans` says exactly when a live master is lost,
  `OrphanRaces` shows runs that lose one, and `SocketLocks` a lock that would prevent it.

What `ssh` answers, the clock, the iteration order of the hash map, the choice among
equally old entries and the outcome of file writes are inputs of the operations.
Control socket paths are an unknown function of the key. `history` holds the events
dispatched to plugins and, as marks of the model, the evictions and stale drops for
which the program dispatches none; `live` is the set of control sockets on which a
master started during the run still answers.

Where the code and its comments differ the model follows the code:

- `connection_manager.rs:129-133` and `:153-156` describe callers that stop a master
  and then remove its entry; `evict_lru` and `CloseConnection` remove first.
- The `maxConnections` limit is checked before the start of a master and not at its
  insertion, so it is kept exactly with one session at a time (`LimitKeptIff`);
  `CapacityBound` and `BoundAttained` say by how much more sessions exceed it.
- A probe can be out of date when its answer is acted upon, and the outcomes of
  `stop_master` and of the CLI's registration are ignored, so interleaved steps can lose
  a live master; `OrphanFreeIff` says exactly when.
- A limit of 0 behaves like a limit of 1.
- `parse` accepts `+22` as a port after a bracketed host, as Rust's `parse::<u16>`
  does, and ignores text after the closing bracket that does not start with `:`.

## Model

| member | source | states |
|---|---|---|
| Decimal.RenderRoundTrip | crates/core/src/lib.rs:135 | decimal text of any number reads back as that number |
| Decimal.ParseRenderedU16 | crates/core/src/lib.rs:91-93 | every `u16` printed in decimal is accepted by `parse::<u16>` with its own value |
| Decimal.RenderIsShortest | crates/core/src/lib.rs:135 | of all numerals of a number the printed one is the one without a superfluous leading zero |
| Splitting.SplitOnce | crates/core/src/lib.rs:69 | cuts at the first separator: nothing before the cut contains it, and the pieces rebuild the text; fails only without a separator |
| Splitting.RSplitOnce | crates/core/src/lib.rs:107 | cuts at the last separator, with the same guarantees |
| Splitting.SplitOnceUnique | crates/core/src/lib.rs:69-80 | a text has one cut at its first separator, so user and rest are determined |
| Splitting.RSplitOnceUnique | crates/core/src/lib.rs:107-115 | a text has one cut at its last separator, so host and port are determined |
| DestinationTheorems.ParseReadsGrammar | crates/core/src/lib.rs:54-126 | `parse` accepts a text as a target exactly when the text is a spelling of that target in a declarative grammar (user rules, plain or bracketed host, port numerals, ignored bracket tail) |
| DestinationTheorems.ParseRejectsIff | crates/core/src/lib.rs:54-126 | `parse` rejects a text with a given error exactly for the reason that error names: empty text, leading dash, empty user, nothing after the user, unterminated bracket, bad port, dash-led host |
| DestinationTheorems.DisplayParseRoundTrip | crates/core/src/lib.rs:149-156 | `parse(display(t)) == t` if and only if `t` is canonical: user absent or non-empty, without `@`, not dash-led; host non-empty, not led by `[` or `-`; no `@` in the host without a user; no `host:digits` shape without a port |
| DestinationTheorems.DisplayedAsTyped | crates/core/src/lib.rs:139-156 | an accepted text with an unbracketed host is displayed as it was typed if and only if its port digits, if any, have no superfluous leading zero |
| DestinationTheorems.UnbracketedIsCanonical | crates/core/src/lib.rs:106-116 | every accepted text whose host part is not bracketed yields a canonical target, so parse, display, parse is stable on it |
| DestinationTheorems.BracketTextParses | crates/core/src/lib.rs:87-98 | the text `[user@][host][:port]` with literal brackets reads back as its target if and only if the target is bracketable: valid user, host (possibly empty) without `]` and not dash-led, no `@` in the host without a user |
| DestinationTheorems.ImageOfParse | crates/core/src/lib.rs:54-126 | the targets some text denotes are exactly the canonical and the bracketable ones |
| DestinationTheorems.Ipv6DisplayIsNotReadBack | crates/core/src/lib.rs:149-156 | `[::1]` is accepted, but its display `::1` reads as host `:` port 1 |
| DestinationTheorems.NoOptionInjection | crates/ssh/src/lib.rs:51-56 | no accepted text gives `ssh` a dash-led destination argument |
| DestinationTheorems.ArgumentIsDisplayWithoutPort | crates/ssh/src/lib.rs:51-56 | the destination argument and the port, which travels separately, make up the displayed text |
| DestinationTheorems.KeyIsDisplayCompleted | crates/core/src/lib.rs:130-137 | the key is the displayed text with `@` put before an absent user and `:` after an absent port |
| DestinationTheorems.KeyInjective | crates/core/src/lib.rs:130-137 | two accepted destinations have the same key only if they are the same destination |
| DestinationTheorems.KeyFields | crates/core/src/lib.rs:130-137 | user, host and port can be read back from the key of any target with a valid user |
| DestinationTheorems.KeyEqualIff | crates/core/src/lib.rs:130-137 | any two destinations, parsed or not, have the same key exactly when their ports are equal and their texts of user, `@` and host are |
| DestinationTheorems.KeyEqualFieldsIff | crates/core/src/lib.rs:130-137 | if no user contains `@`, keys are equal exactly when user text (none read as empty), host and port are |
| DestinationTheorems.UnparsedKeysCollide | crates/core/src/lib.rs:130-137 | an instance: a target with an empty user, which no text denotes, shares its key with the target without user |
| Duration.ReadFormatted | crates/metrics/src/lib.rs:232-244 | a strict reader (shortest numerals, seconds below 60, minutes above 0) recovers the milliseconds below one second and the whole seconds from then on out of every printed duration |
| Duration.ReadTextIsPrinted | crates/metrics/src/lib.rs:232-244 | the strict reader reads nothing but printed durations |
| Duration.MinutesShownIff | crates/metrics/src/lib.rs:238-243 | minutes are shown exactly from 60000 ms on |
| Duration.SameTextIff | crates/metrics/src/lib.rs:232-244 | two durations print the same exactly when equal below one second, or equal in whole seconds above |
| Ranking.SortIsDescending | crates/metrics/src/lib.rs:196 | the sort orders by count, largest first |
| Ranking.SortStable | crates/metrics/src/lib.rs:196 | entries of equal count keep the order in which the map yielded them |
| Listing.MostUsedHosts | crates/metrics/src/lib.rs:191-197 | the listing has min(5, hosts) entries, descending, and with the omitted entries makes up all hosts; no omitted count exceeds a listed one |
| Listing.MostUsedCountsOrderFree | crates/metrics/src/lib.rs:191-197 | the listed counts are the same for every iteration order of the map |
| Listing.ListingOrderFreeIff | crates/metrics/src/lib.rs:191-197 | the whole listing, labels included, is the same for every iteration order if and only if hosts tied under different labels have at least five hosts above them |
| Listing.FirstIsListed | crates/metrics/src/lib.rs:191-197 | the host the map yields first is listed right after all hosts with more connections, if those are fewer than five |
| Listing.TiedHostsListedEitherWay | crates/metrics/src/lib.rs:191-197 | an instance: two hosts used once each are listed in the order the map yields them |
| Metrics.MetricsStore.Load | crates/metrics/src/lib.rs:63-92 | the opened store has the file's contents rolled to today, a baseline of at least 1, and is written back |
| Metrics.MetricsStore.RollDayIfNeeded | crates/metrics/src/lib.rs:94-101 | totals are cleared exactly when the day index differs from today; the file is untouched |
| Metrics.MetricsStore.RecordConnection | crates/metrics/src/lib.rs:107-145 | one connection: the whole new contents (totals, baseline, per-host entry) and what reaches the file |
| Metrics.MetricsStore.RecordFailure | crates/metrics/src/lib.rs:147-159 | one failure: the whole new contents and the file |
| Metrics.MetricsStore.RecordReconnect | crates/metrics/src/lib.rs:161-165 | one reconnect: the whole new contents and the file |
| Metrics.MetricsStore.Snapshot | crates/metrics/src/lib.rs:183-209 | shows the rolled totals, the average latency as an exact quotient, and the ranking; rolls in memory only |
| Metrics.MetricsStore.CollectEntries | crates/metrics/src/lib.rs:191-195 | the vector holds label and count of every host in iteration order |
| Metrics.MetricsStore.Persist | crates/metrics/src/lib.rs:211-227 | a successful write stores exactly the contents; a failed one keeps or damages the file |
| MetricsTheorems.TotalsReplayIff | crates/metrics/src/lib.rs:94-209 | for any clock: the totals seen on a day equal the replay of that day over the whole log if and only if the clock did not leave the day after something was recorded on it |
| MetricsTheorems.TotalsRefineLog | crates/metrics/src/lib.rs:94-209 | with a clock that never runs back, the totals at every moment are the replay of the log events of today, time saved computed from the baseline folded over all days |
| MetricsTheorems.TotalsOnTop | crates/metrics/src/lib.rs:63-101 | a store that starts with totals shows them for the rest of their day with the replay of that day on top, and the replay alone afterwards |
| MetricsTheorems.SnapshotShowsToday | crates/metrics/src/lib.rs:183-209 | each number of a snapshot is the count or sum of the events of its day over the whole log, and the average times the connections is the sum of their latencies |
| MetricsTheorems.TimeSavedIs | crates/metrics/src/lib.rs:115-118 | the time saved today and what the reuses took, each up to the baseline in force, make up the sum of those baselines; nothing is saved exactly when no reuse beats its baseline |
| MetricsTheorems.HostsOfLog | crates/metrics/src/lib.rs:127-158 | from an empty map: exactly the hosts of the log, each with the label of its first call, its lifetime counts and its latest latency |
| MetricsTheorems.DayBounds | crates/metrics/src/lib.rs:54-56 | a day has 86400 seconds |
| MetricsTheorems.BaselineOfRun | crates/metrics/src/lib.rs:117-124 | the stored baseline is the fold over all fresh connections of the log |
| MetricsTheorems.BaselineClosedForm | crates/metrics/src/lib.rs:123 | repeated floored halving is the exact quotient floor((b0 + sum of 2^(i-1) l_i) / 2^n) |
| MetricsTheorems.BaselineOfLog | crates/metrics/src/lib.rs:107-125 | the baseline of a running store in closed form over its fresh handshakes |
| MetricsTheorems.BaselineBounds | crates/metrics/src/lib.rs:107-125 | the baseline stays between the least and the greatest of its inputs |
| MetricsTheorems.TimeSavedBound | crates/metrics/src/lib.rs:115-118 | time saved today is at most reuses today times the largest of the initial baseline and the fresh latencies |
| MetricsTheorems.CountersBounded | crates/metrics/src/lib.rs:107-165 | with latencies up to hi, each total gains at most hi + 1 a call, each host counter at most 1, and the baseline stays at most hi |
| MetricsTheorems.NoOverflow | crates/metrics/src/lib.rs:107-165 | while the starting counters plus hi + 1 a call, and 2 hi, stay below 2^64, no call of the run overflows a 64-bit sum (totals, baseline, host counters) |
| Restarts.RestartSimulation | crates/metrics/src/lib.rs:63-145 | with restarts and failing writes anywhere, the store has the counters and per-host map of an uninterrupted store over the calls that survived in memory and file; the baseline is at most 1 higher, time saved at most one per reuse higher; if the latest write before each restart succeeded, those are all calls |
| Restarts.NothingLost | crates/metrics/src/lib.rs:211-227 | if the latest write before each restart succeeded, every call survives, whatever writes failed or damaged the file before |
| Restarts.RestartsInvisibleIff | crates/metrics/src/lib.rs:63-92 | whatever writes fail, memory and file show exactly the calls that survived after every step, seen on the same day, if and only if no restart reads a baseline of zero from a file this run has written |
| Restarts.RestartGapAttained | crates/metrics/src/lib.rs:63-125 | both gaps are attained for every number of reuses, without a failed write: a handshake of 0 ms, a restart, then reuses of 0 ms |
| Restarts.StepSimulation | crates/metrics/src/lib.rs:63-145 | one call or restart, whatever its write does, keeps memory and file related to the surviving calls; exactly related ones stay exact unless the step restarts from a baseline of zero |
| Restarts.Conservation | crates/metrics/src/lib.rs:63-159 | over any run with restarts, any clock and any failing writes from an empty store: per-host counters count the surviving calls, they sum to the totals of those, today never exceeds them, reused <= connections = samples; if the latest write before each restart succeeded, every call survives |
| Connections.ConnectionManager.InsertNew | crates/daemon/src/connection_manager.rs:82-104 | the key maps to a fresh entry, created and used now; nothing else changes |
| Connections.ConnectionManager.MarkReused | crates/daemon/src/connection_manager.rs:108-115 | an existing entry gains one reuse, the time, the latency and health; a missing key changes nothing |
| Connections.ConnectionManager.MarkHealthy | crates/daemon/src/connection_manager.rs:117-121 | only the health flag of an existing entry changes |
| Connections.ConnectionManager.Touch | crates/daemon/src/connection_manager.rs:123-127 | only the last use of an existing entry changes |
| Connections.ConnectionManager.Remove | crates/daemon/src/connection_manager.rs:134-136 | the entry is returned and gone; a missing key changes nothing |
| Connections.ConnectionManager.AllKeys | crates/daemon/src/connection_manager.rs:142-144 | every tracked key once |
| Connections.ConnectionManager.LeastRecentlyUsed | crates/daemon/src/connection_manager.rs:157-162 | no key exactly for an empty table, otherwise one whose last use is the smallest |
| ConnectionsTheorems.EntriesOfRun | crates/daemon/src/connection_manager.rs:82-136 | over every run of the manager a key is tracked exactly since an insertion not followed by a removal, and each field of its entry is the one the operations since then say |
| ConnectionsTheorems.LruIsTail | crates/daemon/src/connection_manager.rs:82-162 | over every run with a strictly increasing clock the victim is exactly the tail of the move-to-front list; with equal readings the tail is a victim; created <= last used <= now for every entry |
| ConnectionsTheorems.TimestampsTrackList | crates/daemon/src/connection_manager.rs:82-136 | the table's keys and timestamps follow the move-to-front list in every run; health marks do not move a key |
| ConnectionsTheorems.LruExists | crates/daemon/src/connection_manager.rs:157-162 | a non-empty table always has a victim |
| Daemon.DaemonServer.EvictLru | crates/daemon/src/state.rs:26-34 | a least recently used entry is removed and its master stopped, no event is dispatched; an empty table is left alone |
| Daemon.DaemonServer.EnsureConnection | crates/daemon/src/ipc.rs:108-209 | reuse, stale drop, room, start and insertion, with the reply, as one state change |
| Daemon.DaemonServer.StartAndInsert | crates/daemon/src/ipc.rs:147-208 | only a successful start enters the target; each failure has its reply, metric and event |
| Daemon.DaemonServer.RegisterExternalMaster | crates/daemon/src/ipc.rs:41-58 | the handed-over master is entered without a capacity check, recorded as a fresh connection of latency 0 and announced |
| Daemon.DaemonServer.CloseConnection | crates/daemon/src/ipc.rs:74-89 | removes, stops and announces a tracked entry; otherwise an error and no change |
| Daemon.DaemonServer.CheckKey | crates/daemon/src/health.rs:35-90 | one key of a health pass |
| Daemon.DaemonServer.CheckAll | crates/daemon/src/health.rs:34-91 | a pass over all keys in the order the map yields them |
| Ledger.EnsureReplies | crates/daemon/src/ipc.rs:124-207 | the reply to every request, with its socket, latency and error text |
| Ledger.EnsureLeaves | crates/daemon/src/ipc.rs:115-193 | the whole table and the live masters after a request: four fields of a reused entry, or the dead entry dropped, a victim evicted without room, and a fresh entry after a successful start |
| Ledger.EnsureMarks | crates/daemon/src/ipc.rs:115-207 | what a request appends to the history: stale drop, eviction, then the event its reply stands for, with key, display text and reason |
| Ledger.RegisterLeaves | crates/daemon/src/ipc.rs:41-58 | a hand-over enters a fresh entry with the given socket and process and announces it |
| Ledger.CloseAcksIff | crates/daemon/src/ipc.rs:74-89 | a close request is acknowledged exactly when the key is tracked, and otherwise changes nothing |
| Ledger.MetricsFollowReplies | crates/daemon/src/ipc.rs:41-205 | over every run the store holds exactly the calls the replies stand for: a connection with the latency of each ready reply, one of latency 0 per hand-over, a failure per failed start, a reconnect per revival |
| Lifecycle.SocketsStayCanonical | crates/daemon/src/ipc.rs:108-209 | in every run of whole operations each entry stands under its own target's key with that key's socket path |
| Lifecycle.NoOrphanMasters | crates/daemon/src/ipc.rs:41-193 | with exact probes, successful stops and delivered hand-overs every live master is tracked or held by a session about to register it, through eviction, stale drop, close, health pass and arbitrary deaths, even if keys share a path |
| Lifecycle.EnsureKeeps | crates/daemon/src/ipc.rs:108-193 | one whole `EnsureConnection` orphans no master |
| Lifecycle.HealthPassKeeps | crates/daemon/src/health.rs:34-91 | a health pass orphans no master |
| Lifecycle.TraceTableAndMetricsAgree | crates/daemon/src/ipc.rs:41-205 | from an empty store: tracked keys are those opened and not since closed, evicted or dropped; reuse counts and per-host counters are the event counts |
| Lifecycle.FailuresMatchTrace | crates/daemon/src/ipc.rs:199-205 | the per-host failures add up to the authentication-failure events |
| Lifecycle.ReadyReplyMeans | crates/daemon/src/ipc.rs:124-193 | after a ready reply the entry of the target is the one named, healthy, used now, with the reply's latency; all other entries left are unchanged |
| Lifecycle.RepliesNameCanonicalSocket | crates/daemon/src/ipc.rs:133-197 | ready and interactive replies carry the socket path of the requested target |
| Lifecycle.DestinationsNeverMixed | crates/core/src/lib.rs:130-137 | when all requests carry typed destinations, the entry found for one is never the entry of another |
| ExactLru.TrackedAreMostRecent | crates/daemon/src/ipc.rs:115-193 | while starts succeed and the clock strictly increases, the tracked keys are exactly the max(maxConnections, 1) most recently requested ones, whatever probes answer, masters die, stops fail or paths coincide |
| ExactLru.ReusedIff | crates/daemon/src/ipc.rs:115-145 | such a request is answered as reused exactly when its key was requested before, fewer than max(maxConnections, 1) other keys came in between, and the probe finds the master alive |
| ExactLru.NoBeladyAnomaly | crates/daemon/src/ipc.rs:108-193 | on the same requests a larger limit tracks a superset, and reuses at least as often if its probes find alive whatever the smaller one finds alive |
| ExactLru.UndisturbedReusedIff | crates/daemon/src/ipc.rs:115-145 | with exact probes, distinct paths and only evictions ending masters, the probe clause is not needed |
| ExactLru.UndisturbedReusesGrow | crates/daemon/src/ipc.rs:115-145 | likewise a larger limit then never lowers the number of reuses |
| ExactLru.SharedPathEndsReuse | crates/daemon/src/state.rs:26-34 | two keys on one path: the eviction of one stops the master of the other, whose next request is not reused although recent enough |
| ExactLru.UndisturbedRunExists | crates/daemon/src/ipc.rs:108-209 | every request sequence has such an undisturbed run |
| Health.PassEffect | crates/daemon/src/health.rs:34-91 | a pass leaves exactly the keys alive or restarted, all healthy; live ones keep all other fields, revived ones change only the last use |
| Health.PassOrderFree | crates/daemon/src/health.rs:35 | the resulting table does not depend on the order of the keys |
| Health.PassHistory | crates/daemon/src/health.rs:71-89 | the history grows by the marks of the checked keys, in their order, and by nothing else |
| Health.PassEvents | crates/daemon/src/health.rs:71-89 | one reconnect event per revived key, one close event per dropped key, none for a live one |
| Health.PassMetrics | crates/daemon/src/health.rs:70-71 | the pass records one reconnect per revived key and nothing else |
| Health.ExactPassEffect | crates/daemon/src/health.rs:34-91 | with exact probes and distinct sockets the keys left are those live before or restarted, and each has a live master afterwards |
| InterleavingTheorems.CapacityBound | crates/daemon/src/ipc.rs:143-193 | in every interleaving of at most k sessions with health task and closes: entries plus sessions past the capacity check and its eviction <= max(maxConnections, 1) + k - 1 + missed victims |
| InterleavingTheorems.ActPotential | crates/daemon/src/ipc.rs:143-145 | one step adds no more than it misses a victim, or passes the check below the limit |
| InterleavingTheorems.SerialCapacity | crates/daemon/src/ipc.rs:143-145 | one session at a time never exceeds max(maxConnections, 1), whatever the health task, close requests and dying masters do in between |
| InterleavingTheorems.SocketsCanonical | crates/cli/src/commands.rs:40-57 | in every interleaving entries, ready replies and hand-overs carry the socket path of their target |
| InterleavingRuns.BoundAttained | crates/daemon/src/state.rs:26-34 | for every number k of sessions, and for k >= 2 every number of missed victims, a faithful run attains the capacity bound exactly, with all k sessions at rest |
| InterleavingRuns.Drift | crates/daemon/src/state.rs:27-33 | a round in which two sessions choose the same victim leaves one entry more |
| InterleavingRuns.LimitKeptIff | crates/daemon/src/ipc.rs:143-145 | the limit max(maxConnections, 1) is kept in all interleavings if and only if there is at most one session at a time; with two or more no limit at all is kept |
| Uninterrupted.WholeOperationIsASession | crates/daemon/src/ipc.rs:108-209 | a session nobody interrupts changes table and masters exactly as the whole operation and ends with its reply |
| Uninterrupted.WholePassIsATaskRun | crates/daemon/src/health.rs:34-91 | a health task nobody interrupts does to table and masters what the whole pass does |
| Uninterrupted.HandoverIsASession | crates/cli/src/commands.rs:40-57 | an interactive start and its registration are two acts of the CLI session; a failed start ends it without change |
| Uninterrupted.LateSessionWrites | crates/daemon/src/ipc.rs:124-140 | a session whose entry was removed since its probe still answers with the probed socket, or goes on to the capacity check, and changes no entry |
| Uninterrupted.LateHealthWrites | crates/daemon/src/health.rs:49-85 | what the health task writes to an entry that is gone changes nothing |
| Uninterrupted.CloseIsTwoSteps | crates/daemon/src/ipc.rs:74-89 | a close request nobody interrupts is a removal and a stop, and one for an unknown key changes nothing |
| Orphans.StepOrphansIff | crates/daemon/src/health.rs:34-91 | from a state in which every live master has an owner (entry, session or pending close), any step, whatever probes and stops do, leaves one without owner exactly when the master is live, not otherwise owned, and the step drops its entry as dead, fails to stop it after an eviction or close, loses its registration, or restarts it |
| Orphans.OrphanFreeIff | crates/daemon/src/ipc.rs:74-193 | over every interleaving of sessions, health task, closes and deaths, with failing stops and wrong probes: no master is ever without owner if and only if every step was safe when taken |
| SocketLocks.LockedRunsNeverOrphan | crates/daemon/src/ipc.rs:115-140 | a lock on socket paths would do: if sessions and health task held the path from look-up to last write, and evictions and closes waited for the health task, no two parties would ever hold one path, and no run without false alarms, failed stops and lost registrations would orphan a master |
| SocketLocks.LockIsExclusive | crates/daemon/src/health.rs:36-85 | under the lock nobody revives a master that another is about to drop, or removes the entry the health task looks at |
| OrphanRaces.RestartRace | crates/daemon/src/health.rs:36-83 | the health task restarts a master that a close request has removed and stopped meanwhile |
| OrphanRaces.HealthDropRace | crates/daemon/src/health.rs:85 | the health task drops the entry of a master that a session has started and entered since the probe |
| OrphanRaces.StaleDropRace | crates/daemon/src/ipc.rs:140 | a session drops as stale the entry that another session has just entered anew |
| OrphanRaces.FailedStop | crates/daemon/src/ipc.rs:76-79 | a close request removes the entry, fails to stop the master, and nobody owns it any more |
| OrphanRaces.LostRegistration | crates/cli/src/commands.rs:43-55 | the CLI has started a master and its registration is lost |
| OrphanRaces.OrphanReachable | crates/daemon/src/health.rs:36-83 | after the restart race everything is at rest, nothing is tracked and a master is live |

## Left out

- Running `ssh` (start, check, exit, stderr matching, permissions, `PATH`): answers are inputs, with the assumptions stated where a property needs them.
- `DefaultHasher`: the socket path is an arbitrary function of the key; distinct paths are assumed only by the `Undisturbed` lemmas of `ExactLru` (`SharedPathEndsReuse` shows why) and by `Health.ExactPassEffect`.
- IPC transport, JSON and YAML, daemon start and shutdown, logging, `doctor`, `Status`, `Connections`, CLI printing: input and output without lifecycle state.
- `RecordEvent`: clients can inject any event, so nothing ties it to the table.
- `RegisterExternalMaster` from clients other than the CLI: they could name any socket path; the runs contain the hand-overs of `sshflow ssh`.
- `add_bytes`: not called by any operation modelled here; the byte counter is kept and reset with the other totals.
- Plugin processes: only the order of dispatched events is kept.
- Restarting the whole daemon: the metrics side is modelled; the new daemon starts with an empty table, so masters of the old one are outside `NoOrphanMasters`.
- Metrics.MetricsStore.RecordConnection: counters and the baseline are unbounded; `NoOverflow` says up to where 64 bits suffice, and wrapped sums beyond that are not modelled.
- Metrics.MetricsStore.Snapshot: the average latency is an exact real number, not a rounded `f64`.
- Listing.MostUsedCountsOrderFree: speaks of counts only; `ListingOrderFreeIff` says exactly when the labels agree too.
- Daemon.DaemonServer.EnsureConnection: one clock reading for the table and one for the metrics stand for the whole operation.
- Lifecycle.NoOrphanMasters: speaks of whole operations with exact probes, successful stops and delivered hand-overs; `Orphans.OrphanFreeIff` gives the exact condition for single steps without these assumptions.
- InterleavingTheorems.CapacityBound: metrics and plugin calls are not steps, and each access to the sharded map, including a walk over it, is one atomic step.
