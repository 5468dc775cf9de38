# vpn-connect, modelled and proved in Dafny

vpn-connect is a small web panel around an OpenVPN client: it starts and stops the tunnel over the management
socket, keeps a history of attempts, tells how much of the address space goes through the tunnel, manages dnsmasq
rules and an inbound filter through a root helper, and guards its own login. This project models the state machines
and the computations under that panel and proves what they keep over every run or every input.

`dafny verify dfyconfig.toml` checks everything. Modules follow the program's files:

- **Scope.** `Prefixes`, `Collapse`, `Rounding`, `Scope`, `Verdicts`, `Pushed`: CIDR blocks (section 3.1 of RFC 4632), the
  `collapse_addresses` algorithm written out and proved, correctly rounded binary64 division, the verdict
  full/split/none, and its agreement with the comparison of pushed and installed routes.
- **Controller.** `Controller` is the class with its locked blocks; `ControllerRuns` interleaves operator calls, any
  number of numbered worker threads and management events in every order; `ControllerHistory` ties every run to the
  stored history; `ControllerEvents` says what is told and stored of each change of phase.
- **History.** `Store` (tables and transactions), `HistoryLog` in `History.dfy` (the write buffer), `Sessions` (kinds, paging, summary),
  `SessionPages` (paging while the history goes on).
- **Management protocol.** `Framing`, `Management`, `Conversation`, `Base64`, `Quoting`.
- **DNS rules.** `DnsGrammar`, `DnsText`, `DnsTable`, `DnsEffects`, `DnsRules`, `DnsHelper`; `DnsRuns` has them over every sequence of requests.
- **Small machines.** `Traffic`, `Migrations`, `Firewall`, `Throttle`, `Access`.
- `Options`, `Characters`, `Powers`, `Tails`, `Sorting` are shared helpers.

Classes stand for the source's objects and its loops are loops; each method is proved against a function of the
values before the call, and the lemmas are about those functions. What the code cannot see is a parameter that may
answer anything: the clock, the process table, systemctl, the root helper, the address library, SQL statements.

## Results where the code and its description differ

- `push` comparison and scope: redirect-gateway is counted as installed without the verdict FULL on the same table
  exactly when the concentrator's own address reads as 0.0.0.0/0, 0.0.0.0/1 or 128.0.0.0/1 (`Pushed.AgreeExactly`).
- `discover` says numbers are contiguous from 0001, but a file numbered 0000 passes; the result is 1..n exactly when
  there is none (`Migrations.FromOneExactly`, `Migrations.ZeroIsAccepted`).
- `import_legacy` says it is one transaction; it is one per rule, and goes through exactly when no fallback server is
  repeated (`DnsRules.ImportIsWholeExactly`, `DnsRules.RepeatedServerLeavesHalf`).
- A `dns-apply` that dnsmasq refuses says it puts back what was there; the live file is put back, but the legacy file
  stays retired, so live and legacy files are as they were if and only if there was no legacy file
  (`DnsHelper.Installer.DnsApply`, with the input in `DnsHelper.RefusedRestartRetiresLegacy`).
- `downsample` says the area under the averaged curve is still the bytes transferred; that holds whatever the counters
  did if and only if the readings are equally spaced within each bucket (`Traffic.AveragedAreaExactly`), which samples at a
  fixed interval are (`Traffic.FixedIntervalIsKept`).
- An attempt that never came up is not to be told as going down, and the code goes by the phase before the end: a tunnel
  that did come up is told down if and only if it was CONNECTED or DISCONNECTING before the end
  (`ControllerEvents.DownExactly`), so not if it ends while reconnecting (`ControllerEvents.ReconnectingEndsUntold`).
- The lockout allows `max` failures in a row on every run if and only if `max` is at least 1
  (`Throttle.LimitHoldsExactly`); below 1 the first failure still passes (`Throttle.FirstFailurePasses`).

## Model

| member | source | states |
|---|---|---|
| Prefixes.NestedOrApart | app/services/scope.py:220-229 | two blocks are nested or share no address, which is what lets a union be measured block by block |
| Prefixes.Halves | app/services/scope.py:220-229 | two sibling blocks are exactly the halves of their parent |
| Collapse.MergeSiblings | app/services/scope.py:228 | the merging pass of `collapse_addresses` keeps the address set and leaves no two siblings both unmerged |
| Collapse.SortedValues | app/services/scope.py:228 | the remaining blocks come out in ascending order, each once |
| Collapse.DropSubsumed | app/services/scope.py:228 | the final scan drops exactly the blocks that lie inside an earlier one |
| Collapse.CollapseAddresses | app/services/scope.py:220-229 | for every list of blocks, in any order and however nested, the result is pairwise disjoint, ascending, without mergeable siblings, and covers the same addresses |
| Collapse.CanonicalIsLargest | app/services/scope.py:220-229 | the blocks of a collapsed list are exactly the largest blocks that lie wholly in the address set |
| Collapse.CollapseIsUnique | app/services/scope.py:220-229 | two collapsed lists of the same address set are the same list, so order and duplicates of the input do not matter |
| Collapse.FitsInOneBlock | app/services/scope.py:220-229 | a block covered by a collapsed list lies inside a single one of its blocks |
| Collapse.TotalIsCardinality | app/services/scope.py:282-299 | summing block sizes counts every address of the union once |
| Collapse.CoveredCount | app/services/scope.py:220-229 | the computed total is the number of addresses in the union of the given blocks |
| Collapse.FullCount | app/services/scope.py:284-300 | the count reaches the size of the space exactly when every address is covered |
| Collapse.PartCount | app/services/scope.py:282-299 | the count of a part never exceeds the count of the whole |
| Rounding.Nearest | app/services/scope.py:229 | division rounded to the nearest integer, ties to even |
| Rounding.Scale | app/services/scope.py:229 | a quotient is scaled so that its significand has 53 bits |
| Rounding.RoundsToOne | app/services/scope.py:229 | the rounded quotient n/d reaches 1 exactly when n falls short of d by at most a 2^54th of d |
| Scope.Coverage | app/services/scope.py:220-229 | the share is the rounded quotient of covered to all addresses, and 0 with no blocks; the blocks are the collapsed ones |
| Scope.RoutedIn | app/services/scope.py:241-268 | the counted networks are exactly the blocks of the rows on the tunnel device that can be read and do not lie inside 169.254.0.0/16, 224.0.0.0/4, fe80::/10 or ff00::/8, the four ranges written as addresses |
| Scope.TallyRow | app/services/scope.py:241-268 | one step of the loop: a row that routes adds its block, its destination and one prefix, any other adds nothing but perhaps the egress device |
| Scope.Evaluate | app/services/scope.py:232-300 | of the rows of any table: the number that route, the rounded share of the addresses they reach, the same for public blocks, the mode, whether a default or both halves are routed, and the first other device holding a default |
| Verdicts.Ipv4Full | app/services/scope.py:284-300 | IPv4 is FULL if and only if every one of the 2^32 addresses lies in a counted tunnel prefix |
| Verdicts.Ipv6Full | app/services/scope.py:284-300 | IPv6 is FULL if and only if at most 2^74 of the 2^128 addresses are uncovered |
| Verdicts.EverythingIsFull | app/services/scope.py:284-300 | covering everything gives FULL in either family |
| Verdicts.IgnoredRow | app/services/scope.py:244-260 | a row on another device, unreadable, link-local or multicast changes neither mode, share nor number, wherever it stands |
| Verdicts.RoutedRow | app/services/scope.py:262-268 | any other row is one prefix more, adds exactly its addresses, and leaves the family not NONE |
| Verdicts.NoneExactly | app/services/scope.py:270-281 | NONE if and only if every row is such an ignored one |
| Verdicts.FullExactly | app/services/scope.py:284-300 | of whole tables: FULL if and only if the rows reach every IPv4 address, or all but at most 2^74 IPv6 addresses |
| Verdicts.RedirectForcesFull | app/services/scope.py:49-53 | a tunnel default route, or both halves of the /1 pair, forces FULL |
| Verdicts.PublicIsPart | app/services/scope.py:282-299 | the public subset never covers more than the whole |
| Pushed.ReadRoutes | app/services/routing.py:106-146 | which rows reach the push comparison and with which networks |
| Pushed.Rejected | app/services/pushed.py:206-242 | the routes reported as refused are the pushed ones that are not installed, unreadable ones included, each as often as it was pushed, in address order; none when no row was read |
| Pushed.RejectedExactly | app/services/pushed.py:223-235 | against the rows themselves: a route is reported, as often as pushed, if and only if no row of the tunnel and no host route to the concentrator names its network; a catch-all needs 0.0.0.0/0 or both halves |
| Pushed.RejectedInOrder | app/services/pushed.py:238-242 | readable routes first, by address and then by length |
| Pushed.HostAddressAgrees | app/services/pushed.py:229-235 | on every table, if the concentrator's address is not itself a wide network, redirect-gateway counts as installed only where the verdict is FULL |
| Pushed.WideAddressMisleads | app/services/routing.py:119-146 | for each wide concentrator address there is a table on which the two disagree |
| Pushed.AgreeExactly | app/services/pushed.py:229-235 | they agree on every table if and only if the concentrator's address is not a wide network |
| Store.Database.StartSession | app/services/store.py:560-566 | inserts an open row under the next id and returns it |
| Store.Database.AppendLines | app/services/store.py:569-586 | appends a batch to one session and trims that session to its last 2000 lines |
| Store.Database.EndSession | app/services/store.py:589-595 | closes one row with outcome, reason and time |
| Store.Database.MarkSessionConnected | app/services/store.py:598-610 | stamps the connection time of one row, the first time only |
| Store.Database.RecordSample | app/services/store.py:681-698 | appends one reading and trims that session's readings to the cap |
| Store.Database.RecordEvent | app/services/store.py:501-508 | appends to the event log |
| Store.Database.PruneSessions | app/services/store.py:654-675 | a row stays if and only if it has not ended or ended at the cutoff or later and fewer than `keep` newer rows did so too; the others go with their lines and samples |
| Store.Database.ListSessions | app/services/store.py:632-651 | the newest rows that have not ended or ended at the cutoff or later and no more than the limit, ids strictly descending, each with its own line count and byte totals, and nothing newer left out |
| Store.NewestIsTheList | app/services/store.py:547-556 | that description fits one list only, the one the query gives |
| Store.ListedIs | app/services/store.py:547-556 | every listed row is a stored row inside the window, described by its own lines and readings |
| Store.SurvivesExactly | app/services/store.py:528-541 | a row outlives a sweep by when it ended, not by when it started, and with no more than `keep` rows by that alone; no row is added or changed |
| Store.ListedExactly | app/services/store.py:528-556 | a row is listed under the same condition with the limit |
| Store.OwnedExactly | app/services/store.py:654-675 | lines and samples of a row that stays are all kept, those of any other all gone |
| Store.OfInsert | app/services/store.py:569-586 | after an insert and trim a session holds its last lines, and every other session what it held |
| Store.SweepIsInvisible | app/services/store.py:632-675 | at the same cutoff and limit the listing before a sweep equals the listing after it |
| Store.SweepIsInvisibleLater | app/services/store.py:528-541 | and so does every listing at a later cutoff |
| Store.SweepInvisibleExactly | app/services/store.py:654-675 | a sweep is invisible to a reader that shows no more than the sweep keeps |
| Store.SweepIsIdempotent | app/services/store.py:654-675 | sweeping twice is sweeping once |
| Store.NewestSurvives | app/services/store.py:654-675 | a row inside the window that was just inserted is kept |
| Store.TotalIsLastReading | app/services/store.py:548-555 | for counters that never fall, the reported maximum is the last reading, even after trimming |
| HistoryLog.History.StartSession | app/services/history.py:57-71 | closes what was open as interrupted, opens a new session, sweeps |
| HistoryLog.History.AppendLine | app/services/history.py:73-80 | buffers a line for the current session and flushes at 50 |
| HistoryLog.History.FlushLines | app/services/history.py:82-91 | writes the buffer to the current session and empties it |
| HistoryLog.History.MarkSessionConnected | app/services/history.py:93-102 | marks the current row as having come up |
| HistoryLog.History.EndSession | app/services/history.py:104-114 | flushes, closes the current row and forgets it |
| HistoryLog.History.RecordSample | app/services/history.py:118-127 | records a reading for the current session, if there is one |
| HistoryLog.History.RecordEvent | app/services/history.py:42-46 | appends to the event log, with or without a session |
| HistoryLog.StepInv | app/services/history.py:57-127 | each single operation keeps the invariant over ids, buffer, stored log and readings of any one session |
| HistoryLog.RestartInv | app/services/history.py:34-38 | and so does ending the process at any point and opening the same database again, which loses only the buffer |
| HistoryLog.RunInv | app/services/history.py:57-127 | every schedule of operations and restarts keeps it, with at most 49 pending lines |
| HistoryLog.LogIsNewestOfStream | app/services/history.py:73-91 | over every schedule, after a flush a session's stored log is the last 2000 lines sent while it was current |
| HistoryLog.TotalIsLastOfRun | app/services/store.py:547-556 | over every run, for every listed session and both directions: with a counter that never fell the total shown is the last reading sent |
| HistoryLog.IdsNeverReused | app/services/history.py:57-71 | over the life of a database, restarts included, the ids handed out increase from those stored at first, although the table has no AUTOINCREMENT |
| HistoryLog.ClosedAtMostOnce | app/services/history.py:104-114 | over every run no session is closed twice |
| HistoryLog.NeverOrphans | app/services/store.py:654-675 | over every run no line or reading is left without its session |
| HistoryLog.StartedSurvivesSweep | app/services/history.py:57-71 | the sweep of a start never removes the session just started |
| HistoryLog.StartKeepsExactly | app/services/history.py:57-71 | a new attempt closes the current row as interrupted and leaves the newest 200, itself included, of the rows that have not ended or ended in the last seven days |
| Sessions.CursorDescends | app/services/sessions.py:202-215 | each page's cursor is strictly below the one it was asked with |
| Sessions.PagesAreTheList | app/services/sessions.py:202-215 | following the cursors over an unchanging history visits every session once, in order, and ends |
| Sessions.WalkDescends | app/services/sessions.py:195-215 | even if the history changes between requests no id is shown twice |
| Sessions.SurvivorsAreShown | app/services/sessions.py:195-215 | and every session present throughout is shown |
| Sessions.PageLength | app/services/sessions.py:202-215 | a page has as many sessions below the cursor as there are up to the limit, clamped to 1..200, and a next page follows if and only if there are more |
| SessionPages.FoundDescends | app/services/history.py:151-157 | whatever a history did, the list it shows has its ids strictly descending |
| SessionPages.PagesOfOneMoment | app/services/sessions.py:202-215 | the pages of one moment of any history are together all it shows, once each and in order |
| SessionPages.PagesOfALivingHistory | app/services/sessions.py:195-215 | pages asked for at different moments of a history, with sweeps, new attempts and restarts in between, repeat no session and show every one that is there throughout |
| Sessions.SummaryAddsUp | app/services/sessions.py:114-129 | drops and manual ends are among the connected, and failed and connected among all sessions, whenever a reason implies a connection |
| Sessions.SummaryExactly | app/services/sessions.py:268-291 | sessions, connected, failed, drops and manual each count the rows by their own columns |
| Sessions.KindExactly | app/services/sessions.py:114-129 | which kind a row is, by its end, outcome, reason and connection time |
| Sessions.SpansExactly | app/services/sessions.py:132-163 | duration and uptime run to the end, or to now while there is none, and are never negative; the other columns as stored |
| Controller.OpenVpnController.constructor | app/services/openvpn.py:113-157 | starts idle, with no client, no secret and no events |
| Controller.OpenVpnController.Announce | app/services/openvpn.py:583-643 | what a transition records: one UP if the flag is clear, one DOWN with its reason and both flags cleared if a reported tunnel ends from CONNECTED or DISCONNECTING, nothing without a change; and the session row |
| Controller.OpenVpnController.WriteHistory | app/services/openvpn.py:614-631 | flush first, then mark or close the session row, then the event |
| Controller.OpenVpnController.ConnectTo | app/services/openvpn.py:240-262 | refused while busy, connected or running; otherwise a fresh attempt with cleared flags and the next number |
| Controller.OpenVpnController.DisconnectBegin | app/services/openvpn.py:264-272 | refused only when nothing runs; otherwise DISCONNECTING without an error |
| Controller.OpenVpnController.RequestShutdown | app/services/openvpn.py:274 | raises the stop flag |
| Controller.OpenVpnController.DisconnectFinish | app/services/openvpn.py:282-284 | the fallback ends DISCONNECTED |
| Controller.OpenVpnController.FailWith | app/services/openvpn.py:739-746 | FAILED with the message, and the waiting worker released |
| Controller.OpenVpnController.StateEvent | app/services/openvpn.py:468-496 | what each reported state does to the status |
| Controller.OpenVpnController.PasswordNeeded | app/services/openvpn.py:498-514 | a prompt is answered with the pending secret, which is then forgotten whether or not it could be sent |
| Controller.OpenVpnController.VerificationFailed | app/services/openvpn.py:515-517 | a rejection fails the attempt |
| Controller.OpenVpnController.SocketClosed | app/services/openvpn.py:534-551 | how a closed socket ends each kind of state |
| Controller.OpenVpnController.AdvanceTo | app/services/openvpn.py:721-732 | moves only an attempt that has not settled |
| Controller.OpenVpnController.WorkerFailed | app/services/openvpn.py:383-386 | a worker reports failure only while its attempt is the current one |
| Controller.OpenVpnController.WorkerCleanup | app/services/openvpn.py:390-396 | a worker erases the secret only while its attempt is the current one |
| Controller.OpenVpnController.AttachTo | app/services/openvpn.py:179-201 | adoption replays the reported states without announcing an UP |
| ControllerRuns.NextKeeps | app/services/openvpn.py:354-397 | every step of operator, worker or event keeps the flag, event, row and settled-state invariants |
| ControllerRuns.NeverMoreDownsThanUps | app/services/openvpn.py:583-643 | over every run without attach no prefix of the event log has more DOWNs than UPs, and each DOWN directly follows an UP |
| ControllerRuns.EveryRun | app/services/openvpn.py:560-646 | over every run, attached or not: link-lost is recorded exactly when no stop flag stood since the last connect or DOWN; CONNECTED has a start time, no error and a released worker; FAILED has a released worker; reasons stand only on connected rows |
| ControllerRuns.SummaryOfAnyRun | app/services/sessions.py:268-304 | after every run drops + manual ≤ connected and failed + connected ≤ sessions |
| ControllerRuns.SupersededIsQuiet | app/services/openvpn.py:383-407 | a superseded worker's failure and cleanup change neither status, session, event log nor pending secret |
| ControllerRuns.SecretErasedOnlyBy | app/services/openvpn.py:390-396 | a pending secret is erased only by answering a prompt or by the current attempt's worker |
| ControllerRuns.AdvanceNeverUnsettles | app/services/openvpn.py:721-732 | advancing never leaves CONNECTED, FAILED or DISCONNECTED |
| ControllerRuns.AttachKeeps | app/services/openvpn.py:179-201 | whatever states a running process reports, adoption ends in a state the other invariants hold of |
| ControllerHistory.StepRequests | app/services/openvpn.py:583-646 | every step reaches the history only through the recorder's operations, these ones in this order |
| ControllerHistory.EachRowClosedOnce | app/services/openvpn.py:614-631 | over every run, attached or not, each session row is closed at most once and nothing is orphaned |
| ControllerHistory.StoredEventsAreTheTrace | app/services/openvpn.py:583-646 | the stored event log is the run's UPs and DOWNs with their reasons, in order, and nothing else |
| ControllerEvents.EveryStepFollows | app/services/openvpn.py:560-643 | every step of every run, by the phases before and after it: exactly one DOWN with the reason the stop flag gives, exactly one UP, or nothing; the flags; and end time, outcome, reason or connection time of the current row, no other row changed |
| ControllerEvents.StandingTunnelIsToldDown | app/services/openvpn.py:601-610 | over every run, attached or not, the step that ends a CONNECTED tunnel appends one DOWN and clears both flags |
| ControllerEvents.DownExactly | app/services/openvpn.py:601-610 | over every run from start-up: a step into DISCONNECTED or FAILED appends a DOWN if and only if the last word was UP and the phase was CONNECTED or DISCONNECTING |
| ControllerEvents.ReconnectingEndsUntold | app/services/openvpn.py:495-610 | a run in which a tunnel that came up ends while reconnecting, without a DOWN and without a reason in its row |
| ControllerEvents.EveryRunTells | app/services/openvpn.py:468-551 | after every run a CONNECTED tunnel has been announced, FAILED has a message, and CONNECTED and DISCONNECTED have none |
| ControllerEvents.ReportedPhase | app/services/openvpn.py:483-496 | which phase a reported state leads to; an exit is FAILED if and only if an error text stands |
| ControllerEvents.ClosedPhase | app/services/openvpn.py:534-551 | which phase a closed socket leads to, and that waits are released |
| ControllerEvents.PromptedPhase | app/services/openvpn.py:498-514 | a prompt is answered if and only if client, secret and socket are there, and fails the attempt otherwise |
| ControllerEvents.OperatorPhase | app/services/openvpn.py:240-284 | when connect and disconnect are refused and what they lead to otherwise |
| ControllerEvents.AttemptComesUp | app/services/openvpn.py:354-397 | from every state where connect is not refused a schedule of worker, prompt and report ends CONNECTED, with one UP and no secret left |
| ControllerEvents.WorkerGivesUp | app/services/openvpn.py:382-431 | a worker that fails leaves FAILED with its message, the stop flag raised and no secret |
| Framing.CutKeepsAll | app/services/management.py:158-161 | cutting at newlines loses nothing |
| Framing.CutIsUnique | app/services/management.py:158-161 | there is only one way to cut bytes into newline-free lines |
| Framing.CutInTwo | app/services/management.py:152-161 | going on from the kept rest gives the same lines as cutting everything at once |
| Framing.ChunkDeliversPrefix | app/services/management.py:152-161 | whatever chunk arrives next, the reader delivers a prefix of the lines on the wire and keeps exactly the rest |
| Management.ManagementClient.Dispatch | app/services/management.py:186-193 | a line goes to the events, split at its first colon, or to the responses |
| Management.ManagementClient.DispatchLines | app/services/management.py:158-161 | the inner loop dispatches all complete lines of the buffer |
| Management.ManagementClient.ReadLoop | app/services/management.py:149-168 | both queues are a function of the concatenated bytes, however they were chunked, and end with the closing marks |
| Management.ManagementClient.Command | app/services/management.py:98-123 | what a command returns is decided by the first terminal line: the lines before it, a refusal, a closed socket or a timeout |
| Management.FedTwice | app/services/management.py:149-168 | dispatching lines in two batches is dispatching them in one |
| Management.ParsedParts | app/services/management.py:186-190 | the first colon ends the kind, the payload keeps the others and may be missing |
| Management.CollectedExactly | app/services/management.py:98-123 | by the first line that is END, SUCCESS, ERROR or the end: the lines before it, with it, a refusal or a closed socket; a timeout without one |
| Conversation.EachCommandGetsItsOwnReply | app/services/management.py:98-123 | over every interleaving with notifications and stale lines the i-th command returns what the peer answered to the i-th, also where the same command was asked before and answered differently |
| Conversation.NobodyIsStuck | app/services/management.py:106-123 | from every state of every run in which a command waits, it can finish, with its own answer |
| Conversation.WaitIsBounded | app/services/management.py:106-123 | whatever the schedule, a command that still waits has seen no more effective steps than its answer needs and two for each notification |
| Conversation.SomebodyMoves | app/services/management.py:106-123 | while a command waits, the peer, the reader or the caller can always take such a step |
| Conversation.NotificationsAllHeard | app/services/management.py:170-193 | every notification is passed on once, in order |
| Conversation.NextKeeps | app/services/management.py:106-123 | the answer under way is always, in order, what was collected, queued, on the wire and still owed |
| Base64.RoundTrip | app/services/openvpn.py:749-750 | decoding (section 4 of RFC 4648) recovers every byte string; the encoding holds no colon and no newline |
| Base64.GroupRoundTrip | app/services/openvpn.py:749-750 | each group of one to three bytes is recovered |
| Quoting.LineRoundTrip | app/services/management.py:199-201 | a reader with OpenVPN's quoting rules recovers verb, realm and value, whatever quotes and backslashes they hold |
| Quoting.CredentialsRoundTrip | app/services/management.py:125-128 | the written bytes are exactly the two commands if and only if no part holds a newline |
| Quoting.SecretRoundTrip | app/services/openvpn.py:354-361 | from `SCRV1:` and two base64 fields both parts are recovered |
| DnsGrammar.ValidatedAgain | app/services/dns.py:30-38 | cleaning a cleaned domain changes nothing |
| DnsGrammar.AddressAgain | app/services/dns.py:41-48 | cleaning a cleaned address changes nothing |
| DnsGrammar.DomainExactly | app/services/dns.py:30-38 | a domain is taken without the blanks around it and the dots at its end, in small letters, if and only if that has at most 253 characters and well-formed labels |
| DnsGrammar.Ipv4Exactly | app/services/dns.py:41-48 | an IPv4 literal is exactly four numbers up to 255 in decimal without leading zeros, with dots between |
| DnsGrammar.DomainPlain | app/services/dns.py:21-22 | a valid domain has only letters, digits, hyphens and dots and does not end in a dot |
| DnsGrammar.AddressPlain | app/services/dns.py:41-48 | a valid IPv4 or IPv6 literal has only hex digits, colons and dots, 2 to 45 of them |
| DnsText.RenderDnsmasq | app/services/dns.py:60-75 | the text is the header, the domain lines in name order and the fallback lines in position order |
| DnsText.ParseDnsmasq | app/services/dns.py:83-115 | each line is skipped, read as a rule or reported, in order |
| DnsText.DomainShape | app/services/dns.py:96-105 | server=/domain/address is a rule with both parts cleaned if both can be, and is reported otherwise |
| DnsText.FallbackShape | app/services/dns.py:106-114 | server=address likewise |
| DnsText.OtherShape | app/services/dns.py:91-115 | blank lines and comments alone are skipped, and only those two shapes are rules |
| DnsText.NothingDropped | app/services/dns.py:83-88 | every other line is counted once, as a rule or reported as it stands |
| DnsText.ParseOfRender | app/services/dns.py:60-115 | a rendered rule set parses back to its rules, domains by name then fallbacks by position, with nothing unparsed |
| DnsText.NamesInOrder | app/services/dns.py:71 | the rendered domain rules are the given ones, sorted by name |
| DnsText.SplitJoined | app/services/dns.py:91 | splitting a rendered text gives its lines |
| DnsHelper.ValidateStaging | deploy/vpn-connect-helper.in:127-137 | accepts exactly the texts of at most 2000 lines that all match the helper's grammar |
| DnsHelper.AcceptedExactly | deploy/vpn-connect-helper.in:127-137 | a line is accepted if and only if it is empty, a comment, or one of the two directives with parts of the allowed letters and lengths |
| DnsHelper.RenderedIsAccepted | deploy/vpn-connect-helper.in:127-137 | a rendered set of valid rules is accepted if and only if it has at most 1999 rules |
| DnsHelper.Installer.DnsApply | deploy/vpn-connect-helper.in:139-197 | whichever file command fails and whatever systemctl answers, the live file is at every moment the staged text or what it was, the old live rules are live or backed up until the run has succeeded, legacy rules are never gone, and no restart sees two rule files; a refused restart puts the live file back, and live and legacy files are both as before if and only if there was no legacy file; where every backup had its live file that stays so at every moment, and a run that does not break off then leaves none; where a command fails, exactly the files left |
| DnsHelper.RefusedRestartRetiresLegacy | deploy/vpn-connect-helper.in:157-196 | a refused restart that leaves the legacy file retired, with or without a live file before |
| DnsHelper.Installer.Place | deploy/vpn-connect-helper.in:143-160 | the files once the new one is in place, and exactly what is left where one of these commands fails |
| DnsHelper.Installer.Settle | deploy/vpn-connect-helper.in:163-197 | the restart, and on a refusal the way back |
| DnsTable.AddKeeps | app/services/store.py:397-449 | adding keeps domains, fallback addresses, positions and ids unique and every row valid |
| DnsTable.DeleteKeeps | app/services/store.py:452-456 | and so does deleting |
| DnsTable.MoveKeeps | app/services/store.py:459-495 | and moving |
| DnsTable.EveryTableIsSound | app/services/store.py:397-495 | hence every table reached by operations is sound |
| DnsTable.RefusedChangesNothing | app/services/store.py:397-495 | a refused operation leaves the table as it was |
| DnsEffects.AddExactly | app/services/store.py:397-449 | when an add is refused and why; otherwise exactly one row has the cleaned name and address, under the id it had or a free one, and the others are as before; a fallback is one row more, last in rendered order |
| DnsEffects.DeleteExactly | app/services/store.py:452-456 | the row with the id is gone, whichever kind, and no other; refused if and only if there is none |
| DnsEffects.MoveExactly | app/services/store.py:459-495 | refused for an unknown direction or id; otherwise the row with that id and its neighbour in rendered order have changed places, or nothing at the end of the list |
| DnsTable.NearestIsAdjacent | app/services/store.py:474-485 | the neighbour the queries find is the one next in rendered order |
| DnsTable.SwapInOrder | app/services/store.py:487-495 | exchanging two positions exchanges two places of the order and nothing else |
| DnsTable.MoveTransposes | app/services/store.py:459-495 | a move is an adjacent transposition of the rendered lines, and nothing at the end of the list |
| DnsTable.MoveThereAndBack | app/services/store.py:459-495 | a move that moved, undone by the opposite move, restores the table |
| DnsRules.SoundIsAccepted | deploy/vpn-connect-helper.in:127-137 | of a sound table the helper refuses nothing but more than 1999 rules |
| DnsRules.Rules.Apply | app/services/dns_rules.py:124-147 | the staged text is the table's rendering whatever the helper does; without a warning it is also the live file and no working file is left; with one the live file is it or what was there, nothing else was live on the way, and no restart saw two rule files; if no file command fails the live file is exactly as the restart decides, and there is a warning unless dnsmasq took the text and said so in time |
| DnsRules.Rules.Add | app/services/dns_rules.py:99-101 | the transaction, what it stores or why it refuses, and the apply only if it was not refused |
| DnsRules.Rules.Delete | app/services/dns_rules.py:103-105 | the transaction, what it removes, and the apply only if it was not refused |
| DnsRules.Rules.Move | app/services/dns_rules.py:107-109 | the transaction, what it exchanges, and the apply only if it was not refused |
| DnsRules.Rules.ImportLegacy | app/services/dns_rules.py:111-122 | adds rule by rule up to a refusal, and applies once if there was none |
| DnsRuns.Answer | app/services/dns_rules.py:99-122 | each request of the panel is one step of the runs below |
| DnsRuns.EveryRunIsSound | app/services/dns_rules.py:99-147 | over every sequence of requests and fates of the helper: the table is sound, a backup has a live file at every moment, and no restart ever saw two rule files |
| DnsRuns.EveryTextIsKnown | app/services/dns_rules.py:124-147 | at every moment of every run the live file is the one found at first or the rendering of a table that was reached and applied |
| DnsRuns.StagedIsLatest | app/services/dns_rules.py:124-147 | the staged text renders the table of the latest request that was not refused, which is the present table unless an import was refused since |
| DnsRuns.WarnedExactly | app/services/dns_rules.py:124-147 | over every run an apply without a warning has its table's rules, read back from the live file, in force and no working file left; where no file command fails it warns if and only if dnsmasq is down or refuses, nobody waits, or there are more than 1999 rules |
| DnsRuns.AcceptedIsInForce | app/services/dns_rules.py:99-147 | from start to end: a domain rule accepted without a warning is read back from the live file as the one rule for its cleaned name, with the cleaned address |
| DnsRules.ImportIsWholeExactly | app/services/dns_rules.py:111-122 | an import into an empty table goes through if and only if no fallback server is repeated; otherwise it leaves what came before |
| DnsRules.ImportedDomains | app/services/dns_rules.py:111-122 | and leaves each listed domain once, with the address listed last for it |
| DnsRules.RepeatedServerLeavesHalf | app/services/dns_rules.py:111-122 | for every address, listing it twice leaves one row behind a refused import |
| DnsRules.ParseValid | app/services/dns.py:83-115 | what the parser hands over is in the form the table stores |
| Traffic.Rates | app/services/traffic.py:54-78 | one point for each pair between which time advanced |
| Traffic.RateExactly | app/services/traffic.py:60-77 | for increasing times each rate times its interval is the difference of the counter, and 0 where the counter went back |
| Traffic.RatesNumber | app/services/traffic.py:66-70 | there are as many points as readings later than the one before |
| Traffic.AreaIsTransferred | app/services/traffic.py:54-78 | for increasing times the rates times the elapsed times sum to the positive increments of each counter |
| Traffic.GrowthIsTheDifference | app/services/traffic.py:54-78 | which is last minus first for counters that never fall |
| Traffic.RatesAdvance | app/services/traffic.py:66-77 | every reading after the first gives a point at its own time |
| Traffic.Downsample | app/services/traffic.py:81-109 | few points pass unchanged; otherwise exactly `limit` means, one for each bucket, none empty |
| Traffic.BucketSizes | app/services/traffic.py:93-98 | every bucket holds the floor or the ceiling of n / limit points, from the first point to the last |
| Traffic.AveragingConserves | app/services/traffic.py:84-86 | weighted by bucket size the means sum to the total of all points, for times and both rates |
| Traffic.AveragedAreaExactly | app/services/traffic.py:81-109 | the averaged points, each over the time of its bucket, have the area the counters gained, for all counters with these times, if and only if the readings are equally spaced within each bucket |
| Traffic.EvenIsKept | app/services/traffic.py:84-86 | one direction, for both counters of one series |
| Traffic.UnevenMisleads | app/services/traffic.py:91-92 | the other: for every uneven series counters that gain one byte and are plotted with another area |
| Traffic.FixedIntervalIsKept | app/services/traffic.py:91-92 | samples at a fixed interval keep the area for every limit |
| Traffic.MeansBelowPeak | app/services/traffic.py:86 | no mean exceeds the reported peak |
| Traffic.TimesStillIncrease | app/services/traffic.py:102-108 | increasing times stay increasing |
| Traffic.SeriesOf | app/services/traffic.py:112-129 | totals are the last reading, peaks those of the full series, the points its downsampling |
| Traffic.TotalsFit | app/services/traffic.py:118-121 | the totals are the first reading plus the area under the curve |
| Migrations.Discover | app/db.py:86-112 | succeeds if and only if all names are well formed, no number occurs twice and none from 1 up is missing; lists them in order without a break |
| Migrations.FromOneExactly | app/db.py:105-112 | the list is 1..n if and only if no file is numbered 0 |
| Migrations.ZeroIsAccepted | app/db.py:105-112 | a file numbered 0000 passes |
| Migrations.Connection.ExecuteScript | app/db.py:133-136 | a script commits schema and version together or leaves the database as it was, at every statement |
| Migrations.Connection.Migrate | app/db.py:119-144 | for every discovered list, file 0000 included: at every moment of every run the schema is the fold of the migrations the header counts; success means all of them, and a current or newer database is left alone |
| Migrations.PendingAreTheRest | app/db.py:126 | what is newer than the database are exactly the scripts after its version, whether the list starts at 0 or 1 |
| Migrations.DiscoveredIsMigrated | app/db.py:126 | every list discovery returns is one the migration takes, and its scripts are the files numbered 1..n |
| Migrations.StaysConsistent | app/db.py:122-123 | mending or adding later files keeps that true |
| Migrations.SameVersionSameSchema | app/db.py:119-144 | two databases at one version have one schema |
| Migrations.ResumedAsIfClean | app/db.py:119-144 | a failed run taken up again ends where a clean run ends, and a further run changes nothing |
| Firewall.ParseStatus | app/services/firewall.py:94-122 | armed only if that is the first word; the drops are the sum of the counters |
| Firewall.StatusExactly | app/services/firewall.py:94-122 | armed, disarmed or unavailable if and only if the first line starts with that word, blank or nothing behind it |
| Firewall.DropsAddUp | app/services/firewall.py:113-120 | the two counters printed after armed are added, whatever their values |
| Firewall.FirewallSwitch.ReadState | app/services/firewall.py:144-164 | one status call, unknown if it fails |
| Firewall.FirewallSwitch.Set | app/services/firewall.py:168-195 | off is stored and calls fw-off first; on is stored and calls fw-on after a readable status, and otherwise stores nothing; then the state as read back |
| Firewall.FirewallSwitch.Rearm | app/services/firewall.py:197-213 | acts only in the protective direction and only on a readable status |
| Firewall.FirewallSwitch.Guard | app/services/firewall.py:217-234 | passes, or arms once and passes if that worked |
| Firewall.GuardIsSafe | app/services/firewall.py:217-234 | against any helper: passing means switched off or last read armed; at most four calls, never fw-off, intent unchanged |
| Firewall.GuardExactly | app/services/firewall.py:217-234 | exactly which answers let a connection through |
| Firewall.OnNeedsReadable | app/services/firewall.py:175-189 | switching on, also where it is on already, goes through if and only if the status is readable in the same call, and otherwise stores nothing; off always |
| Firewall.SwitchCalls | app/services/firewall.py:168-195 | the exact verbs of a switch, the status read last afterwards unless the action raised, and the report: the last reading or unknown, and the new setting |
| Firewall.OffExactly | app/services/firewall.py:168-195 | over every run fw-off is called exactly as often as the operator switches off |
| Firewall.AlwaysAWayOut | app/services/firewall.py:180 | after every run, switching off lets the next connection through |
| Firewall.OnWasPossible | app/services/firewall.py:175-189 | over every run that ends switched on, some switch-on found the helper readable |
| Throttle.LoginThrottle.SecondsRemaining | app/auth.py:40-49 | what is left of a lockout, and forgetting one that has run out, for this client only |
| Throttle.LoginThrottle.RecordFailure | app/auth.py:51-54 | counts a failure for this client only |
| Throttle.LoginThrottle.Reset | app/auth.py:56-58 | forgets this client only |
| Throttle.SomePause | app/auth.py:31-58 | among any max + 1 failed checks without a success between, two neighbours are more than lockout - 1 seconds apart |
| Throttle.LimitHoldsExactly | app/auth.py:31-58 | on every run no stretch has more than max failures without a pause if and only if max is at least 1 |
| Throttle.FirstFailurePasses | app/auth.py:40-49 | with a maximum below 1 a first wrong login still passes |
| Throttle.LockedExactly | app/auth.py:40-49 | locked out if and only if max failures are counted and the last is at most lockout - 1 seconds old, for the whole seconds left |
| Throttle.FewNeverLock | app/auth.py:40-54 | over every run fewer than max failures since the last success never lock |
| Throttle.EnoughLock | app/auth.py:40-54 | and max of them without a pause do |
| Throttle.WindowHoldsFew | app/routes/ui.py:81-108 | so no stretch of lockout - 1 seconds holds more than max failures |
| Access.ParseNetworks | app/services/access.py:49-74 | every entry is read, in order, or the list is refused for one that cannot be |
| Access.ParseAllowFrom | app/services/access.py:77-84 | never an empty list; loopback if nothing was written |
| Access.AllowedExactly | app/services/access.py:87-115 | a client is allowed if and only if its text is an address inside a listed range of its own family, an IPv4-mapped one counting as IPv4 |
| Access.LoopbackExactly | app/services/access.py:77-84 | with nothing configured exactly 127.0.0.0 to 127.255.255.255 and ::1 are let in |
| Access.ClientAddress | app/services/access.py:122-152 | without a trusted peer the header is irrelevant; otherwise the walk from the right decides |
| Access.NamedIsRightmost | app/services/access.py:133-152 | whoever is named is not a proxy and has only proxies and empty hops to the right, never an entry left of garbage |
| Access.PrefixIsIgnored | app/services/access.py:133-136 | prefixing any text and a comma changes nothing if the last 20 hops name someone, hold garbage or are 20 |
| Access.PrefixIsTakenOtherwise | app/services/access.py:140-152 | and otherwise a client's own address in front is taken |

## Left out

- Flask routes, templates, scripts, installers, the systemd unit, notifications, the vault, whois and resolver wording, profile files.
- Sockets, subprocesses, sudo, SQLite, systemctl and nft themselves: they are parameters that answer anything, or tables with atomic transactions; storage is taken to succeed.
- Races finer than a step: a tracked block and its announcement are one step, `attach` is one step, the supersede check and the failure after it are one step, and a flush is one step (`append` releases its lock before it flushes).
- Replies that arrive after a command timed out; `Conversation` has a peer that answers each command once, in any way it likes, with no timeout.
- Parallel logins that pass the throttle check together.
- Float rounding outside the scope verdict: `Traffic` uses exact rationals.
- Regular expressions and Unicode: predicates on characters; `$` is the true end of the text, blanks and case are ASCII, and a digit is an ASCII digit.
- IPv6 zone ids, which the application accepts and the helper refuses; addresses with them are not addresses here.
- Reading CIDR text and addresses outside DNS rules: `Scope`, `Pushed` and `Access` take the reader as a function.
- `pushed.parse` of the push reply's text, the sort order of the route table, and the wording of notes and warnings.
- NUL characters and the length limits of OpenVPN's own line reader: `Quoting` has its lexical rules only; OpenVPN's source is not part of this model.
- The text of `detail`, `tun_ip`, `remote_ip`, the in-memory log and the push reply in the controller's status.
- Uptimes, byte sums and the span of days in the summary over the history panel, and the search in it.
- `updated_at` and `created_at` of DNS rules; the two kinds of rows are kept in two sequences with one id counter.
- Store.Database.RecordEvent: keeps the kind and reason of an event; its time and the connection's name are only shown, nothing is decided by them.
- HistoryLog.History.RecordEvent: leaves out the same two columns.
- DNS requests that overlap; a helper that runs on after the application stopped waiting is taken to end before the next request.
- Staging that fails to write, a migration file that cannot be read: both end the call before the steps modelled here.
- `fw-on` and `fw-off` inside the helper, which load and delete the nft table.
- The dictionary order of `collapse_addresses`' intermediate table: the result does not depend on it.
