# JARVINx runtime: a verified model

JARVINx watches a machine: a scheduler publishes metric snapshots on an event bus, agents raise alerts and ask a language
model for decisions, an orchestrator runs the commands that were decided, and small stores and logs remember it all. This
project models the stateful components of that runtime in Dafny and proves what they guarantee over whole runs.

Each module follows one source file. Where the source updates an object in place, there is a class with the same fields
and methods; the contract of each method says what the new state is, either outright or as a function of the old one, and
lemmas then prove what every sequence of such steps guarantees. `dafny verify dfyconfig.toml` checks everything.

| file | models | main results |
|---|---|---|
| `TokenBucket.dfy` | rate limiter | granted exactly when every earlier stretch has room; no window exceeds capacity plus accrual; no policy grants more |
| `Bus.dfy` | publish/subscribe bus | safety, order and accounting in every interleaving; isolation; exactly when an event is lost; when a told forwarder closes |
| `Store.dfy` | 20-entry window, tables, double write | reads refine one history; exactly when counters agree and when reads agree with the window |
| `Logger.dfy` | rotating log | exactly when the files are a contiguous end of everything written and which failures lose an archive; sizes of every file |
| `Alerts.dfy` | alert automaton | counters equal a declarative rule exactly up to a cooldown bound; spacing, rate, responsiveness |
| `Breaker.dfy` | circuit breaker | meaning of every field over all traces; probe rate; exactly when half-open lets one call through |
| `Parser.dfy` | reply parsing | cleaning is the outermost braced span; extraction is the leftmost decoding block; accepted decisions are safe |
| `Retry.dfy` | retry loop | what any call, failed or not, leaves in the breaker; how few calls an outage lets through |
| `Orchestrator.dfy` | verified, guarded execution | which reply every run command comes from, on which metrics, exactly when it is the latest, and how often |
| `Docker.dfy` | watch list and container edges | alerts of a run are the edges of each watched container's own observations |
| `ContextBuilder.dfy` | prompt context | stability signals agree; trends and forecasts are exact on progressions |

`Sequences.dfy`, `Options.dfy` and `Records.dfy` hold what these share.

## How the source is read

* Time is a parameter of each call: a `real` for the token bucket, an integer count of nanoseconds elsewhere. Percentages,
  tokens and rates are `real`. Every method runs under the mutex that the source holds for it, so it is one step.
* The bus is a state machine over the atomic actions of its goroutines: copying the list, one non-blocking send, one
  receive, one non-blocking forward, one read, closing. A channel operation that would panic sets `panicked`. A sender may
  hand an event straight to a parked receiver, so buffers of any size, 0 included, are covered.
* What the outside world does is an argument: the fate of an insert, a query, a scan, a rename or a write, the answer of an
  attempt, a scan of the containers, the hour. JSON decoding is an arbitrary partial function on strings, and the brace
  pattern is given its leftmost, non-overlapping meaning.
* Slices that are appended to or re-sliced are fields of type `seq`; the rows that are reversed in place are an array.
* A run of the orchestrator shares the double store with the system agent: it starts with whatever an earlier program left
  there, and every observation asks that store for its last cycle. What is proved about all runs therefore says of a record
  that it was present at the start or decided in the run. The steps of a run speak of records; its turns, one for each step,
  speak of the model calls that the records came from.
* A program without a table, or whose table cannot be opened, is one in which every query of the table fails.

## Where the code and its comments disagree

The model follows the code.

* `double_write_store.go:4` says that all reads delegate to the primary. `Last` and `LastCycles` prefer the secondary; after
  a failed insert they answer with an older record (`NewestIsReadIff`, `ReadsAgreeIff`), and its command can run
  (`RunsLatestIff`). When the two stores then end with different commands, a table that answers only now and then makes
  both run, and repeat within the cooldown, although nothing was stored (`UninsertedDecisionFlickers`, `UnchangedRateIff`).
* `circuit_breaker.go:14` says that half-open allows one call. Every call made before the probe reports is let through
  (`HalfOpenAdmitsEveryCall`, `AnyNumberOfCalls`). Callers that wait for one another, as those of one agent do, never make
  such a call (`OneByOneProbesAlone`); it takes two that overlap.
* `parser.go:145` downgrades an execute without enough confidence. When such a reply also lacks an analysis it is rejected
  instead, and a decision nested inside it is taken in its place (`DoubtfulReplyYieldsIff`, `NestedDecisionRuns`).
* `orchestrator.go:207` says that a command runs if the action is execute. The code tests the command only, so that any
  other decision with a command runs too (`NonExecuteCommandRuns`, `OnlyExecutesRunIff`).
* `orchestrator.go:15` says that the guard keeps a command from running too often. It remembers one command, so that two
  in turn run without any pause (`AlternationIsNotLimited`, `CloseRepeatsNeedAnother`).
* `logger.go:108` deletes the oldest backup at the limit, but a limit below 1 still keeps one backup (`Slots`).
* `logger.go:117` ignores the error of a rename because the file may be missing. When a rename fails on an existing backup,
  the next one overwrites it, and an archive is lost that is not the oldest (`ArchiveLostIff`).
* `context_builder.go:50` speaks of recent alerts; the code takes the first three of the list, which are the latest three
  only when there are no more (`RecentAlertsIff`).
* A cooldown above 999 plus the cycles an alert needs mistakes "never alerted" for a recent alert (`RuleIff`), although
  `validate.go` sets no upper bound.
* A call that succeeds after its own failures opened the breaker leaves it open (`SucceedingCall`).

## Model

| member | source | states |
|---|---|---|
| TokenBuckets.TokenBucket.constructor | runtime/web/ratelimit.go:17-24 | A new bucket is full and its run is the one instant of its construction |
| TokenBuckets.TokenBucket.Allow | runtime/web/ratelimit.go:27-43 | The call is granted if and only if no stretch of earlier instants would exceed capacity plus accrual; the run grows by exactly this decision |
| TokenBuckets.OfferedIsMinimum | runtime/web/ratelimit.go:32-36 | Refilling and clamping call by call equals the minimum over all earlier instants of that instant's headroom |
| TokenBuckets.Exactness | runtime/web/ratelimit.go:31-42 | For any rate, capacity and times, a call of a run is granted exactly when one more grant keeps every stretch ending there within its bound |
| TokenBuckets.WindowBound | runtime/web/ratelimit.go:31-42 | No window of calls is ever granted more than capacity plus rate times its length |
| TokenBuckets.Optimality | runtime/web/ratelimit.go:38-42 | After every prefix of any call times, no other policy on the same bucket has granted more calls |
| TokenBuckets.PolicyIffNeverNegative | runtime/web/ratelimit.go:38-42 | The policies compared with are exactly those that never let the bucket fall below zero |
| Buses.Subscriber.constructor | runtime/core/bus.go:49-54 | A subscriber starts with empty channels, an idle forwarder and nothing closed |
| Buses.Subscriber.TrySend | runtime/core/bus.go:92-100 | A send hands the event to a parked forwarder with nothing else to take, drops it exactly when twice the buffer size is waiting, buffers it otherwise, and never waits |
| Buses.Subscriber.Iterate | runtime/core/bus.go:65-81 | One loop iteration is a close of the outgoing channel, or a receive followed by a delivery or a drop, or blocks with nothing changed |
| Buses.Bus.Subscribe | runtime/core/bus.go:45-62 | Appends a fresh subscriber to the list |
| Buses.Bus.Publish | runtime/core/bus.go:85-102 | Every listed subscriber is sent the event once, whatever state it and the others are in |
| Buses.Bus.Unsubscribe | runtime/core/bus.go:105-117 | The first subscriber of that name leaves the list with its quit closed, all others are untouched, and nothing happens when there is none |
| Buses.EveryReachableStateIsSafe | runtime/core/bus.go:45-117 | In every interleaving: no send on or second close of a closed channel, quit closed exactly when off the list, the outgoing channel closed only by a returned forwarder, buffers within bounds, and consumed then buffered events an ordered subsequence of those sent with the rest counted as dropped |
| Buses.EverySendIsAccounted | runtime/core/bus.go:85-102 | In every interleaving a subscriber was sent exactly one copy of the event of each publication that has passed it |
| Buses.PublicationReachesAll | runtime/core/bus.go:85-102 | Whatever happens meanwhile, a finished publication was sent to everyone listed when it began |
| Buses.SendLosesIff | runtime/core/bus.go:92-99 | A send loses its event if and only if twice the buffer size is waiting and no parked forwarder takes it; any other send keeps it behind all that the subscriber has |
| Buses.SendsLoseIff | runtime/core/bus.go:85-102 | In every reachable state the next send of a publication loses its event if and only if exactly twice the size is buffered and none is handed over, and else adds it to what is kept |
| Buses.ForwardsLoseIff | runtime/core/bus.go:72-78 | In every reachable state a forward loses the event in hand if and only if the outgoing buffer is full and no consumer waits, and else delivers it last |
| Buses.PublishNeverBlocks | runtime/core/bus.go:91-101 | A publication under way can always take its next send, even to a subscriber that has left since the list was copied |
| Buses.QuitIsAlwaysServed | runtime/core/bus.go:65-81 | In every reachable state a forwarder told to quit can close its channel after at most one forward that does not wait |
| Buses.QuitIsServedInTime | runtime/core/bus.go:65-81 | In every continuation of every run a forwarder told to quit takes at most the events in its buffer and those of unfinished publications that copied it, and it has closed its channel after two turns of its own for each of these, one for the event in hand and one more |
| Buses.LossNeedsBacklog | runtime/core/bus.go:72-78 | With a buffer, neither a send nor a forward loses anything unless more than a bufferful is unread |
| Buses.NoLoss | runtime/core/bus.go:71-100 | A subscriber that never falls more than a bufferful behind holds or has read every event sent to it, in order |
| Buses.Isolation | runtime/core/bus.go:85-102 | A subscriber's view of any run is the one it would have if no other subscriber were ever scheduled |
| Stores.State.Add | runtime/memory/state.go:69-78 | The history becomes the last 20 of itself and the new snapshot |
| Stores.State.AddCycle | runtime/memory/state.go:80-91 | The record gets the next number and joins the last 20 |
| Stores.State.Last | runtime/memory/state.go:99-110 | Returns the last n snapshots of the window, or all of them |
| Stores.State.LastCycles | runtime/memory/state.go:112-122 | Returns the last n records of the window, or all of them |
| Stores.SQLiteStore.AddCycle | runtime/memory/sqlite_store.go:171-205 | Keeps the number of a numbered record and never lowers the counter, else assigns the next; a failed insert adds no row but keeps the counter |
| Stores.SQLiteStore.Last | runtime/memory/sqlite_store.go:207-244 | Returns the readable ones of the last n rows, oldest first, and nothing for n below 1 or a failed query |
| Stores.SQLiteStore.LastCycles | runtime/memory/sqlite_store.go:246-282 | The same for cycle rows |
| Stores.ReverseRows | runtime/memory/sqlite_store.go:352-362 | Swapping from both ends reverses the rows in place |
| Stores.SelectRows | runtime/memory/sqlite_store.go:225-243 | Collecting newest first and reversing yields the last rows in insertion order |
| Stores.DoubleWriteStore.Add | runtime/memory/double_write_store.go:17-21 | Writes the snapshot to the primary and, if its insert succeeds, to the secondary |
| Stores.DoubleWriteStore.AddCycle | runtime/memory/double_write_store.go:23-31 | Writes the record to the primary and, under the number assigned there, to the secondary |
| Stores.DoubleWriteStore.Last | runtime/memory/double_write_store.go:33-38 | Answers with the last n of the primary if the query fails or none of the last n rows can be read, and else with exactly the readable ones of those rows, in order |
| Stores.DoubleWriteStore.LastCycles | runtime/memory/double_write_store.go:40-45 | The same for cycles |
| Stores.LastIs | runtime/memory/double_write_store.go:33-38 | From any two stores, for every n and whatever fails: the snapshots read are the last n of the primary, or the readable ones of the last n rows by their positions, and which of the two |
| Stores.LastCyclesIs | runtime/memory/double_write_store.go:40-45 | The same for cycles |
| Stores.StoredIffSameColumns | runtime/memory/sqlite_store.go:186-200 | Two records give the same row if and only if they agree in each of the seventeen columns of the insert |
| Stores.PrimaryIsWindow | runtime/memory/state.go:69-91 | At all times the primary is the last 20 entries of the history of all writes, whatever inserts failed |
| Stores.ReadsRefineHistory | runtime/memory/double_write_store.go:17-45 | Without failures every read is the last n entries of one append-only history, cycles through the stored columns |
| Stores.ReadsAgreeWithPrimary | runtime/memory/double_write_store.go:33-45 | Without failures and for at most 20 entries, reading the tables gives what the primary alone would give |
| Stores.ReadsStayInHistory | runtime/memory/double_write_store.go:33-45 | Whatever inserts, queries and scans fail, a read is an ordered subsequence of the history |
| Stores.NewestIsReadIff | runtime/memory/double_write_store.go:40-45 | After an AddCycle, reading one cycle gives the newest record if and only if its insert succeeded or no row was ever stored |
| Stores.TableIsFiltered | runtime/memory/sqlite_store.go:171-205 | At all times the table is the history without the records whose insert failed |
| Stores.ReadsAgreeIff | runtime/memory/double_write_store.go:40-45 | Whatever inserts failed, a read of 1 to 20 cycles agrees with the primary up to the stored columns if and only if the table is empty or the last n inserts, or all if there were fewer, succeeded |
| Stores.CountersAgreeIff | runtime/memory/double_write_store.go:23-31 | After any AddCycle the two counters agree if and only if the secondary did not start ahead by more than the cycles added, failed inserts included |
| Stores.RowNumbersIncrease | runtime/memory/sqlite_store.go:171-184 | Row numbers stay strictly increasing when no row starts beyond the primary's counter |
| Stores.TableOrderIff | runtime/memory/sqlite_store.go:171-184 | A table on its own, whatever inserts failed before, keeps its rows in order if and only if it is empty or the record is unnumbered or numbered above the newest row; the counter never goes back |
| Stores.WindowStaysConsecutive | runtime/memory/state.go:84-89 | The window carries consecutive numbers ending at the counter |
| Logs.Logger.Rotate | runtime/memory/logger.go:107-125 | Archives the current file, ignoring failed removals and renames but not a failed archiving; at every iteration of the loop what can be read is an ordered part of what could be read before, and all but the oldest backup of it while nothing fails |
| Logs.Logger.RotateIfNeeded | runtime/memory/logger.go:90-104 | Rotates exactly when the current file exists and has reached the limit; a failed stat is an error |
| Logs.Logger.Write | runtime/memory/logger.go:62-86 | The files after a write are those of the run extended by it and its failures; it succeeds exactly when the line is appended and, under a limit, the file can be inspected and archived when full; the entry is then the last of the current file, alone if that was full |
| Logs.Logger.BackupList | runtime/memory/logger.go:164-171 | The status lists the existing backups in order, which are 1..k, one per rotation up to the limit, if every rename worked |
| Logs.RenameLosesNothing | runtime/memory/logger.go:113-117 | One rename of the loop into a free index leaves the readable log unchanged |
| Logs.RotationMovesUp | runtime/memory/logger.go:107-125 | When nothing fails every kept backup moves up by one and the current file becomes backup 1 |
| Logs.RotationFinds | runtime/memory/logger.go:107-125 | Whatever fails in a rotation, what is then found at each index: the archived file, the backup from below if its rename worked, or what was there and did not move |
| Logs.ArchiveLostIff | runtime/memory/logger.go:107-125 | A rotation loses the oldest backup if and only if it is removed or overwritten, and any other if and only if its own rename fails and something lands on it |
| Logs.RotationKeepsOrder | runtime/memory/logger.go:107-125 | Whatever fails in a rotation, what can be read after it is an ordered part of what could be read before |
| Logs.RotationLeaves | runtime/memory/logger.go:107-125 | Whatever fails in a rotation, what can be read after it is what could be read before less exactly the backups it loses |
| Logs.FilesKeepOrder | runtime/memory/logger.go:62-125 | Over whole runs with any failures, the files read back an ordered subsequence of everything appended |
| Logs.FilesHoldSuffix | runtime/memory/logger.go:62-125 | As long as renames of existing backups work, whatever else fails, backups from the oldest to the newest and then the current file are what remains of everything written once the discarded oldest backups are taken off its front |
| Logs.HoldsEndIff | runtime/memory/logger.go:62-125 | Whatever fails, in a run that writes no entry twice the files hold a contiguous end of everything written at every moment if and only if no rotation loses a backup with something in it and keeps an older one that has |
| Logs.FailedArchivesVacate | runtime/memory/logger.go:107-122 | While only archiving fails, each attempted write to a full log moves the backups up and loses the oldest, until as many attempts as there are slots have left none |
| Logs.BackupsAreContiguous | runtime/memory/logger.go:107-125 | If renames and archiving work, the existing backups are exactly 1..k with k the number of rotations, up to the limit |
| Logs.FileSizes | runtime/memory/logger.go:99-103 | Whatever fails, every existing backup holds at least the limit and no file reaches the limit plus the largest entry |
| Logs.DiscardingKeepsEnough | runtime/memory/logger.go:107-122 | If renames and archiving work, once anything was discarded at least the limit times the number of backups of the newest log remains |
| Logs.NoLimitNoRotation | runtime/memory/logger.go:66-71 | With a limit of 0 or below no backup ever appears and the current file holds everything written |
| Alerts.AlertAgent.constructor | runtime/agents/alert_agent.go:56-78 | A new agent has seen no sample and has never alerted |
| Alerts.AlertAgent.Analyze | runtime/agents/alert_agent.go:93-158 | The alerts of a cycle are those that its samples, thresholds and earlier alerts call for, in the order CPU, RAM, disk |
| Alerts.AlertsAreDocumented | runtime/agents/alert_agent.go:93-158 | A cycle raises a critical CPU alert if and only if the last minCycles values of cpuPercent reach the CPU threshold, no CPU alert fell in the cooldown - 1 cycles before and, before the first one, the cooldown is at most 1000 plus the index; likewise for RAM with memPercent, and a warning for the disk after one sample; each carries its own value, threshold and run |
| Alerts.CountersAreExact | runtime/agents/alert_agent.go:97-140 | The run counter is the exact number of trailing high samples and the last-alert field the exact cycle of the last alert |
| Alerts.FiresIff | runtime/agents/alert_agent.go:101-117 | A sample raises an alert if and only if the last minCycles samples are high, no alert fell in the cooldown before it, and, before the first alert, the cooldown is at most 1000 plus its index |
| Alerts.RuleIff | runtime/agents/alert_agent.go:73-75 | The code follows the declarative rule on every history if and only if the cooldown is at most 999 plus the cycles an alert needs |
| Alerts.RuleBroken | runtime/agents/alert_agent.go:73-75 | With a longer cooldown, the history of just that many high samples owes an alert that is not raised |
| Alerts.RuleIsUnique | runtime/agents/alert_agent.go:93-158 | The rule determines the alerts: any alert sequence that follows it is the one of the code |
| Alerts.AlertsAreSpaced | runtime/agents/alert_agent.go:103-115 | Any two alerts of a metric are at least the cooldown apart |
| Alerts.RateBound | runtime/agents/alert_agent.go:103-115 | Any window of N cycles raises at most N / cooldown alerts, rounded up |
| Alerts.Responsiveness | runtime/agents/alert_agent.go:101-119 | Every minCycles + cooldown - 1 high samples in a row contain an alert |
| Alerts.MetricsAreIndependent | runtime/agents/alert_agent.go:100-155 | The alerts of a metric depend on its own samples only |
| Breakers.CircuitBreaker.Allow | runtime/llm/circuit_breaker.go:61-83 | Refuses exactly while open and younger than the timeout, turns half-open when it lets a call through again, and changes nothing else |
| Breakers.CircuitBreaker.RecordSuccess | runtime/llm/circuit_breaker.go:86-98 | Clears the counter and closes a half-open breaker, but not an open one |
| Breakers.CircuitBreaker.RecordFailure | runtime/llm/circuit_breaker.go:101-118 | Counts and dates the failure and opens at the limit or from half-open |
| Breakers.FailuresAreCounted | runtime/llm/circuit_breaker.go:86-118 | Over all traces the counter is the number of failures since the last success, and a closed breaker with failures is below its limit |
| Breakers.RefusalsAreRecent | runtime/llm/circuit_breaker.go:69-76 | Every refusal is explained by the latest failure being less than the timeout old |
| Breakers.ProbesAreApart | runtime/llm/circuit_breaker.go:69-76 | Any two changes from open to half-open are at least the timeout apart |
| Breakers.ProbeRate | runtime/llm/circuit_breaker.go:69-76 | A span of time holds at most span / timeout + 1 such changes |
| Breakers.HalfOpenIff | runtime/llm/circuit_breaker.go:61-118 | Over all traces the breaker is half-open if and only if some probe has no success or failure after it |
| Breakers.HalfOpenAdmitsEveryCall | runtime/llm/circuit_breaker.go:78-79 | Every call of a half-open period is let through, so that it admits a single one if and only if no call falls between the probe and its report |
| Breakers.AnyNumberOfCalls | runtime/llm/circuit_breaker.go:78-79 | Whatever the limits, a trace from a fresh breaker lets any number of calls through on one probe |
| Breakers.AfterFailures | runtime/llm/circuit_breaker.go:101-118 | After failures alone the breaker is open exactly when it was not closed before or the limit was reached |
| Retries.ThinkWithDecision | runtime/llm/ollama.go:124-184 | A call is refused exactly while the breaker is open and younger than its timeout, changes nothing then and only logs; any other leaves in the breaker exactly the events of its attempts and returns their outcome |
| Retries.Loop | runtime/llm/ollama.go:136-183 | The loop reports each transport failure, a cancellation, one success or one final failure, and returns accordingly |
| Retries.FailedCall | runtime/llm/ollama.go:147-183 | A call of which nothing comes counts each attempt whose transport failed and one failure more, ends open exactly when it was a probe or reached the limit, and returns a log decision without a command and the error of its last attempt |
| Retries.OutageOpensBreakerIff | runtime/llm/ollama.go:130-183 | When the transport fails at every attempt, all attempts and one more are counted, and the breaker ends open if and only if the call was a probe or the limit is at most the failures so far plus attempts plus one |
| Retries.UnparseableCountsOnce | runtime/llm/ollama.go:160-181 | A call whose replies all yield no decision adds exactly one failure, however many there are |
| Retries.SucceedingCall | runtime/llm/ollama.go:147-178 | A call whose first reply to yield a decision is that of attempt k returns it, clears the counter, remembers its last transport failure and leaves the breaker closed if and only if its own transport failures had not opened it |
| Retries.CancelledCall | runtime/llm/ollama.go:138-145 | A call cancelled before attempt k counts the transport failures before it plus one and returns a log decision without a command |
| Retries.EveryCallIsOfAKind | runtime/llm/ollama.go:136-183 | Every script of attempts is fruitless to its end, cut off, or replied to, so that the laws of these three kinds cover every call |
| Retries.CallIsSafe | runtime/llm/ollama.go:160-183 | Every call either only logs or returns the safe decision of the first of its own replies that is one, with the number of that attempt |
| Retries.CallEndsPeriod | runtime/llm/ollama.go:124-184 | No whole call, whatever comes of it, leaves the breaker half-open |
| Retries.OneByOneProbesAlone | runtime/llm/ollama.go:124-184 | In any sequence of calls that do not overlap, every half-open period lets exactly one call through |
| Retries.OutageClosedIff | runtime/llm/ollama.go:130-183 | Over any sequence of calls at whose every attempt the transport fails, a closed breaker is still closed if and only if the failures so far, attempts plus one for each call, stay below the limit, and until then every call goes through |
| Retries.OutageRate | runtime/llm/ollama.go:124-183 | Over any sequence of such calls, at most span / timeout calls reach the model besides those it takes to open the breaker |
| Parsers.CleanLLMOutput | runtime/llm/parser.go:76-95 | The steps of the implementation yield the span between the outermost braces whenever there is one |
| Parsers.CleanIsSpan | runtime/llm/parser.go:76-95 | When the last closing brace follows the first opening one, cleaning returns exactly the text from one to the other |
| Parsers.SurroundingsDoNotMatter | runtime/llm/parser.go:76-95 | Fences and prose around a braced text never change the result, and cleaning it again changes nothing |
| Parsers.FindAllIsEveryBlock | runtime/llm/parser.go:100-101 | The leftmost non-overlapping scan finds exactly the innermost brace pairs |
| Parsers.FindAllIsSorted | runtime/llm/parser.go:100-101 | The scan yields them from left to right |
| Parsers.ExtractIsLeftmost | runtime/llm/parser.go:98-111 | Extraction returns the leftmost innermost brace pair whose text decodes and fails exactly when there is none |
| Parsers.ExtractJSON | runtime/llm/parser.go:98-111 | The loop over the matches returns that extraction |
| Parsers.AcceptedDecision | runtime/llm/parser.go:114-152 | A text is accepted exactly when it decodes to a decision with an analysis that is not blank and one of the four action names in any case and with any blanks; the result keeps the texts, has confidence 0.5 for an absent one, and is a suggestion without a command exactly when it says execute with a decoded confidence below 0.75 |
| Parsers.ParseAndValidateText | runtime/llm/parser.go:114-152 | Changing the decoded decision in place does the same, and a rejection says whether the text did not decode, lacks an analysis or names no action |
| Parsers.NormalizedIff | runtime/llm/parser.go:120-121 | Trimming and lowering gives an action name exactly when the text is that name in any case with blanks around it |
| Parsers.LeftmostBlockDecides | runtime/llm/parser.go:55-72 | A reply that is no valid decision as a whole is accepted if and only if its leftmost decoding block is valid, even if a later one would be |
| Parsers.AcceptedReplyIsSafe | runtime/llm/parser.go:46-73 | Every accepted reply has a valid action and an analysis, and is confident if it is an execute |
| Parsers.DoubtfulExecuteIsDisarmed | runtime/llm/parser.go:123-149 | A reply that is judged by a text that says execute with a confidence absent or below 0.75 never yields a command |
| Parsers.DoubtfulReplyYieldsIff | runtime/llm/parser.go:46-73 | A reply that says so as a whole yields a command if and only if it has no analysis and its leftmost decoding block is a valid decision with a command that does not say so itself |
| Parsers.NestedReplyYields | runtime/llm/parser.go:46-73 | An object without an analysis around another one that is a valid decision is judged by the inner one |
| Parsers.FencedReplyIsAccepted | runtime/llm/parser.go:46-53 | A valid decision is accepted as it stands, whatever prose or fences surround it |
| Orchestrators.ExecutesIffStillHigh | runtime/core/orchestrator.go:163-187 | Verification passes exactly when every positive trigger is at most five points above the current value |
| Orchestrators.ExecuteGuard.Allow | runtime/core/orchestrator.go:32-42 | Refuses exactly the last command within its cooldown; a grant records the command and its time |
| Orchestrators.ExecuteGuard.CooldownRemaining | runtime/core/orchestrator.go:44-50 | Returns exactly how long the last command would still be refused, never a negative time, and nothing before the first grant |
| Orchestrators.Orchestrator.constructor | runtime/core/orchestrator.go:92-108 | A new orchestrator has granted, run and published nothing, whatever the store holds |
| Orchestrators.Orchestrator.HandleObserved | runtime/core/orchestrator.go:189-229 | A tick runs the command of the last cycle in the store exactly when it is not busy, there is a command, its triggers hold and the guard grants it; a dry run publishes nothing; the run grows by exactly this tick |
| Orchestrators.RunsIff | runtime/core/orchestrator.go:163-229 | There is something to run if and only if the record read has a command, each positive trigger is at most five points above its own metric, and the command is not the last one granted or that was a cooldown ago |
| Orchestrators.SystemAgent.Remember | runtime/agents/system_agent.go:84-102 | Stores the decision with each of its fields and then its snapshot; the record of an execute carries the three metrics as triggers and any other none |
| Orchestrators.SystemAgent.Run | runtime/agents/system_agent.go:34-111 | A decision cycle extends the run by the record of what the call decided, or of the fallback when the breaker refused it |
| Orchestrators.EveryRunIsJustified | runtime/core/orchestrator.go:207-226 | In every run, every command that ran was stored before the tick that ran it, or present at the start, was what that tick read, and was called for by its own triggers |
| Orchestrators.DoubtfulRepliesNeverRun | runtime/core/orchestrator.go:207-226 | In every run, a command that was not present at the start is that of the first acceptable reply of an earlier call, the text which that reply was judged by does not say execute with a confidence absent or below 0.75, and the whole reply says so only if it has no analysis and a block inside it decided |
| Orchestrators.DoubtfulReplyRunsIff | runtime/core/orchestrator.go:207-226 | A reply that says so as a whole gets a command run if and only if it has no analysis and its leftmost decoding block is a valid decision with a command that does not say so |
| Orchestrators.NestedDecisionRuns | runtime/llm/parser.go:55-72 | Any object without an analysis around a valid decision with a command gets the inner command run |
| Orchestrators.ExecutedWhileStillHigh | runtime/agents/system_agent.go:84-97 | Any executed decision of the run ran while all metrics it was taken on were at most five points lower |
| Orchestrators.RunsWhileStillHigh | runtime/core/orchestrator.go:163-187 | Any command ran while all metrics recorded as its triggers were at most five points lower |
| Orchestrators.ReadsLatestIff | runtime/memory/double_write_store.go:40-45 | From any store and whatever fails, a tick reads the latest record if and only if its insert succeeded or the table does not answer; otherwise it reads the record of an earlier step or one present at the start |
| Orchestrators.RunsLatestIff | runtime/core/orchestrator.go:207-226 | From any store, a run is that of the latest decision before its tick if and only if that decision's insert succeeded or the table did not answer |
| Orchestrators.OnlyTheLatestRuns | runtime/core/orchestrator.go:207-226 | Without failures, once a newer decision is stored no older command runs |
| Orchestrators.NonExecuteCommandRuns | runtime/core/orchestrator.go:207-210 | Any accepted reply that is no execute but has a command gets it run by the next observation, whatever its confidence and the metrics |
| Orchestrators.OnlyExecutesRunIff | runtime/core/orchestrator.go:207-210 | Starting with nothing stored, and whatever is observed around some decisions, only executes run if and only if no other of them has a command |
| Orchestrators.AlternationIsNotLimited | runtime/core/orchestrator.go:36-40 | Two commands decided in turn run any number of times while no time passes, whatever the cooldown |
| Orchestrators.RefusedIffJustRan | runtime/core/orchestrator.go:32-42 | In every run the guard refuses a command exactly when the very last run was of it and is too recent |
| Orchestrators.RepeatsAreSpaced | runtime/core/orchestrator.go:32-42 | Two runs in a row of the same command are at least the cooldown apart |
| Orchestrators.CloseRepeatsNeedAnother | runtime/core/orchestrator.go:32-42 | A command runs twice within its cooldown only if another one has run in between |
| Orchestrators.RepeatRate | runtime/core/orchestrator.go:32-42 | While nothing else runs, a command runs at most span / cooldown + 1 times in a span of time |
| Orchestrators.UnchangedDecisionRate | runtime/core/orchestrator.go:207-226 | From the moment a decision has its row and for as long as nothing else is stored, however the queries end, commands run at most span / cooldown + 1 times in a span of time |
| Orchestrators.SteadyReadsRate | runtime/core/orchestrator.go:207-226 | The same holds whatever the two stores hold while nothing is stored and every query ends alike |
| Orchestrators.UnchangedRateIff | runtime/core/orchestrator.go:207-226 | From any state of any run on, no command exceeds its rate while nothing is stored, however the queries end, if and only if the newest row and the primary's newest record do not carry two different commands |
| Orchestrators.UninsertedDecisionFlickers | runtime/memory/double_write_store.go:40-45 | After one decision with its row and another without, three observations at one time run the first command, the second and the first again |
| Orchestrators.PublishedRuns | runtime/core/orchestrator.go:215-225 | A dry run publishes no executed event; otherwise each run is announced once, in order |
| Containers.DockerAgent.DetectChanges | runtime/agents/docker_agent.go:88-133 | An alert is among those of a scan if and only if a container in it is exited and unseen, exited and last seen running, or unhealthy and not so when last seen, unless unseen and exited |
| Containers.DockerAgent.FilterWatchList | runtime/agents/docker_agent.go:150-161 | Keeps exactly the containers with a name on the list, compared without case, in the order of the scan |
| Containers.DockerAgent.Run | runtime/agents/docker_agent.go:32-86 | An unreachable Docker changes nothing; a scan of the watched containers, all of them if the list is empty, adds its alerts to those of the run and becomes the memory |
| Containers.MemoryIsLastObservation | runtime/agents/docker_agent.go:62-65 | The memory of a container is its last observation, however many scans have missed it since |
| Containers.AlertsAreEdges | runtime/agents/docker_agent.go:88-133 | The alerts of a run about a container are exactly the edges of its own observations, in order |
| Containers.AlertCounts | runtime/agents/docker_agent.go:94-122 | Stop alerts number one if first seen exited plus the changes from running to exited; health alerts number the changes to unhealthy less the one swallowed on a first sighting that is exited |
| Containers.WatchedAre | runtime/agents/docker_agent.go:46-49 | The watched containers are exactly those with a name on the list, or all if it is empty, as often and in the order they are scanned |
| Contexts.StableStreak | runtime/llm/context_builder.go:260-269 | Counts the cycles since the last alert cycle |
| Contexts.DominantKey | runtime/llm/context_builder.go:292-302 | Returns a key with the greatest count |
| Contexts.CountActions | runtime/llm/context_builder.go:41-44 | Counts every action that occurs, and nothing else |
| Contexts.AlertRateIs | runtime/llm/context_builder.go:47-48 | The alert rate times the number of cycles is a hundred times the number of alert cycles, and 0 for none |
| Contexts.RecentAlertsAre | runtime/llm/context_builder.go:50-55 | The recent alerts are the analyses of the first three alert cycles |
| Contexts.Average | runtime/llm/context_builder.go:193-202 | The mean times the number of values is their sum, and no values have mean 0 |
| Contexts.TrendsAre | runtime/llm/context_builder.go:59-62 | Once there are three snapshots each metric is critical, elevated, rising or falling exactly when its own readings, threshold and half means say so, and the trend carries those numbers |
| Contexts.ForecastsAre | runtime/llm/context_builder.go:63-66 | Each forecast exists exactly when its own readings will reach their own threshold within 100 cycles, and the diagnosis is that of processor and memory |
| Contexts.TrendOfProgression | runtime/llm/context_builder.go:168-191 | A metric that changes by one step per snapshot, below 85 percent of its threshold, is rising, falling or stable exactly as length times step is above 20, below -20 or in between |
| Contexts.HalvesOfProgression | runtime/llm/context_builder.go:173-175 | On a progression the means of the two halves differ by half the length times the step |
| Contexts.RecentAlertsIff | runtime/llm/context_builder.go:50-55 | The alerts kept are the latest three when there are at most three; when there are more and all differ they are not, and the latest is missing |
| Contexts.CorrelationIff | runtime/llm/context_builder.go:229-250 | The diagnosis names exactly which of processor and memory have changed by more than two points a snapshot in all, and there is none when neither has |
| Contexts.CalendarIsEven | runtime/llm/context_builder.go:70-72 | The periods are the four quarters of the day in order, and the weekend is Saturday and the Sunday after it |
| Contexts.StabilitySignalsAgree | runtime/llm/context_builder.go:47-55 | A zero alert rate, a streak over the whole window and no recent alert are equivalent |
| Contexts.BuildAdaptiveContext | runtime/llm/context_builder.go:33-78 | The dominant action is a most frequent one, the alerts are the first three, the three stability signals agree, and the outlook holds the trend and forecast of each metric and the correlation once there are three snapshots |
| Contexts.SlopeIsMeanChange | runtime/llm/context_builder.go:252-257 | The slope read off the two ends is the mean of all changes in between |
| Contexts.ForecastIff | runtime/llm/context_builder.go:273-290 | There is a forecast exactly when the threshold lies ahead but within 100 cycles at the present slope, and it reaches the threshold exactly |
| Contexts.ForecastIsCrossing | runtime/llm/context_builder.go:273-290 | On a steadily growing metric, k more cycles reach the threshold if and only if k is at least the forecast |

## Left out

- Floating point: rates, tokens and percentages are exact reals, and messages keep their numbers unrounded.
- Negative buffer sizes of the bus: the implementation panics when it makes such a channel.
- Contexts.BuildAdaptiveContext: keeps the kind and the numbers of a trend, a forecast or a correlation and not the sentence made of them.
- Stores.State.Last: requires n to be at least 0, because the implementation panics on a negative n; the same holds for LastCycles and for both reads of the double store.
- Stores: two AddCycle calls of the double store that overlap are not modelled; the only caller runs them one after the other. A read between the two writes of one call answers like a read before it, if the table answers, or else like one after it.
- Aggregated history queries (SnapshotBuckets, TotalSnapshots), SQL text, migrations and timestamp formats: they are the meaning of SQL and not of this code.
- Saving and loading of the JSON state, and its reset when corrupted: a run starts from an arbitrary store instead.
- Logs.Logger.Write: does not model a line that is written in part; a log starts with no files.
- Alert entries appended to the alert file without rotation, and the notifiers.
- Retries: the transport, the sleeps between attempts and the jitter; an attempt is its outcome and the time at which it is reported. The attempts of a call are given as one list of the configured length.
- Parsers.ToLower: lowers ASCII letters only, which decides the same action names, because no other character is lowered to a letter of them.
- Parsers.Truncated: cuts by character and not by byte.
- Orchestrators: the execution of a granted command, with its whitelist and timeout, and the answers of the similarity store.
- Orchestrators.DoubtfulRepliesNeverRun: says nothing about a command attached to an action other than execute, which the implementation runs without any check of its confidence, nor about one that an earlier program left in the store.
- Containers.DockerAgent.FilterWatchList: which two names are equal without case is a parameter.
- Containers.AlertsAreEdges: requires the names within one scan to be distinct, as the Docker engine guarantees.
- The dashboard, the web server apart from its rate limiter, the command line, configuration parsing, the agent registry, the daily report and the file and similarity agents: no state of comparable depth.
