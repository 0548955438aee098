# Dafny model of the msbd daemon's stateful core

msbd keeps microVM sandboxes on a host and serves them over HTTP. Everything that the
microsandbox SDK does not guarantee by itself rests on a few pieces of state inside the daemon:
the background jobs, the cap on sandboxes, the cache of live sandbox handles, terminal sessions,
the bearer-token cache, terminal tickets, and the account store. This project models those
pieces and proves what they keep, mostly over every interleaving of the goroutines that share
them.

`dafny verify dfyconfig.toml` checks the whole project.

## How the model is built

Where the code changes state in place there is a class with the same fields and one method per
mutex-protected section (or per call, run without interference). Each method is proved equal to
a function on the abstract state: `RingBuffer.Write` to `Written`, the switch in `drain` to
`Handled`, `RedeemTerminalTicket` to `Accepts`, and so on. The whole-run theorems then speak
about transition systems whose steps are exactly those functions: a `Run` is a sequence of
worlds joined by steps, each step is one critical section or the start or return of one call
out of the daemon, and any number of threads take steps in any order.

| module | subject | source |
|---|---|---|
| `RingBuffers` | the bounded output buffer, over an array | `internal/core/jobs.go` |
| `JobSections`, `Jobs`, `JobRuns` | a job's critical sections, the job and registry classes, all interleavings | `internal/core/jobs.go` |
| `Admission` | admission of `Create` under the cap | `internal/core/service.go` |
| `LiveHandles` | handle cache, single-flight resolve, conservation of handles | `internal/core/registry.go` |
| `Terminal` | pump, bounded channel, `Close`, `Wait` | `internal/core/terminal_agent.go` |
| `Tickets` | single-use terminal tickets | `internal/core/tickets.go` |
| `KeyCaches`, `KeyCacheRuns`, `AuthRuns` | the bearer-token cache against the key table | `internal/store/cache.go` |
| `Migrations` | crash-resumable migrations | `internal/store/store.go` |
| `Accounts`, `AdminRaces` | users and sessions with atomic store calls; the last-admin rule statement by statement | `internal/store/users.go`, `internal/store/sessions.go` |
| `ShellWords` | `shellQuote` against a reader of shell words | `internal/core/service.go` |
| `ClassTokens`, `Text` | important markers and reordering of class lists | `internal/dashboard/utils/shadcn-templ.go` |

Assumptions: the SDK's answers are arbitrary inputs of the steps; `singleflight` shares one
execution among concurrent calls for a key; random ids and tokens are fresh; token hashes do not
collide; the database does what each statement says; clock readings do not go back; one process
runs migrations at a time. Lists and table contents that another process edits are arbitrary
steps, not assumptions.

## Where the code is weaker than its comments

For each of these there is a concrete run or input in which the comment's claim fails, and a
theorem over all runs or inputs that says when it holds.

- The comment on `Truncated` (`internal/core/jobs.go:56`) says "overflowed". One write of exactly
  the capacity sets the flag without any loss; apart from that the flag is exact
  (`TruncatedExactly`, `FlagWithoutLoss`).
- `killed` is meant to tell a stopped job from one that exited 0 (`internal/core/jobs.go:370-371`).
  It is lost exactly when drain handles a late Exited or Failed event and no cancel marks the job
  after that (`KilledReplacedExactly`, `KilledIsNotFinal`).
- A cancel is said not to overwrite a recorded exit (`internal/core/jobs_cancel_test.go:97-98`).
  It does so exactly when it had found the job running before the exit was recorded and ends
  after it (`FinishedOverwrittenExactly`, `ExitIsNotFinal`).
- `Invalidate` is said to take effect immediately (`internal/store/cache.go:139-141`). For `Valid`
  it does exactly when no call is between its answer from the store and its write to the cache;
  for calls that begin afterwards, exactly when no such call has read its clock within the last
  five seconds (`InvalidateIsImmediateExactly`, `LaterCallsFreshExactly`,
  `StaleAfterInvalidate`). For `AuthConfigured` it always does (`AuthRuns.FreshAfterInvalidate`).
- Single flight is said to prevent overwritten handles (`internal/core/registry.go:63-65`).
  `Create` stores its handle outside the flight. A resolve overwrites a handle exactly when
  Create stored one after the resolve's re-check, and Create overwrites one exactly when a
  resolve stored one after Create drew the name, in both cases if nothing forgot it in between
  (`ResolveOverwritesExactly`, `CreateOverwritesExactly`, `CreateAndResolveCollide`).
- The last admin cannot be removed as long as store calls are atomic. The check and the write are
  separate statements: a write loses the last admin exactly when what its call had established
  no longer holds, which takes another call's write in between (`AdminsNeverVanish`,
  `WriteLoses`, `LostOnlyByOverlap`, `DeletionsRace`).
- The cap bounds what `Create` makes, always. It bounds the host only as long as nothing boots
  outside admission, as pulling an image does: the host exceeds it by at most the number of such
  boots, and passes it exactly at such a boot or at a reservation whose listing one has overtaken
  (`NeverOvershoots`, `HostStaysInBounds`, `PassesCapExactly`, `OutsideBootsAreNotCounted`).
- Migrations are to be append-only (`internal/store/store.go:151-152`), which the code does not
  check. An upgrade has the schema of a clean install exactly when the new release keeps the
  files applied, in place and unedited (`UpgradeIsCleanExactly`, `EditedFileIsSkipped`,
  `InsertedFileRunsLate`).
- `SweepSessions` treats a session that expires at this very instant as expired, `LookupSession`
  does not (`SweepSeenExactly`).

## Model

| member | source | states |
|---|---|---|
| RingBuffers.RingBuffer.constructor | internal/core/jobs.go:70-75 | An empty ring of the asked capacity, or of 1 MiB when that is not positive. |
| RingBuffers.RingBuffer.Write | internal/core/jobs.go:77-93 | The write keeps exactly the last `cap` bytes of what was held followed by the new data, counts all of it, and reports all of it written. |
| RingBuffers.RingBuffer.Keep | internal/core/jobs.go:80-91 | The in-place branches have the effect of the three-way cut and flag what they drop. |
| RingBuffers.KeptIsLast | internal/core/jobs.go:80-91 | Each of the three ways of cutting gives the last `cap` bytes of old contents plus new data. |
| RingBuffers.RingKeepsTail | internal/core/jobs.go:61-93 | After any sequence of writes the ring holds the last min(total, cap) bytes of their concatenation, and total is its length. |
| RingBuffers.TruncatedExactly | internal/core/jobs.go:77-93 | The flag is up if and only if more than `cap` bytes were written or one write of exactly `cap` bytes brought all of them. |
| RingBuffers.TruncationReport | internal/core/jobs.go:56-67 | Flag down means nothing lost; total above cap means flag up; flag up means total at least cap; and the flag equals "something was lost" exactly when the ring was not filled at once. |
| RingBuffers.FlagWithoutLoss | internal/core/jobs.go:80-85 | A ring of two bytes after one write of two bytes: flag up, nothing lost. |
| Jobs.Job.constructor | internal/core/jobs.go:216-222 | A launched job is running, unstamped, with two empty rings and an unused handle. |
| Jobs.Job.GetSnapshot | internal/core/jobs.go:116-128 | A snapshot shows the state, both tails, both totals, and truncation of either stream. |
| Jobs.Job.MarkFinished | internal/core/jobs.go:130-137 | Changes the status only of a running job, and stamps any job. |
| Jobs.Job.HandleEvent | internal/core/jobs.go:250-281 | In place: stdout takes the data of a Stdout event and nothing else, stderr that of a Stderr event or a failure's text; an exit sets its code; exit, failure and end set the status, stamp the job with the clock reading and end the loop, no other event does. |
| JobSections.StdoutOneMore | internal/core/jobs.go:252-254 | What has been brought to stdout grows by the data of a Stdout event and by nothing else. |
| JobSections.StderrOneMore | internal/core/jobs.go:255-267 | What has been brought to stderr grows by the data of a Stderr event, by the text of a failure, and by nothing else. |
| Jobs.Job.Drain | internal/core/jobs.go:237-283 | For any stream, the loop handles what it receives of the stream, and the handle is closed once, with no call on it afterwards. |
| Jobs.DrainedEnds | internal/core/jobs.go:244-282 | Of a stream that is quiet up to some result, drain receives everything through that result, and the job then has the status, the exit code and the stamp that this result gives. |
| Jobs.DrainedBreaks | internal/core/jobs.go:245-249 | Of a stream that breaks off, drain receives everything and then the error, and a running job is dead at the time of the error. |
| Jobs.DrainedShows | internal/core/jobs.go:250-281 | Whatever drain receives, each ring holds what the results received have brought to its stream. |
| Jobs.Job.CancelAndKill | internal/core/jobs.go:385-396 | Cancels the job context, and kills through the handle exactly when it is not closed. |
| Jobs.Job.Cancel | internal/core/jobs.go:372-403 | Undisturbed, a finished job is left alone entirely; a running one is cancelled, killed through its handle unless that is closed, and marked killed. |
| Jobs.Job.SignalLive | internal/core/jobs.go:350-360 | Signals exactly when the handle is not closed, and changes nothing else. |
| Jobs.KeysAreUnique | internal/core/jobs.go:202 | The registry key of a pair of NUL-free ids is that of no other pair, NUL-free or not. |
| Jobs.NulBreaksKeys | internal/core/jobs.go:202 | With a NUL in an id, two different pairs share a key. |
| Jobs.PrefixIsSandbox | internal/core/jobs.go:405-416 | Among keys of NUL-free ids the prefix test selects a key if and only if it is one of that sandbox, for any string asked for, even when one sandbox id is a prefix of another. |
| Jobs.KillAll | internal/core/jobs.go:418-429 | Every victim is cancelled, and killed exactly once unless its handle is closed. |
| Jobs.KillBeside | internal/core/jobs.go:405-430 | The same, with every entry that stays listed unchanged, object by object. |
| Jobs.JobRegistry.constructor | internal/core/jobs.go:148-163 | An empty registry; limits that are not positive fall back to 1 MiB and 15 minutes. |
| Jobs.JobRegistry.Launch | internal/core/jobs.go:204-232 | Exactly one new entry, under the key of the pair, for a job made of fresh objects that no other entry shares. |
| Jobs.JobRegistry.Poll | internal/core/jobs.go:285-298 | Gone exactly when there is no entry, otherwise the snapshot of that job. |
| Jobs.JobRegistry.EvictExpired | internal/core/jobs.go:180-190 | One tick of the janitor deletes the expired entries, all of them and no others. |
| Jobs.JobRegistry.Sweep | internal/core/jobs.go:170-193 | The same, and the registry stays valid. |
| Jobs.JobRegistry.TakeOut | internal/core/jobs.go:406-417 | The victims are the jobs under the sandbox's prefix, each once; exactly their entries go. |
| Jobs.JobRegistry.DropSandbox | internal/core/jobs.go:405-430 | Removes exactly the entries of the sandbox, cancels and kills exactly those jobs, and leaves the objects of every other entry unchanged. |
| JobRuns.Reachable | internal/core/jobs.go:97-430 | The invariants of stamp, locks, handle calls, writes of the status and output hold in every world of every run. |
| JobRuns.RunningIffUnstamped | internal/core/jobs.go:130-193 | In every interleaving a job is running exactly while it has no finish stamp, and the janitor never deletes the entry of a running job. |
| JobRuns.EvictedExactly | internal/core/jobs.go:180-189 | In every interleaving the janitor deletes an entry if and only if, when it looked at the job just before, the clock reading of the latest section to finish the job lay back longer than the time to live. |
| JobRuns.StampIsLatest | internal/core/jobs.go:130-137 | The finish stamp is the clock reading of the latest section that finished the job. |
| JobRuns.DrainedIsFinished | internal/core/jobs.go:237-283 | In every interleaving a job that drain is done with has finished and is stamped, so it can be evicted in time. |
| JobRuns.CallStep | internal/core/jobs.go:237-429 | Every section of every thread keeps the discipline of calls on the SDK handle. |
| JobRuns.HandleDiscipline | internal/core/jobs.go:105-113 | In every interleaving nothing begins on the handle after Close has begun, Kill, Signal and Close never overlap, and Close has happened, once, when drain has returned. |
| JobRuns.WriteStep | internal/core/jobs.go:130-403 | Every section keeps: one assignment of the status per thread at most, killed only by cancelJob. |
| JobRuns.OneFinishPerThread | internal/core/jobs.go:130-403 | In every interleaving the status is the last one assigned, drain and each cancelJob assign at most one finished state, and the assignments of killed are those of cancelJob. |
| JobRuns.SnapshotShowsTail | internal/core/jobs.go:116-128 | A snapshot taken at any moment shows status, exit code and the last bytes of everything drain received on each stream so far, with true totals; it is flagged exactly when a stream overflowed or one write filled a ring at once. |
| JobRuns.LastResultDecides | internal/core/jobs.go:244-282 | In every interleaving drain's word on the job is done after an exit or the end of the stream, dead after a failure or an error, and given once, by the last result handled; the exit code is that of the exit received, 0 otherwise. |
| JobRuns.EveryResultIsHandled | internal/core/jobs.go:244-282 | In every interleaving drain handles every result of Recv, in order and unchanged. |
| JobRuns.ListedExactly | internal/core/jobs.go:182-189 | A job is in the registry if and only if neither dropSandbox nor the janitor has taken it out. |
| JobRuns.HelperActs | internal/core/jobs.go:341-361 | A signal that is done with the job has called Signal since it entered, a dropSandbox (lines 418-429) has called Kill, unless they found the handle closed. |
| JobRuns.CancelActs | internal/core/jobs.go:378-402 | A cancelJob that found the job running and is done has called Kill, unless it found the handle closed, and has marked the job killed. |
| JobRuns.CancelledBeforeKill | internal/core/jobs.go:363-396 | In every interleaving Kill is only called once the job context has been cancelled, so Recv has been told to let go. |
| JobRuns.MarkedIsKilled | internal/core/jobs.go:390-402 | A cancelJob that marks the job killed has called Kill before, unless it found the handle closed. |
| JobRuns.NobodyStuck | internal/core/jobs.go:363-396 | In every world of every run each unfinished thread can take a step, or waits for a lock whose holder can and is not waiting in Recv. |
| JobRuns.NeverBack | internal/core/jobs.go:139-193 | An entry that is gone stays gone, and a finished job never runs again. |
| JobRuns.PollsMoveForward | internal/core/jobs.go:285-298 | Polls of one job that do not overlap only move forward: running, finished, gone. |
| JobRuns.KilledReplacedExactly | internal/core/jobs.go:244-282 | Over any stretch of any run, a killed job is no longer killed if and only if drain has handled an Exited or Failed result in it and no cancelJob has marked the job after that; the Recv error that the cancel provokes does not count. |
| JobRuns.FinishedOverwrittenExactly | internal/core/jobs.go:372-403 | Over any stretch of any run, a done or dead job ends up killed if and only if a cancelJob that had found it running before the stretch reached its last section in it; otherwise its status is unchanged. |
| JobRuns.HasSeenRunning | internal/core/jobs.go:378-401 | A cancelJob that goes on after its check did find the job running at that check. |
| JobRuns.KilledIsNotFinal | internal/core/jobs.go:258-263 | A run in which a killed job becomes done. |
| JobRuns.ExitIsNotFinal | internal/core/jobs.go:378-401 | A run in which a job that exited with code 7 becomes killed. |
| JobRuns.SettledForever | internal/core/jobs.go:237-403 | Once drain has returned and no cancelJob is past its check, nothing a snapshot shows ever changes again. |
| Admission.Service.Admit | internal/core/service.go:207-219 | Denied exactly when the listing fails; admitted exactly when listing plus reservations are fewer than the cap, with one more reservation; a refusal reports their sum. |
| Admission.CountStep | internal/core/service.go:207-241 | Every step keeps the reservation counter equal to the number of Create calls past admission. |
| Admission.CapStep | internal/core/service.go:204-219 | Every step, deletions and outside boots between listing and decision included, keeps Create-made sandboxes plus open reservations within the cap. |
| Admission.NeverOvershoots | internal/core/service.go:200-249 | In every interleaving, whatever boots outside, sandboxes made by Create plus reservations not yet turned into one never exceed the cap, and `inflight` is the number of calls past admission. |
| Admission.TotalStep | internal/core/service.go:207-241 | Only an outside boot and a reservation add to what is on the host or promised, one each. |
| Admission.HostStaysInBounds | internal/core/service.go:207-219 | In every interleaving all sandboxes on the host plus open reservations are at most the cap, or what the host held at the start if that is more, plus the number of boots outside admission. |
| Admission.HostStaysInCap | internal/core/service.go:204-219 | A host that starts within the cap stays within it, reservations included, as long as nothing boots outside admission. |
| Admission.PassesCapExactly | internal/core/service.go:207-219 | A step takes the host past the cap if and only if the host is at the cap and the step is an outside boot or a reservation; and a reservation at the cap is one whose listing an outside boot has overtaken. |
| Admission.AdmittedExactly | internal/core/service.go:207-224 | In every interleaving a Create is admitted if and only if the sandboxes that it listed and the calls past admission that have not returned are together fewer than the cap; otherwise nothing is reserved. |
| Admission.DeniedUnverified | internal/core/service.go:209-213 | A Create whose listing fails is not admitted and reserves nothing. |
| Admission.RoomIsGranted | internal/core/service.go:214-219 | With no reservation open and room on the host, a Create is admitted. |
| Admission.OutsideBootsAreNotCounted | internal/core/image.go:129-167 | A run with a cap of one and two sandboxes on the host, the second from an image pull. |
| LiveHandles.Registry.BootAndVerify | internal/core/registry.go:191-214 | Succeeds exactly when the first or the one recovery boot verifies; the handles opened are those detached, namely those that did not come up, and the one returned. |
| LiveHandles.Registry.ResolveSlow | internal/core/registry.go:156-176 | Not found is failure; a box that is up is connected to and one that is down is booted; failure leaves the registry untouched and no handle open, success caches the handle returned. |
| LiveHandles.Registry.Resolve | internal/core/registry.go:135-154 | A hit returns the cached handle; a miss answers as the connect or boot does; after success the cache holds what was returned; no other name is touched. |
| LiveHandles.FlightStep | internal/core/registry.go:144-149 | Every step keeps the flight table and the running executions in step with each other. |
| LiveHandles.LedgerStep | internal/core/registry.go:156-214 | Every step keeps the ledger of opened, detached and returned handles. |
| LiveHandles.CourseOfFlight | internal/core/registry.go:144-214 | In every interleaving where an execution is tells what it has done since its re-check: it connects only to what is up, boots only what is down, stores only what connected or came up, and boots again only after one failed boot, detached and killed. |
| LiveHandles.ResultIsCached | internal/core/registry.go:144-153 | A flight that succeeds hands its waiters the handle that was in the cache for the name when it got it. |
| LiveHandles.FlownFor | internal/core/registry.go:144-149 | An execution works on the name that it was started for. |
| LiveHandles.CreateStoresItsOwn | internal/core/service.go:241-249 | Create stores the handle that its own boot opened. |
| LiveHandles.OneBootPerName | internal/core/registry.go:63-66 | A corollary of the single-flight contract: in every interleaving at most one boot sequence per name is under way. |
| LiveHandles.HandlesAreConserved | internal/core/registry.go:178-214 | In every interleaving each handle opened by a flight is still undecided in one flight, or detached exactly once, or returned exactly once; with no flight left, one of the last two. |
| LiveHandles.LiveExactly | internal/core/registry.go:78-99 | In every interleaving a name comes to be cached if and only if Create or a successful flight has stored it and nothing has forgotten it since; a failed resolve never changes that. |
| LiveHandles.ResolveOverwritesExactly | internal/core/registry.go:144-176 | A flight overwrites a live handle if and only if Create stored one for the name after the flight's re-check and nothing has forgotten it since. |
| LiveHandles.CreateOverwritesExactly | internal/core/service.go:230-249 | Create overwrites a live handle if and only if a flight stored one for the name after Create drew it and nothing has forgotten it since. |
| LiveHandles.StoreFindsEmpty | internal/core/registry.go:144-176 | So a flight that re-checks when no Create of its name is unfinished never overwrites a live handle. |
| LiveHandles.CreateAndResolveCollide | internal/core/service.go:241-249 | A run in which Create and a resolve each hold a handle to store for one name, and the later store replaces the earlier. |
| Terminal.AgentSession.Pump | internal/core/terminal_agent.go:267-308 | Undisturbed, the loop puts exactly the non-empty output frames up to the first terminating one on the channel, in order, and the exit code is that of that frame, or -1. |
| Terminal.ChunksGrow | internal/core/terminal_agent.go:285-296 | One more frame brings one more chunk exactly if it is an output frame with data, and then that data. |
| Terminal.FirstReportCounts | internal/core/terminal_agent.go:297-306 | Of any stream the frames through the first exit or failure count, and the exit code is the one that frame reports, if any, or -1. |
| Terminal.NoReport | internal/core/terminal_agent.go:276-308 | Without such a frame all frames count, and the exit code is -1. |
| Terminal.EveryFrameIsHandled | internal/core/terminal_agent.go:276-308 | In every interleaving the loop deals with every frame delivered, in order and unchanged. |
| Terminal.AgentSession.HandleFrame | internal/core/terminal_agent.go:285-306 | The switch on one frame sends its non-empty data, sets the code that it reports, and ends the loop exactly on exited and failed. |
| Terminal.AgentSession.Close | internal/core/terminal_agent.go:361-370 | Idempotent: only the first call closes the quit channel. |
| Terminal.CloseStep | internal/core/terminal_agent.go:361-386 | Every step of any number of Close calls keeps: one caller past the gate, one close of quit, cancellation only after it. |
| Terminal.DeliveredStep | internal/core/terminal_agent.go:276-307 | Every step keeps what was sent equal to the chunks of the frames consumed, up to the one chunk being sent or given up. |
| Terminal.OutputIsPrefix | internal/core/terminal_agent.go:267-308 | In every interleaving what the reader got is a prefix of what was sent, which is a prefix of the output frames consumed, with nothing consumed past a terminating frame; all of it when no Close was called. |
| Terminal.ChannelsCloseOnce | internal/core/terminal_agent.go:268-273 | In every interleaving no channel is closed twice, nothing is sent after `out` closes, and `out` closes only after `done`, so a reader that saw the end does not block in Wait. |
| Terminal.WaitIsFinal | internal/core/terminal_agent.go:388-399 | Once `done` is closed the exit code is that of the first terminating frame, or -1, and stays so. |
| Terminal.CloseEndsPump | internal/core/terminal_agent.go:263-295 | After Close and with no further frame, the pump always has a step to take without a reader, and each of its steps brings it nearer to its end. |
| Tickets.TicketRegistry.Mint | internal/core/tickets.go:42-50 | The new ticket lasts 60 seconds and is held beside all unexpired ones. |
| Tickets.TicketRegistry.Redeem | internal/core/tickets.go:55-70 | Accepts exactly a held, unexpired ticket of that sandbox, and consumes it even on a mismatch. |
| Tickets.TicketRegistry.SweepLocked | internal/core/tickets.go:73-80 | Drops exactly the expired tickets. |
| Tickets.AfterHolds | internal/core/tickets.go:42-80 | After any history the tickets held are exactly the unpresented ones, less some expired ones. |
| Tickets.RedeemedExactly | internal/core/tickets.go:52-70 | In any history a redemption succeeds if and only if the token was minted for that sandbox, has not been presented before, and has not expired. |
| Tickets.AcceptedInTime | internal/core/tickets.go:20-23 | A ticket that is accepted was minted for that sandbox at most 60 seconds before. |
| Tickets.NothingExpiredHeld | internal/core/tickets.go:72-80 | After a mint only tickets minted in the last 60 seconds are held. |
| Tickets.SingleUse | internal/core/tickets.go:52-54 | No token is accepted twice. |
| Tickets.OnlyExpiredSwept | internal/core/tickets.go:72-80 | The registry differs from one that never sweeps by expired tickets only. |
| Tickets.SweepingIsInvisible | internal/core/tickets.go:72-80 | Every redemption is answered as by a registry that never sweeps. |
| KeyCaches.KeyCache.LookUp | internal/store/cache.go:106-118 | A hit answers from the entry and claims the touch at most once a minute; a miss changes nothing. |
| KeyCaches.KeyCache.Store | internal/store/cache.go:120-135 | The entry for the answer lives five seconds from the clock reading; a full map is dropped first. |
| KeyCaches.KeyCache.AuthConfigured | internal/store/cache.go:79-93 | The memo answers while it lasts; otherwise true exactly when the count fails or is positive. |
| KeyCaches.VerifyExactly | internal/store/apikeys.go:202-220 | A token is verified as a key if and only if, trimmed, it is that key's token, and the key is neither revoked nor past its expiry. |
| KeyCaches.TouchedOnceAMinute | internal/store/cache.go:107-117 | A key in use is touched at most once a minute, however often it is looked up. |
| KeyCacheRuns.EntryStep | internal/store/cache.go:106-135 | Every step keeps each cache entry backed by a verdict no older than the entry, and the map within its bound. |
| KeyCacheRuns.AnswersAreRecent | internal/store/cache.go:99-137 | In every interleaving of callers, invalidations and edits by anyone, each answer is what VerifyAPIKey gave, to a call that asked about that very token, at a moment less than five seconds before the call's clock reading or later, and before the answer. |
| KeyCacheRuns.AnswersAreToCalls | internal/store/cache.go:99-106 | Every answer is one to a call, for its token, with the clock reading of its beginning. |
| KeyCacheRuns.AcceptedKeyWasLive | internal/store/cache.go:95-137 | A token that Valid accepts was, less than five seconds before the call's clock reading or later, that of a key in the table, neither revoked nor expired. |
| KeyCacheRuns.RejectedKeyWasNot | internal/store/cache.go:95-137 | A token that Valid rejects was not, at such a moment, or the store could not be read. |
| KeyCacheRuns.VerdictIsReal | internal/store/apikeys.go:202-220 | Every recorded verdict was given at a step of the run, to a caller that asked about its token, on the table and clock of that moment. |
| KeyCacheRuns.CacheIsBounded | internal/store/cache.go:131-134 | The map never exceeds 4096 entries. |
| KeyCacheRuns.FreshAfterInvalidate | internal/store/cache.go:139-152 | After an Invalidate that meets no call between its answer from the store and its write to the cache, every answer was given by the store afterwards, about that token. |
| KeyCacheRuns.InvalidateIsImmediateExactly | internal/store/cache.go:120-152 | Some continuation of the run gives an answer that predates the Invalidate if and only if a call was between its answer from the store and its write to the cache. |
| KeyCacheRuns.LaterCallsFreshExactly | internal/store/cache.go:99-152 | Some continuation gives such an answer to a call that begins after the Invalidate if and only if one of those calls read its clock less than five seconds before it. |
| KeyCacheRuns.StaleAfterInvalidate | internal/store/cache.go:120-137 | A run in which a call begun after revocation and Invalidate accepts the revoked token, because of a call in flight across both. |
| AuthRuns.MemoIsBacked | internal/store/cache.go:86-92 | Any memo rests on a count read within its five seconds: true if there was a row or the count could not be read, false otherwise. |
| AuthRuns.AnswersAreRecent | internal/store/cache.go:79-93 | So does every answer, true or false, on a count less than five seconds older than the call's clock reading. |
| AuthRuns.CallsReadTheClock | internal/store/cache.go:83 | The clock reading of a call is that of its beginning. |
| AuthRuns.FalseMeansEmpty | internal/store/cache.go:79-93 | AuthConfigured answers false only if a count of zero was read without error less than five seconds before the call's clock reading or later. |
| AuthRuns.StaysConfigured | internal/store/cache.go:75-78 | Once it has answered true, no creates, revocations, expiries, touches, invalidations or read errors make it false while the table is not empty. |
| AuthRuns.FreshAfterInvalidate | internal/store/cache.go:139-152 | After Invalidate, whatever was in flight, every answer of AuthConfigured rests on a count read afterwards. |
| Migrations.Store.Migrate | internal/store/store.go:153-210 | One run, stopped anywhere or not, has the effect of the abstract run, although it reads the applied names only once. |
| Migrations.Resumes | internal/store/store.go:184-209 | A run on a database with the first k migrations leaves the first k' with k' >= k, and all of them if it succeeds. |
| Migrations.RunGetsTo | internal/store/store.go:184-209 | A run gets exactly as far as its transactions do, a stopped one included if it was applied all the same, and succeeds exactly when there are commits enough for what was missing. |
| Migrations.AppliedByIs | internal/store/store.go:192-207 | c transactions that commit before one that does not are c applied, or c + 1 if that one was applied. |
| Migrations.PrefixAlways | internal/store/store.go:149-210 | After any runs, each stopped at any point, the record is a prefix of the sorted names and exactly its bodies are committed, once each and in order. |
| Migrations.SuccessIsClean | internal/store/store.go:149-152 | One successful run then leaves exactly the database of a single clean run. |
| Migrations.UpgradeIsCleanExactly | internal/store/store.go:149-152 | The upgrade of a database that any runs of an older release left, complete or not, ends with the schema of a clean install if and only if the newer release begins with the files applied, in order and with their bodies unedited. |
| Migrations.EditedFileIsSkipped | internal/store/store.go:184-187 | A shipped file edited under its own name: the upgrade succeeds and keeps the old body. |
| Migrations.InsertedFileRunsLate | internal/store/store.go:184-209 | A new file that sorts before an applied one is run after it, for any two files. |
| Accounts.Store.CreateUser | internal/store/users.go:115-150 | Invalid input first, then the case-insensitive uniqueness; otherwise one new row under a new id. |
| Accounts.Store.GetUser | internal/store/users.go:170-179 | The user of that name in any case, if there is one. |
| Accounts.Store.CountAdminsExcept | internal/store/users.go:209-214 | Positive exactly when another admin exists. |
| Accounts.Store.SetPassword | internal/store/users.go:219-237 | The new hash is stored and exactly that user's sessions go. |
| Accounts.Store.SetRole | internal/store/users.go:240-262 | The role is stored unless that would demote the only admin. |
| Accounts.Store.DeleteUser | internal/store/users.go:266-282 | The user and, by cascade, exactly that user's sessions go, unless it is the only admin. |
| Accounts.Store.CreateSession | internal/store/sessions.go:44-71 | One new session in whole seconds, by default of twelve hours, and a sweep. |
| Accounts.Store.LookupSession | internal/store/sessions.go:76-112 | Resolves exactly a session that exists, of a user that exists, up to its expiry, and to that user; an expired one is deleted, no other is touched. |
| Accounts.SignedInExactly | internal/store/sessions.go:43-136 | In any run a session made for a user resolves to that user, and to nobody else, exactly until it expires or a call removes it: its deletion, an eviction of its user, or a sweep or lookup past its expiry. |
| Accounts.SessionStep | internal/store/sessions.go:44-136 | Which calls remove a session, if and only if; the others leave it as it is. |
| Accounts.SameNameExactly | internal/store/schema/001_init.sql:8-10 | Two names are one name exactly when they differ in the case of ASCII letters at most. |
| Accounts.CreatedIsFound | internal/store/users.go:115-179 | A user created is found by its name in any case, with the data given, beside all others unchanged; a name taken in any case is refused. |
| Accounts.RoleIsStored | internal/store/users.go:239-262 | A successful SetRole changes that user's role and nothing else. |
| Accounts.PasswordIsStored | internal/store/users.go:216-237 | A successful SetPassword changes that user's hash, removes that user's sessions, and nothing else. |
| Accounts.UserIsDeleted | internal/store/users.go:264-282 | A successful DeleteUser removes that user and its sessions, and nothing else. |
| Accounts.RefusedExactly | internal/store/users.go:115-282 | Which outcome a call on users has, in the code's order of checks, and that a refused one changes nothing. |
| Accounts.CallConsistent | internal/store/schema/001_init.sql:6-43 | Every store call keeps ids new, names unique in any case, and every session owned by an existing user. |
| Accounts.AdminsNeverVanish | internal/store/users.go:239-282 | In any run of store calls, once there is an admin there always is one. |
| Accounts.LastAdminRefusedExactly | internal/store/users.go:249-257 | A role change or deletion is refused for that reason if and only if it would leave no admin. |
| Accounts.GoneForGood | internal/store/sessions.go:44-60 | A session id that was issued and is no longer in the table never comes back. |
| Accounts.EvictedForever | internal/store/users.go:216-237 | After SetPassword or DeleteUser succeeds, no earlier session of that user ever resolves again, in any run and at any clock reading. |
| Accounts.OthersStaySignedIn | internal/store/sessions.go:120-125 | Both calls leave the sessions of everyone else as they were. |
| Accounts.SweepSeenExactly | internal/store/sessions.go:104-131 | A sweep changes the answer of a lookup no earlier than it if and only if both happen at the very instant the session expires. |
| Accounts.SweepNeverNoticed | internal/store/sessions.go:127-136 | A run after a sweep and the same later calls without it give the same outcomes and users throughout. |
| AdminRaces.PromiseHolds | internal/store/users.go:245-257 | What a call has established by reading and counting holds as long as no other call writes. |
| AdminRaces.WriteLoses | internal/store/users.go:258-280 | A write loses the last admin if and only if what its call had established no longer holds. |
| AdminRaces.LostOnlyByOverlap | internal/store/users.go:239-282 | With the statements of any number of calls interleaved, the last admin is lost only by the write of a call that another call's write overtook after it had read its user. |
| AdminRaces.DeletionsRace | internal/store/users.go:266-282 | A run of two interleaved deletions that leaves no admin. |
| AdminRaces.SetRoleAlone | internal/store/users.go:240-262 | The statements of a SetRole run without interruption do what the atomic call does. |
| AdminRaces.DeleteUserAlone | internal/store/users.go:266-282 | So do those of a DeleteUser. |
| ShellWords.ReadsEscaped | internal/core/service.go:745-747 | Inside the quotes the escaped text is read back as the string, whatever follows. |
| ShellWords.ReadsQuoted | internal/core/service.go:743-747 | Wherever a word may begin, the quoted string is read as that string, or not at all if it holds a NUL. |
| ShellWords.QuoteIsOneWord | internal/core/service.go:743-747 | By sections 2.2.1 and 2.2.2 of POSIX.1-2017 XCU the quoted string is one word equal to the string if and only if the string has no NUL. |
| ShellWords.QuotedOperand | internal/core/service.go:261-263 | A command of two plain words and a quoted operand is read as exactly these three words, for every operand without NUL. |
| ShellWords.MkdirOperand | internal/core/service.go:261-263 | The command that prepares the working directory is read as three words, the last being the directory, exactly when it has no NUL. |
| ClassTokens.FindLastTopLevelColon | internal/dashboard/utils/shadcn-templ.go:37-52 | The loop finds the last colon at bracket depth zero, or -1 if there is none. |
| ClassTokens.LastColonIs | internal/dashboard/utils/shadcn-templ.go:34-52 | The position it computes is a colon at depth zero and none follows. |
| ClassTokens.DepthCounts | internal/dashboard/utils/shadcn-templ.go:38-45 | The depth is the number of opening less that of closing brackets. |
| ClassTokens.MarkerKeepsColon | internal/dashboard/utils/shadcn-templ.go:54-72 | Inserting or removing the marker right after the last top-level colon does not move it, for unbalanced and nested brackets too. |
| ClassTokens.ThereAndBackExactly | internal/dashboard/utils/shadcn-templ.go:54-72 | Rewriting to v3 and back gives the token if and only if it ends in the v4 marker or carries no v3 marker. |
| ClassTokens.BackAndThere | internal/dashboard/utils/shadcn-templ.go:65-72 | Rewriting a token with a v3 marker to v4 and back gives the token. |
| ClassTokens.KeepFromRight | internal/dashboard/utils/shadcn-templ.go:98-110 | The walk from the right collects, in reverse, the rightmost occurrences of the survivors. |
| ClassTokens.Reorder | internal/dashboard/utils/shadcn-templ.go:93-118 | The survivors in input order when they are at least two and all among the input tokens; otherwise the merge result unchanged. |
| ClassTokens.RightmostCounts | internal/dashboard/utils/shadcn-templ.go:98-110 | What is kept is the intersection, as multisets, of input and survivors. |
| ClassTokens.RightmostIsSelection | internal/dashboard/utils/shadcn-templ.go:85-92 | What is kept is a subsequence of the input, and in every tail of the input what would be kept of that tail. |
| ClassTokens.RightmostIsBest | internal/dashboard/utils/shadcn-templ.go:90-92 | In every tail of the input, any other choice of the same tokens has at most as many of each class. |
| ClassTokens.AllSurvive | internal/dashboard/utils/shadcn-templ.go:111-115 | The length check succeeds if and only if every survivor is among the input tokens, as often as it survives. |
| ClassTokens.ReorderedList | internal/dashboard/utils/shadcn-templ.go:116-117 | The list printed splits again into exactly the survivors. |
| Text.FieldsOfJoin | internal/dashboard/utils/shadcn-templ.go:116-117 | Joining words with blanks and splitting again gives the words. |
| Text.FieldsOf | internal/dashboard/utils/shadcn-templ.go:94-103 | The words of any string are read off one by one, whatever white space separates and surrounds them. |
| Text.TrimSpaceIs | internal/store/apikeys.go:203 | Trimming takes white space off both ends, and nothing else. |
| Text.FieldsAreWords | internal/dashboard/utils/shadcn-templ.go:94-103 | Splitting gives words: not empty and without white space. |

## Left out

- RingBuffers.RingBuffer.Write: `total` is unbounded here, an int64 in the code; the backing array is allocated at once, while the code's slice grows.
- JobRuns.SettledForever: says nothing about whether drain returns; that needs the SDK to end Recv after a cancellation.
- Jobs.Job.Cancel: the five-second limits on Kill and Signal are not modelled; a call that times out is a call that returns.
- Admission.NeverOvershoots: takes one listing as one step; the code reads it page by page, so a sandbox that moves between pages while being listed is not covered. A reservation yields at most one sandbox.
- LiveHandles.OneBootPerName: single flight is taken by its contract; panics inside a flight are not modelled, and boots by Create itself are not flights.
- LiveHandles.HandlesAreConserved: covers the handles that flights open; handles that Create opens and handles dropped by forget are not in the ledger.
- Terminal.CloseEndsPump: bounds the pump's own steps; it takes the stream to report its end once its context is cancelled.
- KeyCacheRuns.AnswersAreRecent: a call is assumed to be given a non-empty token; for an empty one the code answers false without touching the cache.
- Accounts.AdminsNeverVanish: needs atomic store calls; what holds without that is in AdminRaces. Errors in the middle of SetPassword, between its two statements, are not modelled.
- Accounts.Store.CreateUser: the verdicts of ValidateUsername, ValidatePassword and NormalizeRole are inputs, and bcrypt hashes are numbers.
- ClassTokens.FindLastTopLevelColon: positions count characters, the code's count bytes; the slices are the same, since they are cut at ASCII characters.
- ShellWords.MkdirOperand: the reader gives up on operators, expansions, double quotes and reserved characters instead of interpreting them.
- The microsandbox SDK, CBOR frames, WebSocket and HTTP handlers, routing, metrics and the command line: no state of their own worth a theorem, or not visible.
- `verifyAgentUp`, `Reconcile`, `uptime`, working directories: retry loops and bookkeeping around the SDK.
- `withSandbox`, `Stop` and `Delete`: in the handle cache they are the step that forgets a name; the rest are SDK calls.
- Standard-input pipes of jobs and terminals, resizing and signals of terminals: passed on to the SDK.
- `Authenticate`, `TouchAPIKey`, key creation, revocation and search by prefix: single statements; in the token cache they are arbitrary edits of the table.
- `migrationNames`: the sorted list of names is an input; that names are distinct is assumed, as they are file names.
- `validateCreate` and `buildCreateOptions`: independent range checks.
- `twMapTokens`, the v3/v4 variable syntax and the Tailwind merge itself: the merge result is an arbitrary list of tokens.
- Case folding of role names and Unicode normalisation of user names.
