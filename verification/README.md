# A verified model of the multi-protocol proxy

The proxy relays TLS by server name, HTTP and SOCKS5. Around the relays stand small stateful
algorithms: a token bucket for each user, a bandwidth throttle that several goroutines share, a monthly
usage tracker, a credential cache, parsers for client input, an accept and drain protocol, and a few
loops in the PAC handler, the statistics and the console output. This project models each of them in
Dafny and proves what it is for. `dafny verify dfyconfig.toml` checks all of it.

## How it is laid out

| file | models | main results |
|---|---|---|
| `RateLimiting.dfy` | `internal/auth/ratelimit.go` | a call is accepted exactly when every window allows it; no conforming policy accepts more; users do not influence each other; exactly what a limit means for a minute |
| `Throttling.dfy`, `ThrottleSteps.dfy` | `internal/bandwidth/throttle.go` | the wait ends, after a bounded number of sleeps and at most a tenth of a second late; the bytes charged are bounded on every interleaving, and the bounds are met |
| `UsageTracking.dfy` | `internal/bandwidth/tracker.go` | the tracker refines a plain log of records, across months and restarts |
| `ConnGate.dfy` | check, increment and decrement in both front ends | the counter is the number of live handlers on every interleaving; exactly how far a limit can be overshot, and when it holds |
| `Admission.dfy`, `HttpProxy.dfy`, `Socks5Session.dfy`, `FrontEnds.dfy` | a whole visit to either front end as calls on the tracker | which gate stops whom, in any state; over any run of visits the allowance gate is exact, and it holds an account to its limit exactly for visitors spelled as stored; when it matters to the tracker which front end was used |
| `UserStore.dfy`, `CacheSteps.dfy` | `internal/auth/auth.go` | what a success rests on; the cache changes no answer when calls are whole and loads succeed; whole calls are runs of the interleaved steps; bounded staleness when they interleave; exactly when a failed or a straddled load leaves a wrong entry |
| `ClientHello.dfy` | `extractSNI` | a name is found exactly when the bytes are laid out as a hello with that name; prefix monotonicity; round trip |
| `Relay.dfy` | `PeekSNI` and the copy loops | the two streams arrive unchanged, and all of both can exactly for a configured name; routing by the client's own name |
| `AcceptLoop.dfy` | `Start` and `drainConnections` | a connection is rejected exactly when the cap is reached; conservation of connections; what draining guarantees |
| `Socks5.dfy`, `Socks5Session.dfy` | `internal/socks5/server.go` | relaying begins exactly for a legitimate session, with exactly the rest unread; everything the server says, and exactly when it says it; it never speaks ahead; the whole session on the wire and on the tracker |
| `WordWrap.dfy` | `wrapLine` | keeps the words, and no other split uses fewer lines; what takes room and what separates words |
| `FixedWindow.dfy` | `checkRateLimit` of the PAC handler | how many requests any interval can hold, tight; a refusal means the limit was used up |
| `Throughput.dfy` | the sliding window of `internal/proxy/stats.go` | the window telescopes; the average is exact |
| `Common.dfy` | | shared vocabulary |

Objects that the program updates in place are classes here. Each of their methods is proved against a
function of the old state, and the properties of whole runs are proved about those functions. Where
goroutines interleave, the critical sections are the steps of a state machine, and every property is an
invariant of all its runs.

Times, token counts and rates are real numbers. Clock readings, the answers of foreign code (password
hashing, digests, address matching, dialling) and the pieces in which a stream arrives are parameters,
over which every result quantifies. Of the digest only its length and alphabet are assumed; where
passwords must be told apart, the result assumes that no two passwords of the run have the same digest.

## Where the code and its description differ

- `docs/configuration/USERS.md` line 123 describes a limit of 500 as 500 requests per minute. A closed
  minute can hold that and a full bucket's burst, a sixth of the limit and at least 10, besides:
  `RateLimiting.MinuteHoldsIff` says that floor(burst) + rpm is the exact bound, so rpm itself never is.
- The PAC limit is described per minute too. A closed minute holds at most twice the limit less one, and
  one second can hold that many, so the described limit is kept exactly when it is 1
  (`FixedWindow.MinuteLimitKeptIff`).
- The connection limit can be overshot: check and increment are separate critical sections. For handlers
  that check the name they are counted under, it is kept in all runs with at most k of them in between
  exactly when k is at most 1 (`ConnGate.LimitKeptIff`), and for every k the overshoot is k − 1 at worst
  (`ConnGate.ConnsBounded`, `ConnGate.LimitIsRacy`).
- `LoadFromFile` can fail after it has replaced the users and before it clears the cache
  (`UserStore.FailedLoadAgreesIff` says for whom that matters), and a validation that straddles a
  successful load can put a removed user back (`CacheSteps.ReloadCanBeOutlived`;
  `CacheSteps.QuietRunsAreCoherent` and `CacheSteps.FillIsRightIff` say when not). In this repository
  only `NewUserStore` calls `LoadFromFile` (`internal/auth/auth.go` line 62), so these results are about
  the exported function and whoever reloads with it.
- The user map is keyed by lower-cased names, the limiter and the tracker by whatever they are given. A
  spelling that is not in the file is not metered (`UserStore.MeteredIffSpelled`,
  `UserStore.OtherSpellingNeverRefused`). Both front ends ask one tracker about the spelling in the
  request. HTTP counts under the stored name, SOCKS5 under the spelling again. So in all runs the
  allowance gate holds a visitor to the account it is counted under exactly when the two names are the
  same (`Admission.AccountHeldIff`); with one visitor in between at a time, the connection gate keeps the
  account's limit exactly then too (`ConnGate.LimitKeptIff`); and the choice of front end matters to the
  tracker exactly for other spellings (`FrontEnds.FrontEndsAlikeIff`). Under a name that nothing was counted under by either of them neither
  gate refuses anything (`Admission.UncountedNeverRefused`).
- A goroutine admitted before shutdown may start after draining has begun. Which ones may, and when
  none does, is exact (`AcceptLoop.StartsIffSpawned`, `AcceptLoop.NoneStartsIff`).
- Without a call that resets the month, usage read after the month has turned is still last month's,
  where a restart would show none: `UsageTracking.RestartShows` says exactly when a restart shows.

## Model

| member | source | states |
|---|---|---|
| RateLimiting.AcceptedIff | internal/auth/ratelimit.go:57-70 | a call is accepted if and only if, for every call up to it, the calls accepted since, this one included, are within burst plus rate times the time passed; as no call comes before the limit's setting, the window from there is covered by the first |
| RateLimiting.RunConforms | internal/auth/ratelimit.go:48-71 | over any run, every window of accepted calls keeps within burst plus rate times its length |
| RateLimiting.GreedyIsOptimal | internal/auth/ratelimit.go:48-71 | any other accept/refuse sequence on the same call times that keeps every window has accepted no more calls after any prefix |
| RateLimiting.PacedClientNeverRefused | internal/auth/ratelimit.go:35-68 | a client whose calls are at least 60/rpm seconds apart is never refused |
| RateLimiting.InstantBurst | internal/auth/ratelimit.go:35-45 | of simultaneous calls on a full bucket call k + 1 passes exactly if k + 1 is at most 10 or at most a sixth of rpm |
| RateLimiting.MinuteHoldsIff | internal/auth/ratelimit.go:35-70 | a number bounds the accepted calls of every closed minute of every run exactly if it is at least rpm + 10, or rpm + rpm/6 rounded down from 60 a minute on |
| RateLimiting.MinuteBound | internal/auth/ratelimit.go:48-71 | a closed minute holds at most floor(burst) + rpm accepted calls |
| RateLimiting.BusyMinuteIsFull | internal/auth/ratelimit.go:48-71 | for every limit, a run with exactly that many in one minute |
| RateLimiting.UsersAreIndependent | internal/auth/ratelimit.go:48-71 | in a history shared by all users, a user's answers are the decisions on its own call times alone |
| RateLimiting.UnlimitedUser | internal/auth/ratelimit.go:52-55 | a user for whom no limit was set is never refused |
| RateLimiting.AnswersFromSetLimit | internal/auth/ratelimit.go:29-46 | after SetLimit the earlier state of the bucket makes no difference to the user's answers |
| RateLimiting.LimitEnforcedInHistory | internal/auth/ratelimit.go:29-71 | the window bound and optimality hold for a user's calls inside any shared history up to its next setting |
| RateLimiting.EachResetAddsABurst | internal/auth/ratelimit.go:29-71 | once a user's limit is set, any window of any history, with the limit set again any number of times, accepts at most one burst, one more for each setting inside it, and the refill |
| RateLimiting.WindowWithResets | internal/auth/ratelimit.go:29-71 | the same from the tokens in hand, which stay within the burst |
| RateLimiting.ResetsAreMet | internal/auth/ratelimit.go:29-71 | for every limit and n, a history with n settings that accepts (n + 1)·floor(burst) calls at one instant |
| RateLimiting.RateLimiter.constructor | internal/auth/ratelimit.go:22-27 | a new limiter has no buckets |
| RateLimiting.RateLimiter.SetLimit | internal/auth/ratelimit.go:29-46 | replaces that user's bucket by a full one with the burst and rate of the limit, and no other |
| RateLimiting.RateLimiter.Allow | internal/auth/ratelimit.go:48-71 | answers and updates that user's bucket as the specification does, the others unchanged |
| RateLimiting.RateLimiter.GetRemainingTokens | internal/auth/ratelimit.go:73-83 | the tokens as of the last call, or -1 without a bucket |
| Throttling.NewThrottledConn | internal/bandwidth/throttle.go:18-35 | a positive speed gives a full bucket of one second's bytes, any other the bare connection |
| Throttling.RefillsCompose | internal/bandwidth/throttle.go:85-93 | refilling at two instants is refilling at the later one |
| Throttling.ThrottledConn.Refill | internal/bandwidth/throttle.go:85-93 | adds the elapsed credit, capped |
| Throttling.ThrottledConn.ConsumeTokens | internal/bandwidth/throttle.go:79-83 | takes n tokens, into debt if need be |
| Throttling.NapEarns | internal/bandwidth/throttle.go:63-75 | a sleep earns the missing tokens or at least a tenth of a second's credit |
| Throttling.NapBounds | internal/bandwidth/throttle.go:63-75 | every sleep asked for lasts between a millisecond and 100 ms, and in between exactly as long as the larger of one token and what the buffer lacks takes to earn |
| Throttling.AfterNap | internal/bandwidth/throttle.go:63-75 | every sleep lowers the number of sleeps that can still be needed |
| Throttling.ThrottledConn.WaitForTokens | internal/bandwidth/throttle.go:55-77 | alone on the bucket, it ends with at least one token, the bucket being the old one refilled at that time, after at most ceil(10·(1 − tokens)/rate) sleeps, and one more for an empty buffer; apart from late wake-ups no more than 0.1 s after any instant at which the old bucket, refilled, holds a token |
| Throttling.WaitIsBounded | internal/bandwidth/throttle.go:55-77 | so a wait that finds less than a token lasts at most (1 − tokens)/rate + 0.1 s, apart from late wake-ups |
| Throttling.ThrottledConn.Transfer | internal/bandwidth/throttle.go:37-53 | a Read or Write leaves the bucket refilled at the end of its wait less the bytes moved |
| ThrottleSteps.InvStep | internal/bandwidth/throttle.go:37-93 | every critical section of every goroutine keeps: tokens plus what goroutines past their wait may still charge stay within bounds |
| ThrottleSteps.PassesIffToken | internal/bandwidth/throttle.go:57-62 | a lap of the wait lets a goroutine through exactly if tokens plus what was earned since the last refill, capped, make up one |
| ThrottleSteps.ChargedSinceRefill | internal/bandwidth/throttle.go:37-93 | with K goroutines and buffers of B bytes, the bytes charged from any refill instant on are at most maxTokens − 1 + K·B + rate·elapsed, on every interleaving |
| ThrottleSteps.ChargedInWindow | internal/bandwidth/throttle.go:37-93 | from an arbitrary instant on, at most one more K·B |
| ThrottleSteps.RelayBound | internal/httpproxy/server.go:299-319 | the relays' two goroutines with 32 KiB buffers: from creation on at most a second's bytes per second, one second's more, and 65535 |
| ThrottleSteps.InvRun | internal/bandwidth/throttle.go:37-93 | the invariant holds after every run, so the window bound applies from any later state |
| ThrottleSteps.AllPass | internal/bandwidth/throttle.go:57-62 | any number of goroutines get through the wait on the same last token |
| ThrottleSteps.BoundIsMet | internal/bandwidth/throttle.go:37-83 | for every K and B, the relays' among them, a run that charges exactly maxTokens − 1 + K·B at one instant |
| ThrottleSteps.WindowBoundIsMet | internal/bandwidth/throttle.go:37-93 | for every K and B, a window that charges exactly maxTokens − 1 + 2·K·B in no time |
| UsageTracking.RefinesLog | internal/bandwidth/tracker.go:49-59 | over any run with months in order, restarts included, each user's up, down and total are the sums of the log entries of the tracker's month |
| UsageTracking.AllowanceMeetsLog | internal/bandwidth/tracker.go:62-75 | with a positive limit the answer is true exactly when this month's logged total is below limitGB·2^30 |
| UsageTracking.StepShows | internal/bandwidth/tracker.go:153-166 | one call keeps what the log says: entries are added, a new month starts from nothing |
| UsageTracking.MonthTurns | internal/bandwidth/tracker.go:153-166 | when the month turns a user's bytes start from nothing with the time stamped, connections kept |
| UsageTracking.ConnsKept | internal/bandwidth/tracker.go:153-166 | resets, records, checks and look-ups leave every connection count alone |
| UsageTracking.RestartShows | internal/bandwidth/tracker.go:203-226 | a stop and reload forgets connections, and shows the same bytes exactly when the month is the same or there were none |
| UsageTracking.RestartUnseenByAllowance | internal/bandwidth/tracker.go:130-133 | a clean stop and reload anywhere in a run does not change any later allowance answer |
| UsageTracking.RestartUnseenInUsage | internal/bandwidth/tracker.go:188-226 | nor any user's bytes, once both trackers have seen the same month |
| UsageTracking.Tracker.constructor | internal/bandwidth/tracker.go:34-47 | a new tracker is what the file gives for this month, or empty |
| UsageTracking.Tracker.LoadFromDisk | internal/bandwidth/tracker.go:203-226 | this month's records come back with no connections; another month's are discarded |
| UsageTracking.Tracker.GetOrCreate | internal/bandwidth/tracker.go:142-151 | the record is there afterwards, all others unchanged |
| UsageTracking.Tracker.CheckMonthlyReset | internal/bandwidth/tracker.go:153-166 | in a new month every user's bytes are cleared and connections kept; otherwise nothing changes |
| UsageTracking.Tracker.SaveToDiskLocked | internal/bandwidth/tracker.go:188-201 | the file holds the month and every record |
| UsageTracking.Tracker.RecordBytes | internal/bandwidth/tracker.go:49-59 | the whole new state: reset if due, then that user's three sums |
| UsageTracking.Tracker.CheckAllowance | internal/bandwidth/tracker.go:62-75 | answer and whole new state |
| UsageTracking.Tracker.IncrementConns | internal/bandwidth/tracker.go:96-101 | one more for that user and nothing else |
| UsageTracking.Tracker.DecrementConns | internal/bandwidth/tracker.go:103-110 | one less if positive, and nothing else |
| UsageTracking.Tracker.CheckConnLimit | internal/bandwidth/tracker.go:120-128 | answer and whole new state |
| UsageTracking.Tracker.GetUsage | internal/bandwidth/tracker.go:77-83 | a copy of the record, made if missing, with no reset |
| UsageTracking.Tracker.Stop | internal/bandwidth/tracker.go:130-133 | the file left behind is the one a later start reads |
| ConnGate.ConnsAreHandlers | internal/bandwidth/tracker.go:96-110 | on every interleaving, month resets included, each user's count equals its handlers between increment and decrement |
| ConnGate.ExactStep | internal/socks5/server.go:176-179 | each single step keeps that equality |
| ConnGate.PassesCheckIff | internal/bandwidth/tracker.go:120-128 | in every reachable state the check lets a handler pass exactly if it has no limit or fewer than its limit are inside under the name it asks about |
| ConnGate.DecrementAlwaysCounts | internal/bandwidth/tracker.go:107-109 | the guard of the decrement never makes a difference |
| ConnGate.GuardedStep | internal/bandwidth/tracker.go:120-128 | limited handlers inside or past the check stay at most maxConns − 1 + K |
| ConnGate.ConnsBounded | internal/httpproxy/server.go:230-243 | with at most K limited handlers between check and increment, the count is at most maxConns − 1 + K plus the unlimited handlers inside |
| ConnGate.LimitIsRacy | internal/socks5/server.go:170-179 | for every user, limit and K ≥ 1, a run with K in between that reaches maxConns − 1 + K |
| ConnGate.OtherNameIsUnlimited | internal/httpproxy/server.go:230-243 | checking another name than the one counted under, any number of connections gets in, one at a time |
| ConnGate.LimitKeptIff | internal/httpproxy/server.go:230-243 | handlers that check name and count under key keep key's limit, unlimited handlers aside, in all runs with at most K of them in between, if and only if K = 0, or name = key and K = 1 |
| ConnGate.IdleCountsNone | internal/bandwidth/tracker.go:96-110 | on whatever interleaving, once nobody is inside nobody is counted |
| Admission.GatesInOrder | internal/socks5/server.go:142-174 | in any state of the tracker: a super admin at its own address is never stopped and nothing is asked; anyone else is stopped over its rate; a listed one then if expired, then exactly if the bytes held against its name this month reach its allowance, then exactly if its connections reach its limit, each only when positive; one not listed goes on |
| Admission.AllowanceGateIff | internal/httpproxy/server.go:202-228 | over any run of visits to either front end, the allowance gate stops exactly the listed visitors, within rate, not expired and no super admin at its own address, for whose name the bytes counted this month by the earlier visits reach a positive limitGB·2^30 |
| Admission.RunIsLogged | internal/httpproxy/server.go:321-333 | the tracker's log of a run is what its relayed visits moved, by counted name and month of the record |
| Admission.VisitIsLogged | internal/socks5/server.go:234-236 | one visit logs exactly the bytes it moved, if it was relayed, and nothing else |
| Admission.VisitIsBalanced | internal/httpproxy/server.go:240-243 | however a visit ends, every connection count is what it was |
| Admission.UncountedNeverRefused | internal/bandwidth/tracker.go:120-128 | after any calls on the tracker, however interleaved, neither check refuses a name nothing was counted under |
| Admission.AccountHeldIff | internal/httpproxy/server.go:224-242 | in all runs the allowance gate stops visitors of this name exactly when the account they are counted under has used its limit, if and only if the name is that account's |
| Admission.OtherNameIsEmpty | internal/httpproxy/server.go:224-242 | for any other name, a run in which it does not |
| HttpProxy.AnswerInPlainTerms | internal/httpproxy/server.go:202-250 | with valid credentials and any tracker: 429 over rate, 403 if expired or over the allowance, 429 at the connection limit, a super admin at its own address exempt from all four, otherwise relayed if the target is reached; without a tracker the first two only |
| HttpProxy.CountedUnderStoredName | internal/httpproxy/server.go:240-250 | a relayed request is logged under the stored name and any other not at all; while served it is one more connection of that name |
| HttpProxy.ForbiddenIff | internal/httpproxy/server.go:202-228 | over any run of visits, a request with valid credentials, within rate and not expired, is answered 403 if and only if it is no super admin's at its own address and the bytes counted this month under the name in it reach the limit |
| HttpProxy.Server.CheckGates | internal/httpproxy/server.go:202-235 | which gate stops a request, and the tracker after the calls made up to there |
| HttpProxy.Server.HandleRequest | internal/httpproxy/server.go:176-250 | the answer to a request and its whole effect on the tracker, and the answer without one |
| HttpProxy.Server.Serve | internal/httpproxy/server.go:237-250 | between the count up and the deferred count down, the moved bytes are recorded for the stored name |
| Socks5Session.PassesIff | internal/socks5/server.go:142-174 | a login passes the gates if and only if it is a super admin's at its own address, or within rate and either not listed any more or neither expired nor over the allowance nor at the connection limit of the name logged in with |
| Socks5Session.CountedUnderLogin | internal/socks5/server.go:176-236 | a session that relays is logged under the name of the login and any other not at all; it is one more connection of that name |
| Socks5Session.Handler.CheckGates | internal/socks5/server.go:142-174 | whether a login passes the gates, super admins and users no longer listed included, and the tracker after the calls made |
| Socks5Session.Handler.Enter | internal/socks5/server.go:176-178 | the connection is counted under the name of the login |
| Socks5Session.Handler.Leave | internal/socks5/server.go:178-236 | the bytes of a session that relayed are recorded, and then it is counted down |
| Socks5Session.Handler.HandleUser | internal/socks5/server.go:142-237 | from the login on, what the session says and all it does to the tracker |
| Socks5Session.Handler.HandleConnection | internal/socks5/server.go:117-237 | a whole session, from any pieces: what it says, whom it relays for and to where, what it leaves unread, and the tracker afterwards, with the gates asking the tracker as it is |
| Socks5Session.Handler.VisitIsCalls | internal/socks5/server.go:142-237 | a session's effect on the tracker is the calls of a visit under the name of the login |
| FrontEnds.FrontEndsAlikeIff | cmd/proxy/main.go:97-113 | two runs of the same clients that differ in the front ends used make the same tracker calls if and only if every client that got in and used another one was spelled as stored |
| FrontEnds.AlikeOrDiverge | internal/httpproxy/server.go:202-243 | runs of visits that differ in what they count under are alike, or differ at some call for good |
| UserStore.CacheIsTransparent | internal/auth/auth.go:126-157 | after any run of whole calls with successful loads, cached and uncached answers are equal, if no two passwords of the run have the same digest |
| UserStore.CoherentStep | internal/auth/auth.go:69-176 | every such call keeps: a cached entry is what the password check gives now |
| UserStore.UncachedAnswers | internal/auth/auth.go:138-156 | a login that is not cached is refused if and only if its lower-cased name has no record or the record's hash does not match, and otherwise gets that record |
| UserStore.SuccessRestsOnRecord | internal/auth/auth.go:126-157 | after any whole calls, failed loads among them, a success rests on a record that was under its lower-cased name when this call, or an earlier one that filled its entry less than 300 s before, looked, and whose hash matched that call's password, which has the same digest |
| UserStore.EntriesAreFilled | internal/auth/auth.go:149-154 | every cached entry was filled by a call of the run with the record it had found and matched |
| UserStore.CacheKeysEqualIff | internal/auth/auth.go:127-128 | cache keys are equal exactly for the same lower-cased name and the same digest |
| UserStore.UsersOfKeepsLast | internal/auth/auth.go:83-93 | the user map has exactly the lower-cased names of enabled entries, the last entry of a name winning |
| UserStore.FailedLoadAgreesIff | internal/auth/auth.go:83-121 | after a load that fails once the users are replaced, a login is answered rightly exactly if it was not cached or both files decide it alike |
| UserStore.FailedLoadKeepsCache | internal/auth/auth.go:83-121 | for one, a removed user's login goes on working |
| UserStore.InvalidateDrops | internal/auth/auth.go:159-169 | a cached login is dropped exactly when its name is the given one or starts with it and a colon |
| UserStore.LoadSetsLimit | internal/auth/auth.go:89-91 | a name no other enabled entry shares gets exactly its own fresh bucket |
| UserStore.MeteredIffSpelled | internal/auth/auth.go:85-92 | after a load a spelling is metered exactly when it was before or the file gives it a limit |
| UserStore.OtherSpellingNeverRefused | internal/auth/auth.go:211-225 | under a spelling that no file loaded so far gave a limit no call of any history is refused |
| UserStore.UserStore.constructor | internal/auth/auth.go:53-60 | no users, no cached logins, no limits |
| UserStore.UserStore.LoadFromFile | internal/auth/auth.go:69-124 | users, limits and cache afterwards, on success and on each failure |
| UserStore.UserStore.ValidateCredentials | internal/auth/auth.go:126-157 | the answer and the cache afterwards; from a coherent store the uncached answer |
| UserStore.UserStore.InvalidateUser | internal/auth/auth.go:159-169 | removes exactly the entries with the name's prefix |
| UserStore.UserStore.InvalidateAllCredentials | internal/auth/auth.go:171-176 | empties the cache and nothing else |
| UserStore.UserStore.CheckRateLimit | internal/auth/auth.go:211-225 | unknown users refused, users without a limit passed, the rest answered by their bucket |
| CacheSteps.BoundedStaleness | internal/auth/auth.go:126-157 | on every interleaving, a success at time t rests on a record that was in the user map no earlier than t − 300 s − the length of the validation that filled the entry, and that matched a password of the run with the same digest: the password itself, if no two collide |
| CacheSteps.WholeCallIsRun | internal/auth/auth.go:126-157 | after any run, the steps of one idle thread, with no load under way, do what a whole call of the class does: the same answer, recorded as a success just when there is a user, and the same cache afterwards |
| CacheSteps.WholeLoadIsRun | internal/auth/auth.go:80-124 | likewise a whole load of the class is a swap of the users and then a clear or, if a list does not parse, an abort |
| CacheSteps.InvalidationsAreSteps | internal/auth/auth.go:159-176 | and each of the two invalidations is one step |
| CacheSteps.AnswersAreFresh | internal/auth/auth.go:126-157 | so the age bound holds for the class's answer in the state any interleaving has left |
| CacheSteps.InvHolds | internal/auth/auth.go:80-157 | the invariant of all threads, entries and successes behind it |
| CacheSteps.QuietRunsAreCoherent | internal/auth/auth.go:80-157 | if no load falls between a look-up and its fill and every load succeeds, then whenever none is under way every cached login is what the check gives now |
| CacheSteps.FillIsRightIff | internal/auth/auth.go:149-154 | in any run, a fill leaves a right entry exactly if the record it read is still in the map |
| CacheSteps.ReloadCanBeOutlived | internal/auth/auth.go:149-154 | a fill that straddles a successful load puts back a removed user |
| CacheSteps.StalenessIsMet | internal/auth/auth.go:126-157 | for every validation length v and every d below 300 s, a run with a success whose record left the map d + v before |
| ClientHello.ExtractSNI | internal/proxy/server.go:176-253 | the parser computes the specified name, in bounds and terminating |
| ClientHello.WalkExtensions | internal/proxy/server.go:226-252 | the extension loop finds the first server_name extension's name |
| ClientHello.FindExtensions | internal/proxy/server.go:177-224 | the nested lengths before the extensions are stepped over |
| ClientHello.PrefixMonotone | internal/proxy/server.go:165-174 | on every prefix the result is empty or the result on the whole |
| ClientHello.BeyondBlockIgnored | internal/proxy/server.go:220-229 | bytes after a complete extension block never change the result |
| ClientHello.NameIffLaidOut | internal/proxy/server.go:176-253 | a nonempty name is returned if and only if the bytes are laid out as a hello that carries it |
| ClientHello.LaidOutNameIsFound | internal/proxy/server.go:226-252 | any such layout, even one cut short after the name, gives the name |
| ClientHello.FoundNameIsLaidOut | internal/proxy/server.go:176-253 | a returned name comes with the layout it was read from |
| ClientHello.HelloRoundTrip | internal/proxy/server.go:176-253 | a serialised ClientHello with any session id, suites, compression list and other extensions around one host name, followed by anything, gives exactly that name |
| ClientHello.HelloOnTheWire | internal/proxy/server.go:205-252 | the same with every length written out as high byte and low byte |
| ClientHello.ExtensionOnTheWire | internal/proxy/server.go:232-233 | an extension is its kind and its length, high byte first, and its body |
| Common.BigEndianBytes | internal/socks5/server.go:390 | a two-byte number is its quotient by 256 and then the remainder, and is read back as itself |
| Relay.Conn.Read | internal/proxy/server.go:323 | whatever arrives is the next part of the peer's stream |
| Relay.Conn.Write | internal/proxy/server.go:325 | what is written is a prefix of the chunk, all of it unless it fails |
| Relay.PeekSNI | internal/proxy/server.go:165-174 | the bytes kept for replay are the ones parsed and the next of the stream |
| Relay.CopyData | internal/proxy/server.go:313-337 | the destination gets exactly the first copied bytes of the source's stream, and without a failed read or write the loop runs until it is cancelled, with everything read delivered |
| Relay.UpStep | internal/proxy/server.go:297-339 | each step keeps the client-to-target invariant |
| Relay.DownStep | internal/proxy/server.go:310-340 | each step keeps the target-to-client invariant |
| Relay.Transparent | internal/proxy/server.go:297-340 | at every point of every run each side has received a prefix of the other's stream: once the replay is complete, and after the close too, the peeked bytes and then exactly upBytes more, and exactly downBytes |
| Relay.RelaysAllIff | internal/proxy/server.go:266-340 | whatever the two streams, there is a run that relays both to their ends exactly if the first read holds a configured name |
| Relay.RoutedByClientsName | internal/proxy/server.go:266-285 | a relayed connection was routed by the name in the client's whole stream, however short the first read |
| AcceptLoop.InvStep | internal/proxy/server.go:87-150 | every step keeps slots and wait group equal to the handlers that hold them |
| AcceptLoop.CapAndConservation | internal/proxy/server.go:107-119 | at most MaxConns handlers inside; accepted = running + finished + rejected, and the one in hand |
| AcceptLoop.RejectedIffFull | internal/proxy/server.go:107-119 | in every reachable state the connection in hand is rejected exactly if MaxConns slots are held, and otherwise gets a handler |
| AcceptLoop.CapIsReached | internal/proxy/server.go:107-119 | for every MaxConns a run with exactly that many inside HandleConnection and none rejected |
| AcceptLoop.HandlersNeverBlock | internal/proxy/server.go:111-112 | a handler's deferred release and Done always succeed |
| AcceptLoop.NothingAdmittedOnceDraining | internal/proxy/server.go:87-92 | once draining begins no connection is accepted or admitted and the group only shrinks |
| AcceptLoop.DrainedMeansNoneRemain | internal/proxy/server.go:136-144 | "all drained" is reported only when every handler has finished |
| AcceptLoop.DrainedIffAllFinished | internal/proxy/server.go:131-144 | while draining, "all drained" can be reported exactly when every handler has finished |
| AcceptLoop.StartsIffSpawned | internal/proxy/server.go:110-113 | once draining has begun a handler may still start if and only if it was admitted before and has not run yet |
| AcceptLoop.NoneStartsIff | internal/proxy/server.go:87-113 | so no handler starts after draining has begun exactly when every admitted one had started |
| AcceptLoop.LateStart | internal/proxy/server.go:110-113 | a run in which one does |
| Socks5.RelayedIff | internal/socks5/server.go:117-198 | relaying begins, for that user and target and with exactly rest unread, if and only if the bytes are a greeting offering 0x02, accepted credentials and a CONNECT request followed by rest, the gates passed and the target was reached |
| Socks5.LegitimateIsRelayed | internal/socks5/server.go:239-393 | round trip: every encoded session for IPv4, domain or IPv6 is recovered field by field |
| Socks5.RelayedIsLegitimate | internal/socks5/server.go:239-393 | conversely, a relayed session's bytes are such an encoding |
| Socks5.LoginIsRead | internal/socks5/server.go:295-334 | an encoded login is read back, its rest unread |
| Socks5.AcceptedIsLogin | internal/socks5/server.go:295-334 | an accepted login is an encoding of its user and an accepted password |
| Socks5.AcceptedIsGreeting | internal/socks5/server.go:239-274 | a greeting that leads to a login offers 0x02 |
| Socks5.ConnectIsRead | internal/socks5/server.go:336-393 | an encoded CONNECT gives its host and port, its rest unread |
| Socks5.ConnectOnTheWire | internal/socks5/server.go:336-393 | the same byte by byte: 05 01, a reserved byte, 01 with four bytes, 03 with a counted name or 04 with sixteen, and the port high byte first |
| Socks5.ReplyOnTheWire | internal/socks5/server.go:395-408 | a reply byte by byte: 05, the code, 00 01, the IPv4 address or zeros, the port high byte first or zeros without an address |
| Socks5.AcceptedIsConnect | internal/socks5/server.go:336-393 | an accepted request is an encoded CONNECT to its target |
| Socks5.SaysSuccessIffRelayed | internal/socks5/server.go:187-198 | the server's bytes are a prefix of method selection, status and one ten-byte reply, each only after the one before allows it, and success is reported just when it relays |
| Socks5.SaysIff | internal/socks5/server.go:239-393 | each of the nine things the server can say is said if and only if the input is laid out for it and the gates and the dial answer for it: nothing, 0xFF, the method only, a rejected login, an accepted login only, replies 0x07, 0x08 and 0x04, success |
| Socks5.NeverAhead | internal/socks5/server.go:117-198 | what the server said on the start of a stream is the start of what it says on the whole, and a relay stands |
| Socks5.TargetSplits | internal/socks5/server.go:390-392 | splitting the target at its last colon gives host and port back, whatever the host |
| Socks5.TargetsAreInjective | internal/socks5/server.go:392 | equal targets have equal hosts and ports |
| Socks5.DecimalIsNumber | internal/socks5/server.go:392 | the port is written as digits that stand for it |
| Socks5.Conn.ReadFull | internal/socks5/server.go:241 | all n bytes or a failure, whatever pieces the stream arrives in |
| Socks5.Server.HandleMethodNegotiation | internal/socks5/server.go:239-274 | reads, writes and result as specified, from any pieces |
| Socks5.Server.AuthenticateUser | internal/socks5/server.go:295-334 | likewise |
| Socks5.Server.HandleRequest | internal/socks5/server.go:336-393 | likewise |
| Socks5.Server.ConnectTarget | internal/socks5/server.go:181-196 | request, dial and reply as specified |
| Socks5.FillReply | internal/socks5/server.go:395-408 | the reply array filled in place: version, code, zero, IPv4, address and port |
| Socks5.Server.SendReply | internal/socks5/server.go:395-411 | writes exactly those ten bytes |
| WordWrap.WrapLine | internal/ui/note.go:83-118 | a blank line comes back as it is; otherwise the lines split the words, each fits or is one word, and none could have taken the next word |
| WordWrap.WordsAreKept | internal/ui/note.go:88-117 | the lines, split into words again, give the original words in order |
| WordWrap.FieldsOfJoin | internal/ui/note.go:88-105 | splitting into words undoes joining them |
| WordWrap.GreedyUsesFewestLines | internal/ui/note.go:96-115 | without escape sequences, no other split into fitting or one-word lines uses fewer lines |
| WordWrap.GreedyStaysAhead | internal/ui/note.go:96-115 | after any number of lines it has taken at least as many words as any other split |
| WordWrap.PlainIsVisible | internal/ui/ansi.go:16-26 | without the escape character nothing is stripped |
| WordWrap.ColourIsInvisible | internal/ui/ansi.go:9 | a colour sequence in front of anything adds no width |
| WordWrap.LinkIsInvisible | internal/ui/ansi.go:11 | nor does either end of a hyperlink |
| WordWrap.PlainIsOneWide | internal/ui/ansi.go:16-26 | any character but the escape character adds one |
| WordWrap.SpaceSeparates | internal/ui/note.go:88 | a space anywhere separates the words before it from those after it |
| WordWrap.AsciiSpaces | internal/ui/note.go:88 | of the ASCII characters exactly the space and tab to carriage return are spaces |
| FixedWindow.Handler.constructor | internal/pac/pac.go:34-41 | a new handler remembers no client |
| FixedWindow.Handler.CheckRateLimit | internal/pac/pac.go:161-180 | the answer and that client's window afterwards, other clients unchanged |
| FixedWindow.GrantedInAnyInterval | internal/pac/pac.go:161-180 | a closed minute holds at most 2·RPM − 1 accepted requests of a client, any interval at most (whole minutes + 2)·RPM − 1 |
| FixedWindow.GrantedInMinutes | internal/pac/pac.go:168-177 | at most (m + 1)·RPM − 1 in m minutes |
| FixedWindow.WindowsAreSpaced | internal/pac/pac.go:168-171 | a client's windows open more than a minute apart and each grants at most the limit |
| FixedWindow.BoundIsMet | internal/pac/pac.go:168-177 | for every limit, a run with 2·RPM − 1 accepted requests in one second |
| FixedWindow.MinuteLimitKeptIff | internal/pac/pac.go:168-177 | the limit per minute is kept in all runs for all clients if and only if it is 1 |
| FixedWindow.RefusedOnlyAfterLimit | internal/pac/pac.go:174-179 | a refusal means that the client had the limit's worth accepted in the minute before |
| Throughput.StatsTracker.constructor | internal/proxy/stats.go:39-43 | nothing counted, an empty window |
| Throughput.StatsTracker.RecordBytes | internal/proxy/stats.go:90-92 | adds to the total and nothing else |
| Throughput.StatsTracker.TickSecond | internal/proxy/stats.go:59-69 | the window slides by the bytes since the last tick |
| Throughput.StatsTracker.GetThroughput | internal/proxy/stats.go:98-112 | the truncated average of the window, 0 when empty |
| Throughput.WindowIsLog | internal/proxy/stats.go:59-69 | after any run the window is the last 60 differences of the totals at the ticks |
| Throughput.RateIsExact | internal/proxy/stats.go:98-112 | min(n, 60) nonnegative entries that sum to the total at the last tick less the one 60 ticks before; the average is its floor over their number |

## Left out

- Sockets, TLS handshakes and certificates, dialling, HTTP parsing and forwarding, metrics, logging, signals and the command-line tools: plumbing.
- Floating point and nanosecond truncation: tokens, rates and times are reals. 64-bit sums are taken as in range and clocks as nondecreasing.
- bcrypt, SHA-256, JSON, base64, CIDR matching and the printed form of IP addresses: foreign code, given as parameters (an arbitrary password match, a digest of fixed length, a file that reads back as written, any address formatter).
- Failed or corrupt writes of the usage file, and the five-minute background save, which a later save repeats.
- `CheckExpiry` and `handleMethodNegotiationNoAuth`: a closing brace is missing in each (`internal/auth/auth.go` lines 275 to 279, `internal/socks5/server.go` lines 292 to 295). Expiry is a parameter; the other is never called.
- The bytes SOCKS5 and the SNI relay record at the end: both wait for one of their two directions only (`internal/socks5/server.go` lines 227 to 236, `internal/proxy/server.go` lines 342 to 351), so no equality with the bytes relayed is claimed there.
- Which entry of the user map becomes the super admin, and the whitelists: parameters.
- What a resolver makes of a target with an unbracketed IPv6 host: dialling is a parameter.
- The deadlines on connections, and the internal API that answers clients which do not speak TLS.
- Text generation in the PAC handler, number formatting, configuration defaults and the rest of the console output.
- Relay.CopyData: cancellation and deadlines are modelled as a number of laps after which the loop stops.
- Throttling.ThrottledConn.WaitForTokens: stated for a goroutine that has the bucket to itself; with others at work only the byte bounds of `ThrottleSteps` are claimed.
- Socks5Session.Handler.HandleConnection: writes to the client are taken to arrive in full; the limiter's and the user store's answers are parameters, with their effects in `UserStore`.
- Admission.VisitIsBalanced: whole visits, one after another; interleaved handlers are the subject of `ConnGate`.
- UserStore.UserStore.LoadFromFile: the choice of the super admin and the contents of the two address lists; only whether the lists parse is modelled.
- AcceptLoop.NothingAdmittedOnceDraining: it does not say that no handler starts; `AcceptLoop.NoneStartsIff` says when that is so.
- Throughput.StatsTracker.GetThroughput: the unit and decimals of the printed rate are left out.
