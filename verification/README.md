# A model of the link shortener's hard parts

The link shortener is a web service; most of it is wiring. This project models the
parts whose correctness is an argument rather than a reading, and proves what they
promise over every input, every run or every interleaving. `dafny verify
dfyconfig.toml` checks all of it.

- **Failover chains** (`Failover*.dfy`). Request threads walk down a list of
  services while a background round demotes and climbs. Each locked block is one
  atomic step, a service's answer is another, and nothing is assumed about their
  order. `FailoverService` is the object itself, with the other threads' moves as a
  parameter, proved against the trace of its visits to the lock.
- **The journal reader** (`Journal*.dfy`, `Seqs.dfy`). Files are bytes; the fast
  backward reader is proved equal to splitting the whole file, and a page is proved
  to be the end of the whole history.
- **Refresh-token rotation** (`Refresh*.dfy`). Logins, refreshes split into lookup,
  stamping and claim, logouts, replays, revocations and expiry sweeps, interleaved
  at will over one session table. `RefreshService` is the object, which carries the
  run its table is at the end of.
- **The in-process link cache** (`Cache*.dfy`, `LinkCache.dfy`). Three stores that
  share one expiry map, against a log of what was asked of them.
- **The rate limiter** (`RateLimiter.dfy`, `MemoryRateLimiter.dfy`). A sliding
  window over whole runs.
- **Hosts and URLs** (`Text.dfy`, `Ipv4Host.dfy`, `HostAddress.dfy`, `Url*.dfy`).
  Every spelling of an IPv4 address, and normalisation down to the string.
- **Seeding** (`SeedTable.dfy`, `RoleSeeding.dfy`, `RoleLoader.dfy`). Upserts
  through a session that does not flush by itself.
- **Privileges** (`Privilege*.dfy`, `Administration.dfy`). Nobody confers what they
  do not hold, over runs of administrative requests.
- **Short codes** (`ShortCodes.dfy`). Which bits of a digest a code shows.

Clocks, fresh identifiers, digests and the answers of foreign code are parameters.
Times are reals, or integers in the session table; integers are unbounded wherever the
source's are.

Where the code and its documentation disagree, the model follows the code:

- `last_check` is documented to read NOT_RUN without a checker; after a climb the
  code writes HEALTHY (`CheckerlessVerdict`).
- `claim_for_rotation` is documented as claiming a session nobody has spent or
  revoked; the statement also demands that it has not expired.
- A redirect entry is documented never to outlive its link; `save_redirect` works
  out the lifetime before it stamps the entry, so it may, by the time in between
  (`SaveRedirectCap`). It is still never served (`NoRedirectPastExpiry`).
- A part made of a zero and a newline passes the digit pattern and then fails to
  convert; the model keeps this as an error of its own (`Broken`).
- `normalize` is idempotent for what admission lets through, and not for every stored
  row (`NormalizeTwice`, `StoppedNameNormalizesTwice`, `TornRowsNormalizeTwice`).
- With internal targets admitted, an address with a zone beyond ASCII enters and then
  has no normal form (`AdmittedNormalizes`, `ForeignZonesHaveNoNormalForm`).
- Acting on an account is guarded by what the account holds; editing or deleting the
  role it wears is not (`AuthorityIsLostExactly`, `EditsTakeAuthority`).

## Model

| member | source | states |
|---|---|---|
| `FailoverRuns.EveryInterleavingIsSafe` | src/link_shortener/infrastructure/failover/failover_service.py:425-542 | In every state of every interleaving of any number of calls and rounds: the index names a service, no call has asked a service twice, `dropped_calls` is the number of calls that returned the failure sentinel, and each of those was refused by everyone it asked |
| `FailoverRuns.WhoMovesTheIndex` | src/link_shortener/infrastructure/failover/failover_service.py:249-542 | Every move of the index in every run: a call moves it from i to i+1 only after service i refused that call; a round moves it down only off a service that said no, and down or up only onto one that answers |
| `FailoverRuns.TurnsAreBounded` | src/link_shortener/infrastructure/failover/failover_service.py:499-542 | Turns taken and turns left always make up 2n, however the call is interleaved |
| `FailoverRuns.CallsEnd` | src/link_shortener/infrastructure/failover/failover_service.py:499-542 | A call takes at most 6n+2 atomic steps, whatever the others do: it ends |
| `FailoverRuns.ClimbsAreRationed` | src/link_shortener/infrastructure/failover/failover_service.py:356-423 | In every run the j-th climb is at least (j-i) cooldowns after the i-th |
| `FailoverRuns.CheckerlessVerdict` | src/link_shortener/infrastructure/failover/failover_service.py:396-421 | Without a checker `last_check` reads NOT_RUN exactly until the first climb and HEALTHY from then on, although its documentation promises NOT_RUN throughout |
| `FailoverBudget.BudgetSuffices` | src/link_shortener/infrastructure/failover/failover_service.py:499-542 | A call met by nothing but climbs, whose heights and mid-turn landings add up to at most n plus its starting index, fails only if every service from its start to the end refused it |
| `FailoverBudget.OneClimbIsTolerated` | src/link_shortener/infrastructure/failover/failover_service.py:499-542 | With at most one outside climb, at any interleaving point, a failed call was refused by every service from its starting index to the end: 2n turns are enough |
| `FailoverBudget.NobodyGivesUpEarly` | src/link_shortener/infrastructure/failover/failover_service.py:499-542 | In every run, whatever others do to the index, a call gives up only refused by the last service or without a turn left |
| `FailoverBudget.DescentsAreFollowed` | src/link_shortener/infrastructure/failover/failover_service.py:520-542 | Where others only take the work further down, no call runs out of turns: it retries on what is there now and fails only refused by the last service |
| `FailoverTight.BudgetIsTight` | src/link_shortener/infrastructure/failover/failover_service.py:499-542 | Wherever a call starts above the last service there is a run whose climbs cost exactly n + start + 1, one more than the budget, and in which the call fails with the last service unasked: the bound is tight for every start |
| `FailoverTight.NothingToMissOnTheLast` | src/link_shortener/infrastructure/failover/failover_service.py:499-542 | On the last service there is no such run: a failed call that started there was refused by it, whatever it met |
| `FailoverTight.TwoClimbsAreTooMany` | src/link_shortener/infrastructure/failover/failover_service.py:499-542 | On three services or more two climbs can do that: one climb is the exact promise |
| `FailoverTrace.TracesAreSound` | src/link_shortener/infrastructure/failover/failover_service.py:499-542 | Along every list of visits one call can make to the lock, wherever others have left the index each time: what the runs keep of a call, and the account of turns against way made and interference met |
| `FailoverTrace.RanOutMeansRefused` | src/link_shortener/infrastructure/failover/failover_service.py:499-542 | A call that ran out having met nothing but climbs, at most one of them or within the budget, was refused by every service from its start to the end |
| `FailoverTrace.AloneItEnds` | src/link_shortener/infrastructure/failover/failover_service.py:449-542 | With nobody else about a call meets no interference, and ends on the first taker from its start or refused by all from there on |
| `FailoverProjection.EveryCallIsATrace` | src/link_shortener/infrastructure/failover/failover_service.py:449-542 | Every call of every interleaving is the trace of its visits to the lock, so what `Execute` is proved against is as general as the runs; if others only climbed, the trace shows only climbs, no more of them and no more interference than the run |
| `FailoverRounds.RoundMoves` | src/link_shortener/infrastructure/failover/failover_service.py:249-423 | A round demotes exactly when the holder said no and someone below said yes, to the nearest such; climbs exactly when it did not demote, the cooldown ran out and someone above said yes, to the highest such; never both. A look upwards spends the cooldown whether or not anyone answered, and nothing else does |
| `FailoverRounds.VerdictIsAboutTheHolder` | src/link_shortener/infrastructure/failover/failover_service.py:259-423 | With a checker, `last_check` after a round is HEALTHY, UNHEALTHY or PROBE_FAILED exactly when the service holding the work at the end answered yes, no or raised in that round |
| `FailoverCore.FirstAnswering` | src/link_shortener/infrastructure/failover/failover_service.py:311-345 | The first service of a stretch that answers: it answers, nobody before it does, and none at all means nobody does |
| `FailoverService.FailoverService.Build` | src/link_shortener/infrastructure/failover/failover_service.py:91-173 | A chain of no services is refused, and no other; a new one stands on its first service |
| `FailoverService.FailoverService.AttemptDemotion` | src/link_shortener/infrastructure/failover/failover_service.py:259-354 | The loop down the list is the demotion step the runs are made of |
| `FailoverService.FailoverService.AttemptUpgrade` | src/link_shortener/infrastructure/failover/failover_service.py:356-423 | The loop up the list is the climbing step the runs are made of |
| `FailoverService.FailoverService.RunCheck` | src/link_shortener/infrastructure/failover/failover_service.py:249-257 | A round demotes or, failing that, tries to climb |
| `FailoverService.FailoverService.SwitchToNextService` | src/link_shortener/infrastructure/failover/failover_service.py:425-447 | One place down, or a refusal to move at the end of the list |
| `FailoverService.FailoverService.Execute` | src/link_shortener/infrastructure/failover/failover_service.py:449-542 | What the loop did is exactly the trace those answers and those moves of others determine; a handled call is with a service that takes it; a failed one counts itself, was refused by all it asked, and by the last service or had no turn left: by the last service if nobody climbed, by everyone from its start on if the others only climbed, once or within the budget; alone, a call lands on the first taker and leaves the work there |
| `Seqs.JoinOfSplit` | src/link_shortener/infrastructure/logging/journal_reader.py:185-192 | Splitting into lines loses nothing and leaves no separator in any line |
| `JournalText.SplitOfConcat` | src/link_shortener/infrastructure/logging/journal_reader.py:115-192 | A cut at any byte tears at most the one line it falls in |
| `JournalText.SuffixEndsAlike` | src/link_shortener/infrastructure/logging/journal_reader.py:160-192 | A suffix with more than `wanted` newlines ends in the same `wanted` lines as the whole file: why one newline more is read |
| `JournalText.FillBuffer` | src/link_shortener/infrastructure/logging/journal_reader.py:148-183 | Reading blocks from the end leaves a suffix of the file that is the whole file or holds more newlines than lines were asked for |
| `JournalText.ReadBackwards` | src/link_shortener/infrastructure/logging/journal_reader.py:148-192 | For every content and block size, the backward read is exactly the last `wanted` lines of the file; not having reached the start means there are more lines; with `wanted` 0 a file read to its start comes back whole |
| `JournalText.ReadForwards` | src/link_shortener/infrastructure/logging/journal_reader.py:134-146 | The forward window over a compressed archive gives the same lines |
| `JournalFilter.RangeIsClosed` | src/link_shortener/application/ports/journal_reader.py:157-186 | Cutting stamps to the bound's length makes the time range an interval of text closed at both ends, where every stamp that `until` is a prefix of belongs to it |
| `JournalFilter.TextOrder` | src/link_shortener/application/ports/journal_reader.py:157-186 | The comparison is dictionary order: the first difference decides, a prefix comes first |
| `JournalFilter.MatchesExactly` | src/link_shortener/application/ports/journal_reader.py:108-155 | A search finds exactly the records that are no health probe, unless probes were asked for by name, that hold every term asked for in one of its fields (an account in `user_id` or `target_user_id`) and whose stamp lies in the closed interval |
| `JournalReader.FullPageIsExact` | src/link_shortener/infrastructure/logging/journal_reader.py:299-413 | A full page is the last `wanted` matches of all readable history, not merely of what was scanned |
| `JournalReader.ReachedStartIsHonest` | src/link_shortener/application/ports/journal_reader.py:226-234 | Where the start is claimed, every line of the live file and of every archive was scanned and the page holds every match |
| `JournalReader.HistoryIsTheFiles` | src/link_shortener/infrastructure/logging/journal_reader.py:330-405 | The history is every line of every file that is there, oldest file first, under that file's name |
| `JournalReader.WantedIsClamped` | src/link_shortener/infrastructure/logging/journal_reader.py:318-330 | What is asked for, between nothing and 2000 |
| `JournalReader.LinesBackwards` | src/link_shortener/infrastructure/logging/journal_reader.py:115-192 | Either branch gives the last lines of one file, for at least one line wanted |
| `JournalReader.Scan` | src/link_shortener/infrastructure/logging/journal_reader.py:330-405 | The walk over the files, newest first, has at every moment the matches of exactly the newest lines scanned, never asks a file for zero lines, and stops early only with the page or the budget full |
| `JournalReader.ReadOnce` | src/link_shortener/infrastructure/logging/journal_reader.py:299-413 | One read is the page of the whole contract: the last matches among the newest `total_scanned` lines, short only where history or budget ran out, `reached_start` if and only if nothing older exists; `files_read` names the files there among those it got to, which hold all it scanned, and it stops before the last only full |
| `JournalReader.Tail` | src/link_shortener/infrastructure/logging/journal_reader.py:263-297 | Through the second, deep attempt as well: the page is the end of the history within 50 000 lines, a full page is exact over all of it, a plain read that drops nothing looks no further than its page, and `reached_start` is never claimed of less than everything |
| `RefreshTheorems.ChainsAreLinear` | src/link_shortener/infrastructure/auth/jwt_auth_service.py:204-413 | In every reachable table two sessions of one chain share their owner and their revocation, at most one of them is unspent, and no two have the same successor |
| `RefreshTheorems.SuccessorsSurvive` | src/link_shortener/domain/repositories/refresh_session_repository.py:121-131 | Whatever the sweeps removed, a spent session's successor is still in the table, in the same chain, of the same owner and expiring no sooner |
| `RefreshTheorems.EveryTokenIsSpentOnce` | src/link_shortener/domain/repositories/refresh_session_repository.py:42-60 | Over a whole run no token is exchanged twice |
| `RefreshTheorems.ReplaysAreRecognised` | src/link_shortener/infrastructure/auth/jwt_auth_service.py:360-390 | A token that was exchanged is recognised as a replay of its own chain whenever it comes back, as long as its row is there |
| `RefreshTheorems.TokensAreReadExactly` | src/link_shortener/infrastructure/auth/jwt_auth_service.py:360-392 | In every reachable table a token is refused to anybody but its chain's owner; to the owner it is a replay exactly if it has a successor, good exactly if it is the last of a chain not ended and unexpired, and refused otherwise |
| `RefreshTheorems.LoginsAreLiveExactly` | src/link_shortener/domain/repositories/refresh_session_repository.py:72-88 | A chain is live exactly as long as it was not ended and its last token has not expired |
| `RefreshTheorems.RevocationIsFinal` | src/link_shortener/infrastructure/auth/jwt_auth_service.py:236-288 | Once a chain is ended by logout, replay or revoke-all, at no later moment is it live, every row of it is revoked and no later step issues a token in it, whatever a refresh read before |
| `RefreshTheorems.OnlyEndingsRevoke` | src/link_shortener/domain/repositories/refresh_session_repository.py:90-103 | Nothing but an ending of its own chain revokes a session: a replay leaves the account's other logins alone |
| `RefreshInvariant.SweepTakesAPrefix` | src/link_shortener/infrastructure/database/repositories/sqlalchemy_refresh_session_repository.py:158-183 | A sweep of expired sessions removes only the front of a chain |
| `RefreshInvariant.ClaimableIsLast` | src/link_shortener/infrastructure/database/repositories/sqlalchemy_refresh_session_repository.py:50-74 | A session that can still be claimed is the last of a chain that is not dead |
| `RefreshService.SessionTable.ClaimForRotation` | src/link_shortener/infrastructure/database/repositories/sqlalchemy_refresh_session_repository.py:50-74 | One conditional statement: it wins if and only if the session is there, unrevoked, unspent and unexpired, and changes nothing otherwise |
| `RefreshService.SessionTable.RevokeOneChain` | src/link_shortener/infrastructure/database/repositories/sqlalchemy_refresh_session_repository.py:96-117 | All live rows of one chain are revoked, no other row changes, and the count is theirs |
| `RefreshService.SessionTable.RevokeAllForUser` | src/link_shortener/infrastructure/database/repositories/sqlalchemy_refresh_session_repository.py:135-156 | The same for all rows of one account |
| `RefreshService.SessionTable.RemoveExpired` | src/link_shortener/infrastructure/database/repositories/sqlalchemy_refresh_session_repository.py:158-183 | Rows expired strictly before now go, the rest stay, and the count is the difference |
| `RefreshService.AuthenticationService.CreateSessionTokens` | src/link_shortener/infrastructure/auth/jwt_auth_service.py:204-234 | Whatever others do between stamping and saving, a login opens a chain in which it is the only session, good exactly until its expiry, and changes no other row; the run behind the table goes on by its steps |
| `RefreshService.AuthenticationService.LookUp` | src/link_shortener/infrastructure/auth/jwt_auth_service.py:360-392 | The lookup finds a session to spend exactly for its owner while it is unrevoked, unspent and unexpired, a replay exactly for its owner once it is spent, and names its chain; it is the step of the runs |
| `RefreshService.AuthenticationService.ClaimAndSave` | src/link_shortener/infrastructure/auth/jwt_auth_service.py:397-420 | The successor is saved exactly if the session could still be claimed at that moment, as one step of the runs |
| `RefreshService.AuthenticationService.RefreshAccessToken` | src/link_shortener/infrastructure/auth/jwt_auth_service.py:330-420 | With any steps of other requests in its two gaps: a new pair is issued if and only if the account is active and the owner's session is good when read and when claimed; the old token is then spent on the new one, which is good in the same chain exactly until its expiry. A replay retires its chain as it then stands, and every other case changes nothing |
| `RefreshService.AuthenticationService.RevokeRefreshToken` | src/link_shortener/infrastructure/auth/jwt_auth_service.py:236-270 | Logout, with others between its lookup and its update, leaves no session of the chain good at any time and says whether one was live by then; anyone but the owner changes nothing |
| `RefreshService.AuthenticationService.RevokeSessionChain` | src/link_shortener/infrastructure/auth/jwt_auth_service.py:272-301 | From then on no session of the chain is good at any time; only the moment of revocation is written, and only where there was none; no session of another chain changes, and the count is of those not revoked before |
| `RefreshService.AuthenticationService.SignOutEverywhere` | src/link_shortener/infrastructure/database/repositories/sqlalchemy_refresh_session_repository.py:135-156 | Every chain of the account is ended as a whole, no row of another account changes |
| `RefreshService.AuthenticationService.SweepExpired` | src/link_shortener/infrastructure/database/repositories/sqlalchemy_refresh_session_repository.py:158-183 | Exactly the expired rows go, and no session that stays points at one that went |
| `RefreshService.AuthenticationService.ChainsOfTheTable` | src/link_shortener/infrastructure/auth/jwt_auth_service.py:204-413 | The table of the object, whatever was asked of it in whatever order: its chains are single lines |
| `RefreshService.AuthenticationService.EndedChainsOfTheTable` | src/link_shortener/infrastructure/auth/jwt_auth_service.py:236-288 | A chain that any step of its run ended has no session in the table that is good at any time |
| `RefreshService.AuthenticationService.SuccessorsOfTheTable` | src/link_shortener/domain/repositories/refresh_session_repository.py:121-131 | A spent session of the table has its successor there, in its chain |
| `CacheKeys.TokensAreInjective` | src/link_shortener/domain/value_objects/dedup_scope.py:30-84 | Two scopes share a token exactly when they are equal, whatever the identifiers contain |
| `CacheKeys.CallersShareATokenExactly` | src/link_shortener/domain/value_objects/dedup_scope.py:30-84 | Ownership wins: two callers share a token exactly when they are the same account, or neither has one and they are the same guest |
| `CacheKeys.KeysAreInjective` | src/link_shortener/application/utils/cache_key_builder.py:10-70 | Under one prefix two entries share a key exactly when they are the same entry, across all four kinds, for owner ids and guest identifiers containing colons |
| `CacheLog.LinkLookupsFollowTheLog` | src/link_shortener/infrastructure/cache/memory_cache.py:182-250 | After any run with a clock that does not step back, other operations inside `save_redirect`'s gap included, a lookup by code or by (hash, scope) answers with the latest surviving save for that key, for exactly as long as its time to live |
| `CacheTheorems.RedirectLookupsFollowTheLog` | src/link_shortener/infrastructure/cache/memory_cache.py:331-375 | The same for redirects, however many operations fell between working out a redirect's life and stamping it, save that nothing is served at or past the link's expiry |
| `CacheTheorems.StatsLookupsFollowTheLog` | src/link_shortener/infrastructure/cache/memory_cache.py:378-406 | Statistics answer exactly while the second clock reading is within their time |
| `CacheTheorems.SavedLinksAreFound` | src/link_shortener/infrastructure/cache/memory_cache.py:219-250 | A saved link is found under its code and under its hash and scope exactly while its time to live runs |
| `CacheTheorems.SavedLinksRedirect` | src/link_shortener/infrastructure/cache/memory_cache.py:219-250 | It redirects to the link's own URL with the link's own expiry, while the time to live runs and before that expiry, and not otherwise |
| `CacheTheorems.SavedRedirectsAreServed` | src/link_shortener/infrastructure/cache/memory_cache.py:357-375 | A saved redirect is answered as it was given, exactly so long |
| `CacheTheorems.SavedStatsAreFound` | src/link_shortener/infrastructure/cache/memory_cache.py:391-397 | Saved statistics are answered exactly while their time to live runs |
| `CacheTheorems.AnswersComeFromSaves` | src/link_shortener/infrastructure/cache/memory_cache.py:331-355 | Whatever redirect is ever answered has the code asked for and the URL and expiry some save of the run filed |
| `CacheTheorems.DeletedLinksStayGone` | src/link_shortener/infrastructure/cache/memory_cache.py:276-299 | After `delete(link)` none of its three keys answers through any run that does not save under one of them again |
| `CacheTheorems.RedirectTtlIsTheSooner` | src/link_shortener/infrastructure/cache/memory_cache.py:309-329 | The time to live is the tighter of the setting and what remains of the link; none exactly for an expired link |
| `CacheTheorems.RedirectsOutlastBySlipOnly` | src/link_shortener/infrastructure/cache/memory_cache.py:219-250 | In any run a held redirect comes from a save of that very redirect and outlasts its link at most by the time that passed inside that save, not at all after `save` |
| `CacheTheorems.SaveRedirectCap` | src/link_shortener/infrastructure/cache/memory_cache.py:357-375 | `save_redirect` keeps its entry within the link's lifetime if and only if the clock stood still inside it or the full time to live fits before the expiry; the documented cap is not unconditional |
| `CacheTheorems.NoRedirectPastExpiry` | src/link_shortener/infrastructure/cache/memory_cache.py:331-355 | No redirect is served at or past its link's expiry, even so |
| `CacheTheorems.CountersAddUp` | src/link_shortener/infrastructure/cache/memory_cache.py:164-179 | In any run link_count + redirect_count + (1 if has_stats) equals total_keys, also after statistics were dropped and their expiry key left behind |
| `LinkCache.InMemoryLinkCache.CleanExpired` | src/link_shortener/infrastructure/cache/memory_cache.py:125-154 | The cleaning loop drops exactly the keys that ran out, and the statistics with theirs |
| `LinkCache.InMemoryLinkCache.PopAll` | src/link_shortener/infrastructure/cache/memory_cache.py:265-274 | Popping a list of keys forgets exactly those |
| `LinkCache.InMemoryLinkCache.ClearEverything` | src/link_shortener/infrastructure/cache/memory_cache.py:156-162 | Nothing is left |
| `LinkCache.InMemoryLinkCache.CacheInfo` | src/link_shortener/infrastructure/cache/memory_cache.py:164-179 | The counters are those of the cleaned stores, and add up |
| `LinkCache.InMemoryLinkCache.FindByCode` | src/link_shortener/infrastructure/cache/memory_cache.py:182-188 | The answer is what the log holds for that code at that instant |
| `LinkCache.InMemoryLinkCache.FindByHash` | src/link_shortener/infrastructure/cache/memory_cache.py:190-198 | The answer is what the log holds for that hash and scope at that instant |
| `LinkCache.InMemoryLinkCache.FindByHashes` | src/link_shortener/infrastructure/cache/memory_cache.py:200-217 | Every hash asked for, and no other, is answered so |
| `LinkCache.InMemoryLinkCache.Save` | src/link_shortener/infrastructure/cache/memory_cache.py:219-250 | A save leaves the cache where its log leads, with the entries stamped by the first clock reading and the redirect's life worked out at the second |
| `LinkCache.InMemoryLinkCache.Forget` | src/link_shortener/infrastructure/cache/memory_cache.py:276-299 | From then on none of the three keys answers |
| `LinkCache.InMemoryLinkCache.ForgetCode` | src/link_shortener/infrastructure/cache/memory_cache.py:258-274 | A deletion by code leaves the cache where its log leads |
| `LinkCache.InMemoryLinkCache.ForgetRedirect` | src/link_shortener/infrastructure/cache/memory_cache.py:301-306 | So does the deletion of a redirect alone |
| `LinkCache.InMemoryLinkCache.FindRedirect` | src/link_shortener/infrastructure/cache/memory_cache.py:331-355 | The answer is what the log holds for that code, unless the link has expired when it is served |
| `LinkCache.InMemoryLinkCache.KeepRedirect` | src/link_shortener/infrastructure/cache/memory_cache.py:357-375 | The life may have been worked out before other operations ran: the save takes its place in the log where the entry is stamped; of an expired link it changes nothing |
| `LinkCache.InMemoryLinkCache.FindStats` | src/link_shortener/infrastructure/cache/memory_cache.py:378-389 | The answer is the statistics the log holds at the second reading |
| `LinkCache.InMemoryLinkCache.KeepStats` | src/link_shortener/infrastructure/cache/memory_cache.py:391-397 | Saving statistics leaves the cache where its log leads |
| `LinkCache.InMemoryLinkCache.ForgetStats` | src/link_shortener/infrastructure/cache/memory_cache.py:399-406 | So does deleting them |
| `RateLimiter.WindowsAreBounded` | src/link_shortener/infrastructure/rate_limit/memory_rate_limiter.py:23-45 | If every request for a key was held to at most `limit` in at least `period`, no half-open window of that length, open at either end, ever holds more than `limit` grants, over every run with a clock that does not step back |
| `RateLimiter.VerdictsAreExact` | src/link_shortener/infrastructure/rate_limit/memory_rate_limiter.py:23-63 | Whatever limits and periods were mixed before, a request is refused only when the window ending now already holds `limit` grants; it is refused exactly then, for every limit, if and only if no earlier request pruned a grant of that window, and then `get_remaining` is exactly what is left |
| `RateLimiter.NoShorterIsIntact` | src/link_shortener/infrastructure/rate_limit/memory_rate_limiter.py:23-63 | Nothing of the window was pruned if no earlier request for the key used a shorter period |
| `RateLimiter.AllowedExactlyWhenSomethingRemains` | src/link_shortener/infrastructure/rate_limit/memory_rate_limiter.py:23-63 | `is_allowed` succeeds exactly when `get_remaining` at that instant is positive |
| `RateLimiter.ShorterPeriodForgets` | src/link_shortener/infrastructure/rate_limit/memory_rate_limiter.py:37-45 | A run in which one request with a shorter period prunes what a longer window needed, which then grants two where one is allowed |
| `RateLimiter.RetainIsATail` | src/link_shortener/infrastructure/rate_limit/memory_rate_limiter.py:37-38 | Pruning the sorted history cuts off exactly its old front |
| `MemoryRateLimiter.Limiter.After` | src/link_shortener/infrastructure/rate_limit/memory_rate_limiter.py:37-38 | The pruning comprehension keeps exactly the timestamps after the window's start |
| `MemoryRateLimiter.Limiter.Request` | src/link_shortener/infrastructure/rate_limit/memory_rate_limiter.py:23-45 | The grants of the key grow by this request exactly if it is allowed, no other key changes, and the verdict is the exact one over the real history |
| `MemoryRateLimiter.Limiter.Left` | src/link_shortener/infrastructure/rate_limit/memory_rate_limiter.py:47-63 | Nothing is granted; the answer is positive exactly when a request would be, and exact over the real history |
| `Ipv4Host.SpellingIsRead` | src/link_shortener/domain/value_objects/original_url.py:634-661 | Every spelling of a number, decimal, octal or hexadecimal, with any leading zeros the radix allows and any letter case, is read as that number |
| `Ipv4Host.OnlySpellingsAreRead` | src/link_shortener/domain/value_objects/original_url.py:634-661 | Nothing else is, a trailing newline aside |
| `Ipv4Host.BrokenExactly` | src/link_shortener/domain/value_objects/original_url.py:654-661 | Converting raises on exactly one part: a zero and a newline |
| `Ipv4Host.NewlineIsLetGo` | src/link_shortener/domain/value_objects/original_url.py:58-62 | One newline after any other spelling with digits is let go |
| `Ipv4Host.EveryNumberIsSpelled` | src/link_shortener/domain/value_objects/original_url.py:634-661 | Every number has a spelling in every radix with any number of leading zeros it allows |
| `HostAddress.PackUnpack` | src/link_shortener/domain/value_objects/original_url.py:612-626 | Cutting a 32-bit address into one to four parts gives parts that fit and pack back to it |
| `HostAddress.UnpackPack` | src/link_shortener/domain/value_objects/original_url.py:612-626 | Parts that fit pack below 2^32 and are cut out again unchanged |
| `HostAddress.PackNumbers` | src/link_shortener/domain/value_objects/original_url.py:623-626 | The packing loop adds every octet at its weight |
| `HostAddress.AsIpAddress` | src/link_shortener/domain/value_objects/original_url.py:568-626 | The parser step by step, with its refusals in order, is the reading of the host |
| `HostAddress.ReadingIsExact` | src/link_shortener/domain/value_objects/original_url.py:568-626 | A host is read as the IPv4 address a if and only if it has no colon, one to four labels, and they are read as the parts of a, which is below 2^32 |
| `HostAddress.VerdictsAreExact` | src/link_shortener/domain/value_objects/original_url.py:593-626 | Every other verdict, exactly: a name if there is no label or the last is no number; ending in a number refused if there are five labels or more, or one is no number or too large for its place; the raised error |
| `HostAddress.ColonsAreSix` | src/link_shortener/domain/value_objects/original_url.py:593-597 | A colon leaves the host to the reader of IPv6 literals, and what that does not read is refused |
| `HostAddress.FiveLabelsAreRefused` | src/link_shortener/domain/value_objects/original_url.py:605-606 | Five labels or more that end in a number are refused, whatever the others are |
| `HostAddress.EverySpellingIsRead` | src/link_shortener/domain/value_objects/original_url.py:568-661 | Any 32-bit address in one to four parts, each spelled in any radix, with or without a final dot, is read back as that address |
| `HostAddress.ReadingForgetsTheSpelling` | src/link_shortener/domain/value_objects/original_url.py:663-700 | Hosts that write addresses are read alike exactly when the addresses are equal, so a verdict on the address cannot depend on the spelling |
| `HostAddress.StrayOctalIsAName` | src/link_shortener/domain/value_objects/original_url.py:599-604 | A host whose last label is a zero followed by decimal digits that are not all octal, such as `08`, is a name |
| `UrlAuthority.AsciiFormIsStable` | src/link_shortener/domain/value_objects/original_url.py:527-566 | Taking the ASCII form again changes nothing exactly when it does not end in a single dot; the form of an ASCII host never does |
| `UrlAuthority.BracketedReadsBack` | src/link_shortener/domain/value_objects/original_url.py:732-743 | A bracketed host and port are read back as shown, colons and all |
| `UrlAuthority.BareReadsBack` | src/link_shortener/domain/value_objects/original_url.py:740-743 | So are a bare host and port |
| `UrlNormalAuthority.NormalReadsBack` | src/link_shortener/domain/value_objects/original_url.py:729-749 | A normalised authority, credentials and all, is read back as its credentials, the ASCII host, the source's bracketing and the port that was kept, unless a bracket among the credentials meets a closing one in a bare host |
| `UrlNormalAuthority.AuthorityTwice` | src/link_shortener/domain/value_objects/original_url.py:709-749 | Normalising any authority again changes nothing if and only if its ASCII host does not end in a single dot and it is not torn in that way |
| `UrlNormalAuthority.FilledLabelsLeaveNoRoot` | src/link_shortener/domain/value_objects/original_url.py:432-436 | A host without an empty label, which admission demands of names, never does |
| `UrlNormalAuthority.SameAuthority` | src/link_shortener/domain/value_objects/original_url.py:709-749 | Under http and https two authorities without credentials get the same normal form exactly when they agree on scheme, ASCII host, bracketing and effective port |
| `UrlNormalAuthority.PortsAreShownExactly` | src/link_shortener/domain/value_objects/original_url.py:740-743 | For every host a port leaves no mark exactly if it is 80 under http or 443 under https, however many zeros it is written with; any other is kept as its number |
| `UrlNormalAuthority.BadPortsAreRefused` | src/link_shortener/domain/value_objects/original_url.py:371-374 | A port that is no number or beyond 65535 leaves no normal form; an empty one is none |
| `UrlNormalAuthority.RootAndCaseAreDropped` | src/link_shortener/domain/value_objects/original_url.py:546-556 | An ASCII host is shown in lower case, with or without the dot of the root |
| `UrlNormalize.UnparseReadsBack` | src/link_shortener/domain/value_objects/original_url.py:751-761 | Components put together are parsed back unchanged |
| `UrlNormalize.LeadingSpacesAreDropped` | src/link_shortener/domain/value_objects/original_url.py:184-186 | Spaces in front are not part of a URL, as the parser has it |
| `UrlNormalize.SchemeCaseIsDropped` | src/link_shortener/domain/value_objects/original_url.py:730-730 | A scheme is read in lower case |
| `UrlNormalize.FragmentsAreDropped` | src/link_shortener/domain/value_objects/original_url.py:753-760 | A fragment is no part of what is compared |
| `UrlNormalize.NormalizeTwice` | src/link_shortener/domain/value_objects/original_url.py:709-761 | For any URL that normalises, stored rows with credentials included, `normalize` is idempotent on it if and only if the ASCII host does not end in a single dot and is not torn |
| `UrlAdmission.AdmittedHostHasNoRoot` | src/link_shortener/domain/value_objects/original_url.py:385-447 | Where it exists, the ASCII form of a host that passes the host rules never ends in a dot |
| `UrlAdmission.AdmittedNormalizes` | src/link_shortener/domain/value_objects/original_url.py:473-522 | An admitted URL has a normal form if and only if its host is not an address with a zone beyond ASCII; such a host is admitted only where internal targets are |
| `UrlAdmission.AdmittedNormalizeOnce` | src/link_shortener/domain/value_objects/original_url.py:709-761 | On a URL that the rules on characters, scheme, credentials, port and host let through, `normalize` is idempotent, except where internal targets are admitted and the host is an address with a zone beyond ASCII: there it is refused |
| `UrlAdmission.ForeignZonesHaveNoNormalForm` | src/link_shortener/domain/value_objects/original_url.py:411-415 | Every such address, in brackets, is an admitted URL without a normal form |
| `UrlAdmission.ZonedHasNoNormalForm` | src/link_shortener/domain/value_objects/original_url.py:411-415 | One of them: the loopback with an accented zone |
| `UrlNormalize.NormalFormsAgree` | src/link_shortener/domain/value_objects/original_url.py:709-761 | Two URLs have the same normal form exactly when scheme, ASCII host, bracketing, effective port, path, parameters and query agree |
| `UrlAdmission.StoppedNameNormalizesTwice` | src/link_shortener/domain/value_objects/original_url.py:71-86 | A stored row whose host ends in an ideographic full stop is a URL on which it is not idempotent |
| `UrlAdmission.TornRowsNormalizeTwice` | src/link_shortener/domain/value_objects/original_url.py:732-749 | So is every stored row with a bracket among its credentials and a closing one in a bare host |
| `UrlAdmission.TornRow` | src/link_shortener/domain/value_objects/original_url.py:732-749 | One of them, whose brackets hold an address |
| `SeedTable.UniqueExactlyWithoutClash` | src/link_shortener/infrastructure/database/role_loader.py:211-260 | Upserting through a session whose lookups do not see pending rows keeps names unique if and only if no two entries would add the same new name |
| `SeedTable.SecondPassDoesNothing` | src/link_shortener/infrastructure/database/role_loader.py:262-416 | For entries that settle, a second pass changes no row and adds none |
| `RoleSeeding.NamesStayUnique` | src/link_shortener/infrastructure/database/role_loader.py:147-260 | A pass that is not refused keeps permission and role names unique |
| `RoleSeeding.ExistingRowsAreKept` | src/link_shortener/infrastructure/database/role_loader.py:293-364 | Without update every permission stays, every role keeps its fields and permissions, and its system flag is raised exactly where the file says so |
| `RoleSeeding.SecondPass` | src/link_shortener/infrastructure/database/role_loader.py:147-209 | With update or without, the second pass is not refused, changes nothing and reports nothing created, reprotected or regranted |
| `RoleSeeding.UpdateGrantsTheFile` | src/link_shortener/infrastructure/database/role_loader.py:371-399 | After an update every role of the file grants exactly what the file lists |
| `RoleSeeding.NewRowsAreTheFile` | src/link_shortener/infrastructure/database/role_loader.py:286-291 | A permission or role the table did not have is added as the file has it, with its fields, its flag and exactly the permissions listed, with update or without |
| `RoleSeeding.UpdatedRowsAreTheFile` | src/link_shortener/infrastructure/database/role_loader.py:344-399 | With update a role that was there takes the fields and the flag the file gives, keeps the others, and grants exactly what is listed |
| `RoleSeeding.UpdatedPermissionsAreTheFile` | src/link_shortener/infrastructure/database/role_loader.py:279-285 | So does a permission with its fields |
| `RoleSeeding.UnnamedRowsStay` | src/link_shortener/infrastructure/database/role_loader.py:203-209 | A role the file does not name stays as it is |
| `RoleSeeding.PassesExactly` | src/link_shortener/infrastructure/database/role_loader.py:147-209 | A pass goes through if and only if the file repeats no name, every role is called and described as it may be, and every role it would write lists permissions the table or the file has |
| `RoleSeeding.CreationsAreReported` | src/link_shortener/infrastructure/database/role_loader.py:286-290 | With update or without, exactly what was missing is reported as created |
| `RoleSeeding.RegrantsAreTheChanges` | src/link_shortener/infrastructure/database/role_loader.py:401-414 | An update reports a role that was there as regranted, with what it granted before and after, if and only if the two differ |
| `RoleSeeding.ReportIsExact` | src/link_shortener/infrastructure/database/role_loader.py:280-369 | Without update the report lists exactly what was created, exactly the roles that changed as reprotected, and exactly the others of the file as left alone |
| `RoleLoader.FindsRepeated` | src/link_shortener/infrastructure/database/role_loader.py:241-260 | The loop with a set of names seen finds a repeated name exactly when there is one |
| `RoleLoader.Loader.UpsertPermission` | src/link_shortener/infrastructure/database/role_loader.py:262-291 | One entry changes the row found or adds a pending one, and is noted |
| `RoleLoader.Loader.UpsertRole` | src/link_shortener/infrastructure/database/role_loader.py:293-416 | The same for a role, with its refusals in order |
| `RoleLoader.Loader.LoadFromFile` | src/link_shortener/infrastructure/database/role_loader.py:147-209 | A whole pass, row by row with its one flush, returns and leaves to commit what the pass function says, or its first refusal |
| `PrivilegeRuns.NoEscalation` | src/link_shortener/domain/policies/privilege_policy.py:57-125 | After any run of role creations, edits, deletions, assignments and account creations by accounts none of which holds `admin:all`, whatever an account gained was held by an acting account at the start, or comes with the default role where the run may give that away |
| `PrivilegeRequests.MayConferExactly` | src/link_shortener/domain/policies/privilege_policy.py:91-125 | A grant passes if and only if the actor holds `admin:all` or all of it, and a refusal names exactly what exceeds them |
| `PrivilegeRequests.PrivilegedExactly` | src/link_shortener/domain/policies/privilege_policy.py:138-172 | A permission is authority exactly by the resources admin, audit and logs, or by an action ending in `_any` |
| `PrivilegeRequests.RolesAreCreatedExactly` | src/link_shortener/application/services/role_management_service.py:125-171 | A role is created if and only if the permissions are known and may be conferred and the name is good and free; it grants exactly what was asked for and changes nothing else |
| `PrivilegeRequests.RolesAreEditedExactly` | src/link_shortener/application/services/role_management_service.py:173-205 | A role is edited if and only if it is there, not the service's own, the permissions are known and may be conferred, and the last administrator stays; it then grants exactly the new set, keeps id and flag, and its wearers hold exactly that and what their other roles grant |
| `PrivilegeRequests.RolesAreDeletedExactly` | src/link_shortener/application/services/role_management_service.py:207-230 | A role is deleted if and only if it is there, not the service's own, and no last administrator hangs on it |
| `PrivilegeRequests.AccountsAreReroledExactly` | src/link_shortener/application/use_cases/admin/users/update_user_role.py:74-119 | An account is re-roled if and only if it is there, the roles are some, there, wearable and within what the actor may confer, the actor may reach it, and the last administrator stays |
| `PrivilegeRequests.AccountsAreCreatedExactly` | src/link_shortener/application/use_cases/admin/users/create_user.py:72-111 | An account is created if and only if the named roles may be given, and holds exactly what they grant; with none named, exactly what the default role grants |
| `PrivilegeRuns.TheDefaultRoleIsAGift` | src/link_shortener/application/services/user_management_service.py:73-82 | Creating an account without naming roles hands it the default role's permissions, whoever asks: why they count |
| `PrivilegeRuns.AuthorityIsLostExactly` | src/link_shortener/domain/policies/privilege_policy.py:175-231 | Over every run of every request, an account that holds through a role an authority no acting account holds loses that role if and only if an edit or a deletion of the role itself passed, and the role does not get the authority back |
| `PrivilegeRuns.AuthorityIsHeldExactly` | src/link_shortener/domain/policies/privilege_policy.py:175-231 | For every account and every run: it holds an authority that no acting account holds at the end exactly when some role that granted it to the account at the start was never edited or deleted |
| `PrivilegeRuns.AuthorityIsOutOfReach` | src/link_shortener/application/use_cases/admin/users/update_user_role.py:97-102 | So through a system role, or one no edit or deletion names, it is kept through every run |
| `PrivilegeRuns.EditsTakeAuthority` | src/link_shortener/application/use_cases/admin/roles/update_role_permissions.py:69-114 | And the failing input: emptying a role that is not the service's own takes everything off an account that wears nothing else, whoever asks |
| `PrivilegeRequests.AssignedHoldsExactly` | src/link_shortener/application/services/user_management_service.py:104-148 | An assignment that passes leaves the account holding exactly what the named roles grant, and touches no other account |
| `PrivilegeRequests.DeletedRoleIsGone` | src/link_shortener/application/use_cases/admin/roles/delete_role.py:76-226 | A deletion that passes takes the role off everybody; an account that wore nothing else is put on the default role |
| `Administration.Tables.ResolveRoles` | src/link_shortener/application/services/role_management_service.py:71-123 | Names become roles, each id once; or the first name nothing carries |
| `Administration.Tables.RequireMayConfer` | src/link_shortener/domain/policies/privilege_policy.py:91-125 | The guard refuses exactly with what exceeds the actor |
| `Administration.Tables.CreateRole` | src/link_shortener/application/use_cases/admin/roles/create_role.py:64-94 | Refused in the order unknown permission, beyond the actor, bad name, name taken, with the tables untouched; otherwise exactly the new role is added, as the step of the runs |
| `Administration.Tables.UpdateRolePermissions` | src/link_shortener/application/use_cases/admin/roles/update_role_permissions.py:69-114 | Refused for unknown permissions, beyond the actor, the last administrator, no such role or a system role, with the tables untouched; otherwise exactly that role grants the new set |
| `Administration.Tables.DeleteRole` | src/link_shortener/application/use_cases/admin/roles/delete_role.py:76-116 | Deleting in place, role by role and wearer by wearer, is the one deletion step of the runs, refusals included |
| `Administration.Tables.PutTheBareOnesBack` | src/link_shortener/application/use_cases/admin/roles/delete_role.py:144-226 | Exactly the wearers left with nothing get the default role, if there is an assignable one |
| `Administration.Tables.UpdateUserRoles` | src/link_shortener/application/use_cases/admin/users/update_user_role.py:74-119 | Resolution, assignability, both privilege rules and the last-administrator rule refuse in that order and change nothing; otherwise exactly that account wears the resolved roles |
| `Administration.Tables.CreateUser` | src/link_shortener/application/use_cases/admin/users/create_user.py:72-111 | The named roles pass the same rules first; without names the default role is given and nobody is asked |
| `ShortCodes.EncodeSpells` | src/link_shortener/infrastructure/policies/base64_url_code_generator.py:79-81 | The padded encoding of any digest is its bits, six by six, then padding |
| `ShortCodes.CodeIsTheFrontOfTheDigest` | src/link_shortener/infrastructure/policies/base64_url_code_generator.py:68-83 | Truncating first costs nothing: the code is the first letters of the whole digest's encoding, and a valid short code exactly for lengths 6 to 10 |
| `ShortCodes.CodesCollideExactly` | src/link_shortener/infrastructure/policies/base64_url_code_generator.py:68-83 | Two digests share a code exactly when their first 6L bits agree |
| `ShortCodes.LettersAreInverse` | src/link_shortener/infrastructure/policies/base64_url_code_generator.py:80-81 | Letters and six-bit values correspond one to one as in section 5 of RFC 4648, and the letters are the characters of short codes |

## Left out

- Failover: announcements, `failed_checks`, `lost_log_lines`, the timer thread and shutdown; a probe's answer is one value per service and round.
- Execute: other threads are where they have put the index each time the lock is taken, not threads of their own; the interleavings of whole calls are those of `FailoverRuns`.
- Journal: decoding and parsing of a line are one function parameter; listing and ordering the archives and opening files are not modelled, a missing file is an absent content.
- Refresh: JWT encoding, signatures, password hashing; a unit of work's writes land together, identifiers are never reused and the clock does not step back.
- Cache: `save_many` (a loop of `save`), the health methods, the Redis cache; a link is a value, so a caller changing a stored object afterwards is not seen.
- WindowsAreBounded: assumes a clock that does not step back, which the wall clock the source reads can do.
- Hosts: IPv6 literals are read by a parameter, and the tables of internal ranges and special names are not modelled.
- URLs: IDNA, lower-casing beyond ASCII and the recognition of addresses are parameters with the facts stated in `Sound` and `AddressesAreAscii`; the authority check of the URL parser (unbalanced brackets, what the first pair of brackets holds, NFKC) is not modelled, and it decides which torn authorities can arrive; nor is the stripping of control characters, which admission refuses.
- AdmittedNormalizeOnce: the rules on length, on brackets around what is no IPv6 address and on public targets, which only narrow admission further, are not modelled.
- Seeding: row ids, the YAML syntax, missing or null sections; a refused pass leaves the session to be rolled back, and its state then is not described.
- Privileges: the permission each route demands of its caller, deactivation and deletion of accounts, e-mail and password rules; what the last-administrator count answers is part of the request.
- NoEscalation: a role's permissions are a set of names, and the seeding command, which asks nobody, is not among the steps.
- ShortCodes: the hash is not modelled, a digest is any sequence of octets long enough.
- Controllers, middleware, translations, mail, QR codes, paging, statistics roll-ups, guest quotas, health snapshots: wiring or easy rules with no deep invariant.
