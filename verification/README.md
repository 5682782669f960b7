# A verified model of the panel's protocols and text codecs

OrvixPanel is a hosting control panel: a Go backend with a React front end. This project models the parts of it that
carry state or text across a boundary, and proves what they promise:

- the **audit log**: a hash chain over an append-only table (`AuditChain.dfy`) with an in-memory cache of the last hash
  (`AuditLog.dfy`), the canonical text that is hashed (`CanonicalJson.dfy`), what a hash says of the events
  (`AuditBinding.dfy`), the order of ids (`AuditIds.dfy`), overlapping calls (`AuditInterleaving.dfy`) and what
  becomes of them when read by id (`AuditOverlap.dfy`), the search with its filters (`AuditSearch.dfy`) and paging
  (`AuditPaging.dfy`), and the CEF export with a reader for it (`CefText.dfy`, `CefExport.dfy`, `CefRows.dfy`,
  `CefFile.dfy`);
- the **rate limiter**: lazily refilled token buckets (`RateLimit.dfy`);
- the **sessions**: login lockout and single-use refresh rotation (`Sessions.dfy`, `SessionRuns.dfy`), how long a
  session lives (`SessionLife.dfy`), and the single-flight refresh of one browser tab against that service
  (`RefreshClient.dfy`) with what becomes of its requests (`RefreshRetry.dfy`);
- the **DNS engine**: two recognisers of host names (`Hostname.dfy`), zones in two stores under faults
  (`ZoneStore.dfy`, `ZoneLife.dfy`), records and templates (`ZoneRecords.dfy`, `ZoneRecordRuns.dfy`) and the push to PowerDNS (`ZoneSync.dfy`);
- the **license mode** and its enforcement (`License.dfy`);
- the **vault** of encrypted secrets (`Vault.dfy`) and the **quota** that gates its growth (`Quota.dfy`);
- the **reformatter** that puts collapsed Go source back on lines (`Lexemes.dfy`, `Reformat.dfy`), and
  what a reader makes of its output (`Relex.dfy`).

`Common.dfy` holds what they share. `dafny verify dfyconfig.toml` checks everything.

## How the model is made

Objects that change their fields are classes; each method's new state is given by a function of the old one, and the
properties are lemmas about runs of those functions. Loops of the source are loops here. Hashing, encryption, base64,
bcrypt, JSON marshalling of single values and Python's letter tests are function values with stated laws (collision
freedom, opening undoes sealing, and so on). Clocks, random values and faults are parameters of each call: a lemma
about all runs covers every clock, every minted value and every fault. A failing statement, transaction or remote call
has no effect. Strings are ASCII where the length or case of a text matters.

## Where the code and its documentation differ

The model follows the code. The lemma named gives the counterexample or the exact condition.

- `internal/audit/audit.go:78` calls Record safe for concurrent use; the lock is dropped between reading and writing
  the cache (`ConcurrentRecordBreaksChain`, `StaleReadBreaksChain`, and `RunKeepsChainIff` for the order of
  insertion). VerifyChain reads the rows in id order, and ids come from a new monotonic source per call (207-210), so
  two ids of one millisecond can be out of order (`SwappedIdsRaiseAlarm`, `ReadByIdAcceptedIff`,
  `UndisturbedButRejected`). The exact condition for both together is `AuditOverlap.AcceptedIff`.
- `internal/db/models/models.go:94-96` says that tampering with any row invalidates those after it; a duration past 2^53
  milliseconds can be changed unnoticed (`LongDurationNotBound`, `LastHashBindsEvents`).
- `internal/audit/search.go` orders pages by timestamp alone; ties can lose rows (`PagingCompleteIff`). Search applies a
  filter with wildcards as a pattern (`ActionIsSubstringIff`); its HTTP handler sanitises the filter first
  (`SanitizedIsSubstring`).
- `internal/audit/export.go` escapes the extension but not the header (`ExtensionFoundIff`, `LineHasNoNewlineIff`). Its
  counter of exported rows counts lines when they enter the buffer, so it counts lines that a later failing write
  loses, be it the last flush, whose error is dropped (`SmallExport`), or an earlier one, whose error is counted for
  another line (`CountedLineLost`); `CountedLinesInFileIff` says exactly when the counted lines are in the file.
- `frontend/src/lib/api/client.ts:39` returns outside the try block, so a tab that meets a 401 without a refresh token
  never refreshes again (`StuckForever`). A lost response to a rotation has the tab present a rotated token
  (`LostResponsePresentsRotated`; from which states that can happen is `CanPresentRotatedIff`).
- `internal/dns/validator.go:97` speaks of a label or subdomain; only one label is accepted (`RecordNameIsOneLabel`).
  A name of 254 characters that ends in a dot is accepted by one recogniser only (`RecognisersAgree`, `LongDottedName`).
- `internal/dns/service.go:276-279` sets a default TTL that validation has already refused (`DefaultTtlUnreachable`,
  `TemplateStopsAtMissingTtl`).
  A deletion whose local half fails leaves a zone that can be neither deleted nor created
  (`HalfDeletedForever`); without PowerDNS the two deletions are no transaction (`FailedCallKeepsTables`).
- `internal/dns/powerdns_client.go:193-218` never empties a type that has no local record left
  (`DeletedRecordStaysServed`, `RunServesLastGroup`).
- `internal/license/license.go:113-125` says rounded down and truncates toward zero (`DaysRoundDownIff`); the grace
  period is an int64 product that wraps from 106752 days on (`GraceTooLong`, `ModeAsDocumentedIff`); the cached mode is not recomputed as time
  passes, as its comment says (`LockedWriteRefusedIff`, `NeverEnforcedAfterTimelyInstall`).
- `internal/vault/handlers.go:28` says the quota is checked on every Put; it is checked on creation only
  (`RotationIsNotGated`). A deleted secret's name cannot be put again (`PutAcceptedIff`).
- `scripts/recover_newlines.py:89-91` doubles a newline inside a raw literal, so the literal changes
  (`LiteralSurvivesIff`, `SameLexemesIff`); all other lexemes come out as they were (`ReformatGo`).

## Model

| member | source | states |
|---|---|---|
| CanonicalJson.CanonicalJSON | internal/audit/audit.go:175-205 | the printed text is a function of the map alone, whatever order the Go map is walked in |
| CanonicalJson.SortedUnique | internal/audit/audit.go:184-188 | two sorted lists of the same keys are one list, so sorting is what makes the text independent of the walk |
| CanonicalJson.CanonicalInjective | internal/audit/audit.go:189-204 | the text loses nothing: maps over the same keys with the same text are equal, given that JSON values end where a comma follows |
| AuditChain.ComputeHash | internal/audit/audit.go:161-171 | the hash of the previous hash, a zero byte and the canonical text; none when the event cannot be marshalled |
| AuditChain.FramingInjective | internal/audit/audit.go:166-169 | the zero byte makes the hashed bytes readable back: neither half can borrow from the other |
| AuditChain.HashInjective | internal/audit/audit.go:161-171 | equal hashes mean equal previous hashes and equal canonical texts, for a collision-free digest |
| AuditLog.Auditor.New | internal/audit/audit.go:56-62 | a start over an existing table: an error when the lookup fails, else the hash of the row with the greatest id is in the cache, the empty string for an empty log |
| AuditLog.Auditor.LoadLastHash | internal/audit/audit.go:64-76 | the cache becomes the hash of the row with the greatest id, or the empty string; a failed lookup leaves it alone |
| AuditLog.Auditor.Record | internal/audit/audit.go:79-122 | one call with no other in between: it fails and changes nothing, or appends one row for the given event, with everything that is set in it, the time of the call for a missing time and "success" for a missing result only, chained to the cached hash, and caches the new one; on a valid log with a greater id it fails exactly when the event cannot be marshalled or the database refuses |
| AuditLog.Normalised | internal/audit/audit.go:79-85 | fills in only what is missing: every field that is set stays, the zero time becomes the time of the call and the empty result "success" |
| AuditLog.Auditor.VerifyChain | internal/audit/audit.go:126-158 | on an arbitrary table read by id: -1 exactly when the rows form a chain; else the length of their longest prefix that does; the error flag exactly when the next row cannot be hashed |
| AuditLog.RunSerially | internal/audit/audit.go:54-158 | over every sequence of Record calls and restarts, with any ids, VerifyChain answers -1 exactly when the stored ids increase in the order of insertion, and the cache is then the last stored hash; every stored row carries the event of a call as given there; with increasing ids handed out the log holds exactly the events of the calls that succeed, in order |
| AuditLog.Perform | internal/audit/audit.go:54-122 | one operation of such a sequence keeps the chain and the cache in step, or leaves a row linked to a predecessor with a greater id |
| AuditChain.AppendValid | internal/audit/audit.go:132-157 | a longer log is accepted exactly when the shorter one is and the new row links to its last hash |
| AuditChain.LastHashBindsLog | internal/audit/audit.go:126-171 | two accepted logs with the same last hash have the same length and agree row by row in their hashes and hashed texts |
| AuditBinding.LastHashBindsEvents | internal/audit/audit.go:126-205 | chain binding: two accepted logs have the same last hash exactly when they agree row by row in their events, with durations as float64 holds them; they then agree in all hashes |
| AuditBinding.LastHashBindsExactEvents | internal/audit/audit.go:126-205 | for durations of at most 2^53 milliseconds: the same last hash exactly when every event is the same |
| AuditBinding.LongDurationNotBound | internal/audit/audit.go:175-183 | the input that fails: reading the JSON back into a map makes the duration a float64, so 2^53 and 2^53 + 1 hash alike and one can stand for the other |
| AuditBinding.CanonBindsEvent | internal/audit/audit.go:175-205 | two events have the same canonical text exactly when they are the same with rounded durations |
| AuditChain.HashesDistinct | internal/audit/audit.go:126-171 | no two rows of an accepted log carry the same hash, so the unique index on the hash refuses no honest row |
| AuditChain.NextHashIsFresh | internal/audit/audit.go:91-114 | the hash of the next row is in no stored row, so the unique index cannot refuse the insertion |
| AuditIds.OnlyInsertionOrderAccepted | internal/audit/audit.go:126-158 | of all the orders of a chain's rows, exactly that of insertion is accepted |
| AuditIds.ReadByIdAcceptedIff | internal/audit/audit.go:126-158 | the rows of a chain, read by id as VerifyChain does, are accepted exactly when the ids increase in the order of insertion, which newID (207-210) does not ensure |
| AuditIds.InvertedRaisesAlarm | internal/audit/audit.go:126-158 | one row with a smaller id than the row it was linked to raises the alarm, whatever else the table holds |
| AuditIds.SwappedIdsRaiseAlarm | internal/audit/audit.go:207-210 | the input that fails: two honest rows whose ids are swapped, reported at row 0 |
| AuditIds.NewestIsGreatest | internal/audit/audit.go:64-75 | the last row by id is the one with the greatest id |
| AuditInterleaving.RunKeepsChainIff | internal/audit/audit.go:87-120 | the exact condition on the schedule: from a state of rest, overlapping calls keep the chain in the order of insertion exactly when no call whose row is stored read the cache while another call was between its insertion and its write of the cache, or before another row was stored |
| AuditOverlap.AcceptedIff | internal/audit/audit.go:79-158 | the exact condition for concurrent use: from a state of rest, whatever the interleaving and the ids, VerifyChain, which reads by id, accepts the log exactly when the schedule was so undisturbed and the stored ids increase in the order of insertion |
| AuditOverlap.AcceptedIffChainAndIds | internal/audit/audit.go:126-158 | rows that each link to a row inserted before, in however many branches, are accepted when read by id exactly when they are a chain as inserted and their ids increase |
| AuditOverlap.UndisturbedButRejected | internal/audit/audit.go:207-210 | the ids alone can break it: two calls one after the other with ids 1 and 0 are undisturbed, and row 0 is reported |
| AuditInterleaving.StoreLinksIff | internal/audit/audit.go:87-120 | the same for one stored row: it links to the last hash exactly when its call was not so disturbed |
| AuditInterleaving.UninterruptedCall | internal/audit/audit.go:87-120 | three steps of one call without another in between keep a chain and leave the cache at its last hash, whatever calls are open around them |
| AuditInterleaving.ConcurrentRecordBreaksChain | internal/audit/audit.go:78-122 | the comment's "safe for concurrent use" is false: two calls that read the cache before either inserts leave a log whose row 1 VerifyChain reports |
| AuditInterleaving.StaleReadBreaksChain | internal/audit/audit.go:78-122 | so does a call that reads the cache after another has inserted and before it has written the cache, although no row is stored between its read and its insertion |
| AuditSearch.Search | internal/audit/search.go:43-112 | total, page, normalised limit and offset, and the next offset, 0 when nothing is left; an error when either statement fails |
| AuditSearch.BuildQuery | internal/audit/search.go:51-87 | the clauses that are added one by one ask of a row exactly what the request's filters ask |
| AuditSearch.SearchGives | internal/audit/search.go:43-112 | the total counts all matching rows; the page is the part of them that offset and limit ask for, the limit being 1 to 1000 or 100; a next offset is given exactly when rows follow the page |
| AuditSearch.ActionIsSubstringIff | internal/audit/search.go:73-75 | the documented substring match (line 20) is one, letter case aside, for all texts exactly when the filter has no wildcard of its own |
| AuditSearch.SanitizedIsSubstring | internal/audit/search.go:117-121 | a sanitised filter is applied as a substring match, and sanitising changes exactly the filters with wildcards or surrounding space |
| AuditSearch.SubstringPattern | internal/audit/search.go:73-75 | LIKE with a percent sign on either side of a text without wildcards finds exactly the texts that contain it |
| AuditPaging.PagingVisitsEachRowOnce | internal/audit/search.go:89-111 | under a fixed order, following the next offset from 0 ends and gives every matching row once and in order, for any requested limits |
| AuditPaging.SelectCounts | internal/audit/search.go:51-87 | the matching rows are the table's rows that the filters select, each as often as it is there |
| AuditPaging.PagingCompleteIff | internal/audit/search.go:95-111 | when the database may order rows of one timestamp differently in each call, paging is complete for all limits and orders exactly when no two matching rows share a timestamp |
| AuditPaging.TieGivesTwoOrders | internal/audit/search.go:97 | two different matching rows of one timestamp make two answers to the ordering possible that differ on the matching rows |
| AuditPaging.DescendingUnique | internal/audit/search.go:97 | without ties "timestamp DESC" has one answer |
| CefText.ReadUndoesWriter | internal/audit/export.go:76-111 | round trip: a reader that splits at unescaped equals signs and at the last space before each key gets back exactly the keys and values written, for arbitrary values |
| CefText.UnescapeEscape | internal/audit/export.go:221-230 | unescaping undoes escapeCEF on every text |
| CefText.EscapeRules | internal/audit/export.go:221-230 | the five rules of escapeCEF, each applied to its character alone, and nothing else rewritten |
| CefText.SpacedIsOneLine | internal/audit/export.go:76-111 | no raw newline or carriage return is left in the extension |
| CefExport.FormatCEF | internal/audit/export.go:61-112 | the items appended one after the other make the line of header and escaped pairs |
| CefExport.DecimalInjective | internal/audit/export.go:78-104 | different numbers are printed differently |
| CefRows.RowReadsBack | internal/audit/export.go:76-111 | the reader gets back the pairs of every row, and the extension is one line |
| CefRows.FieldsLookup | internal/audit/export.go:76-110 | looking a key up among the pairs gives the row's field, and nothing for an empty field |
| CefRows.FixedLookup | internal/audit/export.go:80-106 | the host, the category of a timed row and the labels of the custom fields, each there exactly when its field is |
| CefRows.ExtensionDeterminesFields | internal/audit/export.go:76-111 | two rows have the same extension exactly when they agree on every exported field (durations of zero or less are not exported) |
| CefRows.ExtensionFoundIff | internal/audit/export.go:61-75 | the header is printed unescaped: skipping seven pipes finds the extension exactly when vendor, product, version and action hold no pipe |
| CefRows.HeaderReadsBack | internal/audit/export.go:61-111 | a reader that counts pipes finds vendor, product, version and action with their defaults, the action in words and a severity of 3, 7 or 5 for success, failure or anything else, when those texts hold no pipe |
| CefRows.LineHasNoNewlineIff | internal/audit/export.go:61-112 | a row is one line exactly when vendor, product, version and action hold no newline |
| CefFile.BufferedWriter.WriteString | internal/audit/export.go:158-163 | a line is cut into chunks of the buffer's size (a longer rest goes out directly), handed on in order until one is not taken in full; after that nothing more is written and every call fails |
| CefFile.BufferedWriter.Flush | internal/audit/export.go:158-159 | hands the buffer on as one chunk unless it is empty or a write has failed; the result says whether no write has failed |
| CefFile.Export | internal/audit/export.go:148-214 | the file holds what lands of the chunks; the lines written before the first failing chunk is handed on are counted as exported and all others as errors; the deferred flush, whose error is dropped, is the last chunk |
| CefFile.FileIsStart | internal/audit/export.go:148-214 | whatever the disk does the file is a start of the rows' lines, and all of them exactly when every chunk is taken |
| CefFile.CountedLinesInFileIff | internal/audit/export.go:160-214 | the exact condition for the counter, with or without errors: the lines counted as exported are in the file exactly when every chunk is taken, or the chunk that fails is not the first after them, or the disk takes as much of it as they left in the buffer |
| CefFile.CleanCountInFileIff | internal/audit/export.go:160-214 | with no error counted, the file holds all lines exactly when every chunk is taken, the dropped last flush included |
| CefFile.CountedLineLost | internal/audit/export.go:158-163 | the input that fails with an error counted: on a disk that takes nothing a short line is counted, a following line longer than the buffer is the error, and the file is empty |
| CefFile.SmallExport | internal/audit/export.go:158-163 | the inputs that fail without an error: an export that fits the buffer is counted in full whatever the disk takes of its one flush |
| CefFile.ExportedFileReadsBack | internal/audit/export.go:160-163 | a file that holds all the lines splits back into them, one per row, when no vendor, product or action breaks a line |
| RateLimit.RateLimiter.Allow | internal/api/middleware/ratelimit.go:51-68 | a request is admitted exactly when every window of its key that ends now can take it; the other keys' buckets do not change |
| RateLimit.AdmittedIffFits | internal/api/middleware/ratelimit.go:55-67 | the lazy bucket is a pure window condition: burst plus refill since the window's start covers the admitted requests and this one |
| RateLimit.LevelIsLeastRoom | internal/api/middleware/ratelimit.go:55-64 | the lazily kept level is at every time the least room left by any window of the key, capped at burst |
| RateLimit.RateBound | internal/api/middleware/ratelimit.go:51-68 | in every interval of every trace with a clock that does not go back, a key has at most burst plus rps times the length admitted, whatever other keys do |
| RateLimit.RefillIsInvisible | internal/api/middleware/ratelimit.go:59-64 | refilling early without taking a token changes no later level: lazy equals continuous |
| RateLimit.RejectedIsInvisible | internal/api/middleware/ratelimit.go:55-67 | deleting a rejected request from a trace leaves the answer to every other request unchanged |
| Sessions.Service.Login | internal/auth/jwt.go:152-200 | the new tables and the result of a login, by cause of failure: missing, suspended or locked account, wrong password with its count and lock, or a new session |
| Sessions.Service.Refresh | internal/auth/jwt.go:207-239 | a refresh revokes the session behind its token and issues a new pair, or fails, by cause; a failed issue leaves the session revoked |
| Sessions.Service.Issue | internal/auth/jwt.go:306-336 | a new session row, unless the database or the unique session id refuses it |
| Sessions.Service.Logout | internal/auth/jwt.go:242-254 | revokes every row of the claims' session; empty claims do nothing |
| Sessions.Service.VerifyAndCheckSession | internal/auth/jwt.go:284-300 | accepts exactly when the claims' session exists and is active |
| SessionRuns.RunOnlyRevokes | internal/auth/jwt.go:152-336 | over every run no session is lost, renamed or extended, and a revoked one never becomes active again |
| SessionLife.AcceptedUntilEnded | internal/auth/jwt.go:152-336 | the life of a session, over every run: the access token that a login or a rotation hands out is accepted exactly until the refresh lifetime is over or the run logs the session out or exchanges its refresh token |
| SessionLife.ExchangedWhileAccepted | internal/auth/jwt.go:207-239 | and its refresh token, presented without a fault after any run, is exchanged for a session of the same user exactly as long as the access token is accepted |
| SessionLife.LoginIffAdmitted | internal/auth/jwt.go:152-200 | a login hands out tokens exactly for the right password of an active account that is not locked, given working statements and a free session id; the session is that account's, and otherwise no session changes |
| SessionLife.RunKeepsAccounts | internal/auth/jwt.go:152-336 | no run adds, removes or renames an account or changes its password or status |
| SessionRuns.RefusedStaysRefused | internal/auth/jwt.go:284-300 | an access token refused once is refused at every later time of every run |
| SessionRuns.LogoutRefuses | internal/auth/jwt.go:242-254 | after a logout the session's access token is refused at all times, over every run that follows |
| SessionRuns.RotationRefuses | internal/auth/jwt.go:226-238 | after a rotation the old session's access token is refused at all times, over every run that follows |
| SessionRuns.ActiveNeverOutnumberLogins | internal/auth/jwt.go:152-336 | conservation: over every run a user's unrevoked and active sessions never outnumber those at the start and the user's successful logins |
| SessionRuns.RefreshTokenSingleUse | internal/auth/jwt.go:207-239 | over every run each refresh token is exchanged at most once, while new tokens hash to new values |
| SessionRuns.LockoutBound | internal/auth/jwt.go:170-194 | in any span of length T without a passed password check, at most 5 + T / 15 minutes wrong passwords are evaluated and recorded for an account, whatever the attempts and other calls |
| SessionRuns.LockoutBoundAttained | internal/auth/jwt.go:170-194 | the bound is exact: five guesses at once and one at the end of each lock are all evaluated |
| SessionRuns.NoLockBeforeFiveMisses | internal/auth/jwt.go:173-194 | no false alarm: after a saved successful login, fewer than five wrong passwords never lock the account, over every run |
| RefreshClient.Tab.OnUnauthorized | frontend/src/lib/api/client.ts:35-44 | a 401 joins the refresh in flight, or begins one with the stored token; without a token its promise ends at once with false |
| RefreshClient.Tab.OnRefreshResponse | frontend/src/lib/api/client.ts:46-51 | a failed response ends the call with false; a good one goes on to its body |
| RefreshClient.Tab.OnRefreshBody | frontend/src/lib/api/client.ts:52-62 | both tokens are replaced and the module variable is cleared |
| RefreshClient.Tab.OnRefreshed | frontend/src/lib/api/client.ts:112-116 | the request is sent again after a refresh, or the tokens are dropped |
| RefreshClient.AtMostOneRefresh | frontend/src/lib/api/client.ts:33-65 | in every interleaving of any number of requests at most one call to /auth/refresh is outstanding |
| RefreshClient.NoRequestForgotten | frontend/src/lib/api/client.ts:33-65 | in every interleaving each waiting request waits for a promise that has ended or whose call is still out, so no request is left behind |
| RefreshRetry.RefreshServesAll | frontend/src/lib/api/client.ts:33-117 | the promise of the single flight: any number of requests answered 401 send one call; when its new pair arrives every one of them is sent again, the tab holds exactly that pair, and the service accepts its access token for the refresh lifetime |
| RefreshRetry.RefusedRefreshSignsOut | frontend/src/lib/api/client.ts:50-116 | when the service refuses, every one of them fails and both tokens are dropped |
| RefreshRetry.ResumedRequest | frontend/src/lib/api/client.ts:112-116 | one request: sent again with the tokens kept after a refresh, gone with both tokens dropped after a failed one |
| RefreshRetry.RequestEndsIff | frontend/src/lib/api/client.ts:97-117 | in every interleaving a request ends exactly when its fetch is answered other than by 401 or its refresh failed |
| RefreshRetry.TokensStayTogether | frontend/src/lib/api/client.ts:33-117 | in every interleaving the tab's two tokens are a pair that the service issued together, or it has none |
| RefreshClient.StepKeepsTokensLive | frontend/src/lib/api/client.ts:33-117 | no step with a delivered rotation leaves the tab holding a rotated token, in its store, in a call or in a response on its way |
| RefreshClient.RotatedNeverPresented | frontend/src/lib/api/client.ts:33-117 | while every rotation's response reaches the tab, no refresh token the service has rotated is presented again, in every interleaving |
| RefreshClient.LostResponsePresentsRotated | frontend/src/lib/api/client.ts:58-60 | the premise is needed: after one lost response the next 401 presents the rotated token |
| RefreshClient.CanPresentRotatedIff | frontend/src/lib/api/client.ts:33-117 | the exact condition on a state: some interleaving in which everything is delivered presents a rotated token exactly when the token in hand, or in the pair on its way, has been rotated and the tab is not stuck |
| RefreshClient.StuckForever | frontend/src/lib/api/client.ts:35-39 | a 401 without a refresh token returns before the finally clause, and then no refresh is ever sent again |
| RefreshClient.StuckIffNoToken | frontend/src/lib/api/client.ts:35-44 | with no refresh in flight, a 401 gets the tab stuck exactly when the store has no refresh token; otherwise the token is sent |
| Hostname.LabelMatches | internal/dns/validator.go:101 | the label expression accepts exactly 1 to 63 letters, digits and inner hyphens |
| Hostname.DomainMatches | internal/dns/validator.go:51 | the whole-string expression accepts exactly the strings all of whose dot-separated parts are labels |
| Hostname.HostnameValid | internal/dns/validator.go:198-220 | the split-into-labels check accepts exactly names of at most 253 characters made of labels |
| Hostname.RecognisersAgree | internal/dns/validator.go:63-77 | for every ASCII string ValidateZoneDomain accepts exactly when validateHostname accepts the trimmed string and that has at most 253 characters, a final dot counted |
| Hostname.LongDottedName | internal/dns/validator.go:63-77 | the name they disagree on: "a." 127 times over, 254 characters, is a valid host name and an invalid zone domain |
| Hostname.AcceptedLabelsAreShort | internal/dns/validator.go:51-77 | every label of an accepted zone domain has 1 to 63 characters (section 2.3.4 of RFC 1035) |
| Hostname.RecordNameIsOneLabel | internal/dns/validator.go:90-107 | a record name is valid exactly when it is the apex, the wildcard or one label; the "or subdomain" of line 97 is not accepted |
| ZoneStore.Service.CreateZone | internal/dns/service.go:52-119 | result and both stores after a creation, with a fault at any step: rollback, compensation, or the zone in both |
| ZoneStore.Service.DeleteZone | internal/dns/service.go:195-243 | result and both stores after a deletion, with a fault at any step |
| ZoneStore.RunBacked | internal/dns/service.go:83-229 | in PowerDNS mode, over every run with faults anywhere, every remote zone has a local row exactly if it had at the start and no failed commit was followed by a failed compensation |
| ZoneStore.StepBacked | internal/dns/service.go:83-229 | the same, with its exact condition, for one call |
| ZoneStore.CreatedInBoth | internal/dns/service.go:84-111 | success of CreateZone puts the zone in both stores |
| ZoneStore.DeletedFromBoth | internal/dns/service.go:195-243 | success of DeleteZone takes it out of both |
| ZoneStore.FailedCallKeepsTables | internal/dns/service.go:83-243 | a failed call leaves the local tables unchanged, always in PowerDNS mode; without PowerDNS the exception is exact: the second statement of DeleteZone fails after the first deleted records |
| ZoneLife.CreatedAsAsked | internal/dns/service.go:73-118 | a creation that succeeds adds one row with the account, tenant, type and lower-case domain asked for, and touches no other row, record or remote zone |
| ZoneLife.CreatedIff | internal/dns/service.go:52-119 | it succeeds exactly for a valid domain that no row has, deleted rows included, with an unused id, where the server does not have it and nothing but the lookup fails |
| ZoneLife.DeletedWithRecords | internal/dns/service.go:195-243 | a deletion that succeeds, in both modes, marks the zone and exactly its records, and leaves every other row, record and remote zone as it was |
| ZoneLife.DeletedForGood | internal/dns/service.go:52-243 | over every run that follows no record of the zone is live, the zone is in no store and its domain can never be a zone again |
| ZoneLife.RunKeepsRecordsHaveZones | internal/dns/service.go:52-243 | over every run of zone calls with faults anywhere, every live record belongs to a live zone if it did before |
| ZoneLife.RunKeepsDomainsValid | internal/dns/service.go:53-78 | over every run all stored domains are ones that ValidateZoneDomain accepts |
| ZoneStore.HalfDeletedIff | internal/dns/service.go:205-229 | a zone is left locally live and remotely gone exactly when the remote deletion succeeds and the local half fails |
| ZoneStore.HalfDeletedForever | internal/dns/service.go:83-229 | where the server calls deleting a missing zone an error, such a zone stays so over every run |
| ZoneRecords.RecordService.CreateRecord | internal/dns/service.go:261-298 | a record is stored exactly when it is valid and the database accepts it; a failed push to PowerDNS does not undo it |
| ZoneRecords.NewRecord | internal/dns/service.go:274-288 | the row says what was asked for, with its type in capitals |
| ZoneRecords.RecordService.SyncRecords | internal/dns/service.go:378-407 | the push changes only this zone's remote records: without a refusal each type present is left with exactly the live local records, and with one the groups of some other types are replaced and nothing else |
| ZoneRecords.RecordService.ApplyTemplate | internal/dns/service.go:482-509 | a template is no transaction: exactly the records before the first that fails are stored, and they stay; with no push refused, the pushes come to one push of what is stored in the end, and to none if nothing is |
| ZoneRecords.TemplateStopsAtMissingTtl | internal/dns/service.go:491-505 | validation comes before the default TTL and refuses a TTL of zero, so a template with a record that leaves its TTL out stores only the records before it |
| ZoneSync.Group | internal/dns/powerdns_client.go:193-200 | each type present gets the records of that type, in their order, and no other type gets a group |
| ZoneSync.GroupingKeepsMultiplicity | internal/dns/powerdns_client.go:196-200 | grouping partitions: a record keeps its multiplicity in the group of its type and is in no other |
| ZoneSync.GroupingKeepsOrder | internal/dns/powerdns_client.go:196-200 | a group is its members picked out of the list from left to right |
| ZoneSync.SyncZone | internal/dns/powerdns_client.go:193-218 | it succeeds exactly when no type present is refused, and then the remote state is the same for every map order; else the types replaced so far stay replaced and the others are as they were |
| ZoneSync.MirrorsIffNoStaleType | internal/dns/powerdns_client.go:193-218 | after one push the remote zone mirrors the local records exactly when it had no type that they have not |
| ZoneRecords.RecordService.DeleteRecord | internal/dns/service.go:359-375 | a live record is marked and its zone pushed, or nothing changes |
| ZoneRecordRuns.RunServesLastGroup | internal/dns/service.go:261-407 | over every run of creating and deleting records with successful pushes, PowerDNS serves of each type the records it had when it last had any: the live ones, or the last ones for good once they are deleted |
| ZoneRecordRuns.Perform | internal/dns/service.go:261-407 | a step of these runs is a call of CreateRecord or DeleteRecord with nothing refused: the records and the zone's remote records are those of the step function |
| ZoneRecordRuns.CreatedIsServed | internal/dns/service.go:261-298 | a record that is created is served: PowerDNS has it with the given name and content as the last of its type, and types without local records are as they were |
| ZoneRecordRuns.RunKeepsWellFormed | internal/dns/service.go:261-298 | over every run each stored record has one of the eight types, a TTL of 60 to 86400, a priority of 0 to 65535, an apex, wildcard or label as name, and a host name as content where the type asks for one |
| ZoneRecordRuns.MirroredIff | internal/dns/service.go:261-407 | the remote zone mirrors the local records exactly when every type that ever had a live record still has one |
| ZoneRecordRuns.DeletedRecordStaysServed | internal/dns/service.go:359-407 | the run that fails: one record created and deleted again stays served |
| License.ModeMonotone | internal/license/license.go:103-111 | the mode only gets stricter with time |
| License.ModeAsDocumentedIff | internal/license/license.go:98-111 | ModeAt is the documented mode (14-17) at all times exactly for at most 106751 days of grace or, for a negative number, when its nanoseconds less the whole turns of 2^64 are at most 2^63 |
| License.GraceTooLong | internal/license/license.go:98-111 | the input that fails: with 106752 days the license is locked the moment it expires, where grace is documented |
| License.GraceTooNegative | internal/license/license.go:98-111 | and with -106752 days it has grace where it is documented to be locked |
| License.DaysRoundDownIff | internal/license/license.go:113-125 | the day counts are rounded down, as their comments say, exactly before the moment counted to or a whole number of days after it |
| License.HasFeature | internal/license/license.go:134-154 | has exactly what the documented rule grants: some positive pattern matches and no negated one, order and repetition aside |
| License.WildcardCovers | internal/license/license.go:156-165 | a dotted wildcard covers a name exactly if it is the prefix or lies below it |
| License.EnabledIff | internal/license/license.go:127-165 | the documented patterns: some pattern covers the feature, being everything, its name or a dotted wildcard at or above it, and no pattern behind a "!" does |
| License.AnswerIff | internal/api/middleware/readonly.go:33-54 | the answer to every request of a run in terms of when the license was installed: 423 after its grace end or for nil, a warning after its expiry, a pass otherwise |
| License.Global.SetGlobal | internal/license/license.go:203-212 | installs the license and caches its mode of the moment, locked for nil |
| License.Global.CurrentMode | internal/license/license.go:225-229 | the cached mode is never stricter than the installed license is now |
| License.Global.Enforce | internal/api/middleware/readonly.go:33-54 | 423 exactly for a non-exempt write while the license installed last was nil or locked at its installation, a warning exactly when it was in its grace period then |
| License.RefusedOnlyAfterGrace | internal/api/middleware/readonly.go:33-54 | in every run of installations, clock ticks and requests, a 423 answers only a non-exempt write made after the installed license's grace end, or with nil installed |
| License.LockedWriteRefusedIff | internal/license/license.go:221-229 | the converse fails: a write under a license that is locked by now is refused exactly when it was locked already when installed |
| License.NeverEnforcedAfterTimelyInstall | internal/license/license.go:221-229 | in every run in which a license is installed before its expiry and nothing after it, every later request passes without a warning, at any time |
| Vault.DecryptUndoesEncrypt | internal/vault/vault.go:211-232 | decrypting undoes encrypting, for an ideal AEAD and base64 |
| Vault.Vault.Put | internal/vault/vault.go:83-127 | result and table after a Put: rejected, rotated or created |
| Vault.Vault.Read | internal/vault/vault.go:146-161 | the decrypted row of the tenant and name, or why not |
| Vault.Vault.List | internal/vault/vault.go:164-177 | the metadata of the tenant's live rows in order of name |
| Vault.Vault.Delete | internal/vault/vault.go:181-192 | marks the row, or reports that there is none |
| Vault.RunRefines | internal/vault/vault.go:83-192 | over every run the table refines the history: per tenant and name one row with the last accepted plaintext, the number of accepted Puts, the actors of the first and the last, and the fact of deletion |
| Vault.ReadSeesLatestPut | internal/vault/vault.go:146-161 | over every run Read gives the plaintext of the latest accepted Put with the number of accepted Puts as version and the actors of the first and the last, not found after a Delete or without a Put, and never fails to decrypt |
| Vault.PutAcceptedIff | internal/vault/vault.go:83-127 | a Put is accepted exactly when the name is not empty, the value fits, nothing fails and the name was never deleted: a deleted name stays in the unique index (internal/db/models/models.go:165-174) |
| Vault.PutAnswers | internal/vault/vault.go:83-127 | an accepted Put answers with what is then shown of the secret; an empty name and a value of more than 65536 bytes are told apart from other failures |
| Vault.DeleteAcceptedIff | internal/vault/vault.go:181-192 | a Delete is accepted exactly when the name was put and not deleted before |
| Vault.StepTouchesOneKey | internal/vault/vault.go:83-192 | a rejected call changes nothing, and an accepted one nothing that another tenant or name can read |
| Vault.ListShowsLiveSecrets | internal/vault/vault.go:164-177 | over every run List shows exactly the tenant's names that were put and not deleted, each once, in order, with the number of accepted Puts and the actors of the first and the last |
| Quota.Service.Get | internal/quota/quota.go:55-85 | the tenant's limits, created from the tier's default when there are none |
| Quota.Service.Put | internal/quota/quota.go:88-110 | replaces the tenant's limits |
| Quota.Service.Check | internal/quota/quota.go:115-170 | allowed, exceeded or failed, per resource; domains are never capped, and the first check of a tenant creates its limits |
| Quota.CheckAllowsIff | internal/quota/quota.go:115-170 | without faults each resource is allowed exactly below its own limit, domains always, and a refusal names the resource |
| Quota.SetIsInForce | internal/quota/quota.go:55-110 | limits that are set are the ones read and enforced from then on, whatever the tier, and no other tenant's change |
| Quota.TiersGrow | internal/quota/quota.go:30-35 | a higher tier starts with no smaller limit, and an unknown tier with the lowest |
| Quota.Handlers.PutHandler | internal/vault/handlers.go:39-66 | response, vault and limits after a POST: the quota is asked only when the lookup finds no secret, and a failed lookup finds none |
| Quota.Handlers.DeleteHandler | internal/vault/handlers.go:147-158 | response and vault after a DELETE |
| Quota.PutTells | internal/vault/handlers.go:29-66 | the causes of a refusal told apart; the secrets change only on "created", which answers with what the vault stored |
| Quota.DeleteTells | internal/vault/handlers.go:141-158 | 204 exactly when the secret was live and nothing failed, and it is then gone; else nothing changes |
| Quota.StepMovesCountByOne | internal/vault/handlers.go:43-66 | only a creation adds to a tenant's count and only a removal takes from it, one at a time; a rotation never changes it |
| Quota.CountIsCreationsLessRemovals | internal/vault/handlers.go:43-158 | conservation: over every run a tenant's live secrets are its creations less its removals |
| Quota.GrowthStaysWithinLimit | internal/vault/handlers.go:43-56 | a step after which a tenant has more secrets leaves it at most the limit then in force, which the step did not change (or created from the default) |
| Quota.RunRefusesCreationIff | internal/vault/handlers.go:43-56 | over every run a new secret is refused by the quota exactly when the tenant's creations less its removals have reached the limit in force, and is created otherwise |
| Quota.RotationIsNotGated | internal/vault/handlers.go:43-54 | a rotation is never refused by the quota, unless its lookup fails and the tenant is at its limit |
| Quota.StepKeepsWithinIff | internal/quota/quota.go:115-170 | from a state in which every tenant is within its limit, exactly a change of a limit to below the tenant's count leaves it |
| Quota.RunKeepsWithinIff | internal/quota/quota.go:88-170 | over every run, all reachable states are within the limits exactly when no limit was set below the count of the moment |
| Quota.WithinWhenNeverLowered | internal/quota/quota.go:88-170 | if limits are never lowered, no reachable state has a tenant over its limit |
| Reformat.ReformatGo | scripts/recover_newlines.py:27-263 | for every text it ends; more than five newlines leave the text alone, and otherwise the output is the input's lexemes in order with only layout between them changed, lines broken where promised and nowhere else; cut into lexemes again it reads the same, so no two are glued together or torn apart, and what stood on different lines still does; deleting all spaces and newlines from both gives the same |
| Reformat.Turn | scripts/recover_newlines.py:48-261 | one turn of the loop passes at least one character and keeps that relation and the three depths, through every branch |
| Reformat.Comment | scripts/recover_newlines.py:51-72 | a comment is one lexeme and comes out verbatim; a line comment ends its line, and nothing is added after a block comment |
| Reformat.InputNewline | scripts/recover_newlines.py:117-120 | a newline of the input leaves a line end in the output, with the indent of the depth, unless nothing is written yet |
| Reformat.FileClause | scripts/recover_newlines.py:228-238 | "package" and "import" start a line, at any depth, and the line ends after the word and its one space |
| Reformat.CopyQuoted | scripts/recover_newlines.py:75-93 | a string literal is copied to its closing quote with backslashes skipping a character; in a raw literal an unescaped newline comes out twice |
| Reformat.CopyRune | scripts/recover_newlines.py:96-109 | a rune is copied verbatim to its closing quote |
| Reformat.OpenBrace | scripts/recover_newlines.py:123-155 | an opening brace ends its line unless the closing brace follows at once; that brace is taken along, and no blank is put before the pair, exactly when the last visible chunk lets it stand inline |
| Reformat.CloseBrace | scripts/recover_newlines.py:157-165 | a closing brace starts a line, and ends one when it ends the top level |
| Reformat.Semicolon | scripts/recover_newlines.py:191-202 | a top-level semicolon ends its line unless a comma follows |
| Reformat.TakeWord | scripts/recover_newlines.py:221-257 | a word is one lexeme; a declaration keyword at the top level starts a line |
| Lexemes.LayoutOnlyStrips | scripts/recover_newlines.py:27-263 | such a relation keeps everything but spaces and newlines |
| Lexemes.LexCovers | scripts/recover_newlines.py:48-261 | the lexemes are all of the text |
| Relex.LayoutOnlyReadsTheSame | scripts/recover_newlines.py:27-263 | whatever only changes layout in this way reads the same: cut into lexemes again it has the input's, in order, as they come out, with a line end wherever the input has one between two of them |
| Relex.SameLexemesIff | scripts/recover_newlines.py:75-93 | and the lexemes are equal exactly when no raw literal holds an unescaped newline |
| Lexemes.LiteralSurvivesIff | scripts/recover_newlines.py:51-109 | a comment, rune or literal comes out verbatim exactly unless it is a raw literal that holds a newline |

## Left out

- Reformat.ReformatGo: says where lines end and with what indent the next one starts, but not how many empty lines stand between, because the script's own promise is about lines.
- ZoneRecords.RecordService.ApplyTemplate: of pushes that are refused in part it says only that no zone comes or goes remotely; `SyncRecords` says what one such push leaves.
- SessionRuns.ActiveNeverOutnumberLogins: is about whole calls as atomic steps, because the calls read, check and write without one transaction; the same holds for every other lemma about sessions.
- SessionRuns.RefreshTokenSingleUse: assumes that a new refresh token hashes to a value in no stored session.
- SessionLife.ExchangedWhileAccepted: assumes that the new refresh token hashes to a value in no stored session and that ids and addresses of users are unique, as their indexes say.
- RefreshRetry.RefreshServesAll: takes the 401s, the answer, its body and the resumed requests in this order; what holds in every interleaving is said by the other lemmas about the tab.
- ZoneLife.RunKeepsRecordsHaveZones: is about zone calls; CreateRecord stores a record without looking for its zone.
- SessionRuns.LockoutBound: counts the wrong passwords whose penalty is saved; a failed save is ignored by the code and evaluates without counting.
- RefreshClient.RotatedNeverPresented: assumes that rotations succeed, their responses arrive, tokens are minted new and no other client presents the tab's token; `LostResponsePresentsRotated` shows what one lost response does, `CanPresentRotatedIff` from which states it can go wrong at all.
- RateLimit.RateBound: takes Go's float64 seconds as reals and a clock that does not go back.
- AuditLog.RunSerially: takes one call at a time; overlapping calls are in AuditInterleaving.
- AuditInterleaving.RunKeepsChainIff: speaks of the order of insertion; AuditOverlap.AcceptedIff says what VerifyChain makes of it.
- AuditBinding.LastHashBindsEvents: takes times as instants of UTC and texts as valid Unicode, which is what JSON can tell apart.
- ZoneRecordRuns.RunServesLastGroup: takes pushes that succeed; what a refused one leaves is said by SyncRecords for one call.
- CefFile.Export: models the file transport, and what one export appends to a file that is opened for appending; a character stands for a byte.
- HTTP routing, headers and JSON bodies, apart from the quota gate, the read-only decision and the 401 branch.
- All React pages, stores and styles; page reloads, several tabs of one browser, and a sign-in that overlaps its own request (a sign-in is one step).
- Real SHA-256, AES-GCM, bcrypt, ECDSA, JWT signing and random generation; signing a token never fails here.
- GORM and SQLite: a table is a sequence or map that gives back what was stored, a statement one atomic step, a transaction commits or has no effect.
- The tenant filter forced on users who are not root in Search (`internal/audit/search.go:56-62`): it names a column that the table does not have.
- The query and the syslog transports of Export (`internal/audit/export.go:129-147, 164-198`) and its first-error text.
- UpdateZone and UpdateRecord (`internal/dns/service.go:164-192, 322-356`): they store without validation, so nothing is claimed about all stored records.
- The content checks of records other than the host name check (`internal/dns/validator.go:126-195, 223-280`): a parameter.
- The masters list of a zone, the TTL of a pushed record set (always 3600), and template storage.
- The rotation time of a secret, which is only displayed.
- A vault handler without a quota service: the panel always passes one.
- License keys, their signatures and the default feature lists per tier: data and a library.
- The look-ahead after a comma in `scripts/recover_newlines.py:207-216`, whose branches all do nothing, and the unused flags of lines 36-37.
- Letter case outside ASCII in LIKE, ToLower and ToUpper, and multi-byte first letters in the CEF name.
- Dates outside the range of an int64 of nanoseconds, where Go's Sub saturates.
- Linux provisioning, nginx and PHP-FPM files, shell calls, the WHMCS module, browser scripts and configuration loading.
