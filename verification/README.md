# Verified models of the D-PlaneOS web client

Dafny models of the algorithmic and concurrent parts of the D-PlaneOS web client, of its API contract
scanner and of the fake high-availability node its browser tests talk to, with proofs of what they promise.
`dafny verify dfyconfig.toml` checks the whole project.

| files | what they model |
|---|---|
| `Treemap`, `TreemapGreedy`, `TreemapView` | the squarified treemap of the dataset page: greedy rows, geometry, scaling |
| `DatasetTree` | the tree of linked dataset nodes built from a flat list of names |
| `CsrfProtocol`, `CsrfSafety`, `CsrfTheorems`, `CsrfProgress`, `CsrfSteps`, `ApiClient` | the CSRF token and session protocol of one tab: a step relation in which callers interleave at every await, its invariant, theorems over all runs, what each step does, and the module variables as a class |
| `PoolLayout`, `PoolCapacity`, `SizeGroups`, `StableSort` | automatic disk selection for new pools |
| `Sse`, `SseStandard` | the incremental parser for server-sent events, and section 9.2.6 of the WHATWG HTML standard |
| `Brackets`, `Splitting`, `ObjectKeys`, `ObjectLiterals` | the hand-written scanners of the API contract check, and a grammar of object literals with its printer |
| `HaFixture`, `HaRequests`, `HaFake` | ownership and epochs of storage groups in the fake node: a state machine, what each request does to it, and its request handlers |
| `Acl` | the access control list parser and printer |
| `Changesets` | configuration revisions grouped through an index |
| `FrozenLayout` | the snapshot that changes only with the set of keys |
| `Text`, `Sequences`, `Objects`, `Options` | split, join and trim as the sources use them; where elements of one sequence stand in another; what plain JavaScript objects inherit; an option type |

Code that updates variables step by step is modelled by methods and classes, each proved equal to a function
of its inputs or of its old state; the lemmas are about those functions. Floating-point numbers are reals,
disk sizes are whole bytes, and text is a sequence of characters.

Where the code and its own words differ, the model follows the code:

- The header of `app-react/src/lib/api.ts` says the session id lives in sessionStorage. The code also keeps
  it in localStorage and reads that first, so a login that is not persistent does not take over while
  another id is stored there (`ApiClient.ApiClient.StoreSession`, `CsrfTheorems.ShadowedLogin`).
- A maintenance request of the fake node that is refused has already handed over the groups that could go
  (`HaFixture.RefusedMaintenance`, `HaFixture.RefusedButMoved`).
- The event stream parser differs from the standard in the ways `SseStandard.OnlyLastData`, `NoDataLine`,
  `TrimsTypes` and `NoBlockAtCrLf` show; `SseStandard.ParserMeetsStandard` says exactly where it agrees.
- `usableBytes` counts minus one data disk for RAID-Z3 on two disks. The dialog does not offer that width
  (`PoolCapacity.MinWidthQualifies`), and it is the only case in which the selection is not the best one
  (`PoolCapacity.AlwaysBestExactly`).
- `apiFetch` reads the session id before it waits for the token, so a login in between can pair the old
  session id with the new session's token (`CsrfTheorems.HeadersPaired`, `CsrfTheorems.MispairedRun`).

Assumptions: the daemon never issues the same CSRF token twice; only this tab writes its session id, while
other tabs may replace the daemon's token at any time; what the network answers, when it answers, and the
order in which waiting callers go on are arbitrary. `CsrfSteps.DaemonMay` says which answers are possible.

## Model

| member | source | states |
|---|---|---|
| Treemap.TakeRow | app-react/src/pages/DatasetsPage.tsx:132-143 | the greedy loop returns a non-empty prefix of the items, the one at which the search described by `GreedyStops` ends, and its area |
| Treemap.PlaceRow | app-react/src/pages/DatasetsPage.tsx:145-157 | the loop that advances `pos` puts every item where its offset along the shorter side says |
| Treemap.TmapLayout | app-react/src/pages/DatasetsPage.tsx:128-167 | loops and recursion together compute the layout that `LayoutTiles` is about |
| Treemap.TmapRest | app-react/src/pages/DatasetsPage.tsx:159-165 | the recursive call lays the rest out in the frame without the row's strip |
| Treemap.RowTiles | app-react/src/pages/DatasetsPage.tsx:145-157 | the rectangles of a row have exactly their items' areas, lie in the row's strip and do not overlap |
| Treemap.RestFillsRest | app-react/src/pages/DatasetsPage.tsx:159-165 | the row's strip fits the frame, and what remains has exactly the total area of the rest |
| Treemap.LayoutTiles | app-react/src/pages/DatasetsPage.tsx:128-167 | for positive areas that fill the frame: rectangles in item order, each with its item's exact area, inside the frame, pairwise disjoint; the items lost to the one-pixel cutoff are a suffix whose total is below the longer side |
| Treemap.LayoutRows | app-react/src/pages/DatasetsPage.tsx:145-165 | the first rectangles are the greedy row: they start at the frame's corner, follow one another along its shorter side to the end and are as thick as the row's area asks; the others are the layout of the rest beside it |
| Treemap.LayoutEmpty | app-react/src/pages/DatasetsPage.tsx:129-129 | nothing is drawn if and only if there is no item or a side is below one pixel |
| Treemap.LostWhereThin | app-react/src/pages/DatasetsPage.tsx:128-165 | over the recursion: if as many items as a region comes after are drawn and no more, that region has a side below one pixel; if more are drawn, both its sides are at least one pixel |
| Treemap.LostSomewhere | app-react/src/pages/DatasetsPage.tsx:128-165 | whenever an item is lost, the items drawn end at a region with a side below one pixel |
| TreemapGreedy.WorstRatioClosed | app-react/src/pages/DatasetsPage.tsx:123-126 | the worst aspect ratio depends on the smallest and largest area of the row only, in closed form |
| TreemapGreedy.GreedyStops | app-react/src/pages/DatasetsPage.tsx:137-143 | the chosen row is no worse than any shorter prefix and strictly better than with the next item |
| TreemapGreedy.GreedyIsFirst | app-react/src/pages/DatasetsPage.tsx:137-143 | the row ends exactly at the first length at which one more item would make its worst ratio larger, or with the last item |
| TreemapGreedy.GreedyIsBest | app-react/src/pages/DatasetsPage.tsx:137-143 | for items in descending order, as the page sorts them, the greedy row is the best of all prefixes, longer ones included |
| TreemapView.MappedDescending | app-react/src/pages/DatasetsPage.tsx:216-224 | scaling sizes to areas keeps the descending order |
| TreemapView.MapRowsAreBest | app-react/src/pages/DatasetsPage.tsx:210-226 | datasets sorted by size: every row the recursion makes is the best of all prefixes of what is left |
| TreemapView.MapFills | app-react/src/pages/DatasetsPage.tsx:219-225 | the scaled areas are positive and fill the drawing exactly, which is what the layout needs |
| TreemapView.StorageMap | app-react/src/pages/DatasetsPage.tsx:221-226 | from ten pixels on the map shows the first datasets without overlap in a drawing 260 high, each on an area that is to the drawing as its bytes are to all bytes; those left out hold less than one part in min(width, 260) of the bytes |
| TreemapView.NoMap | app-react/src/pages/DatasetsPage.tsx:222-222 | nothing is drawn if and only if the width is below ten pixels or there is no dataset |
| DatasetTree.ParentIs | app-react/src/pages/DatasetsPage.tsx:64-66 | p is the parent of a name if and only if the name is p, a slash and a leaf without slashes; the name then has one component more |
| DatasetTree.MakeNodes | app-react/src/pages/DatasetsPage.tsx:61-62 | one fresh node a name, with the data of the last dataset of that name and no children |
| DatasetTree.LinkNodes | app-react/src/pages/DatasetsPage.tsx:63-69 | every node's children are the nodes of the datasets it is the parent of, in the order of the list; it throws if and only if some parent is not listed but is the name of an inherited property of the table |
| DatasetTree.KidsInOrder | app-react/src/pages/DatasetsPage.tsx:63-69 | a node's children are the nodes of exactly those listed datasets whose parent it is, each as often as it is listed, in the order of the list |
| DatasetTree.BuildTree | app-react/src/pages/DatasetsPage.tsx:60-71 | unless it throws: fresh nodes, linked as above; the pool's node if the pool is listed, and else nothing or, exactly for the name of an inherited property, something that is no node; following the links from the pool's node unfolds to a finite tree, so the structure has no cycle |
| DatasetTree.CountIsWays | app-react/src/pages/DatasetsPage.tsx:60-71 | for any list, duplicates included: how often a name is in what is returned is the number of ways down to it through listed datasets, and none if the pool is not listed |
| DatasetTree.OnceIfConnected | app-react/src/pages/DatasetsPage.tsx:60-71 | for distinct names: what is returned has a name once if it and every name above it up to the pool are listed, the pool included, and never otherwise |
| DatasetTree.TreeDeepens | app-react/src/pages/DatasetsPage.tsx:63-69 | every edge goes from a parent to a name with one component more |
| CsrfSafety.StepKeeps | app-react/src/lib/api.ts:38-166 | every step of any caller, of the daemon, of a login or logout or of another tab keeps the invariant of fetches, tokens and callers |
| CsrfTheorems.RunKeeps | app-react/src/lib/api.ts:38-166 | the invariant holds in every state of every run from a fresh page |
| CsrfTheorems.TokenOfCurrentSession | app-react/src/lib/api.ts:48-76 | a token the client holds was issued for the session it is logged in to |
| CsrfTheorems.LateResponse | app-react/src/lib/api.ts:44-70 | a response for an earlier session installs nothing; one for the current session installs a token issued for it |
| CsrfTheorems.OneFetchPerGeneration | app-react/src/lib/api.ts:39-50 | at most one token fetch is in flight per session generation, and that of the current generation is the pending one |
| CsrfTheorems.WaitTogether | app-react/src/lib/api.ts:39-50 | callers that wait for a fetch in flight wait for the same one exactly if it is of the same generation |
| CsrfTheorems.CallJoins | app-react/src/lib/api.ts:48-50 | a call during a fetch of the current generation joins it and changes nothing |
| CsrfTheorems.OldFetchEnds | app-react/src/lib/api.ts:72-75 | the end of an older generation's fetch leaves the pending entry of the newer one alone |
| CsrfTheorems.RefusedOnceAndGone | app-react/src/lib/api.ts:94-104 | however many requests were refused with a token, it is discarded at most once and never held again |
| CsrfTheorems.ChangeAtMostOnce | app-react/src/lib/api.ts:349-364 | a change is sent at most twice, the second time only after a CSRF refusal and with another token; it takes effect at most once, and only with a token of its own session |
| CsrfTheorems.HeadersPaired | app-react/src/lib/api.ts:192-202 | session id and token of a request belong together exactly if the session id had not changed when the token was read, so always within one generation |
| CsrfTheorems.MispairedRun | app-react/src/lib/api.ts:194-201 | a run in which a request goes out with one session's id and another session's token |
| CsrfTheorems.ShadowedLogin | app-react/src/lib/api.ts:143-157 | a run in which the id read back after a login is not the one that was stored |
| CsrfSteps.SessionChanges | app-react/src/lib/api.ts:151-166 | a login writes the one storage it asks for, a logout empties both; both drop the token, begin a generation and leave the pending fetch |
| CsrfSteps.FetchAsks | app-react/src/lib/api.ts:48-76 | without a pending fetch of this generation a new one becomes pending; it is in flight for the id read back, or, without one, over at once with no token left |
| CsrfSteps.InitAsks | app-react/src/lib/api.ts:83-85 | what the page does first: afterwards the fetch of this generation is pending, and no caller waits for it |
| CsrfSteps.FetchFails | app-react/src/lib/api.ts:62-69 | a failed fetch leaves the token as it is, and everyone who waited for it throws |
| CsrfSteps.FetchEnds | app-react/src/lib/api.ts:74-74 | the end of a fetch clears the pending entry if that is its own, and changes nothing else |
| CsrfSteps.RefreshKeepsNewer | app-react/src/lib/api.ts:98-104 | a refresh while another token is held leaves the client as it was and hands that token over |
| CsrfSteps.RefreshDropsRefused | app-react/src/lib/api.ts:98-102 | a refresh while the refused token is held drops it and waits for the pending fetch of this generation |
| CsrfSteps.TokenGoes | app-react/src/lib/api.ts:38-166 | a held token goes only by a login, a logout or a 401 to apiFetch, a refresh of a caller refused with that very token, or another token of the same session |
| CsrfSteps.TokenGoesInRuns | app-react/src/lib/api.ts:38-166 | so it is at every point of every run |
| CsrfSteps.CallReads | app-react/src/lib/api.ts:118-125 | a change with a session id goes out with the token held or waits for one; without an id it goes out at once and changes nothing |
| CsrfSteps.ResumeGoesOn | app-react/src/lib/api.ts:88-104 | after the await a caller goes on with the token held then; without one it throws, or, after a refusal, asks once more |
| CsrfSteps.JudgeDecides | app-react/src/lib/api.ts:361-371 | a first send with a token that came back refused is to be repeated, and nothing else is; a broken connection throws, and so does a 401 to apiFetch, which alone ends the session |
| CsrfSteps.CallersKept | app-react/src/lib/api.ts:117-134 | over every run: a change that names a session is sent with a token only, and one that was refused with a token has been sent again before it returns |
| CsrfSteps.RefusedSendsAgain | app-react/src/lib/api.ts:358-364 | in every fair endless run a caller whose first send carried a token and was refused sends a second time, or throws |
| CsrfSteps.SentTwice | app-react/src/lib/api.ts:358-364 | a run in which another tab fetches a token, a change is refused, sent again with a new token, and takes effect |
| CsrfProgress.FewSteps | app-react/src/lib/api.ts:349-364 | over any stretch of any run a caller takes at most ten steps of its own |
| CsrfProgress.HasStep | app-react/src/lib/api.ts:48-104 | a caller that has not ended can go on, or waits for a fetch that can |
| CsrfProgress.CanFinish | app-react/src/lib/api.ts:48-134 | every run can go on so that a given caller returns or throws |
| CsrfProgress.FairRunEnds | app-react/src/lib/api.ts:48-134 | in every endless run in which a step of a caller, or of the fetch it waits for, is taken sooner or later whenever there is one, the caller returns or throws |
| ApiClient.ApiClient.FetchCsrf | app-react/src/lib/api.ts:48-76 | the new values of all module variables, and the fetch returned, are the protocol's |
| ApiClient.ApiClient.Receive | app-react/src/lib/api.ts:62-70 | likewise for the continuation after the daemon's answer |
| ApiClient.ApiClient.Finally | app-react/src/lib/api.ts:74-74 | likewise for the finally handler |
| ApiClient.ApiClient.EnsureCsrfToken | app-react/src/lib/api.ts:88-92 | likewise, up to the await |
| ApiClient.ApiClient.RefreshCsrfToken | app-react/src/lib/api.ts:98-104 | likewise, and whether the refused token was dropped |
| ApiClient.ApiClient.StoreSession | app-react/src/lib/api.ts:151-157 | the new session is the one read back if and only if it is persistent, or localStorage held no other id |
| ApiClient.ApiClient.ClearSession | app-react/src/lib/api.ts:159-166 | no session id is left in either storage, no token is held, and the generation moves on |
| PoolLayout.CandidatesAscend | app-react/src/lib/poolLayout.ts:84-89 | the candidates are exactly the eligible disks, smallest first |
| PoolLayout.CandidatesExactly | app-react/src/lib/poolLayout.ts:84-89 | the candidates are the free disks of the group's type and size, each as often as it is listed; `treatAsMinimum` adds those that are larger, and no other |
| PoolLayout.CandidatesByName | app-react/src/lib/poolLayout.ts:88-88 | smaller disks stand first, and of the same size those whose names do |
| PoolCapacity.FitsMaxVdevs | app-react/src/lib/poolLayout.ts:91-93 | so many vdevs fit the candidates if and only if they are no more than maxVdevs |
| PoolCapacity.SelectIsCut | app-react/src/lib/poolLayout.ts:96-99 | the selection is empty exactly outside 1..maxVdevs; otherwise its vdevs concatenate to the first width*vdevs candidates, so no disk is used twice or skipped |
| PoolCapacity.CutMaximisesMinima | app-react/src/lib/poolLayout.ts:96-114 | no split of the same disks into as many vdevs has a larger sum of smallest disks than the contiguous cut of ascending disks |
| PoolCapacity.SelectIsBest | app-react/src/lib/poolLayout.ts:84-114 | among all splits of the chosen disks into as many vdevs of that width, the selection has the most usable bytes |
| PoolCapacity.AlwaysBestExactly | app-react/src/lib/poolLayout.ts:96-114 | that holds for all candidates if and only if the layout is not RAID-Z3 on two disks |
| PoolCapacity.Raidz3OnTwoIsNotBest | app-react/src/lib/poolLayout.ts:105-112 | four disks of which the middle two differ, for which RAID-Z3 on two disks has a better split |
| PoolCapacity.FirstCandidatesAreLeast | app-react/src/lib/poolLayout.ts:79-99 | no choice of as many candidates has a smaller raw total |
| PoolCapacity.UsableByLayout | app-react/src/lib/poolLayout.ts:105-114 | for any vdevs of one width: a stripe has the width times the sum of the smallest disks, a mirror that sum, and each RAID-Z level one such sum less than the level before, beginning with the stripe |
| PoolCapacity.SurvivesLoss | app-react/src/lib/poolLayout.ts:42-51 | a vdev of any layout but the mirror loses as many disks of capacity as it survives losing, a stripe none; a mirror survives the loss of all but one |
| PoolCapacity.EmptyVdev | app-react/src/lib/poolLayout.ts:106-107 | an empty vdev counts for nothing |
| PoolCapacity.MinWidthExactly | app-react/src/lib/poolLayout.ts:25-31 | the dialog's minimum is the least width that survives a loss, for a mirror, or has two disks of capacity, for RAID-Z |
| SizeGroups.KeyInjective | app-react/src/lib/poolLayout.ts:71-71 | the `type:size` key tells every type and size apart |
| SizeGroups.DecimalReads | app-react/src/lib/poolLayout.ts:71-71 | the digits in the key, read in base ten, are the size, without a leading zero |
| SizeGroups.SizeGroups | app-react/src/lib/poolLayout.ts:67-77 | one group for each type and size of a free disk of non-zero size, each counting exactly its disks; the counts add up to those disks; most disks first, then largest size |
| SizeGroups.AddDisk | app-react/src/lib/poolLayout.ts:71-74 | the Map step keeps the groups exact whether the key is new or known |
| SizeGroups.CountsAreCandidates | app-react/src/lib/poolLayout.ts:67-89 | a group's count is the number of candidates of exactly its size |
| StableSort.SortSorts | app-react/src/lib/poolLayout.ts:76-88 | sorting by a consistent comparator gives an ordered permutation |
| StableSort.SortKeepsTies | app-react/src/lib/poolLayout.ts:76-88 | elements the comparator does not tell apart keep their order |
| Sse.ParseStream | app-react/src/pages/DockerPage.tsx:1351-1367 | for every way the network cuts the text the events are those of the whole text split once, and exactly the unterminated tail stays in the buffer |
| Sse.ReadPiece | app-react/src/pages/DockerPage.tsx:1352-1366 | one more read adds exactly the events it completes and keeps the tail |
| Sse.ParseChunks | app-react/src/pages/DockerPage.tsx:1358-1366 | blank blocks yield nothing, every other block one event |
| Sse.ParseLines | app-react/src/pages/DockerPage.tsx:1360-1364 | in a block a later type or data line overrides an earlier one |
| Sse.RoundTrip | app-react/src/pages/DockerPage.tsx:1356-1366 | printed events come back if and only if no type or data has a line break and no type has white space around it |
| SseStandard.StandardMeans | app-react/src/pages/DockerPage.tsx:1351-1367 | the line-by-line dispatch of section 9.2.6 of the WHATWG HTML standard, whether lines end in LF, CR LF or CR, is one event for every block with a data line and nothing for the unterminated tail |
| SseStandard.ParserMeetsStandard | app-react/src/pages/DockerPage.tsx:1351-1367 | on text without CR the parser yields what the standard dispatches if and only if every block that is not blank has exactly one data line, which starts with `data: ` or is empty, and its last event line has a trimmed, non-empty type after `event: ` or, written without the space, the type that stands after the last `event: ` before it |
| SseStandard.PlainBlockAgrees | app-react/src/pages/DockerPage.tsx:1359-1365 | a block with one `data: ` line and only trimmed, non-empty `event: ` lines meets that condition |
| SseStandard.OnlyLastData | app-react/src/pages/DockerPage.tsx:1361-1364 | of any two data lines the parser keeps the second, where the standard joins them |
| SseStandard.NoDataLine | app-react/src/pages/DockerPage.tsx:1360-1365 | a block without data yields an event, where the standard dispatches none |
| SseStandard.TrimsTypes | app-react/src/pages/DockerPage.tsx:1362-1362 | any type is trimmed, where the standard keeps it |
| SseStandard.CrLfExactly | app-react/src/pages/DockerPage.tsx:1356-1357 | where every LF follows a CR the parser yields nothing, and the standard dispatches nothing if and only if no block has a data line |
| SseStandard.NoBlockAtCrLf | app-react/src/pages/DockerPage.tsx:1356-1356 | any data line ended by CR LF, and an empty line, is an event the parser does not yield |
| Text.SplitResumes | app-react/src/pages/DockerPage.tsx:1355-1357 | splitting what is at hand and going on with its last piece splits the whole |
| Brackets.Block | scripts/check-api-contract.py:51-63 | the shortest prefix, from the first brace on, in which every brace is closed, or all the rest if there is none; an error exactly if there is no brace |
| Brackets.TsMatch | scripts/check-api-contract.py:274-283 | one past the first closing brace behind which as many braces are closed as opened, or the end |
| Brackets.MatchEndsBlock | scripts/check-api-contract.py:51-63 | ts_match ends where block ends if and only if nothing is closed in front of the first brace, or the block ends the text and never comes back to as many open braces as are closed in front |
| Brackets.NestsNoDeeper | scripts/check-api-contract.py:274-283 | for a closed block the latter means that it nests no deeper than that |
| Brackets.ClosedInFront | scripts/check-api-contract.py:274-283 | with one brace closed in front, a block for which the two agree and one for which they do not |
| Splitting.TsSplit | scripts/check-api-contract.py:299-311 | the loop returns the pieces the lemmas below are about |
| Splitting.FirstCut | scripts/check-api-contract.py:299-311 | any text, balanced or not, is cut at its first separator at which as many of the eight brackets are closed as opened, the separator itself counted; what is behind it is split by itself |
| Splitting.NoCut | scripts/check-api-contract.py:299-311 | a text without such a separator is its only part |
| Splitting.JoinPieces | scripts/check-api-contract.py:299-311 | for every text and separator, joining the parts gives the text back |
| Splitting.PiecesSplitWell | scripts/check-api-contract.py:299-311 | for a separator that closes nothing, the parts of a balanced text are balanced and have no separator outside brackets |
| Splitting.SplitsWellExactly | scripts/check-api-contract.py:299-311 | a separator splits every balanced text into balanced parts if and only if it is no closing bracket |
| Splitting.SplitJoined | scripts/check-api-contract.py:299-311 | balanced parts without a top-level separator are found again after joining, so a text has one such splitting |
| Splitting.TopLevel | scripts/check-api-contract.py:286-296 | the loop of ts_top keeps the characters outside all brackets |
| Splitting.TopPlaces | scripts/check-api-contract.py:288-295 | the characters kept are those at the places in front of which as many brackets are closed as opened, an opening bracket itself counted, in their order |
| Splitting.TsTop | scripts/check-api-contract.py:286-296 | it is applied to what is between the first brace and the match; an error exactly if there is no brace |
| Splitting.TopOfPieces | scripts/check-api-contract.py:286-311 | ts_top and ts_split agree on what is top level: splitting the top-level characters of a balanced text gives the top-level characters of its parts |
| ObjectKeys.ObjectKeys | scripts/check-api-contract.py:136-171 | the index loop with its mode flags returns the keys the recursive scanner reads |
| ObjectKeys.SkipString | scripts/check-api-contract.py:147-149 | the inner loop stops at the closing quote, stepping over escaped characters |
| ObjectLiterals.SkipTokens | scripts/check-api-contract.py:140-170 | no string, bracketed group or other text of a value yields a key, however deeply nested |
| ObjectLiterals.QuotedKeyIs | scripts/check-api-contract.py:143-146 | the regular expression matches a quoted key exactly if its text is a word with dashes and its quotes are no backticks |
| ObjectLiterals.ReadsObject | scripts/check-api-contract.py:136-171 | exactly what is found in any object printed from the grammar of bare, quoted and computed keys, shorthands, methods with quoted names, spreads, escaped strings and nested brackets, with or without a trailing comma, whatever follows it and whatever without brackets stands in front of it; of a name with $ only what is in front of the $ |
| ObjectLiterals.FindsTheNames | scripts/check-api-contract.py:136-171 | the result is the object's names, all of them in order and no other, if and only if every bare name begins with an ASCII letter or _ and has no $, and every quoted one is a word with dashes between quotes that are no backticks, and names no method |
| HaFixture.MaintenanceSucceeds | app-react/e2e/haFixture.ts:165-176 | the request succeeds if and only if, in every group that must move, the first candidate that is neither this node nor in maintenance exists and has an id; this node is then left with standalone groups only, and each moved group with that candidate |
| HaFixture.RefusedMaintenance | app-react/e2e/haFixture.ts:165-173 | a refused request leaves the flags alone, and the groups exactly if every group that must move has no such candidate |
| HaFixture.RefusedButMoved | app-react/e2e/haFixture.ts:135-173 | from any state, a run to a refused request that moves a group |
| HaFixture.EmptyIdBlocks | app-react/e2e/haFixture.ts:168-169 | from any state, a group with an empty candidate id in front of another one: the request fails although the other could take it |
| HaFixture.RunKeeps | app-react/e2e/haFixture.ts:135-176 | over every run the owner of a group is one of its candidates |
| HaFixture.EpochCountsChanges | app-react/e2e/haFixture.ts:135-171 | between any two points of a run a group's epoch rises by exactly the changes of its owner; there is at most one, away from this node, and never one back |
| HaFixture.OneOwnerPerEpoch | app-react/e2e/haFixture.ts:135-171 | a group and its epoch determine the owner |
| HaFixture.ParkedExactly | app-react/e2e/haFixture.ts:135-177 | a step keeps a node in maintenance free of shared groups unless it creates one |
| HaFixture.ThirdVoteIsNotWon | app-react/e2e/haFixture.ts:44-112 | no request adds a third vote: automatic failover is on only in a run that began with one, and only with the cluster it began with |
| HaRequests.CreatesGroup | app-react/e2e/haFixture.ts:135-142 | the new group is as asked, owned by this node in epoch 1, with this node first and then the candidates named that are not this node, in their order; nothing else changes |
| HaRequests.FormsCluster | app-react/e2e/haFixture.ts:90-94 | with a known peer: this node under the local address, the first peer of that id under the other, two votes and no automatic failover; without one nothing changes |
| HaRequests.ThirdVote | app-react/e2e/haFixture.ts:44-44 | a third voter counts one vote if its address is not empty, and none otherwise |
| HaRequests.Joins | app-react/e2e/haFixture.ts:60-63 | the other node is added under the address given, and a cluster can then be formed with it |
| HaRequests.SetsWatchdog | app-react/e2e/haFixture.ts:98-107 | with the watchdog on three votes are enough for automatic failover, with it off nothing is |
| HaRequests.EntersMaintenance | app-react/e2e/haFixture.ts:165-176 | only groups and this node's own flag can change; the flag is set exactly if no move failed |
| HaRequests.LeavesMaintenance | app-react/e2e/haFixture.ts:177-177 | this node is out of maintenance; no other flag and nothing else has changed |
| HaRequests.NoEntry | app-react/e2e/haFixture.ts:168-168 | another node without a flag can take a group, unless its id is the name of an inherited property |
| HaRequests.MaintenanceReports | app-react/e2e/haFixture.ts:166-172 | the moves report, in order, on exactly the groups this node owned: a standalone group stays, a stuck one fails, and a moved one has the first available candidate as owner in the next epoch; no other group changes |
| HaFake.HaNode.EnterMaintenance | app-react/e2e/haFixture.ts:165-176 | changing owners and epochs in place gives the state machine's next state, the moves reported and the verdict |
| HaFake.HaNode.MoveGroup | app-react/e2e/haFixture.ts:167-171 | what becomes of one group, and what is reported of it |
| HaFake.HaNode.CreateGroup | app-react/e2e/haFixture.ts:135-142 | a new group owned by this node in epoch 1, with this node as first candidate; the others are left alone |
| HaFake.HaNode.FormCluster | app-react/e2e/haFixture.ts:90-94 | the new cluster, or the old state and an error exactly if the peer is unknown |
| HaFake.HaNode.ReadyPair | app-react/e2e/haFixture.ts:32-42 | the start with a third vote and automatic failover |
| Acl.PrintThenParse | app-react/src/pages/ACLPage.tsx:43-66 | printing and reading back is the identity if and only if no name contains a colon or a newline |
| Acl.ParseIsStable | app-react/src/pages/ACLPage.tsx:43-66 | any text read, printed and read again gives the same entries |
| Acl.ParseJoined | app-react/src/pages/ACLPage.tsx:43-62 | texts joined by a newline give their entries one after the other: every line is read on its own |
| Acl.ReadsType | app-react/src/pages/ACLPage.tsx:46-61 | a trimmed line is an entry if and only if it begins with user, group, other or mask and a colon, and of that type |
| Acl.ReadsFields | app-react/src/pages/ACLPage.tsx:49-59 | the name is what stands up to the next colon, the permissions what stands up to the one after it, each by its letter and place; more fields are ignored |
| Acl.ReadsNameOnly | app-react/src/pages/ACLPage.tsx:51-58 | an entry without permissions is read, with none granted |
| Text.TrimExactly | app-react/src/pages/ACLPage.tsx:46-46 | trimming takes white space off both ends and nothing else |
| Acl.PrintsPermissions | app-react/src/pages/ACLPage.tsx:64-66 | a printed entry is its type, name and three permissions, each its letter or a dash |
| Changesets.GroupByChangeset | app-react/src/pages/ConfigHistoryPage.tsx:144-159 | through its Map the loop computes the changesets in order of first occurrence, each with its revisions in order |
| Changesets.OfInOrder | app-react/src/pages/ConfigHistoryPage.tsx:148-156 | a group has exactly the revisions of its changeset, in the order received |
| Changesets.FirstsInOrder | app-react/src/pages/ConfigHistoryPage.tsx:149-152 | the groups stand in the order in which their changesets began |
| Changesets.Conserved | app-react/src/pages/ConfigHistoryPage.tsx:144-159 | every revision is in exactly one group, as often as it was received |
| Changesets.KeepsOrder | app-react/src/pages/ConfigHistoryPage.tsx:144-159 | the groups show the revisions in the order received if and only if no changeset is interrupted by another |
| FrozenLayout.StateIsHistory | app-react/src/hooks/useFrozenLayout.ts:50-96 | over every run the snapshot is the data of the last event that was a forced refresh, a first load, a new refresh key or a change of the key set; the remembered keys are its keys |
| FrozenLayout.EffectTakes | app-react/src/hooks/useFrozenLayout.ts:61-89 | the first effect with data shows it; a later one does if and only if its refresh key is not that of the last effect with data, or its keys are not those shown |
| FrozenLayout.ForcedTakes | app-react/src/hooks/useFrozenLayout.ts:91-96 | a forced refresh shows its data and is neither a first load nor a new refresh key |
| FrozenLayout.NoDataKeeps | app-react/src/hooks/useFrozenLayout.ts:62-92 | without data neither an effect nor a forced refresh changes anything |
| FrozenLayout.SnapshotIsLive | app-react/src/hooks/useFrozenLayout.ts:55-89 | after every effect with data a key of the snapshot has a live value, and no other key has |
| FrozenLayout.Freezes | app-react/src/hooks/useFrozenLayout.ts:80-89 | an effect with the same keys and refresh key changes nothing |
| FrozenLayout.Layout.RunEffect | app-react/src/hooks/useFrozenLayout.ts:61-89 | the effect's assignments to state and refs give the next state of the run |
| FrozenLayout.Layout.Refresh | app-react/src/hooks/useFrozenLayout.ts:91-96 | likewise for forceRefresh, which does not count as a first load |
| FrozenLayout.LiveById | app-react/src/hooks/useFrozenLayout.ts:55-59 | the map holds the last item of every key and nothing else |

## Left out

- Float rounding in the treemap and in capacities: areas are reals, disk sizes whole bytes.
- `parseBytes` and the filtering and sorting that make the treemap's items: the model starts at items with
  positive sizes.
- The development mock interceptor and mock session id of `app-react/src/lib/api.ts`, request headers given
  by the caller, user names, bodies, abort signals and error messages.
- GET requests: they carry no token; one that is answered 401 acts on the client as the model's `Logout`.
- Other tabs writing the stored session id.
- ChangeAtMostOnce: a change sent without a session needs no token, and the daemon is assumed to apply what
  it was sent at most once per send.
- `formatBytes`, group labels, disk ids and vdev names of `app-react/src/lib/poolLayout.ts`.
- CandidatesAscend: the order of names is a parameter, because the locale's collation is not part of this model.
- Widths and vdev counts that are not whole numbers.
- Streams of bytes, decoding, and the `useSSEStream` hook.
- ParserMeetsStandard: text that has a CR, and an LF that does not follow one, is not characterised; there
  the blocks of the parser are not those of the standard.
- ObjectKeys: which characters beyond ASCII count as word characters is a parameter, because it depends on
  the Unicode tables of the interpreter.
- The regular-expression parts of `scripts/check-api-contract.py`, among them route tables, struct tags and `ts_keys`.
- BuildTree: a dataset named `__proto__`, which would replace what the table inherits.
- InMaintenance: likewise a node whose own id is `__proto__`.
- The GET handlers of the fake node beyond the vote count and automatic failover, pools, proposals, and
  tests that assign to its state directly.
- React rendering, queries, mutations, and the other pages: form plumbing over an API that is not part of this model.
- The Go daemon: its handlers are not part of this model.
