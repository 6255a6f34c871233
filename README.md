# hedgerules, modelled in Dafny

hedgerules builds two CloudFront KeyValueStore datasets from a Hugo site's
output directory and deploys them. The redirects dataset comes from
`_hedge_redirects.txt` plus one index redirect per directory, with redirect
chains collapsed. The headers dataset comes from `_hedge_headers.json`. The
tool validates both datasets against the store's size limits and reconciles
each live store with its desired entries, using a conditional write. As
written, that write is one call carrying the whole plan; the model's `Sync`
sends the batches of at most 50 items that the tests expect (see Findings).
It then deploys two CloudFront Functions that read the stores at the edge:
- a viewer-request function that redirects or rewrites directory URIs to
  their `index.html`;
- a viewer-response function that adds stored headers to responses.

The model has one module per source file, plus some shared modules:

| module | models |
|---|---|
| `Wrappers` | `Option`, `Result`, and `Outcome` (a Go function that returns only `error`) |
| `Strings` | decimal formatting, join, split on one character, index searches |
| `GoText` | Go's `unicode.IsSpace`, `strings.TrimSpace`, `strings.Fields` and the UTF-8 encoding behind `len([]byte(s))` |
| `JsText` | JavaScript's `trim`, `toLowerCase`, `length` in UTF-16 code units, `substring(0, n)` and `replace` with a string pattern |
| `KvsTypes` | `Entry`, `Data`, `SyncPlan`, and the key→value map an entry list denotes |
| `KvsValidate` | `validate.go` |
| `KvsClient` | an abstract KeyValueStore behind the `KVSClient` interface |
| `KvsSync` | `sync.go` |
| `HugoRedirects` | `redirects.go`, plus `ResolveChains` specified from its tests |
| `HugoHeaders` | `headers.go` |
| `HugoDirectories` | `directories.go` |
| `FunctionsDeploy` | `deploy.go` |
| `FunctionsEmbed` | `embed.go` |
| `EdgeStore` | the store as the edge runtime's `kvs.get` shows it |
| `ViewerRequest` | `viewer-request.js` |
| `ViewerResponse` | `viewer-response.js` |

How the outside world appears in the model:
- Files, walks and decoded JSON are inputs: the scanned lines, a walk listing, the decoded object.
- Remote services are classes. Each keeps a ghost log of the calls it received.
- Any remote call may fail, and every contract holds whichever way the remote decides.
- Loops in the source are `while` loops here, each proved against a function that states what it computes.

## Model

| member | source | states |
|---|---|---|
| KvsTypes.ToMapKeys | internal/kvs/types.go:4-12 | the keys of the map an entry list denotes are exactly the keys of its entries |
| KvsTypes.ToMapLastWins | hedgerules/internal/kvs/sync.go:23-26 | when entries are written into a map in order, a key keeps the value of its last entry |
| KvsTypes.ToMapUnique | hedgerules/internal/kvs/sync.go:23-26 | with unique keys, every key maps to the value of its only entry |
| KvsTypes.ToMapAppend | hedgerules/internal/hugo/redirects.go:61-69 | writing a then b is writing a and then overwriting with b |
| KvsTypes.EntriesOf | hedgerules/internal/hugo/redirects.go:71-74 | copying a map out entry by entry in any order gives one entry per key, and their map is the original map |
| KvsValidate.Stats | hedgerules/internal/kvs/validate.go:28-34 | the key count is the entry count; the total is the sum of key and value UTF-8 byte lengths |
| KvsValidate.Validate | hedgerules/internal/kvs/validate.go:37-70 | the loop returns exactly the specified violations: key error, then entry error, per entry in order, then the total error |
| KvsValidate.EntryErrorsMembership | hedgerules/internal/kvs/validate.go:45-57 | an error is reported for an entry exactly when it is the key error of an oversized key or the entry error of an oversized entry |
| KvsValidate.PerEntryErrorsAppend | hedgerules/internal/kvs/validate.go:41-60 | per-entry errors follow entry order: the errors of a + b are those of a, then those of b |
| KvsValidate.ViolationsBound | hedgerules/internal/kvs/validate.go:37-70 | there are at most 2·|entries| + 1 errors |
| KvsValidate.PerEntryErrorsBound | hedgerules/internal/kvs/validate.go:41-60 | there are at most two per-entry errors per entry |
| KvsValidate.PerEntryErrorsMembership | hedgerules/internal/kvs/validate.go:45-57 | a key error exists exactly for each key over 512 bytes (with its size), and an entry error exactly for each key+value over 1024 bytes |
| KvsValidate.ReportedAt | hedgerules/internal/kvs/validate.go:41-57 | every per-entry error is reported for some entry of the list |
| KvsValidate.ReportedIn | hedgerules/internal/kvs/validate.go:41-57 | an error reported for any entry of the list is among the per-entry errors |
| KvsValidate.ValidIff | hedgerules/internal/kvs/validate.go:37-70 | no errors exactly when every key is at most 512 bytes, every entry at most 1024 bytes and the total at most 5,242,880 bytes |
| KvsValidate.TotalErrorIsLast | hedgerules/internal/kvs/validate.go:62-67 | one "(total)" error is appended after all per-entry errors exactly when the total is over the limit |
| KvsValidate.TotalBytesAppend | hedgerules/internal/kvs/validate.go:59 | the total is additive, so oversized entries still count toward it |
| KvsValidate.ExactBoundariesPass | internal/kvs/validate_test.go:91-112 | a 512-byte key with a 512-byte value produces no error |
| KvsValidate.KeyOneByteOverFails | internal/kvs/validate_test.go:29-48 | a 513-byte key produces exactly one key error, which reports 513 bytes |
| KvsClient.KeyValueStore.constructor | hedgerules/internal/kvs/sync.go:11-16 | a store with a listing of at least one page and an empty write log |
| KvsClient.KeyValueStore.Describe | hedgerules/internal/kvs/sync.go:13 | a wrong ARN is not found; a success answers the ETag of the current version |
| KvsClient.KeyValueStore.ListKeys | hedgerules/internal/kvs/sync.go:14 | answers the page the token names, with the token of the next page if there is one |
| KvsClient.KeyValueStore.UpdateKeys | hedgerules/internal/kvs/sync.go:15 | logs the call; a stale IfMatch fails; a success applies puts then deletes and moves to a new ETag; a failure changes nothing |
| KvsSync.ComputeSyncPlan | hedgerules/internal/kvs/sync.go:18-44 | puts are the new or changed desired entries in desired order; deletes are the existing keys absent from desired, each once |
| KvsSync.PlannedPutsMembership | hedgerules/internal/kvs/sync.go:28-34 | an entry is a put exactly when it is desired and its key is missing or holds another value |
| KvsSync.PlannedPutsKeys | hedgerules/internal/kvs/sync.go:28-34 | every put's key is a desired key |
| KvsSync.PutsOverExisting | hedgerules/internal/kvs/sync.go:28-34 | with unique desired keys, writing only the puts has the effect of writing every desired entry |
| KvsSync.TailStep | hedgerules/internal/kvs/sync.go:29-33 | skipping an entry the store already holds has the same effect as writing it |
| KvsSync.PlanReachesDesired | hedgerules/internal/kvs/sync.go:18-44 | with unique desired keys, applying the plan's puts and deletes to the existing map gives exactly the desired map |
| KvsSync.PlanEmptyIff | hedgerules/internal/kvs/sync_test.go:74-91 | the plan is empty exactly when the store already holds the desired map |
| KvsSync.EmptyPlanMeansInSync | hedgerules/internal/kvs/sync.go:18-44 | with unique desired keys, an empty plan means the store already holds exactly the desired map |
| KvsSync.InSyncMeansEmptyPlan | hedgerules/internal/kvs/sync.go:18-44 | with unique desired keys, a store that already holds the desired map gets no puts and no deletes |
| KvsSync.DeleteStep | hedgerules/internal/kvs/sync.go:37-41 | each existing key visited is added to the deletes once, exactly when it is not desired |
| KvsSync.FetchExistingKeys | hedgerules/internal/kvs/sync.go:47-77 | a success returns the whole contents across all pages and the described ETag; a wrong ARN fails at describe; a failure carries no map |
| KvsSync.Sync | hedgerules/internal/kvs/sync_test.go:163-324 | an empty plan makes no call; otherwise the batches are sent as chained conditional writes, and a failure reports the batch and what was sent |
| KvsSync.SendBatches | hedgerules/internal/kvs/sync_test.go:220-263 | each batch is one UpdateKeys call conditional on the ETag the previous call returned; the first failure stops the loop |
| KvsSync.PassOutcome | hedgerules/internal/kvs/sync.go:103-113 | chained writes that all succeeded are a successful sync with every batch applied |
| KvsSync.FailOutcome | hedgerules/internal/kvs/sync.go:109-111 | a failed last write is a failed sync that keeps the earlier batches applied |
| KvsSync.SyncStep | hedgerules/internal/kvs/sync_test.go:240-262 | one more call conditional on the previous call's ETag extends the chain and the counts of puts and deletes sent |
| KvsSync.SentStart | hedgerules/internal/kvs/sync_test.go:163-324 | before any call nothing is sent, the chain starts at the described ETag and the store is unchanged |
| KvsSync.SentOk | hedgerules/internal/kvs/sync_test.go:240-262 | a successful call for the next batch, conditional on the last ETag, moves the chain to its new ETag, adds its counts and applies its puts and deletes |
| KvsSync.SentFail | hedgerules/internal/kvs/sync.go:103-111 | a failed call stops the sync with an error naming the batch and the counts sent including it, and leaves the store as it was |
| KvsSync.SentAll | hedgerules/internal/kvs/sync_test.go:163-324 | once every batch is sent, the sync has passed with the specified log and store |
| KvsSync.ChainOk | hedgerules/internal/kvs/sync_test.go:240-262 | in a chain of conditional writes whose last call succeeded, every call succeeded |
| KvsSync.ApplyBatchesSnoc | hedgerules/internal/kvs/sync_test.go:220-263 | applying one more batch is one more update |
| KvsSync.AllPutsAppend | hedgerules/internal/kvs/sync_test.go:220-310 | the puts and deletes sent by consecutive batch lists concatenate |
| KvsSync.AllSnoc | hedgerules/internal/kvs/sync_test.go:220-310 | one more batch appends its puts and deletes |
| KvsSync.BatchSizes | hedgerules/internal/kvs/sync_test.go:194-263 | every batch carries 1 to 50 items, and every batch but the last carries exactly 50 |
| KvsSync.BatchesCover | hedgerules/internal/kvs/sync_test.go:220-310 | the batches send every put and every delete exactly once, in plan order |
| KvsSync.BatchesOfDeletes | hedgerules/internal/kvs/sync_test.go:301-309 | with no puts left, no batch carries a put |
| KvsSync.PutsFirst | hedgerules/internal/kvs/sync_test.go:265-310 | a batch with fewer than 50 puts took the last put; later batches carry only deletes |
| KvsSync.SmallPlanIsSingleCall | hedgerules/internal/kvs/sync.go:80-114 | a plan of at most 50 items is sent as exactly the single call sync.go makes |
| KvsSync.FiftyOneItemsTwoBatches | hedgerules/internal/kvs/sync_test.go:220-263 | 51 items make two calls of 50 and 1 items: the model's own boundary example, one item past the single 50-item call of sync_test.go:194-218 |
| KvsSync.HundredTwentyFivePuts | hedgerules/internal/kvs/sync_test.go:220-263 | 125 puts make three calls of 50, 50 and 25 puts |
| KvsSync.ThirtyPutsThirtyDeletes | hedgerules/internal/kvs/sync_test.go:265-310 | 30 puts and 30 deletes make a call of 30 puts and 20 deletes, then a call of the other 10 deletes |
| KvsSync.BatchesApplyPlan | hedgerules/internal/kvs/sync_test.go:220-310 | when no key is both put and deleted, applying the batches in order has the effect of the whole plan |
| KvsSync.ApplyBatchesCons | hedgerules/internal/kvs/sync_test.go:220-310 | applying a first batch, then the rest, is applying all the batches |
| KvsSync.ApplyUpdateCompose | hedgerules/internal/kvs/sync_test.go:220-310 | two updates in a row are one update with both lists, when the second puts no key the first deleted |
| KvsSync.SyncReachesDesired | hedgerules/internal/kvs/sync.go:18-114 | with unique desired keys, sending every batch of the plan leaves the store holding exactly the desired map |
| KvsSync.SyncAsWritten | hedgerules/internal/kvs/sync.go:80-114 | sync.go as written: no call for an empty plan, otherwise one conditional call carrying the whole plan |
| KvsSync.SingleCallFail | hedgerules/internal/kvs/sync.go:103-111 | when the one call fails, the sync fails reporting batch 0 with the whole plan counted as sent, and the store is unchanged |
| KvsSync.SingleCallPass | hedgerules/internal/kvs/sync.go:103-113 | when the one call succeeds, the sync passes with the whole plan applied to the store |
| KvsSync.SingleCallOverLimit | hedgerules/internal/kvs/sync.go:103-108 | over 50 items, sync.go sends a single call of more than 50 items, where the batching sends 50 at most |
| KvsSync.HundredTwentyFivePutsAsWritten | hedgerules/internal/kvs/sync_test.go:220-263 | for 125 puts, sync.go makes one call where the test expects three |
| HugoRedirects.ParseRedirects | hedgerules/internal/hugo/redirects.go:16-54 | a missing file gives no entries and no error; an open or read failure is an error; otherwise the entries and warnings of the lines |
| HugoRedirects.ParseLineByFields | hedgerules/internal/hugo/redirects.go:33-47 | a blank or `#` line is skipped, one field is invalid, and two or more fields give (field 0, field 1) |
| HugoRedirects.RedirectIsTwoWords | hedgerules/internal/hugo/redirects.go:38-47 | source and destination are single non-empty words, and the source does not start with `#` |
| HugoRedirects.LineEntriesAppend | hedgerules/internal/hugo/redirects.go:31-48 | entries keep line order: the entries of a + b are those of a, then those of b |
| HugoRedirects.LineWarningsPrefix | hedgerules/internal/hugo/redirects.go:38-42 | later lines never take back an earlier warning |
| HugoRedirects.InvalidLineSkipped | hedgerules/internal/hugo/redirects.go:39-42 | an invalid line contributes no entry, and parsing carries on |
| HugoRedirects.InvalidLineReported | hedgerules/internal/hugo/redirects.go:32-40 | an invalid line is reported with its 1-based line number and trimmed text |
| HugoRedirects.TwoWordLine | hedgerules/internal/hugo/redirects_test.go:11-46 | two words separated by any run of white space give a redirect from the first to the second |
| HugoRedirects.ThreeWordLine | hedgerules/internal/hugo/redirects_test.go:11-46 | a status field after the destination is ignored |
| HugoRedirects.CommentLine | hedgerules/internal/hugo/redirects.go:34-36 | a line whose first word starts with `#` is skipped |
| HugoRedirects.BlankLine | hedgerules/internal/hugo/redirects.go:34-36 | a blank or all-white-space line is skipped |
| HugoRedirects.MergeRedirects | hedgerules/internal/hugo/redirects.go:58-75 | the output has unique keys, one per key of either input, and the file value wins |
| HugoRedirects.MergePrecedence | hedgerules/internal/hugo/redirects_test.go:72-105 | the merged keys are the union; a file key takes the file value, and a key only in the directory entries keeps its value |
| HugoRedirects.MergeExample | hedgerules/internal/hugo/redirects_test.go:72-105 | a directory redirect overridden by a file redirect, one kept and one added |
| HugoRedirects.FollowChain | hedgerules/cmd/hedgerules/main.go:137 | following one chain with a visited set computes the specified chain end, or a cycle error |
| HugoRedirects.ResolveChains | hedgerules/internal/hugo/redirects_test.go:114-202 | every value is replaced by the end of its key's chain; otherwise the error names the start key of the first entry, in entry order, whose chain has a cycle |
| HugoRedirects.ResolveErrPersists | hedgerules/internal/hugo/redirects_test.go:161-171 | a cycle found among the first entries makes the whole resolution fail |
| HugoRedirects.WalkStep | hedgerules/internal/hugo/redirects_test.go:114-159 | one more step of the walk follows the redirect at the current path |
| HugoRedirects.FollowReachesEnd | hedgerules/internal/hugo/redirects_test.go:114-159 | a resolved target is reached from the key by redirects and is itself no source |
| HugoRedirects.FollowErrIsCycle | hedgerules/internal/hugo/redirects_test.go:161-171 | a reported cycle is real: the walk returns to a source it already passed |
| HugoRedirects.ResolvedShape | hedgerules/internal/hugo/redirects_test.go:173-202 | resolution keeps every entry's key and position |
| HugoRedirects.ResolvedErrIff | hedgerules/internal/hugo/redirects_test.go:161-171 | resolution fails exactly when some key's chain has a cycle |
| HugoRedirects.ResolvedTargetsAreChainEnds | hedgerules/internal/hugo/redirects_test.go:114-159 | a successful resolution keeps the entry count and sends every key to the end of its chain |
| HugoRedirects.ResolveFailsOnCycle | hedgerules/internal/hugo/redirects_test.go:161-171 | a failed resolution names the key of an entry whose chain returns to a source it passed, and every earlier entry's chain ends |
| HugoRedirects.ResolveErrNamesFirst | hedgerules/cmd/hedgerules/main.go:137-140 | a failed resolution names the first entry's key, in entry order, whose chain has a cycle |
| HugoRedirects.NoChainsUnchanged | hedgerules/internal/hugo/redirects_test.go:173-202 | entries whose values are not keys come back unchanged |
| HugoRedirects.NoChainsPrefix | hedgerules/internal/hugo/redirects_test.go:173-202 | every prefix of such entries resolves unchanged |
| HugoRedirects.ResolveIdempotent | hedgerules/internal/hugo/redirects_test.go:114-159 | resolving an already resolved list changes nothing |
| HugoRedirects.TwoHopChain | hedgerules/internal/hugo/redirects_test.go:114-135 | a→b, b→c resolves to a→c, b→c |
| HugoRedirects.MultiHopChain | hedgerules/internal/hugo/redirects_test.go:137-159 | a→b→c→d→e sends a, b, c and d to e |
| HugoRedirects.CycleDetected | hedgerules/internal/hugo/redirects_test.go:161-171 | a→b→c→a fails, naming a |
| HugoRedirects.CycleNamesStartKey | hedgerules/cmd/hedgerules/main.go:137-140 | for x→a, a→b, b→a the error names the start key x, not a, the key reached twice |
| HugoHeaders.HeaderLines | hedgerules/internal/hugo/headers.go:35-37 | one "Name: value" line per header name, in the given order |
| HugoHeaders.AddPath | hedgerules/internal/hugo/headers.go:38-41 | appending a path's entry extends the listing by exactly that path |
| HugoHeaders.HeaderValue | hedgerules/internal/hugo/headers.go:34-40 | the inner loop joins one line per header, each exactly once, with "\n" |
| HugoHeaders.ParseHeaders | hedgerules/internal/hugo/headers.go:16-45 | a missing file gives no entries; read and decode failures are errors; otherwise one entry per path, valued by its header lines |
| HugoHeaders.NoHeadersIsEmpty | hedgerules/internal/hugo/headers.go:34-40 | a path without headers gets the empty value, and only such a path does |
| HugoHeaders.SingleHeader | hedgerules/internal/hugo/headers_test.go:54-56 | a path with a single header gets exactly "Name: value", with no newline |
| HugoHeaders.OrderOfSingleton | hedgerules/internal/hugo/headers.go:35 | iterating a one-name map visits that name once |
| HugoHeaders.HeaderValueLines | hedgerules/internal/hugo/headers_test.go:42-47 | when neither names nor values contain a newline, splitting a value at "\n" gives exactly the header lines, one per header |
| HugoHeaders.NoNewlineInLine | hedgerules/internal/hugo/headers.go:36 | a line built from newline-free parts has no newline |
| HugoHeaders.DistinctLength | hedgerules/internal/hugo/headers.go:33-35 | an iteration with no repeats has one element per key |
| HugoHeaders.EmptyObject | hedgerules/internal/hugo/headers_test.go:80-91 | an empty object gives no entries |
| HugoDirectories.ToSlash | hedgerules/internal/hugo/directories.go:41 | every platform separator becomes '/', and every other character stays |
| HugoDirectories.ScanDirectories | hedgerules/internal/hugo/directories.go:13-53 | a stat failure, a non-directory or any walk error is an error; otherwise one entry per subdirectory, in walk order |
| HugoDirectories.DirEntriesAppend | hedgerules/internal/hugo/directories.go:42-45 | entries keep walk order |
| HugoDirectories.SubdirectoryAdds | hedgerules/internal/hugo/directories.go:36-45 | a visited subdirectory appends its one entry after those of the walk so far |
| HugoDirectories.DirEntriesMembership | hedgerules/internal/hugo/directories.go:28-45 | an entry exists exactly for each subdirectory the walk visits |
| HugoDirectories.DirEntriesCount | hedgerules/internal/hugo/directories.go:28-45 | there is one entry per subdirectory visit |
| HugoDirectories.DirEntryShape | hedgerules/internal/hugo/directories.go:41-45 | every key starts with '/' and contains no platform separator, and every value is the key + "/" |
| HugoDirectories.FileAddsNothing | hedgerules/internal/hugo/directories.go:28-30 | a regular file adds no entry |
| HugoDirectories.RootAddsNothing | hedgerules/internal/hugo/directories.go:31-34 | the output directory itself adds no entry |
| HugoDirectories.EmptyTree | hedgerules/internal/hugo/directories_test.go:55-64 | a walk of only the root gives no entries |
| HugoDirectories.NestedDirectories | hedgerules/internal/hugo/directories_test.go:10-53 | /blog and /blog/2024 each get their own entry |
| HugoDirectories.BackslashSeparator | hedgerules/internal/hugo/directories.go:41 | with a backslash separator, blog\2024 becomes /blog/2024 |
| FunctionsDeploy.StoreLister.constructor | hedgerules/internal/functions/deploy.go:20-23 | a listing of at least one page, with no requests and no answers logged yet |
| FunctionsDeploy.StoreLister.ListKeyValueStores | hedgerules/internal/functions/deploy.go:29-31 | logs the marker and the answer; answers the page it names with the next marker, or a service error; a marker past the pages is invalid |
| FunctionsDeploy.MarkersUpTo | hedgerules/internal/functions/deploy.go:27-47 | the markers of pages 0 to n-1, in order |
| FunctionsDeploy.MatchInPage | hedgerules/internal/functions/deploy.go:36-42 | the inner loop finds the first item with the exact name and an ARN |
| FunctionsDeploy.ResolveKVSARN | hedgerules/internal/functions/deploy.go:26-50 | Resolved: the lookup's answer (the ARN of the first matching store among the reached pages, or not found) or the listing failure; the listing fails exactly when the last call failed, every earlier call succeeded, and a successful last call gives the lookup's answer; pages 0 to n-1 are asked for in order, with n at most the reached pages and all of them when not found; no page before the last one asked for holds a match, so no page after the match is asked for; a found ARN is the first match in the pages asked for |
| FunctionsDeploy.Reached | hedgerules/internal/functions/deploy.go:35-47 | the pages read: at least one, every one before the last has a list, and when it stops early the last has none |
| FunctionsDeploy.NextMarkerAdvances | hedgerules/internal/functions/deploy.go:43-47 | corrected, each successful call ends the listing or moves to the next page, and a page without a list ends it |
| FunctionsDeploy.MatchStep | hedgerules/internal/functions/deploy.go:36-40 | a match on a page, when no earlier page has one, is the lookup's answer |
| FunctionsDeploy.NoMatchStep | hedgerules/internal/functions/deploy.go:43-49 | no match on a page: the listing goes on to the next reached page, or it ends there and the lookup is not found |
| FunctionsDeploy.LogStep | hedgerules/internal/functions/deploy.go:29-34 | each call adds its marker and its answer to the logs, keeping what was logged before |
| FunctionsDeploy.ListOnce | hedgerules/internal/functions/deploy.go:29-47 | one pass of the loop either ends the lookup with every promise of Resolved, or moves to the next reached page with no match so far and every answer a success |
| FunctionsDeploy.RunStopsAtMatch | hedgerules/internal/functions/deploy.go:36-40 | in a run of n calls, none of the first n-1 pages holds a match: the lookup stops at the page with the match |
| FunctionsDeploy.NoMatchBefore | hedgerules/internal/functions/deploy.go:36-42 | when the first m pages list no match, none of those pages holds one |
| FunctionsDeploy.MatchOnFirstPageStops | hedgerules/internal/functions/deploy.go:36-40 | with the store on the first of two pages, only the first page is asked for, and the answer is its ARN unless that one call failed |
| FunctionsDeploy.FailedAt | hedgerules/internal/functions/deploy.go:32-34 | a run whose last call failed ends in the listing failure, keeping the promises of Resolved |
| FunctionsDeploy.FoundAt | hedgerules/internal/functions/deploy.go:38-40 | a run that found the ARN on a reached page answers it, keeping the promises of Resolved |
| FunctionsDeploy.NotFoundAt | hedgerules/internal/functions/deploy.go:45-49 | a run that read every reached page without a match answers not found, keeping the promises of Resolved |
| FunctionsDeploy.StepAsWritten | hedgerules/internal/functions/deploy.go:35-47 | as written, the next marker still names a page of the listing |
| FunctionsDeploy.MissingListLoopsAsWritten | hedgerules/internal/functions/deploy.go:35-47 | as written, a page after the first without a list is asked for again after any number of calls |
| FunctionsDeploy.ListedStep | hedgerules/internal/functions/deploy.go:35-44 | one more page adds its items, and a page without a list adds none |
| FunctionsDeploy.LookupFromPrefix | hedgerules/internal/functions/deploy.go:38-40 | a match in the first pages is the match of the whole listing |
| FunctionsDeploy.FirstMatchAppend | hedgerules/internal/functions/deploy.go:36-42 | the first match of a + b is a's, if a has one, else b's |
| FunctionsDeploy.FirstMatchIsEarliest | hedgerules/internal/functions/deploy.go:36-42 | the answer is the ARN of the earliest matching item, and no earlier item matches |
| FunctionsDeploy.NilArnSkipped | hedgerules/internal/functions/deploy.go:38 | a store with the right name but no ARN is passed over |
| FunctionsDeploy.FoundOnSecondPage | hedgerules/internal/functions/deploy.go:43-47 | a store on the second page is found |
| FunctionsDeploy.FunctionsClient.constructor | hedgerules/internal/functions/deploy.go:12-18 | a remote with the given functions and no calls yet |
| FunctionsDeploy.FunctionsClient.DescribeFunction | hedgerules/internal/functions/deploy.go:14 | logs the call; an unknown function is NoSuchFunctionExists; a success gives the DEVELOPMENT ETag |
| FunctionsDeploy.FunctionsClient.CreateFunction | hedgerules/internal/functions/deploy.go:15 | logs the call; an existing name fails; a success creates the function in DEVELOPMENT only |
| FunctionsDeploy.FunctionsClient.UpdateFunction | hedgerules/internal/functions/deploy.go:16 | logs the call; a stale IfMatch fails; a success writes DEVELOPMENT and answers a new ETag, different from the IfMatch it was given, so a publish never reuses the described ETag |
| FunctionsDeploy.FunctionsClient.PublishFunction | hedgerules/internal/functions/deploy.go:17 | logs the call; a stale IfMatch fails; a success makes DEVELOPMENT live |
| FunctionsDeploy.DeployFunction | hedgerules/internal/functions/deploy.go:54-119 | the calls follow the describe / update-or-create / publish sequence; success means the code and configuration are live; no other function changes |
| FunctionsDeploy.WriteFunction | hedgerules/internal/functions/deploy.go:75-107 | a described function is updated with the described ETag, any other is created, with the given code and configuration; a failure is the matching error; success leaves that version in DEVELOPMENT and answers its ETag; no other function changes |
| FunctionsDeploy.ManagedConfigShape | hedgerules/internal/functions/deploy.go:55-61 | runtime cloudfront-js-2.0, exactly the given KVS, and the comment "Managed by hedgerules: " + name |
| FunctionsDeploy.DescribeFailureStops | hedgerules/internal/functions/deploy.go:70-73 | a describe error other than NoSuchFunctionExists makes no further call and is the result |
| FunctionsDeploy.PublishFollowsWrite | hedgerules/internal/functions/deploy.go:75-113 | publish happens at most once, after a successful write, with that write's ETag; an update carries the described ETag |
| FunctionsDeploy.PassMeansPublished | hedgerules/internal/functions/deploy.go:110-118 | success means the write and the publish both succeeded |
| FunctionsEmbed.Layout | hedgerules/internal/functions/embed.go:16-19 | the output is the kvsId line's bytes, then the debugHeaders line's bytes, then the source |
| FunctionsEmbed.SourceIsSuffix | hedgerules/internal/functions/embed.go:18 | the length is header bytes + source bytes, and the source is the suffix |
| FunctionsEmbed.HeaderIndependentOfSource | hedgerules/internal/functions/embed.go:17 | the header depends only on the ID and the flag |
| FunctionsEmbed.KvsIdVerbatim | hedgerules/internal/functions/embed_test.go:49-65 | the output is the bytes of "var kvsId = '", the ID's own bytes unescaped, those of "';" and a newline, the debugHeaders line, then the source |
| FunctionsEmbed.DebugLineFollows | hedgerules/internal/functions/embed_test.go:67-80 | after the kvsId line comes "var debugHeaders = true;" or "... false;" as the flag says |
| FunctionsEmbed.DebugFlagDistinguishes | hedgerules/internal/functions/embed.go:17 | the two flag settings never give the same code |
| FunctionsEmbed.HeaderLength | hedgerules/internal/functions/embed.go:17 | the header's bytes are the kvsId line's, the fixed text of the debugHeaders line, and one per letter of "true" or "false" |
| FunctionsEmbed.StripHeader | hedgerules/internal/functions/embed.go:18 | dropping the header bytes gives back the source |
| FunctionsEmbed.SourceInjective | hedgerules/internal/functions/embed.go:16-19 | different sources give different code |
| EdgeStore.KeyValueStore.constructor | hedgerules/internal/functions/viewer-request.js:14 | a store with the given entries and no lookups yet |
| EdgeStore.KeyValueStore.Get | hedgerules/internal/functions/viewer-request.js:15 | logs the key and answers the stored value, or nothing where the runtime throws |
| ViewerRequest.Request.constructor | hedgerules/internal/functions/viewer-request.js:9-10 | a request with the given URI |
| ViewerRequest.Handler | hedgerules/internal/functions/viewer-request.js:8-33 | one lookup of the raw URI; a redirect leaves the request alone; otherwise the request is forwarded with its URI rewritten |
| ViewerRequest.RedirectIff | hedgerules/internal/functions/viewer-request.js:15-22 | a redirect happens exactly when the store holds a non-empty value for the URI, and it goes to that value |
| ViewerRequest.MissOrEmptyRewrites | hedgerules/internal/functions/viewer-request.js:16-25 | a missing key or an empty value falls through to the rewrite |
| ViewerRequest.DirectoryGetsIndex | hedgerules/internal/functions/viewer-request.js:28-30 | a URI ending in '/' gains index.html |
| ViewerRequest.OtherUriUnchanged | hedgerules/internal/functions/viewer-request.js:28-32 | any other URI is unchanged |
| ViewerRequest.RewriteIdempotent | hedgerules/internal/functions/viewer-request.js:28-30 | rewriting twice is rewriting once |
| ViewerRequest.RedirectShape | hedgerules/internal/functions/viewer-request.js:17-21 | a 301 "Moved Permanently" whose only header is location, set to the destination |
| ViewerResponse.BuildPatterns | hedgerules/internal/functions/viewer-response.js:24-45 | the pushes build exactly the specified pattern list |
| ViewerResponse.PushParents | hedgerules/internal/functions/viewer-response.js:29-33 | the loop pushes exactly the parent patterns, shortest first |
| ViewerResponse.ParentPatternsSnoc | hedgerules/internal/functions/viewer-response.js:31-33 | each loop pass appends the next parent pattern |
| ViewerResponse.ParseLines | hedgerules/internal/functions/viewer-response.js:58-66 | each line of a value is parsed as specified |
| ViewerResponse.AddParsed | hedgerules/internal/functions/viewer-response.js:59-76 | the inner loop accepts headers in line order while they fit, as specified |
| ViewerResponse.AddLineStep | hedgerules/internal/functions/viewer-response.js:66-74 | one line is skipped, accepted, or the one that does not fit |
| ViewerResponse.SomesStep | hedgerules/internal/functions/viewer-response.js:59-66 | a line that gives no header is skipped |
| ViewerResponse.AddEntriesCons | hedgerules/internal/functions/viewer-response.js:67-73 | before truncation, a header that does not fit sets truncated and stops; one that fits is written, its size added, and the rest follow |
| ViewerResponse.CollectHeaders | hedgerules/internal/functions/viewer-response.js:48-84 | the lookup loop computes the specified collection, looking up the patterns in order up to the one that overflows |
| ViewerResponse.VisitPattern | hedgerules/internal/functions/viewer-response.js:54-80 | one pass of the loop: one lookup of the pattern; a hit is recorded and its lines added; the loop stops exactly when they overflow |
| ViewerResponse.AddValue | hedgerules/internal/functions/viewer-response.js:58-76 | the lines of a stored value are parsed and accepted while they fit, as specified |
| ViewerResponse.CollectHit | hedgerules/internal/functions/viewer-response.js:56-79 | a hit records its index and adds its lines, and collection ends there when they overflow |
| ViewerResponse.CollectMiss | hedgerules/internal/functions/viewer-response.js:55-56 | a missing key or an empty value is skipped |
| ViewerResponse.Response.constructor | hedgerules/internal/functions/viewer-response.js:12 | a response with the given headers |
| ViewerResponse.ApplyHeaders | hedgerules/internal/functions/viewer-response.js:87-90 | the collected headers overwrite the response's headers of the same names, and leave other headers alone |
| ViewerResponse.Handler | hedgerules/internal/functions/viewer-response.js:11-114 | the response holds its old headers overwritten by the collected ones, then the debug headers if enabled; the lookups are a prefix of the patterns |
| ViewerResponse.NormalizePathSpec | hedgerules/internal/functions/viewer-response.js:16-19 | the path starts with '/', ends with the URI, and normalising it again changes nothing |
| ViewerResponse.NonEmptyShape | hedgerules/internal/functions/viewer-response.js:30 | the filter keeps only non-empty parts of the input |
| ViewerResponse.NonEmptyAppend | hedgerules/internal/functions/viewer-response.js:30 | filtering distributes over concatenation |
| ViewerResponse.NonEmptyKeepsAll | hedgerules/internal/functions/viewer-response.js:30 | filtering keeps a list with no empty parts whole |
| ViewerResponse.SegmentsAreSegments | hedgerules/internal/functions/viewer-response.js:30 | every segment is non-empty and free of '/', so repeated slashes are dropped |
| ViewerResponse.JoinSnoc | hedgerules/internal/functions/viewer-response.js:32 | joining one more part appends the separator and the part |
| ViewerResponse.ParentPatternSegments | hedgerules/internal/functions/viewer-response.js:32 | a parent pattern starts and ends with '/', and its own segments are exactly the first i + 1 segments |
| ViewerResponse.PatternListShape | hedgerules/internal/functions/viewer-response.js:26-45 | the root comes first, then each proper parent in order of depth, then the extension wildcard if any, then the path unless it is the root |
| ViewerResponse.PatternListParents | hedgerules/internal/functions/viewer-response.js:29-33 | after the root come the proper parents, shortest first, each with the segments of its depth |
| ViewerResponse.RootPatterns | hedgerules/internal/functions/viewer-response.js:27-45 | the root's only pattern is "/" |
| ViewerResponse.ExtensionPatternSpec | hedgerules/internal/functions/viewer-response.js:36-40 | a wildcard exists exactly when the last segment has a dot that is not its last character, and it is "*." + the text after the last dot |
| ViewerResponse.ParseLineNoColon | hedgerules/internal/functions/viewer-response.js:61-62 | a line without ':' gives no header |
| ViewerResponse.ParseLineName | hedgerules/internal/functions/viewer-response.js:63-66 | a parsed name is non-empty, has no ':' and has no upper-case ASCII letter |
| ViewerResponse.LoweredNameShape | hedgerules/internal/functions/viewer-response.js:63 | trimming and lower-casing the text before the first ':' leaves no ':' and no upper-case ASCII letter |
| ViewerResponse.TrimKeepsOut | hedgerules/internal/functions/viewer-response.js:60 | trimming adds no character |
| ViewerResponse.HeaderLineRoundTrip | hedgerules/internal/hugo/headers.go:36 | a "Name: value" line as the build writes it parses at the edge to the lower-cased name and the value with "{/path}" replaced |
| ViewerResponse.ParseAtColon | hedgerules/internal/functions/viewer-response.js:61-65 | a line "name:rest" splits at the colon after name |
| ViewerResponse.TrimmedHeaderLine | hedgerules/internal/functions/viewer-response.js:60 | trimming a build-written line leaves it intact apart from a blank value |
| ViewerResponse.ColonAfterName | hedgerules/internal/functions/viewer-response.js:61 | the first ':' is the one after a colon-free name |
| ViewerResponse.TrimmedRest | hedgerules/internal/functions/viewer-response.js:64 | trimming " " + value gives the value back |
| ViewerResponse.FitCount | hedgerules/internal/functions/viewer-response.js:67-71 | the count of entries that fit is at most the number of entries |
| ViewerResponse.FitCountSpec | hedgerules/internal/functions/viewer-response.js:67-71 | the counted prefix fits the budget, and one more entry would not |
| ViewerResponse.AddEntriesFit | hedgerules/internal/functions/viewer-response.js:67-73 | the longest prefix that fits is written in order and its size added, and truncation happens exactly when an entry is left over |
| ViewerResponse.AddEntriesAppend | hedgerules/internal/functions/viewer-response.js:59-79 | adding a then b is adding a, then adding b unless a truncated |
| ViewerResponse.HitsFromMembers | hedgerules/internal/functions/viewer-response.js:55-57 | an index is recorded exactly when its lookup finds a non-empty value |
| ViewerResponse.HitsFromIncreasing | hedgerules/internal/functions/viewer-response.js:53-57 | the recorded indices increase |
| ViewerResponse.CollectFromSpec | hedgerules/internal/functions/viewer-response.js:53-84 | the collection adds the lines of every later hit in order; the matched indices are the hits, cut off after the overflowing one |
| ViewerResponse.CollectSpec | hedgerules/internal/functions/viewer-response.js:47-84 | the headers are the longest prefix of all hit lines that fits 4096, written in order; the total is their size and at most 4096; truncated exactly when a line is left over, and that line would go over |
| ViewerResponse.CollectLastWins | hedgerules/internal/functions/viewer-response.js:22-23 | the last accepted line for a name decides its value, so later patterns override earlier ones |
| ViewerResponse.CollectMatched | hedgerules/internal/functions/viewer-response.js:53-57 | without truncation the matched indices are exactly the hits, in increasing order |
| ViewerResponse.FinalHeadersOverride | hedgerules/internal/functions/viewer-response.js:86-90 | outside the debug names, a header is the collected value if there is one, else the old value; no other header appears |
| ViewerResponse.DebugHeadersSpec | hedgerules/internal/functions/viewer-response.js:93-100 | the debug headers carry the patterns and matched indices clipped to 200 characters, and the size as a decimal that reads back as the total; "true" when truncated |
| ViewerResponse.DollarInPathAsWritten | hedgerules/internal/functions/viewer-response.js:65 | for the value "<{/path}>" and the path "/a$&", the code as written gives "</a{/path}>", where "</a$&>" is meant |
| Strings.DigitChar | hedgerules/internal/functions/viewer-response.js:96 | a digit's character is a decimal digit with that value |
| Strings.NatToString | hedgerules/internal/kvs/validate.go:48 | `%d` and `String(n)` print a non-empty string of digits, with no leading zero except for 0 itself |
| Strings.DecimalRoundTrip | hedgerules/internal/functions/viewer-response.js:96 | a printed number reads back as the number |
| Strings.NatToStringInjective | hedgerules/internal/kvs/validate.go:48 | different numbers print differently |
| Strings.IndexOf | hedgerules/internal/functions/viewer-response.js:61 | indexOf gives the first position of the character, or -1 exactly when the character is absent |
| Strings.LastIndexOf | hedgerules/internal/functions/viewer-response.js:37 | lastIndexOf gives the last position of the character, or -1 exactly when the character is absent |
| Strings.Split | hedgerules/internal/functions/viewer-response.js:58 | split gives at least one piece, and no piece holds the separator |
| Strings.JoinSplit | hedgerules/internal/functions/viewer-response.js:58 | joining the pieces of a split with the separator gives back the string |
| Strings.SplitJoin | hedgerules/internal/hugo/headers.go:40 | splitting a join of separator-free parts gives back the parts |
| GoText.TrimLeft | hedgerules/internal/hugo/redirects.go:33 | drops exactly a white-space prefix, and what is left does not start with white space |
| GoText.LeadingSpace | hedgerules/internal/hugo/redirects.go:33 | counts exactly the white-space characters at the start of the string |
| GoText.TrailingSpace | hedgerules/internal/hugo/redirects.go:33 | counts exactly the white-space characters at the end of the string |
| GoText.TrimRight | hedgerules/internal/hugo/redirects.go:33 | drops exactly a white-space suffix, and what is left does not end with white space |
| GoText.TrimSpace | hedgerules/internal/hugo/redirects.go:33 | the result has no white space at either end |
| GoText.TrimSpaceIsInfix | hedgerules/internal/hugo/redirects.go:33 | TrimSpace removes exactly a white-space prefix and a white-space suffix |
| GoText.WordLength | hedgerules/internal/hugo/redirects.go:38 | the first word is the longest space-free prefix |
| GoText.Fields | hedgerules/internal/hugo/redirects.go:38 | every field is a non-empty run of non-space characters |
| GoText.WordLengthOfField | hedgerules/internal/hugo/redirects.go:38 | a field followed by white space is a whole word |
| GoText.WordLengthAppendSpace | hedgerules/internal/hugo/redirects.go:38 | trailing white space does not change the first word |
| GoText.FieldsSkipSpace | hedgerules/internal/hugo/redirects.go:38 | leading white space separates nothing |
| GoText.FieldsTrailingSpace | hedgerules/internal/hugo/redirects.go:38 | trailing white space separates nothing |
| GoText.FieldsOfTrimLeft | hedgerules/internal/hugo/redirects.go:33-38 | trimming the left does not change the fields |
| GoText.FieldsOfTrimRight | hedgerules/internal/hugo/redirects.go:33-38 | trimming the right does not change the fields |
| GoText.FieldsOfTrimSpace | hedgerules/internal/hugo/redirects.go:33-38 | trimming does not change the fields |
| GoText.FieldsCons | hedgerules/internal/hugo/redirects.go:38 | a field, then white space, then the rest: the field comes first |
| GoText.FieldsOfField | hedgerules/internal/hugo/redirects.go:38 | a single field is its own only field |
| GoText.Utf8Char | hedgerules/internal/kvs/validate.go:42 | a character takes 1 to 4 bytes, and 1 byte, equal to its code, exactly when it is ASCII |
| GoText.Utf8EncodeAppend | hedgerules/internal/functions/embed.go:18 | encoding distributes over concatenation |
| GoText.AsciiEncoding | hedgerules/internal/kvs/validate.go:42-43 | an ASCII string encodes to one byte per character, each equal to its code |
| GoText.ByteLenAtLeastLength | hedgerules/internal/kvs/validate.go:42-43 | a string has at least as many bytes as characters |
| JsText.TrimStartShape | hedgerules/internal/functions/viewer-response.js:60 | trimming the start drops exactly a white-space prefix, and what is left does not start with white space |
| JsText.TrimEndShape | hedgerules/internal/functions/viewer-response.js:60 | trimming the end drops exactly a white-space suffix, and what is left does not end with white space |
| JsText.TrimIsInfix | hedgerules/internal/functions/viewer-response.js:60 | trim removes exactly a white-space prefix and suffix, and leaves no white space at either end |
| JsText.TrimTrimmed | hedgerules/internal/functions/viewer-response.js:63-64 | a string with no white space at either end trims to itself |
| JsText.AsciiLower | hedgerules/internal/functions/viewer-response.js:63 | lower-casing keeps the length and lowers each ASCII letter |
| JsText.Utf16LengthBounds | hedgerules/internal/functions/viewer-response.js:67 | a string's length in code units is between its character count and twice that |
| JsText.PrefixSpec | hedgerules/internal/functions/viewer-response.js:94-95 | substring(0, n) keeps the first n characters, or all of a shorter string |
| JsText.Find | hedgerules/internal/functions/viewer-response.js:65 | indexOf with a string gives -1 or a position where the pattern fits |
| JsText.FindSpec | hedgerules/internal/functions/viewer-response.js:65 | indexOf with a string gives the first occurrence, or -1 when there is none |
| JsText.FindOccurs | hedgerules/internal/functions/viewer-response.js:65 | where indexOf gives a position, the pattern occurs there |
| JsText.FindFirst | hedgerules/internal/functions/viewer-response.js:65 | no occurrence comes before the position indexOf gives, and none exists when it gives -1 |
| JsText.OccursShift | hedgerules/internal/functions/viewer-response.js:65 | an occurrence at k + 1 is an occurrence at k in the string minus its first character |
| JsText.ExpandLiteral | hedgerules/internal/functions/viewer-response.js:65 | a replacement without '$' is taken literally |
| JsText.ReplaceAgreesWithoutDollar | hedgerules/internal/functions/viewer-response.js:65 | when the path has no '$', the replace as written and the literal replace agree |
| JsText.ReplaceFirstSpec | hedgerules/internal/functions/viewer-response.js:65 | the first occurrence is replaced verbatim, and the text around it is kept |
| JsText.ReplaceAbsent | hedgerules/internal/functions/viewer-response.js:65 | a string without the pattern is unchanged |

## Left out

- File and library I/O are not modelled: opening and scanning `_hedge_redirects.txt`, reading `_hedge_headers.json`, JSON decoding, stat, and `filepath.WalkDir`/`filepath.Rel`. Their outcomes are inputs: lines and a read-error flag, a decoded object or a failure, and a walk listing whose failures stand for WalkDir and Rel errors.
- The warning for an invalid redirect line is returned as data (line number and trimmed text), not printed to standard error.
- Remote services are classes, not the AWS SDK: the KeyValueStore API, the CloudFront Functions API and the store listing. `context`, transport, retries and `errors.As` matching are not modelled. A failure is an error value, and any call may fail with a service error.
- The remotes' pagination is a finite sequence of pages, so its termination is assumed rather than modelled.
- `main.go` is not modelled: flags, TOML configuration, capacity percentages in floating point, printing and exit codes. Only its call order is cited.
- The prototype scripts under `examples/micahrlweb` are not modelled, because the Go tool supersedes them.
- The embedded JavaScript sources (`go:embed`) are opaque byte payloads.
- The body of `ResolveChains` is not part of this model. HugoRedirects.ResolveChains is specified from redirects_test.go:114-202 and its call at main.go:137: follow each chain with a visited set, and return an error naming the start key of the first entry, in entry order, whose chain has a cycle. The tests check only that an error occurs, so which key the error names is the model's choice: the entry's own key, so the message points at the redirect to fix.
- Go map iteration order is any order the model's choice picks. Deletes, merged entries and header lines are therefore promised as sets, with no order.
- The edge runtime is not modelled: `async`/`await` and `cf.kvs`. The KeyValueStore `kvs.get` is a map lookup: a missing key, where the runtime throws, answers None. The model does not cover a store that changes between lookups.
- ViewerResponse.Handler: the catch-all `x-hedgerules-error` path of viewer-response.js:102-111 is not modelled. Nothing in the modelled steps throws once lookups are map accesses.
- ViewerResponse.Handler: `typeof debugHeaders !== 'undefined'` is not modelled. The flag is always injected by `BuildFunctionCode`, so it is a plain boolean parameter.
- ViewerResponse.Handler: header names that collide with built-in object properties (such as `__proto__`) are ordinary map keys here.
- JsText.AsciiLower: `toLowerCase` is modelled for the ASCII letters only; other characters are left as they are.
- JsText.Prefix: `substring(0, n)` counts characters here, not UTF-16 code units. A value containing characters outside the Basic Multilingual Plane could be clipped differently.
- ViewerResponse.ParseLines and ViewerResponse.AddParsed split the handler's single inner loop in two: first parse every line, then accept the parsed headers in order. Parsing is pure and the accepting loop stops at the same line, so the difference cannot be observed.
- ViewerResponse.ParseLine uses the corrected literal replace (see Findings). JsText.ReplaceAgreesWithoutDollar proves it agrees with the language's `replace` whenever the path has no '$'.
- KvsSync.FetchExistingKeys: when the ARN matches, the contract allows any error result, including one returned before any call is made; it does not tie an error to a failing describe or list call, because the remote's calls are not logged for reads.
- KvsSync.SyncAsWritten: its error carries the index of the failed call and the counts sent, where sync.go:109-110 only wraps the SDK error; the extra fields are a representation choice shared with KvsSync.Sync.
- Strings are sequences of characters. Go strings are taken to be valid UTF-8 and JavaScript strings valid UTF-16, with no lone surrogates. This covers redirect lines, directory names, header values and the byte counts of validate.go:42-43, which are the UTF-8 encoding of the characters.
- KvsSync.Sync: the log records the puts and deletes of every call, but not the SDK's request item structs.

## Findings

| source | as written | input that shows it | evidently intended | confidence | as-written member | corrected member |
|---|---|---|---|---|---|---|
| hedgerules/internal/kvs/sync.go:103-108 | `Sync` sends the whole plan in one `UpdateKeys` call | a plan of 125 puts: one call of 125 items, over the 50-item limit per call | batches of at most 50 items, puts first, each conditional on the previous call's ETag, as sync_test.go:194-310 expects | high (sync_test.go:194-310 expects calls of at most 50 items and names maxKeysPerBatch), not executed | KvsSync.SyncAsWritten, KvsSync.SingleCallOverLimit, KvsSync.HundredTwentyFivePutsAsWritten | KvsSync.Sync, KvsSync.BatchSizes, KvsSync.SmallPlanIsSingleCall, KvsSync.SyncReachesDesired |
| hedgerules/internal/functions/deploy.go:35-47 | an answer without a `KeyValueStoreList` leaves the marker as it was | a listing whose second page has no list: after page 0 the marker is 1, and page 1 is asked for again and again, forever | an answer without a list ends the listing, as the first page's does | medium, not executed | FunctionsDeploy.NextMarkerAsWritten, FunctionsDeploy.MissingListLoopsAsWritten | FunctionsDeploy.NextMarker, FunctionsDeploy.NextMarkerAdvances, FunctionsDeploy.ResolveKVSARN |
| hedgerules/internal/functions/viewer-response.js:65 | `val.replace('{/path}', path)` expands `$&`, `` $` ``, `$'` and `$$` in the path | value "<{/path}>" with request path "/a$&" gives "</a{/path}>" | the path inserted verbatim: "</a$&>" | medium, not executed | JsText.ReplaceFirstAsWritten, ViewerResponse.DollarInPathAsWritten | JsText.ReplaceFirst, JsText.ReplaceFirstSpec |
