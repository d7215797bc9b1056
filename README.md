# Zenoryx ingestion pipeline and project procedures, modelled in Dafny

Zenoryx turns a GitHub repository into a searchable project. When a user
creates a project, the app does the following:

- It prices the repository at one credit per file, counting the files
  through the contents endpoint.
- It refuses the project when the price exceeds the user's balance.
- It records the project and the user's membership.
- It indexes the repository. Every file the loader returns is summarised by
  Groq and embedded by Gemini. Each result is stored as a row, and the row's
  vector is written by a separate update.
- It pulls commits. The listed commits are sorted newest first and cut to
  ten; only then are the hashes already stored dropped. DeepSeek summarises
  each remaining diff, and one record per commit is stored. Once all ten
  newest are stored, older commits that are not stored are never pulled.
- Only then does it charge the price.

Three module-level rate limiters are defined for the providers:

- a per-minute call and token budget for Groq;
- a per-minute call budget for Gemini, which no code in these files calls;
- a sliding one-minute window of timestamps for DeepSeek.

Code summaries are cached by prompt. The Groq call is retried once after a
timeout or a server error.

The model follows the source file by file:

| module | file | what it holds |
|---|---|---|
| `Together` (`together.dfy`) | `src/lib/together.ts` | the token count, the three limiters as a `ProviderState` class whose fields are the module globals, the prompt cache, the attempt loop, the commit summariser and the embedding fallback |
| `Github` (`github.dfy`) | `src/lib/github.ts` | owner and repository parsing, newest-first selection of ten commits, filtering stored hashes, the diff URL, the summary fallbacks and the bulk insert |
| `GithubLoader` (`github_loader.dfy`) | `src/lib/github-loader.ts` | the recursive file count over a `Content` tree, the credit price, the retry helper, the embedding items and the per-item create-then-update save |
| `ProjectRouter` (`project_router.dfy`) | `src/server/api/routers/project.ts` | the procedures acting on the database |
| `Store` (`store.dfy`) | — | the database as a `Database` class with one field per table |

Supporting modules:

- `Common` holds `Option`, `Result` and `filter`.
- `Strings` holds the JavaScript string operations the source relies on: `\s`, `trim`, `split` and `indexOf`.
- `Sorting` holds the stable newest-first sort.

Everything outside the process is an input of the operation that consults
it. That covers the contents endpoint, the commit list, the diff endpoint,
the document loader and the provider replies. Each is a function or value
that answers for the request made; a call that may throw answers `Result`.
The database is the `Database` class. Of its writes, only the embedding
row's create and its vector update may fail, chosen per item by a
`SaveFault` input. The update and delete of a missing project fail with
the messages Prisma gives for its P2025 error. `Date.now()` is the `now`
field of a `Clock` object, and only `delay` advances it.

What composes across files:

- A URL with a trailing slash is priced by the credit check, which reads
  segments 3 and 4 (`GithubLoader.CreditsRepoOfCanonical`).
- The commit listing refuses the same URL, because its last segment is
  empty (`Github.TrailingSlashRejected`).
- So `createProject` creates and indexes such a project and then fails while
  pulling commits. Because the charge comes last, the user is not charged
  (`ProjectRouter.CreateProject`: an error leaves the users unchanged).
- `createProject` passes the GitHub token to the credit check
  (`project.ts:32`) and to indexing (`project.ts:49`), but calls
  `pullCommits(project.id)` without it (`project.ts:50`). The commit listing
  (`github.ts:45-47`) and the diff requests (`github.ts:178`) then go out
  unauthenticated. For a private repository, the listing fails after the
  files are indexed: the project and its membership stay, and the user is
  not charged (`ProjectRouter.CreateProject`, the `pulled.Err?` case).

## Model

| member | source | states |
|---|---|---|
| Sorting.SortDesc | src/lib/github.ts:69-74 | the result is ordered newest first by the key, and is a permutation of the input of the same length |
| Sorting.SortStable | src/lib/github.ts:69-74 | the sort is stable: the elements sharing any one key appear in their input order |
| Sorting.PrefixKeepsLargest | src/lib/github.ts:69-75 | cutting a newest-first list to its first `n` entries leaves out nothing newer than any entry kept |
| Together.CountTokens | src/lib/together.ts:30-36 | the token count is never 0 |
| Together.TokensAreWords | src/lib/together.ts:30-36 | collapsing blank runs, trimming and splitting on blanks yields exactly the words of the text, or the single empty token for blank text |
| Together.CountTokensCountsWords | src/lib/together.ts:30-36 | `countTokens` is the number of words, and 1 for empty or all-blank text |
| Together.Clock.Delay | src/lib/together.ts:70-72 | `delay(ms)` advances the clock by exactly `ms` |
| Together.GroqStepKeepsBudget | src/lib/together.ts:42-55 | `limitGroqRate` keeps 1..30 calls. The token total is the call's own tokens after a reset and the old total plus them otherwise, so it stays within 30000 whenever one call asks for at most 30000. The wait is at most a minute, a reset never comes sooner than a minute after the last call, and the stamp is not before the call |
| Together.GeminiStepKeepsBudget | src/lib/together.ts:57-68 | `limitGeminiRate` keeps 1..15 calls and stamps the call time after the wait. The wait is at most a minute, and a reset comes a minute or more after the last call |
| Together.InWindow | src/lib/together.ts:87 | every timestamp kept lies within the minute before `now` and was in the list |
| Together.InWindowLater | src/lib/together.ts:87 | a later clock reading never finds more timestamps in the window |
| Together.DeepseekCall | src/lib/together.ts:85-96 | one `limitDeepseekRate()` call entered at `now`: the clock never goes back, and the timestamps kept are those of the last minute followed by `now`, the time the call was entered |
| Together.DeepseekKeepsQuota | src/lib/together.ts:85-96 | the limiter waits only when 15 calls remain in the window, and then waits at most a minute. The timestamps stay ascending and in the past, and after recording the pre-wait `now` no more than 15 recorded timestamps lie in the minute before the clock. This bounds the records, not the requests sent (see Findings) |
| Together.LimiterCall | src/lib/together.ts:85-96 | one call entered `gap` ms after the previous one returned: the request leaves when the call returns, never before the call was entered; as written, the timestamps and clock are those of `DeepseekCall` |
| Together.LimiterRun | src/lib/together.ts:85-96 | a run of calls sends one request per call and never moves the clock back |
| Together.Recent | src/lib/together.ts:82 | the requests counted in the minute up to `t` were sent, at or before `t` and less than 60000 ms before it |
| Together.InWindowTwice | src/lib/together.ts:87 | filtering the timestamps to the minute before one time and then to the minute before a later one is filtering once to the later minute |
| Together.BurstWithRoom | src/lib/together.ts:85-96 | calls made at one instant while the window has room neither wait nor move the clock, and each is recorded and sent at that instant |
| Together.AsWrittenExceedsQuota | src/lib/together.ts:82-96 | as written, 15 calls at 0, one at 1, 14 more and one last call send 16 requests within the minute up to 60001, so the 15-per-minute quota is broken |
| Together.CorrectedStep | src/lib/together.ts:85-96 | recording the time the call returns keeps the kept timestamps in step with the requests sent and keeps every minute within 15 requests |
| Together.CorrectedKeepsQuota | src/lib/together.ts:82-96 | recording the time the call returns, no minute ever holds more than 15 requests, whatever the gaps between calls |
| Together.CommitReplyText | src/lib/together.ts:107-140 | a non-OK status, an exception, or missing or blank content each map to their fixed warning; otherwise the result is the trimmed content; it is never empty |
| Together.CommitSummaryText | src/lib/together.ts:98-141 | an empty or all-blank diff yields "No changes to summarize." whatever the provider would answer; every other diff yields the reply's text; never empty |
| Together.Attempts | src/lib/together.ts:154-192 | the attempt loop ends within `MAX_ATTEMPTS` = 2 attempts |
| Together.AttemptsMeaning | src/lib/together.ts:154-192 | a further attempt follows only a retriable failure (`ECONNABORTED` or status >= 500). The loop ends on the first answer that carries content, returning it, or gives up on a non-retriable failure or on the last attempt |
| Together.GenerateEmbedding | src/lib/together.ts:198-206 | the vector of a successful call, and the empty vector when the call fails |
| Together.PromptSeesOnlyPrefix | src/lib/together.ts:145-146 | only the first 10000 characters of a file reach the prompt, so files that agree on them share one prompt and one cache entry |
| Together.ProviderState.constructor | src/lib/together.ts:38-40 | the counters, the cache and the timestamp list as the module loads them: zero and empty |
| Together.ProviderState.LimitGroqRate | src/lib/together.ts:42-55 | the Groq counters become the limiter step of the old counters, and the clock advances by that step's wait; the other limiters and the cache are untouched; the limiter invariants are kept |
| Together.ProviderState.LimitGeminiRate | src/lib/together.ts:57-68 | the Gemini counters become the limiter step of the old counters, and the clock advances by the wait; nothing else changes; the invariants are kept |
| Together.ProviderState.LimitDeepseekRate | src/lib/together.ts:85-96 | the timestamps become the old ones within the minute plus the pre-wait `now`; the clock advances by the wait; the quota invariant is kept |
| Together.ProviderState.AiSummariseCommit | src/lib/together.ts:98-141 | the result is the commit-summary text of the diff and reply. A blank diff touches neither the limiter nor the clock; any other diff makes one `DeepseekCall`, which sets both the timestamps and the clock |
| Together.ProviderState.AttemptAnswer | src/lib/together.ts:154-192 | the loop returns the content the attempt outcome names, or nothing when it gives up; the clock advances 2000 ms per retry |
| Together.ProviderState.SummariseUncached | src/lib/together.ts:151-192 | for a prompt missing from the cache, the Groq limiter runs once with the prompt's token count. A summary is stored trimmed under its prompt and returned; giving up returns "⚠️ Error summarizing source code." and leaves the cache alone |
| Together.ProviderState.CacheSummary | src/lib/together.ts:176-178 | the trimmed answer is returned and stored under its prompt; nothing else changes |
| Together.ProviderState.SummariseCode | src/lib/together.ts:144-195 | a prompt already cached is answered from the cache before any rate limiting, with no other change. Any other prompt is limited, attempted and cached as above, and the result is never an exception |
| Store.StoredHashes | src/lib/github.ts:217-218 | exactly the hashes of the commit rows stored for the project |
| Github.OwnerAndRepo | src/lib/github.ts:42-43 | owner and repository are non-empty, and any failure is "Invalid GitHub URL" |
| Github.OwnerAndRepoOfCanonical | src/lib/github.ts:42-43 | `https://github.com/<owner>/<repo>` yields exactly that owner and repository |
| Github.TrailingSlashRejected | src/lib/github.ts:42-43 | a URL ending in "/" is rejected with "Invalid GitHub URL" |
| Github.SelectRecent | src/lib/github.ts:69-75 | the selection is ordered newest first, has `min(10, n)` entries, and is drawn from the listed commits |
| Github.SelectRecentKeepsNewest | src/lib/github.ts:69-75 | no listed commit left out is newer than any commit kept |
| Github.ToCommitInfo | src/lib/github.ts:76-82 | the record carries the commit's hash, and a null git author leaves its name and date empty |
| Github.GetCommitHashes | src/lib/github.ts:38-83 | a bad URL or a failing listing propagates its error, and two or more commits one of which has a null git author make the comparator throw (`github.ts:72`). Otherwise entry `i` is the `i`-th selected commit mapped to the response record, with `min(10, n)` entries |
| Github.FilterUnprocessed | src/lib/github.ts:213-220 | no kept commit has a stored hash, and the result is never longer than the input |
| Github.FilterUnprocessedExact | src/lib/github.ts:219 | a commit is kept exactly when it is listed and its hash is not stored |
| Github.FilterUnprocessedConcat | src/lib/github.ts:219 | the filter keeps the listing order: it distributes over concatenation |
| Github.FilterUnprocessedNoneStored | src/lib/github.ts:219 | a listing with no stored hash passes unchanged |
| Github.FilterUnprocessedIdempotent | src/lib/github.ts:219 | filtering twice is filtering once |
| Github.FilterUnprocessedAllStored | src/lib/github.ts:213-220 | once every listed hash is stored, nothing is left |
| Github.DiffApiUrlOfCanonical | src/lib/github.ts:167-170 | for `https://github.com/<path>`, the diff URL is `https://api.github.com/repos/<path less one trailing slash>/commits/<hash>` |
| Github.CommitSummary | src/lib/github.ts:158-199 | the text a commit's summary resolves to is never empty |
| Github.SummariseCommit | src/lib/github.ts:158-199 | it never throws. A URL without "github.com/" yields the fallback for the missing repository path, and a failing diff request the fallback carrying its error, with the limiter, the clock and the provider state unchanged. Otherwise the result is the commit-summary text of the diff and reply, and a non-blank diff makes one `DeepseekCall` that sets the timestamps and the clock; the Groq and Gemini counters and the cache never change |
| Github.PullWindow | src/lib/github.ts:98-102 | the DeepSeek timestamps and clock after summarising the pending commits in order, one limiter call per commit whose diff reaches the provider; the clock never goes back |
| Github.ProjectGithubUrl | src/lib/github.ts:201-210 | the stored URL exactly when the project exists with a non-empty URL; otherwise "Project does not have a GitHub URL" |
| Github.SettledSummaries | src/lib/github.ts:107-113 | one summary per commit at the same index: a fulfilled outcome's value, or "⚠️ Could not summarise commit <hash>" for a rejected one |
| Github.CommitSummaries | src/lib/github.ts:98-102 | one settled outcome per pending commit, every one fulfilled |
| Github.BulkRecords | src/lib/github.ts:116-129 | one record per commit, in order, carrying the project, that commit's metadata and its summary |
| Github.PulledRecords | src/lib/github.ts:86-130 | a missing URL, a bad URL or a failing listing is the error thrown; otherwise one record per pending commit |
| Github.PulledRecordsAreNew | src/lib/github.ts:86-130 | at most 10 records are appended, each for the project and with a hash not stored before |
| Github.PullTwiceAddsNothing | src/lib/github.ts:86-130 | pulling again with the same hosting answers appends nothing |
| Github.PullCommits | src/lib/github.ts:86-130 | the commit table gains exactly the described records, or nothing when a step before the summaries throws; the DeepSeek timestamps and clock become `PullWindow` of the pending commits, and are untouched when a step before the summaries throws; no other table, counter or cache changes |
| Github.StorePending | src/lib/github.ts:98-129 | the commit table gains one record per pending commit carrying its settled summary; the DeepSeek timestamps and clock become `PullWindow` of the pending commits; nothing else changes |
| Github.SummarisePending | src/lib/github.ts:98-102 | the commits are summarised in listing order, one call each; the outcomes are the settled summaries and the DeepSeek timestamps and clock become `PullWindow` of the commits |
| GithubLoader.NonDirCount | src/lib/github-loader.ts:41-44 | the non-directory entries among the first `n` are at most `n` |
| GithubLoader.DirIndices | src/lib/github-loader.ts:41-44 | every collected position is a directory entry of the listing |
| GithubLoader.Count | src/lib/github-loader.ts:16-59 | a successful count is at least the accumulator |
| GithubLoader.SumDirs | src/lib/github-loader.ts:46-53 | the total of the subdirectory counts is never negative |
| GithubLoader.SumDirsErrPersists | src/lib/github-loader.ts:46-53 | once one subdirectory count fails, the whole count fails with that error |
| GithubLoader.GetFileCount | src/lib/github-loader.ts:16-59 | a file adds one; a listing adds its non-directory entries plus the count of each subdirectory started at 0; any other object adds nothing; an endpoint error propagates |
| GithubLoader.ScanListing | src/lib/github-loader.ts:38-44 | the loop counts the non-directory entries and collects the directories in order |
| GithubLoader.CountDirectories | src/lib/github-loader.ts:46-53 | the subdirectory counts, each started at 0, are added up, and the first failure ends the count |
| GithubLoader.CountIsAllFiles | src/lib/github-loader.ts:16-59 | for a repository answered in full, the count is the accumulator plus the number of files reachable from the root |
| GithubLoader.CountIncludesIgnoredFiles | src/lib/github-loader.ts:79-84 | the count applies no ignore list: it is the files the loader keeps plus the lockfiles the loader skips |
| GithubLoader.CreditsRepo | src/lib/github-loader.ts:63-65 | owner and repository, when found, are non-empty |
| GithubLoader.CreditsRepoOfCanonical | src/lib/github-loader.ts:63-65 | the usual repository URL is read correctly, with or without a trailing slash, although the commit listing refuses the trailing slash |
| GithubLoader.CreditsNeeded | src/lib/github-loader.ts:61-68 | a successful price is never negative |
| GithubLoader.CheckCredits | src/lib/github-loader.ts:61-68 | 0 without counting when owner or repository is missing; otherwise the count from the root |
| GithubLoader.RetriedMeaning | src/lib/github-loader.ts:93-110 | at most `retries + 1` calls are made; the first success is returned; otherwise every call failed and the last error is rethrown |
| GithubLoader.RetryWithDelay | src/lib/github-loader.ts:93-110 | the loop returns the retried outcome, and every failed call, the last included, is followed by a 1500 ms pause |
| GithubLoader.FileNameOf | src/lib/github-loader.ts:118 | the file name is `metadata.source` when non-empty, and `#<index>` otherwise |
| GithubLoader.EscapeChar | src/lib/github-loader.ts:128 | a character is written as itself exactly when it is not a control character, a quote or a backslash; otherwise its escape starts with a backslash and has two characters or more; no escape holds a control character |
| GithubLoader.Escape | src/lib/github-loader.ts:128 | the escaped text holds no control character, and a text with nothing to escape is written unchanged |
| GithubLoader.EmbedDoc | src/lib/github-loader.ts:117-134 | a document yields an item exactly when both retried calls succeed, carrying their results, its file name and its JSON-encoded text |
| GithubLoader.KeepPresent | src/lib/github-loader.ts:137 | dropping the nulls never lengthens the list |
| GithubLoader.KeepPresentExact | src/lib/github-loader.ts:137 | a value is kept exactly when it was present |
| GithubLoader.GenerateEmbeddings | src/lib/github-loader.ts:112-138 | there are never more items than documents |
| GithubLoader.GenerateEmbeddingsItems | src/lib/github-loader.ts:112-138 | every item comes from a document whose calls succeeded, and a document whose calls finally fail yields none |
| GithubLoader.GenerateEmbeddingsKeepsAll | src/lib/github-loader.ts:112-138 | when every first call succeeds, item `i` belongs to document `i` and none is dropped |
| GithubLoader.SavedRows | src/lib/github-loader.ts:154-184 | saving the first `n` items leaves at most `n` rows |
| GithubLoader.ItemRows | src/lib/github-loader.ts:162-175 | a failed create leaves no row; otherwise one row with the given id, for the project |
| GithubLoader.SavedRowsFresh | src/lib/github-loader.ts:154-184 | the saved rows belong to the project and carry fresh ids counting up in saving order |
| GithubLoader.SavedRowsCount | src/lib/github-loader.ts:154-184 | one row per item whose create succeeded |
| GithubLoader.SavedRowsIsolated | src/lib/github-loader.ts:156-181 | a failure costs only its own item. Every item whose create succeeded has its row with its file, summary and source, and its vector unless the update failed |
| GithubLoader.SetVector | src/lib/github-loader.ts:171-175 | the update keeps every row in place: the row with the id gets the vector and keeps its other fields, every other row is unchanged |
| GithubLoader.SaveItem | src/lib/github-loader.ts:157-181 | one item's create and then its vector update, keyed by the created id, with either failure caught; only the embedding table and the id counter change |
| GithubLoader.SaveItems | src/lib/github-loader.ts:154-184 | the embedding table gains exactly the saved rows of every item, in order |
| GithubLoader.IndexGithubRepo | src/lib/github-loader.ts:140-187 | a failing loader is the only error, and it writes nothing. Otherwise the embedding table gains exactly the saved rows of the generated items, and the database invariant is kept |
| ProjectRouter.Decremented | src/server/api/routers/project.ts:51-60 | `decrement` keeps a null balance null and otherwise lowers it by exactly `n` |
| ProjectRouter.CreateProject | src/server/api/routers/project.ts:10-62 | an unknown user, a failing count or a price above the balance (null counting as 0) is rejected with the database, the limiters and the clock unchanged. Past the gate the project and its creator's membership are recorded and stay whatever happens next; the embedding table gains the indexed rows; the commits are pulled only after a successful load; the DeepSeek timestamps and clock become `PipelineWindow`; the balance drops by exactly the price only on success, never below zero |
| ProjectRouter.BuildProject | src/server/api/routers/project.ts:38-60 | for a price the balance covers: the project and membership are written first and stay, then the pipeline runs, and the user is charged only when it succeeded |
| ProjectRouter.Register | src/server/api/routers/project.ts:38-48 | the project is stored under a fresh id with the creator's membership, and nothing else changes |
| ProjectRouter.Charge | src/server/api/routers/project.ts:51-60 | the user's balance drops by the price and nothing else changes |
| ProjectRouter.PipelineWindow | src/server/api/routers/project.ts:49-50 | the DeepSeek timestamps and clock once indexing and pulling ran: unchanged when the loader or the listing fails, and the clock never goes back |
| ProjectRouter.IndexAndPull | src/server/api/routers/project.ts:49-50 | indexing then pulling leaves users, projects and memberships alone. The embedding table gains the indexed rows; a failing loader is the error returned and pulls nothing; otherwise the commits gain the pulled records or the pull's error is returned; the DeepSeek timestamps and clock become `PipelineWindow` |
| ProjectRouter.VisibleProjects | src/server/api/routers/project.ts:63-74 | only existing projects that are not archived are listed |
| ProjectRouter.ArchiveHidesProject | src/server/api/routers/project.ts:122-131 | archiving hides exactly the archived project from every member |
| ProjectRouter.CreatedProjectIsVisible | src/server/api/routers/project.ts:38-48 | a project just created is listed for its creator |
| ProjectRouter.ArchiveProject | src/server/api/routers/project.ts:122-131 | it stamps `deletedAt` and returns the updated project, so the project is hidden from every user; an unknown project fails with "Record to update not found." and no change |
| ProjectRouter.DeleteLeavesNoTrace | src/server/api/routers/project.ts:137-152 | the four child tables keep exactly the rows of other projects |
| ProjectRouter.DeleteProject | src/server/api/routers/project.ts:132-160 | the child rows of the project are removed, then the project, with `{ success: true }`. An unknown project fails at the last step with "Record to delete does not exist.", after the child rows are gone |
| ProjectRouter.GetQuestions | src/server/api/routers/project.ts:106-120 | the questions come newest first and are exactly the project's questions, each as often as stored |
| ProjectRouter.GetQuestionsExact | src/server/api/routers/project.ts:106-120 | every question of the project appears with its stored multiplicity, and no question of another project appears |
| ProjectRouter.SaveAnswer | src/server/api/routers/project.ts:85-104 | one question row is appended, stamped with the time, and it is listed among the project's questions; nothing else changes |
| ProjectRouter.ProjectRowsExact | src/server/api/routers/project.ts:75-84 | the commit listing is exactly the project's stored commits, and the team listing exactly its memberships |
| ProjectRouter.CreatorIsTeamMember | src/server/api/routers/project.ts:162-171 | the creator of a project is among its team members |
| ProjectRouter.CheckCreditsProcedure | src/server/api/routers/project.ts:182-193 | the procedure returns the price and the user's balance, with 0 for a missing user or a null balance; a failing count is the error |

## Left out

- Concurrency:
  - The `p-limit` caps are not modelled.
  - `Promise.all` and `Promise.allSettled` are run in listing order, one call after the other.
  - The concurrent recursion of `getFileCount` is sequential; when several subdirectories fail, the first in listing order supplies the error.
  - The read-modify-write race on the limiter globals is not modelled.
- Time: `Date.now()` and `setTimeout` are a `Clock` object. Dates are integers; parsing `new Date(...)` is not modelled, and neither is an unparsable date, whose comparator value is NaN.
- Hosting as inputs:
  - Octokit, axios, `fetch`, the Gemini SDK and LangChain's `GithubRepoLoader` are inputs answering for each request.
  - The GitHub token is not a parameter: whether a request carries it only changes the answer the input gives for that request.
- Database failures: Prisma is the `Database` class, and most of its writes cannot fail here.
  - `commit.createMany`, `project.create` with its nested membership, `user.update` and `question.create` always succeed in the model; a constraint violation or lost connection is not modelled.
  - Only the embedding row's create and its vector update fail (`SaveFault`), and the P2025 missing-row errors of `project.update` and `project.delete`.
  - The raw `::vector` SQL update is a row update.
- The loader's ignore list is matched by the last path segment; the loader's own matching is not part of this model.
- String positions are UTF-16 code units in the source and code points here.
- Record ids are a counter instead of cuid strings.
- `GithubLoader.GenerateEmbeddings`: the summarise and embed calls of each document are inputs. So the provider state the real `summariseCode` changes (cache, Groq counters) is not threaded through indexing. `limitGeminiRate` is modelled on its own; no code in these files calls it.
- The `null` path of `generateEmbeddings` is modelled. In the source it is reached only when reading `doc.metadata.source` throws, because neither `summariseCode` nor `generateEmbedding` throws.
- `summariseCode`'s final "⚠️ Failed after retries." (`together.ts:194`) cannot be reached: the loop always returns on its last attempt, so the model has no path to it.
- `Github.CommitSummary`: its own contract only says the text is never empty. The case analysis (missing repository path, failing diff request, then the provider's text) is stated by `Github.SummariseCommit`, whose result it is.
- Ties in `getQuestions` keep the stored order here; the database leaves their order unspecified.
- `getCommits`' fire-and-forget `pullCommits` (`project.ts:78`) is not modelled: only the listing it returns is.
- `getMyCredits` is a plain lookup of the balance and is not modelled.
- The `include: { user: true }` joins of `getQuestions` and `getTeamMembers` are not modelled, and `saveAnswer`'s `filesReferences` is not stored.
- The prompt texts sent to DeepSeek and Groq, apart from the `summariseCode` prompt that keys the cache, are not modelled, nor is console logging.
- `Together.ProviderState.SummariseCode`: the reply of each attempt is an input, with no tie to the prompt text that was sent.

## Findings

| source | as written | input that shows it | evidently intended | confidence | as-written member | corrected member |
|---|---|---|---|---|---|---|
| src/lib/together.ts:85-96 | `limitDeepseekRate` records `now`, read before its wait, so after a wait the record is earlier than the request it lets through | 15 calls at 0; one at 1, which waits until 60000 but is recorded at 1; 14 calls at 60000, which see only that record in the window; one more, which waits 1 ms: 16 requests leave within the minute up to 60001 | at most 15 requests per minute (`together.ts:82`), by recording the time the wait ends | not executed | Together.AsWrittenExceedsQuota | Together.CorrectedKeepsQuota |

The commit pipeline (`Together.ProviderState.LimitDeepseekRate`,
`Github.SummariseCommit`, `Github.PullCommits`) keeps the limiter as
written, so that its state contracts say what the code does.
`Together.LimiterCall` models both limiters over the times at which the
requests leave. With `corrected` set it records the time the wait ends,
and `Together.CorrectedKeepsQuota` proves that this keeps every minute
within 15 requests.
