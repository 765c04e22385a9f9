# Octo Speech: a verified model

A Dafny 4.11 model of the parts of Octo Speech whose behaviour depends on time, interleaving or
text, with proofs of what they guarantee. `dafny verify dfyconfig.toml` checks everything.

| file | what it models |
|---|---|
| `AppRegistry.dfy` | the `app_registry` table, its two unique keys and the statements that change it |
| `AuthProtocol.dfy`, `AuthStaleness.dfy` | `Authenticate` and the registry writers as a step system: any number of processes, each with its own cache, over one registry; every step may come between any two others |
| `AppStore.dfy` | `AppStore` as a class, used by one caller at a time |
| `LogQueue.dfy`, `Logger.dfy` | the ASR log channel with its producers, worker and cancellation as a step system; the `Logger` class whose loops are runs of it |
| `LimiterSpec.dfy`, `LoginRateLimiter.dfy` | the sliding-window login limiter on values; the class with its slices over shared backing arrays |
| `Text.dfy`, `Transcript.dfy`, `Whitespace.dfy` | the context join, append sessions with truncated contexts, trailing-whitespace restoration, the result `Transcribe` chooses |
| `ModelFallback.dfy` | the two model-fallback loops, their deadlines and their common specification |
| `LocalConfig.dfy` | partial-update settings over server defaults, and the handlers in front of them |
| `PromptTemplate.dfy` | placeholder substitution in the system prompt |
| `LogRetention.dfy` | day buckets of the log directory and the hourly cleaner |

Conventions. Times are integers (nanoseconds where a constant matters) on one clock. Text is a
sequence of Unicode code points. A keyed API secret is represented by its 64-digit hash, and equal
hashes mean equal secrets. Whether a database statement fails is a parameter of the method that
runs it, and a statement that fails has changed nothing; in the step system of `AuthProtocol`,
where a commit need not be followed by an invalidation, that assumption is not needed. Key equality
in the tables is exact, although the schema's collation ignores case. `RowsAffected` counts matched
or changed rows according to `countsMatched`, and the results hold for both.

## The main results

- **Authentication cache.** In every interleaving, an answer given from a cache at time t was the
  registry's answer at some instant in (t - ttl - L, t], where L is the longest time between a read
  and its fill (`BoundedStaleness`). Hence a change is seen by everyone ttl + L after its commit
  (`SettledChange`), a disabled or deleted app gets no configuration row from a request authenticated
  later than that (`RevocationTakesEffect`, `OldKeyStopsWorking`, `StrayRows`), and no smaller bound holds, even within the process that
  cleared its cache (`BoundIsTight`). Whatever the other processes do, a process cannot be told from a
  direct lookup as long as none of its own reads straddles a change of the key it reads and it hits no
  key that has changed since it last filled or cleared it (`OrderlyRunIsTransparent`). Creating apps
  breaks neither condition, so it needs no invalidation in any interleaving (`CreationIsNeverSeenLate`).
  A single caller is always in that position (`AppStore.Authenticate`).
- **ASR log.** When the worker has exited, everything accepted before the cancel has been written
  once and in order, and what is left in the channel came from calls in flight at the cancel
  (`CloseGuarantee`). The drain ends whatever the producers do (`DrainTerminates`). That every accepted
  entry is written is false (`LateEntryIsLost`): a `Close` is sure to write everything exactly when no
  call is between its check and its send as it begins (`LosslessClose`). Otherwise the most it can lose
  is the smaller of the number of those calls and the capacity, and some run loses that many (`WorstLoss`).
- **Login limiter.** With captured times at most s behind, at most maxAttempts admissions fall in any
  (a, a + window - s] (`WindowBound`), and one more fits into a window one unit longer
  (`SkewBoundIsTight`). With times in order it is the textbook rule over the unpruned log, and the
  cleaner is invisible (`LimiterIsTheRule`, `CleanupIsInvisible`).
- **Transcripts.** The join is a monoid, so grouping never matters (`GroupingIsIrrelevant`), and it commutes with tail
  truncation, so a whole dictation session ends as the untruncated transcript does
  (`SessionAgreesWithTranscript`). Words come out one space apart and East Asian text without any
  (`WordsComeBack`, `EastAsianIsConcatenated`). Edits replace the buffer, save for its trailing run
  (`EditReplacesTheBuffer`). Restoring whitespace conserves every visible character, and is
  idempotent exactly when the model did not echo the context in front of a trailing run with a line
  break in it (`RestoreIdempotence`): there the run is repeated.
- **Fallback, settings, prompts, retention.** Both fallback loops meet one specification that has one
  solution (`CorrectIsUnique`), which is given for every input from the models' own times and outcomes
  (`FirstDecisionStands`, `TotalCutsOff`, `NothingIsLeft`); a query returns the last value written to each field
  (`QueryIsLastWrite`); filtering and ordering the placeholders never matters (`ReplacePresent`,
  `OrderIsIrrelevant`). With the cleaner and the log writer interleaved in any way, an entry lives between
  (N - 1) days and N days plus an hour (`KeptLongEnough`, `AgeIsBounded`).

A reset replies with what the next query says for every caller that has an app id, which the
middleware sees to (`ResetReplyIsNextQuery`).

One place where the code does less than its error suggests: an update of the status or key of an
existing app is reported as "app not found" exactly when nothing changes and the driver counts changed
rows, its default (`AppStore.UpdateStatus`, `AppStore.UpdateAPIKey`).

## Model

| member | source | states |
|---|---|---|
| `AppRegistry.Lookup` | internal/store/app.go:62-75 | the row found is a row with that key, and none is found only if no row has it |
| `AppRegistry.LookupIs` | internal/migration/migrations/001_app_registry.sql:2-13 | with unique keys the key of a row finds that row and no other |
| `AppRegistry.OthersAreKept` | internal/store/app.go:90-213 | a statement leaves every other app's row and what its key finds as they were |
| `AppRegistry.WrittenRow` | internal/store/app.go:90-213 | a new app is enabled, a status leaves the key, a key leaves the status, a deletion leaves no row |
| `AppRegistry.KeyIsFreed` | internal/store/app.go:167-213 | the key of a deleted app, or the one an app had before, finds nothing |
| `AppRegistry.DuplicateIs` | internal/migration/migrations/001_app_registry.sql:11-12 | exactly what the two unique keys refuse |
| `AuthProtocol.CommitKeepsInv` | internal/store/app.go:151-213 | a commit never makes a cached entry, a fetched row or a past answer older than the bound allows |
| `AuthProtocol.StoreKeepsInv` | internal/store/app.go:77-85 | a fill, also a late one that overwrites a newer entry, leaves every entry backed by a row read at most L before it |
| `AuthProtocol.HitKeepsInv` | internal/store/app.go:55-60 | an entry served before its expiry was true less than ttl + L ago |
| `AuthProtocol.StepKeepsInv` | internal/store/app.go:51-88 | every step of every call and writer keeps all cached entries, pending calls and answers within the bound |
| `AuthProtocol.RunKeepsInv` | internal/store/app.go:51-96 | the same over whole runs |
| `AuthStaleness.BoundedStaleness` | internal/store/app.go:51-88 | every answer of every run was the registry's own at some instant within ttl + L (cache), within L (database), or at that moment (no such key) |
| `AuthStaleness.SettledChange` | internal/store/app.go:151-213 | a committed change of what a key means, not undone, is every process's answer from ttl + L after the commit |
| `AuthStaleness.InactiveAppIsOut` | internal/api/middleware.go:34-62 | an app disabled or deleted for good is admitted by no answer given ttl + L after the commit, and no row is written for it on the strength of one |
| `AuthStaleness.StrayRows` | internal/store/app.go:183-213 | rows that name a deleted app were put after its deletion, by requests authenticated before the deletion had settled |
| `AuthStaleness.RevocationTakesEffect` | internal/store/app.go:151-213 | once a status 0 or a deletion is committed and nobody enables or creates the app again, no process admits it from ttl + L after the commit, in any interleaving |
| `AuthStaleness.OldKeyStopsWorking` | internal/store/app.go:167-181 | once a new key is committed and nobody is given the old one, every process answers "no such key" to the old one from ttl + L after the commit |
| `AuthStaleness.DeleteIsDeletedAt` | internal/store/app.go:183-213 | a committed deletion takes the row and the configuration rows of its app and no others |
| `AuthStaleness.PutLasts` | internal/store/local_config.go:29-64 | a row put by an admitted request stays until its app is deleted |
| `AuthStaleness.BoundIsTight` | internal/store/app.go:51-88 | for every ttl and L there is a run that serves the old status ttl + L - 1 after the commit although the process cleared its cache at the commit |
| `AuthStaleness.CacheIsBounded` | internal/store/app.go:77-85 | over every run no cache holds more than maxSize entries (one, if maxSize is not positive) |
| `AuthStaleness.OrderlyRunIsTransparent` | internal/store/app.go:51-96 | for every process, whatever the others do: if no change of a key falls between its read and its fill, and it hits no key that changed since it filled or cleared it, each of its answers is exactly the registry's current one |
| `AuthStaleness.CreationIsNeverSeenLate` | internal/store/app.go:90-96 | in every interleaving of any number of processes, if apps are only created, every answer is current without any invalidation, because misses are never cached |
| `AppStore.AppStore.constructor` | internal/store/app.go:42-49 | the store starts empty, with ttl in seconds and room for 10000 entries |
| `AppStore.AppStore.Authenticate` | internal/store/app.go:51-88 | for one caller at a time the result is that of a direct lookup, through expiry and eviction, and the cache after it is spelt out |
| `AppStore.AppStore.Fill` | internal/store/app.go:77-85 | evicts at most one entry when full and none otherwise, stores the new one, keeps the size bound |
| `AppStore.AppStore.EvictOldest` | internal/store/app.go:215-229 | in any map order removes one entry that expires first, so a live one only if all are live |
| `AppStore.AppStore.InvalidateCache` | internal/store/app.go:145-149 | empties the cache |
| `AppStore.AppStore.Create` | internal/store/app.go:90-96 | succeeds exactly for an unused id and key; the key then finds an enabled app, other apps are untouched, and the cache needs no clearing |
| `AppStore.AppStore.UpdateRow` | internal/store/app.go:151-181 | the common course of the two updates: error, nothing affected, or changed and cache cleared |
| `AppStore.AppStore.UpdateStatus` | internal/store/app.go:151-165 | new status, same key, other apps untouched, empty cache; "not found" exactly for an unknown app, or a status already right where changed rows are counted; no error touches the cache |
| `AppStore.AppStore.UpdateAPIKey` | internal/store/app.go:167-181 | the new key finds the app with its status as it was and the old key nothing, other apps untouched; a database error exactly for a key of another app; "not found" exactly for an unknown app, or its own key again where changed rows are counted |
| `AppStore.AppStore.Delete` | internal/store/app.go:183-213 | the app and its rows in three tables are gone and its key finds nothing, other apps untouched; or nothing at all has changed |
| `LogQueue.StepKeepsInv` | internal/asrlog/logger.go:98-143 | every step keeps: accepted = written + being written + buffered, in order; the buffer within its capacity; one entry a call |
| `LogQueue.RunKeepsInv` | internal/asrlog/logger.go:98-143 | the same over whole runs |
| `LogQueue.NothingIsDroppedEarly` | internal/asrlog/logger.go:98-112 | until the cancel, no entry is dropped as long as no more calls were made than the channel has room for |
| `LogQueue.CloseGuarantee` | internal/asrlog/logger.go:93-143 | at the worker's exit all entries accepted before the cancel are written once, in order, stamped with the pod; the rest came from calls past the check at the cancel and is no more than those |
| `LogQueue.DrainTerminates` | internal/asrlog/logger.go:122-143 | after the cancel every run makes at most a bounded number of steps, and the worker always has one until it exits |
| `LogQueue.CloseReturns` | internal/asrlog/logger.go:93-96 | from every cancelled state the worker alone reaches its exit, with an empty channel |
| `LogQueue.LosslessClose` | internal/asrlog/logger.go:93-112 | every run of a Close writes everything accepted if and only if no call is past its check as the Close begins |
| `LogQueue.WorstLoss` | internal/asrlog/logger.go:93-143 | a Close loses at most min(capacity, calls past their check) entries in any run, and in some run exactly that many |
| `LogQueue.LateEntryIsLost` | internal/asrlog/logger.go:98-106 | a call between its check and its send when Close runs leaves its entry in the channel |
| `Logger.Logger.Enqueue` | internal/asrlog/logger.go:98-112 | appends the stamped entry unless cancelled or full, as steps of the system |
| `Logger.Logger.MainLoop` | internal/asrlog/logger.go:125-132 | after a cancel may still receive any number of entries, in order, before it drains |
| `Logger.Logger.DrainLoop` | internal/asrlog/logger.go:134-142 | writes what is buffered, in order, until the channel is empty |
| `Logger.Logger.Close` | internal/asrlog/logger.go:93-96 | undisturbed, it writes everything accepted; a second Close does nothing |
| `LimiterSpec.PrunedAgrees` | internal/admin/ratelimit.go:61-76 | pruning by calls and cleanups loses no admission later than the cuts made so far |
| `LimiterSpec.WindowBound` | internal/admin/ratelimit.go:56-77 | with times at most s behind, at most maxAttempts admissions of an address fall in any (a, a + window - s] |
| `LimiterSpec.SkewBoundIsTight` | internal/admin/ratelimit.go:83-105 | for every limit, window and skew a run admits one more within one unit more |
| `LimiterSpec.VerdictIsTheRule` | internal/admin/ratelimit.go:61-76 | a call no earlier than all before it is judged as over the full log |
| `LimiterSpec.LimiterIsTheRule` | internal/admin/ratelimit.go:56-77 | with times in order it admits exactly what the unpruned rule admits |
| `LimiterSpec.CleanupIsInvisible` | internal/admin/ratelimit.go:83-105 | with times in order, cleanups anywhere change no verdict for any address |
| `LimiterSpec.NothingStaleAfterClean` | internal/admin/ratelimit.go:92-103 | after a cleanup every address left has a time that counts, and only such |
| `LoginRateLimiter.Compact` | internal/admin/ratelimit.go:62-68 | the in-place filter keeps the later times in order, reads every slot before it is overwritten, leaves the tail alone |
| `LoginRateLimiter.Append` | internal/admin/ratelimit.go:75 | extends the slice in place or in a new array, never both |
| `LoginRateLimiter.LoginRateLimiter.IsAllowed` | internal/admin/ratelimit.go:56-77 | verdict and lists as specified; each address keeps an array of its own and at most maxAttempts times |
| `LoginRateLimiter.LoginRateLimiter.Cleanup` | internal/admin/ratelimit.go:89-105 | one pass filters every list and drops the empty ones, in any map order |
| `Transcript.JoinIsAssociative` | internal/service/transcribe.go:417-433 | the join is associative on all texts |
| `Transcript.JoinUnit` | internal/service/transcribe.go:418-420 | the empty text is its unit |
| `Transcript.GroupingIsIrrelevant` | internal/service/transcribe.go:417-433 | every bracketing of the same utterances gives the same transcript |
| `Transcript.WordsComeBack` | internal/service/transcribe.go:417-433 | dictated words of ASCII letters and digits come back when the transcript is split at its spaces |
| `Transcript.EastAsianIsConcatenated` | internal/service/transcribe.go:429-431 | texts of ideographs, kana and Hangul are joined without spaces |
| `Transcript.EastAsianIsUnspaced` | internal/service/transcribe.go:429-431 | no space goes next to such a character, on either side |
| `Transcript.BreakIsUnspaced` | internal/service/transcribe.go:426-428 | nothing is put after white space, nor after any of the listed marks |
| `Transcript.TruncationCommutes` | internal/config/config.go:432-438 | cutting the context to its last m code points does not change the last m of the join |
| `Transcript.ContextIsKept` | internal/service/transcribe.go:133-143 | an append result starts with the context and equals it exactly when there was no speech |
| `Transcript.SentinelIsNoSpeech` | internal/service/prompt.go:1241-1247 | a text is no speech exactly when it is empty or has the sentinel anywhere in it: trimming never hides or makes one |
| `Transcript.SessionAgreesWithTranscript` | internal/api/transcribe.go:112 | a session of any length, its context truncated every time, ends in the same m code points as the full transcript of what was spoken |
| `Transcript.ShortSessionsAreWhole` | internal/service/transcribe.go:133-143 | while no context outgrows m the session is the full transcript |
| `Whitespace.RestoreConservesInk` | internal/service/transcribe.go:449-463 | no visible character is lost, added or moved |
| `Whitespace.RestoreKeepsTheRun` | internal/service/transcribe.go:449-463 | the result starts with the whole context or ends with its trailing run |
| `Whitespace.RestoreSwapsTheRun` | internal/service/transcribe.go:462 | an edited text keeps its body and gets the context's trailing run for its own |
| `Whitespace.RestoreSkipsBlanks` | internal/service/transcribe.go:457-460 | a text that runs on from the context comes out as the whole context and what it went on with, past tabs and spaces |
| `Whitespace.RestoreIdempotence` | internal/service/transcribe.go:457-462 | twice is once, exactly unless the context was echoed in front and its run holds a line break |
| `Whitespace.EchoRestoresTheBuffer` | internal/service/transcribe.go:352-353 | echoing the trimmed buffer restores it exactly when only its trailing run was trimmed |
| `Whitespace.GptOnlyAppends` | internal/service/transcribe.go:59-70 | the GPT engine refuses edit_only and otherwise appends |
| `Whitespace.OptionWins` | internal/service/transcribe.go:59-62 | the mode of the request wins over the configured one |
| `Whitespace.EditReplacesTheBuffer` | internal/service/transcribe.go:144-153 | in every other mode than append the visible characters are the model's alone, an empty buffer adds nothing, and a trailing run is kept |
| `Whitespace.AppendKeepsTheBuffer` | internal/service/transcribe.go:133-143 | in append mode the buffer comes first and speech is joined to it; no speech leaves it alone |
| `Whitespace.SilenceKeepsTheBuffer` | internal/service/transcribe.go:133-154 | the sentinel leaves the buffer as it is in every mode the engine takes |
| `ModelFallback.Clock` | internal/service/transcribe.go:313-315 | a call ends within its own limit and within the total |
| `ModelFallback.CallChatCompletionWithFallback` | internal/service/transcribe.go:197-225 | tries a prefix of the models, answers with the first success, stops at a final error, gives up when all failed or time is out |
| `ModelFallback.CallGPTWithModelFallback` | internal/service/transcribe.go:227-266 | meets the same specification |
| `ModelFallback.CorrectIsUnique` | internal/service/transcribe.go:197-266 | the specification admits one outcome for every input, so the two loops agree |
| `ModelFallback.FirstSuccess` | internal/service/transcribe.go:211-213 | no model before the answering one would have succeeded |
| `ModelFallback.GivingUpTakesTime` | internal/service/transcribe.go:198-219 | the total is never exceeded; giving up early means at least total / per-model limit calls, rounded up |
| `ModelFallback.LaterModelsAreIrrelevant` | internal/service/transcribe.go:204-219 | an answer or a final error does not depend on the models after it |
| `ModelFallback.OnlyClientErrorsAreFinal` | internal/service/transcribe.go:493-500 | only a 4xx other than 429 ends the loop with an error; it gives up only over 429, other statuses and errors without one |
| `ModelFallback.FirstDecisionStands` | internal/service/transcribe.go:197-266 | the first model whose text or final error arrives within both limits decides, after the sum of the times before it |
| `ModelFallback.TotalCutsOff` | internal/service/transcribe.go:204-207 | when the total runs out during a call, that call fails and nothing more is tried |
| `ModelFallback.NothingIsLeft` | internal/service/transcribe.go:221-224 | when models or time are used up by failures the last of them is reported |
| `LocalConfig.LocalConfigStore.Upsert` | internal/store/local_config.go:29-64 | the collected columns patch the row and leave the others NULL or as they were |
| `LocalConfig.LocalConfigStore.ResetToDefault` | internal/store/local_config.go:66-79 | keeps only enabled |
| `LocalConfig.LocalConfigStore.Delete` | internal/store/local_config.go:93-103 | removes the row and counts it |
| `LocalConfig.LocalConfigStore.Query` | internal/store/local_config.go:105-150 | stored fields over defaults; the defaults alone for an incomplete key |
| `LocalConfig.RowIsLastWord` | internal/store/local_config.go:29-103 | every column of every key holds the last value its history left in it |
| `LocalConfig.QueryIsLastWrite` | internal/store/local_config.go:105-150 | for every history a query gives, per field, the last value since the last reset or delete, else the default |
| `LocalConfig.PatchesCompose` | internal/store/local_config.go:34-48 | two patches in a row are the patch that prefers the second |
| `LocalConfig.Put` | internal/api/local_config.go:40-81 | 400 for exactly the listed faults, a refused address of either kind among them; all else is stored; stored timeouts and addresses stay valid |
| `LocalConfig.ResetHandler` | internal/api/local_config.go:133-159 | resets and replies with the defaults under the given enabled |
| `LocalConfig.DeleteHandler` | internal/api/local_config.go:166-190 | deletes, or says which of the four things prevented it |
| `LocalConfig.ResetReplyIsNextQuery` | internal/api/local_config.go:148-159 | the reply is the next query for every caller with an app id (without one, exactly if the default agrees) |
| `LocalConfig.GetEnvInt` | internal/config/config.go:420-430 | a positive number from the environment is returned as it is, and nothing but that or the default |
| `LocalConfig.LoadLocalTimeout` | internal/config/config.go:263-270 | always within 1..60000: the number itself when that is, 60000 for a larger one, 10000 for none that is positive |
| `LocalConfig.TimeoutIsAlwaysUsable` | internal/api/local_config.go:55-60 | for every validated history and environment the effective timeout is within 1..60000 |
| `LocalConfig.UrlsAreAlwaysUsable` | internal/api/local_config.go:62-74 | for every validated history both effective addresses passed the validation or are the server's own |
| `PromptTemplate.ReplacePresent` | internal/service/prompt.go:1129-1146 | for every template, passing only the keys it contains gives the same text as passing all |
| `PromptTemplate.OrderIsIrrelevant` | internal/service/prompt.go:1129-1146 | with prefix-free keys the order of the pairs does not matter |
| `PromptTemplate.AllPairsPrefixFree` | internal/service/prompt.go:1059-1096 | the seven keys are prefix-free |
| `PromptTemplate.ReplaceIsFilling` | internal/service/prompt.go:1146 | brace-free literals stay, every placeholder is replaced once, values are not rescanned |
| `PromptTemplate.BuildSystemMessage` | internal/service/prompt.go:1098-1147 | the collecting loop and the single pass give the replacement of all placeholders in the chosen template |
| `PromptTemplate.SystemMessageIsFilledTemplate` | internal/service/prompt.go:1098-1147 | a template written with these placeholders comes out filled |
| `PromptTemplate.TemplateOfMode` | internal/service/prompt.go:1104-1126 | which template each mode takes, with the fall back to an overridden general one |
| `PromptTemplate.PlaceholdersMean` | internal/service/prompt.go:1059-1142 | what each of the seven placeholders comes out as under every setting |
| `PromptTemplate.LeftOutTextsDoNotMatter` | internal/service/prompt.go:1059-1142 | a text that mode, emotion or mention settings leave out has no effect, in any template |
| `PromptTemplate.FirstUtteranceIsTranscribed` | internal/service/transcribe.go:91-95 | with an empty buffer the editing modes send the general prompt, with neither the editing template nor the editing section |
| `LogRetention.DayOf` | internal/asrlog/logger.go:165-171 | the day that contains the timestamp |
| `LogRetention.LogDir.WriteEntry` | internal/asrlog/logger.go:164-178 | files the entry under its day and engine; a file in that place or a failing MkdirAll stops it, a failing write leaves only the directory; whatever fails, no entry that was there is lost |
| `LogRetention.LogDir.Clean` | internal/asrlog/cleaner.go:59-89 | removes exactly the expired day directories, whole or as far as the removal got; plain files and directories not named for a day stay; a failed listing changes nothing |
| `LogRetention.CleanRemoves` | internal/asrlog/cleaner.go:68-78 | exactly which entries one pass removes |
| `LogRetention.NotTooEarly` | internal/asrlog/cleaner.go:68-77 | none of age (N - 1) * 24h or less |
| `LogRetention.NotTooLate` | internal/asrlog/cleaner.go:68-77 | none older than N * 24h stays if removal succeeds |
| `LogRetention.AgeIsBounded` | internal/asrlog/cleaner.go:38-52 | in every interleaving with the writer: an hour after a pass began that is through and could remove, nothing written before it began is older than N * 24h + 1h |
| `LogRetention.KeptLongEnough` | internal/asrlog/cleaner.go:38-52 | in every interleaving, whatever removals fail: an entry stays until a pass, begun later or under way, counts it older than (N - 1) * 24h |
| `LogRetention.UndisturbedPass` | internal/asrlog/cleaner.go:69-88 | the turns of a pass that nothing comes between, in any order, are one Clean |
| `LogRetention.HoldsVisited` | internal/asrlog/cleaner.go:77-83 | exactly when one turn of the loop removes an entry |

## Left out

- Hashing, JWT, CSRF, key generation and `clientIP`: library calls and one-line checks; the hash enters as a value.
- MySQL itself: statements are atomic, the transaction is all or nothing, and an error reported to a writer of the class `AppStore` means nothing was stored.
- `List`, `GetByAppID`, the audit log and the vocabulary queries: fixed statements without state of their own.
- HTTP routing, request parsing and `url.Parse`: `validateLocalURL` is a parameter of `Put`.
- The model calls: an oracle with a duration and an outcome; request bodies are represented by the model they were built for.
- Model lists, engine names, MIME types and prompt wording: finite tables. The fallback loops take the list as given.
- `AuthProtocol`: one ttl for all processes, because only the speech service authenticates; several instances with different settings would take the largest.
- `LogQueue`: a channel of capacity 0 would hand entries over directly; the configuration makes the capacity positive (internal/config/config.go:291-295).
- `LogRetention.LogDir.WriteEntry`: the audio file beside the metadata is not modelled, request ids are taken to be unique, so no file is overwritten, and a MkdirAll that fails creates nothing.
- `LogRetention.LogDir.Clean`: names of days are taken to be an injective printing of the day number. In the step system each turn of the loop is one step, so a write does not fall inside a single RemoveAll.
- `PromptTemplate.SystemMessageIsFilledTemplate`: says nothing of templates with stray braces; `ReplacePresent` and `OrderIsIrrelevant` cover those too.
- Invalid UTF-8: text is code points from the start.
