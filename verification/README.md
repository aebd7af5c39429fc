# Verified model of the Vermory evaluation core

This project models the parts of the repository whose correctness depends on order, interleaving or text
surgery, and proves what they promise for every input and every run. `dafny verify dfyconfig.toml` checks it.

The model takes the form of the source. Concurrent pools are transition systems whose actions are the steps of
the goroutines; code that updates variables, fields or arrays is a method or a class proved against a
specification function; expressions are functions. What is promised is then proved about the specification.

- **Matrix pool** (`Matrix*.dfy`, `CompactModels.dfy`): the feeder, the workers, the buffered results channel,
  the one-place error channel, cancellation and the counting collector of the model-by-task evaluation.
- **Redaction and packets** (`Regex.dfy`, `Redaction*.dfy`, `Packet*.dfy`): the three rewrite rules over a small
  backtracking matcher, and the context packets built through them.
- **Model output** (`Text.dfy`, `Think*.dfy`): removal of reasoning tags from raw text, against a meaning given
  on tokens. A list of tokens *reads back* when writing it out and reading it again gives the same list: no run
  of its characters spells a tag. The *kept* tokens are those outside the reasoning spans.
- **Memory engines** (`MemoryRecords.dfy`, `Native*.dfy`, `Remote*.dfy`, `Overfetch.dfy`): the PostgreSQL index
  as a table and the mem0, MemOS and Supermemory services as lists of items that obey the requests of their
  adapters. The table is the reference that the three services are shown to refine.
- **Load run** (`Load*.dfy`, `Durations.dfy`): the second worker pool, the spread of the queries, the substring
  check that counts hits, the in-place sort and the percentiles.
- **Quality run** (`Phrases.dfy`, `Quality*.dfy`): the casebook interpreter and its counters.
- **Reality evidence** (`Reality*.dfy`): validation of an evidence case, freezing it under a lock, and
  validating it against the lock later. A case directory is a map from paths to nodes, the digest is
  collision-free, and reading back a lock that was written gives that lock.

`Common.dfy`, `Division.dfy` and `Digits.dfy` hold sorting, pool totals, division and decimal numerals.

## Where the code does less than it seems to promise

Each of these is proved, as an exact condition or with an input that shows it.

- The matrix collector does not watch the context: when the caller cancels, it can wait forever for answers that
  no worker will send. This can happen for every grid that is not empty (`MatrixLiveness.CallerCanStrand`); with
  a live caller the pool always ends (`MatrixLiveness.EndsByFactories`).
- Cutting reasoning spans out of the text is dropping them from its tokens exactly when the kept tokens read back
  (`ThinkMeaning.StripMeaning`). A span that stands inside a tag, wherever the tag is cut and whatever surrounds
  it, breaks this (`ThinkLimits.EverySpliceMatters`) and, between plain texts, changes the answer
  (`ThinkLimits.SpliceChangesAnswer`).
- A tag can reach the reader: an unclosed opening tag inside another one is removed and uncovers it, as in
  `<thi<think>nk>` (`ThinkResidue.OpenTagLeaks`). When the answer is free of tags is stated exactly, on what the
  last two passes leave of the tokens (`ThinkResidue.TagFreeExactly`).
- Cleaning twice differs from cleaning once exactly when the answer holds a tag or a carriage return before a
  newline (`ThinkLimits.SanitizeTwice`). The latter can come from a doubled carriage return
  (`ThinkLimits.DoubledReturn`) or from a span between a carriage return and a newline
  (`ThinkLimits.SpanJoinsLineEnd`).
- A source version of a million or more comes back from the remote services as its first digit
  (`MemoryRecords.NumberRoundTrip`).
- The three services append on put where the table overwrites (`RemoteRefinement.PutNeedsFreshID`), and report
  missing rows that the table inserts or ignores (`RemoteRefinement.MissingRowsDiffer`).
- mem0 updates and deletes only what is among the first thousand items of a scope
  (`RemoteRefinement.Mem0FindsExactly`).
- MemOS resets one page of a thousand items (`RemoteRefinement.MemosResetEmpties`) and hides history from
  searches with a text (`Overfetch.MemosTextHidesHistory`), which loses something exactly when the ranking holds
  history (`Overfetch.HistoryLossExactly`). mem0 and Supermemory answer with at most a hundred
  records (`Overfetch.HundredAtMost`).
- The digested tags of two scopes coincide exactly when the scopes are the same, or one tenant is the other, a
  zero byte and some text, and the other's continuity is that text, a zero byte and the one's continuity
  (`RemoteStore.TagsAgreeExactly`).
- The three services file listings under the continuity line of the query; the table returns the stored one. The
  agreement of listings is stated under the line that was asked for.
- A rebuild changes another scope exactly when an active record of another scope stands before the first one it
  is refused (`NativeIndex.RebuildIsIsolatedExactly`).
- Beyond ten thousand records the load run can count a miss as a hit (`LoadHits.HitsAreExactUpTo`).
- A case whose sources name the lock file itself is invalid right after it was frozen, unless the freeze left
  that file's bytes as they were (`RealityFreeze.FreezeThenValidate`).

## Model

| member | source | states |
|---|---|---|
| CompactModels.CompactModels | internal/app/probe_provider.go:130-145 | the distinct non-blank trimmed names, ordered by where each is first seen: the distinctness that the per-model map of the matrix relies on |
| MatrixSafety.SendHasRoom | internal/app/eval_matrix.go:133 | whenever a worker holds an answer the results channel has room, so a send never blocks |
| MatrixSafety.StepConserved | internal/app/eval_matrix.go:138-200 | every step of every goroutine keeps each job that was handed out in exactly one place: with a worker, in the channel, collected or given up |
| MatrixSafety.StepExplained | internal/app/eval_matrix.go:144-152 | no step lets the pool's own cancellation outrun the error that explains it |
| MatrixSafety.FirstErrorStays | internal/app/eval_matrix.go:144-149 | the one-place channel keeps the first error until the collector takes it, and that error is the one returned |
| MatrixSafety.ReachableInv | internal/app/eval_matrix.go:132-213 | conservation, true rows, explained cancellation and a sound conclusion hold after every interleaving |
| MatrixSafety.FullCollection | internal/app/eval_matrix.go:202-213 | when as many answers as jobs are collected, nothing is left in the channel, with a worker or lost, and the answers are those of the whole grid |
| MatrixReport.ReportCoversGrid | internal/app/eval_matrix.go:202-221 | in a returned report every distinct model has its section, and in it every task as often as it was asked, in id order: no cell missing, doubled or under another model, for every worker count and interleaving |
| MatrixReport.ReportIsTrue | internal/app/eval_matrix.go:166-180 | unless the caller cancelled, the rows of a returned report are exactly those the providers give |
| MatrixReport.ReportTells | internal/app/eval_matrix.go:166-180 | and what they say is how the evaluations came out: each task has one row of its own, under the provider name and model that the factory gave, "ok" with the link exactly when the evaluation succeeded, "error" with the message exactly when it failed |
| MatrixReport.ReportIsScheduleFree | internal/app/eval_matrix.go:202-221 | with distinct task ids, two runs with any worker counts and interleavings return the identical report |
| MatrixReport.CellsPermute | internal/app/eval_matrix.go:210 | which rows a model gets depends on which answers arrived, not on their order |
| MatrixReport.CellsOfGrid | internal/app/eval_matrix.go:191-199 | the feeder's two loops meet each distinct model with each task once, in task order |
| MatrixPool.JobCount | internal/app/eval_matrix.go:202 | the number of answers the collector waits for is the number of jobs the feeder's loops produce |
| MatrixAssembly.AssembleReport | internal/app/eval_matrix.go:204-221 | appending rows to per-model lists and sorting each list gives a report on what was received, whatever its order |
| MatrixAssembly.PrepareReports | internal/app/eval_matrix.go:110-122 | each requested model starts with an empty section under its own key and its resolved name |
| MatrixLiveness.StopsExactly | internal/app/eval_matrix.go:132-213 | a run can stop exactly where all is over or where the caller's cancellation stranded the collector |
| MatrixLiveness.StepDecreases | internal/app/eval_matrix.go:138-213 | every step lowers one measure, so no schedule runs forever |
| MatrixLiveness.RunsAreBounded | internal/app/eval_matrix.go:138-213 | a run takes at most four steps a job, one a worker and three more |
| MatrixLiveness.EndsByFactories | internal/app/eval_matrix.go:143-152 | with a live caller a finished run returns its report exactly when no factory call fails, and otherwise the error of a failing call: never a partial report, never a hang |
| MatrixLiveness.CancelHasError | internal/app/eval_matrix.go:146-150 | cancelled by the pool implies that the error is on its way or the collector has returned |
| MatrixLiveness.CallerCanStrand | internal/app/eval_matrix.go:204-212 | a stranded collector is reachable exactly when the grid is not empty, because the collector has no arm for the context |
| Regex.MatchMoves | internal/redaction/redaction.go:16-18 | a match stays a match in another text if its characters and its word boundaries are the same there |
| Redaction.Redact | internal/redaction/redaction.go:21-34 | the loop over the rules, counting and replacing, computes the rewriting that the rows on redacted pieces describe |
| Redaction.ContainsSensitive | internal/redaction/redaction.go:36-44 | true exactly when some rule matches somewhere |
| Redaction.MatchAfterReplace | internal/redaction/redaction.go:25-29 | a match found after a replacement was there before, and is never one of the replaced rule |
| Redaction.ReplaceCleans | internal/redaction/redaction.go:25-29 | replacing by a rule leaves no match of it and brings up none of another rule |
| Redaction.RedactedIsClean | internal/redaction/redaction.go:21-44 | for every input nothing sensitive is left; the repository states this for one input (internal/redaction/redaction_test.go, lines 18-20) |
| Redaction.RedactTwice | internal/redaction/redaction.go:21-34 | a second redaction changes nothing and counts nothing |
| Redaction.CountIsTokens | internal/redaction/redaction.go:25-33 | the count is the number of tokens put in |
| Redaction.UntouchedExactly | internal/redaction/redaction.go:21-44 | nothing sensitive, count zero and unchanged text are one and the same |
| RedactionExtent.RulesTakeLongest | internal/redaction/redaction.go:16-18 | greedy matching with backtracking takes, for each rule, the longest match from where it starts: no tail of a key, an address or a number is left behind |
| RedactionPieces.RuleFinds | internal/redaction/redaction.go:15-19 | the three patterns match exactly keys, addresses and telephone numbers that stand as words of their own, spelled out character by character, and each has its own token |
| RedactionPieces.ReplaceExactly | internal/redaction/redaction.go:25-29 | one replacement takes out exactly the secrets of its kind found from the left, each the first behind the last and as long as possible, puts the token of the kind in their place and keeps every stretch between them; the number of matches is the number of pieces |
| RedactionPieces.TextIsWoven | internal/redaction/redaction.go:27 | the stretches that are kept, with the secrets between them, are the original text |
| RedactionPieces.RedactExactly | internal/redaction/redaction.go:21-34 | redaction is exactly three such replacements, keys first and telephone numbers last, and counts their pieces |
| RedactionMask.RedactedIsMasked | internal/redaction/redaction.go:21-34 | seen from the original text: some secrets in it, apart from each other, are replaced by the tokens of their kinds, every other character stays where it was, and the count is their number |
| Packet.Build | internal/packet/builder.go:19-48 | filter, render and redact compute the specified packet |
| Packet.PacketIsClean | internal/packet/builder.go:38-46 | title and body of every packet hold nothing sensitive, and its count is the number of tokens put into both |
| PacketText.LineInPlace | internal/packet/builder.go:27-35 | a claim has its line, between those of the claims before and behind it, exactly when the user verified it and it is confirmed or active |
| PacketText.PacketReads | internal/packet/builder.go:19-56 | heading, purpose, introduction and these lines, and the title, with nothing changed but the secrets that redaction replaces; the packet counts those and estimates tokens from the length of the body |
| Packet.IneligibleLeaveNoTrace | internal/packet/builder.go:27-35 | claims that are not confirmed or active and verified by the user change no byte of the packet |
| ThinkTags.StripBalancedThinkBlocks | internal/provider/openai_compatible.go:221-234 | the loop of index searches ends and cuts the spans that the recursive specification cuts |
| ThinkTags.StripLeakedThinkClosures | internal/provider/openai_compatible.go:236-248 | the scan over the parts returns the first answer that is not blank |
| ThinkMeaning.SanitizeModelOutput | internal/provider/openai_compatible.go:212-219 | the chain of passes computes the specified cleaning, and what it returns is the token meaning exactly under the condition of the lemmas below |
| ThinkTags.StripOnAnyText | internal/provider/openai_compatible.go:221-234 | on every string each round removes at least 15 characters, only deletion happens, and every closing tag that remains lies wholly before the first opening tag |
| ThinkTokens.TokenizeAround | internal/provider/openai_compatible.go:223-232 | a tag is a token of its own whatever surrounds it |
| ThinkTokens.TokenizeJoin | internal/provider/openai_compatible.go:232 | joining two texts joins their tokens unless the first ends in an unfinished tag |
| ThinkReading.ReadsBackExactly | internal/provider/openai_compatible.go:221-234 | writing tokens out and reading them again gives the same tokens exactly when no run of characters among them spells a tag |
| ThinkMeaning.StripMeaning | internal/provider/openai_compatible.go:221-234 | on every text, cutting the spans out of the string is dropping the open-to-close spans of its tokens exactly when the tokens that are kept read back |
| ThinkMeaning.LeftIsKept | internal/provider/openai_compatible.go:213-214 | the same for the text with its line ends normalised: what the loop leaves has the kept tokens exactly when those read back |
| ThinkMeaning.AnswersAgree | internal/provider/openai_compatible.go:240-246 | on every text, the first answer by splitting is the first segment of the token list that is not blank |
| ThinkMeaning.LeftMeaning | internal/provider/openai_compatible.go:212-219 | on every text, the answer is the meaning of the tokens that the loop leaves exactly when that meaning is free of tags or, if no closing tag leaked, when their letters spell no closing tag |
| ThinkMeaning.SanitizeMeaning | internal/provider/openai_compatible.go:212-219 | if the kept tokens read back, the answer is the meaning of the text exactly under the same condition on the kept tokens |
| ThinkSplices.SanitizeWithoutSplices | internal/provider/openai_compatible.go:212-219 | where no opening tag follows an unfinished tag the kept tokens read back, the answer is the meaning of the text, it holds no tag and has no blank edge |
| ThinkSplices.WholeTagsOnly | internal/provider/openai_compatible.go:212-219 | texts whose every angle bracket begins a whole tag are of that kind |
| ThinkResidue.RemovalOnTokens | internal/provider/openai_compatible.go:216-217 | on every text, replacing a tag by nothing is dropping its tokens and writing out the others |
| ThinkResidue.SanitizeIsResidue | internal/provider/openai_compatible.go:212-219 | on every text the answer is the trimmed residue of the tokens that the loop leaves: the leaked answer, opening tags dropped, the rest read again, closing tags dropped |
| ThinkResidue.TagFreeExactly | internal/provider/openai_compatible.go:215-217 | on every text the reader sees no tag exactly when the residue has no opening tag and spells no tag |
| ThinkResidue.OpenTagLeaks | internal/provider/openai_compatible.go:216-217 | an opening tag inside another one, wherever it is cut and whatever plain text surrounds it, leaves an opening tag in the answer |
| ThinkLimits.EverySpliceMatters | internal/provider/openai_compatible.go:232 | a first span inside a tag, for both tags, every cut, every content and every surrounding text: the kept tokens do not read back and stripping disagrees with them |
| ThinkLimits.SpliceChangesAnswer | internal/provider/openai_compatible.go:212-219 | in plain surroundings the answer differs too: the text means the spelled tag, the answer has lost it |
| ThinkLimits.SanitizeBounds | internal/provider/openai_compatible.go:212-219 | cleaning never grows a text and makes up no character but the newline of a line end |
| ThinkLimits.SanitizeTwice | internal/provider/openai_compatible.go:213-218 | on every text, cleaning again changes nothing exactly when the answer has no tag and no carriage return before a newline |
| ThinkLimits.SanitizeTwiceOnTokens | internal/provider/openai_compatible.go:213-218 | the same condition on the residue of the tokens that the loop leaves |
| ThinkLimits.SanitizeIdempotent | internal/provider/openai_compatible.go:213-218 | without carriage returns, and with no opening tag behind an unfinished tag, cleaning is idempotent |
| ThinkLimits.DoubledReturn | internal/provider/openai_compatible.go:213 | a doubled carriage return in plain text is halved by each cleaning |
| ThinkLimits.SpanJoinsLineEnd | internal/provider/openai_compatible.go:213-214 | a span between a carriage return and a newline leaves a line end that only the next cleaning normalises |
| MemoryRecords.EncodeMetadata | internal/memorybackend/http.go:80-93 | the loop that copies metadata and sets the fixed keys computes the specified map |
| MemoryRecords.EncodedFields | internal/memorybackend/http.go:80-93 | every field of a record travels under its own key, and the record's metadata under theirs where these are free |
| MemoryRecords.MemosEncodedFields | internal/memorybackend/memos.go:210-221 | the same for MemOS, metadata under prefixed keys |
| MemoryRecords.DecodeMetadata | internal/memorybackend/http.go:95-121 | the loop that reads a provider's metadata back computes the specified record |
| MemoryRecords.NumberRoundTrip | internal/memorybackend/http.go:123-142 | printing with %g and scanning gives a whole number back exactly when its magnitude is below a million |
| MemoryRecords.ProviderRoundTrip | internal/memorybackend/http.go:80-121 | mem0 and Supermemory give a record back exactly when its version is below a million, it has a status and it uses no reserved key |
| MemoryRecords.MemosRoundTrip | internal/memorybackend/memos.go:210-243 | MemOS gives it back without the condition on keys, its prefix being apart from its fixed keys |
| NativeIndex.TableListing | internal/memorybackend/native.go:103-157 | a listing that is not cut short shows every visible row of the scope once |
| NativeIndex.ListingIsFirst | internal/memorybackend/native.go:103-157 | a listing that is cut shows the first rows by record id, as many as asked for or ten |
| NativeIndex.RebuildIsIsolatedExactly | internal/memorybackend/native.go:179-192 | a rebuild leaves every other scope of every table as it was exactly when no active record of another scope stands before the first active one that the column refuses |
| NativeIndex.CallsAreIsolated | internal/memorybackend/native.go:71-192 | every other call leaves the rows of other tenants and continuities as they were |
| NativeIndex.RunsAreIsolated | internal/memorybackend/native.go:71-192 | a run of calls on one scope leaves all other rows of every table as they were exactly when each of its rebuilds is isolated |
| NativeIndex.ForeignRecordLands | internal/memorybackend/native.go:183-190 | otherwise the first record of another scope leaves a row there, whatever follows it |
| NativeIndex.RunsKeepKeys | internal/memorybackend/native.go:80-93 | after any run each row sits under its own key and fits its columns |
| NativeIndex.RebuildKeepsActive | internal/memorybackend/native.go:179-192 | a rebuild from the scope's own rows succeeds and keeps exactly its active rows and all of every other scope |
| NativeIndex.RebuildIsInvisible | internal/memorybackend/native.go:179-192 | after any run such a rebuild changes no current listing at any limit nor any ranking, and history afterwards shows what was current before |
| NativeBackend.NativeBackend.Put | internal/memorybackend/native.go:71-101 | inserts or overwrites the row of the key, and refuses a version outside the integer column without a change |
| NativeBackend.NativeBackend.Update | internal/memorybackend/native.go:159-161 | is a put |
| NativeBackend.NativeBackend.Delete | internal/memorybackend/native.go:163-169 | removes the one row of the key, if there is one |
| NativeBackend.NativeBackend.ResetScope | internal/memorybackend/native.go:171-177 | empties the scope and leaves every other row |
| NativeBackend.NativeBackend.RebuildScope | internal/memorybackend/native.go:179-192 | resets and puts the active records in turn, stopping at the first refused one |
| NativeBackend.NativeBackend.Search | internal/memorybackend/native.go:103-157 | answers without a text by record id and with a text by the given ranking, ten rows when no limit is set |
| RemoteStore.ReadBack | internal/memorybackend/http.go:95-121 | what an engine holds comes back as the record that was put, under the scope of whoever asks |
| RemoteStore.TagsAgreeExactly | internal/memorybackend/http.go:155-158 | two scopes share a tag exactly when tenant and continuity agree or, where the tag is a digest, when one tenant extends the other through the separator and the continuities match |
| RemoteStore.TagsSeparate | internal/memorybackend/http.go:155-158 | so tags separate scopes whose tenants do not hold the separator |
| RemoteStore.TagsCollide | internal/memorybackend/http.go:155-158 | every pair of texts around a separator gives two scopes that share a tag |
| RemoteRefinement.ListedWhole | internal/memorybackend/supermemory.go:107-123 | Supermemory lists a scope of any size whole, mem0 and MemOS one of at most a page of rows |
| RemoteRefinement.FindsRow | internal/memorybackend/mem0.go:166-177 | looking a record up in such a listing finds the live item of the row exactly when there is one |
| RemoteRefinement.Mem0FindsExactly | internal/memorybackend/mem0.go:103-113 | for a scope of any size mem0 finds a record exactly when its item is among the first thousand |
| RemoteRefinement.PutStep | internal/memorybackend/mem0.go:50-59 | putting a new id keeps the items and the rows in step |
| RemoteRefinement.PutNeedsFreshID | internal/memorybackend/supermemory.go:58-67 | one live item per id is kept exactly when the id was not live |
| RemoteRefinement.UpdateStep | internal/memorybackend/mem0.go:115-122 | an update succeeds exactly for a row that is there, replaces it alone, and changes nothing when it fails |
| RemoteRefinement.DeleteStep | internal/memorybackend/mem0.go:124-130 | a delete succeeds exactly for a row that is there and removes it alone |
| RemoteRefinement.ResetStep | internal/memorybackend/mem0.go:132-137 | a reset removes the rows of the scope and no others |
| RemoteRefinement.RebuildStep | internal/memorybackend/mem0.go:139-152 | a rebuild leaves exactly the given active records in the scope |
| RemoteRefinement.MemosFinds | internal/memorybackend/memos.go:133-147 | for a scope of any size the filtered listing that a MemOS delete works from holds the item of that row and nothing else |
| RemoteRefinement.CallRefines | internal/memorybackend/types.go:44-56 | each proper call succeeds on every engine and on the table and keeps them in step; only mem0 updates and deletes and MemOS resets and rebuilds ask that the scope fits on a page |
| RemoteRefinement.RunRefines | internal/memorybackend/types.go:44-56 | along every proper run, on Supermemory for scopes of any size, no call fails and the live items remain exactly the table's rows, one item a row: the engines are disposable projections of one store |
| RemoteRefinement.MissingRowsDiffer | internal/memorybackend/mem0.go:115-130 | on rows that are not there the engines report an error and change nothing, the table inserts or shrugs |
| RemoteRefinement.MemosResetEmpties | internal/memorybackend/memos.go:149-163 | a MemOS reset empties a scope exactly when it held no more than a page |
| RemoteListings.ListingAgrees | internal/memorybackend/supermemory.go:69-83 | a search without a text shows exactly the table's visible rows of the scope, each once |
| RemoteListings.EnginesAgree | internal/memorybackend/types.go:44-56 | after any proper run two engines list the same records, as many as the table and each of them its row |
| Overfetch.FetchAhead | internal/memorybackend/mem0.go:61-101 | filtering what was fetched gives a beginning of the ideal answer for every ranking, and the ideal answer exactly when enough was fetched or nothing else may be shown |
| Overfetch.FetchSizeExactly | internal/memorybackend/mem0.go:81-87 | four times the limit is fetched, but twenty at least, and a hundred at most where the adapter stops there |
| Overfetch.EnoughFetched | internal/memorybackend/mem0.go:83-89 | nothing is lost when at most fetch size less limit hidden items stand before the limit-th shown one |
| Overfetch.HundredAtMost | internal/memorybackend/supermemory.go:85-105 | no answer of mem0 or Supermemory has more than a hundred records |
| Overfetch.MemosTextHidesHistory | internal/memorybackend/memos.go:91-108 | asking MemOS for history with a text changes nothing |
| Overfetch.HistoryLossExactly | internal/memorybackend/memos.go:91-108 | a history query gets all that the ranking holds exactly when everything it may show is active; otherwise it gets strictly less |
| RemoteBackends.Find | internal/memorybackend/mem0.go:171-176 | the scan returns the first listed item with the id, forgotten ones passed over |
| RemoteBackends.Show | internal/memorybackend/mem0.go:66-74 | the loop decodes, drops anonymous and filtered items, and cuts at the limit |
| RemoteBackends.Mem0Backend.Put | internal/memorybackend/mem0.go:50-59 | appends one item that holds the record |
| RemoteBackends.Mem0Backend.Search | internal/memorybackend/mem0.go:61-75 | answers a listing from what the server lists |
| RemoteBackends.Mem0Backend.Update | internal/memorybackend/mem0.go:115-122 | rewrites the found item in place or fails |
| RemoteBackends.Mem0Backend.Delete | internal/memorybackend/mem0.go:124-130 | deletes the found item or fails |
| RemoteBackends.Mem0Backend.ResetScope | internal/memorybackend/mem0.go:132-137 | afterwards no item of the pair of user and agent is left, and no other item is gone |
| RemoteBackends.Mem0Backend.RebuildScope | internal/memorybackend/mem0.go:139-152 | resets and puts the active records |
| RemoteBackends.MemOSBackend.Put | internal/memorybackend/memos.go:58-67 | appends one item that holds the record |
| RemoteBackends.MemOSBackend.Search | internal/memorybackend/memos.go:69-89 | answers a listing from the one page the server lists |
| RemoteBackends.MemOSBackend.Update | internal/memorybackend/memos.go:126-131 | deletes and puts anew, and does not put when the delete fails |
| RemoteBackends.MemOSBackend.Delete | internal/memorybackend/memos.go:133-147 | deletes all listed items of the id in one request or fails |
| RemoteBackends.MemOSBackend.ResetScope | internal/memorybackend/memos.go:149-163 | deletes the listed page, with no request when it is empty |
| RemoteBackends.MemOSBackend.RebuildScope | internal/memorybackend/memos.go:165-178 | resets and puts the active records |
| RemoteBackends.SupermemoryBackend.ListScope | internal/memorybackend/supermemory.go:107-123 | the page loop ends and returns each item of the scope once, in order |
| RemoteBackends.SupermemoryBackend.Put | internal/memorybackend/supermemory.go:58-67 | appends one item that holds the record |
| RemoteBackends.SupermemoryBackend.Search | internal/memorybackend/supermemory.go:69-83 | answers a listing from all pages, forgotten items passed over |
| RemoteBackends.SupermemoryBackend.Update | internal/memorybackend/supermemory.go:125-135 | rewrites the found item or fails |
| RemoteBackends.SupermemoryBackend.Delete | internal/memorybackend/supermemory.go:137-144 | marks the found item forgotten or fails |
| RemoteBackends.SupermemoryBackend.ResetScope | internal/memorybackend/supermemory.go:146-158 | marks every listed item forgotten, one request each |
| RemoteBackends.SupermemoryBackend.RebuildScope | internal/memorybackend/supermemory.go:160-173 | resets and puts the active records |
| LoadRecords.RecordIDsDiffer | internal/memorybackend/load.go:136-145 | zero-padded record ids are injective at every catalogue size |
| LoadRecords.LoadRecordReads | internal/memorybackend/load.go:136-145 | every field of a generated record, its flag, owner and timeout spelled out in the content |
| LoadRecords.TargetsInRange | internal/memorybackend/load.go:147-152 | every target is a record of the catalogue, the first query asks for the first record and the last for the last |
| LoadRecords.TargetExactly | internal/memorybackend/load.go:147-152 | the target of a query is the last record that is not beyond the query's share of the way through the catalogue; a single query asks for the middle record |
| LoadRecords.TargetsSpread | internal/memorybackend/load.go:151 | the queries are spread evenly: neighbouring targets are the same distance apart, or one more where that distance does not come out even |
| LoadRecords.TargetsMonotone | internal/memorybackend/load.go:151 | targets never go back |
| LoadRecords.TargetsDistinctExactly | internal/memorybackend/load.go:151 | no record is asked for twice exactly when there are no more queries than records |
| LoadRecords.TargetsOntoExactly | internal/memorybackend/load.go:151 | every record is asked for exactly when there are at least as many queries as records |
| LoadPool.StepPutOnce | internal/memorybackend/load.go:68-82 | every step keeps each record that was handed out with one worker or in the log of puts, once |
| LoadPool.StepErrorsKept | internal/memorybackend/load.go:73-75 | every step keeps each error on its way, in the channel or in the report, once |
| LoadPool.ErrorHasRoom | internal/memorybackend/load.go:65 | a worker with an error never waits for room, although nobody reads before the end |
| LoadPool.ErrorsQueue | internal/memorybackend/load.go:86-88 | errors are reported in the order in which the workers sent them |
| LoadPool.StopsWithReport | internal/memorybackend/load.go:82-93 | the pool can stop only with its report: it always reaches close and wait |
| LoadPool.RunsAreBounded | internal/memorybackend/load.go:68-83 | a run takes at most three steps a record, one a worker and two more |
| LoadPool.ReportAccounts | internal/memorybackend/load.go:86-92 | in every interleaving each record is put exactly once, the report holds exactly the errors of the failed puts, and successes and errors add up to the records |
| LoadPool.CleanRunLoadsAll | internal/memorybackend/load.go:79-92 | a run without errors leaves every record in its place and every other row as it was |
| LoadPool.TableIsScheduleFree | internal/memorybackend/load.go:68-83 | without errors the table does not depend on the schedule or on the number of workers |
| LoadHits.FlagFoundExactly | internal/memorybackend/load.go:108-110 | for every catalogue size the flag is found exactly when some result's padded number begins with the target's |
| LoadHits.OwnRecordCounts | internal/memorybackend/load.go:108-111 | a query whose own record came back always counts as a hit |
| LoadHits.HitsAreExact | internal/memorybackend/load.go:108-114 | up to ten thousand records a query counts as a hit exactly when its own record is among the results |
| LoadHits.HitBoundIsTight | internal/memorybackend/load.go:108-114 | with one record more there is a false hit |
| LoadHits.HitsAreExactUpTo | internal/memorybackend/load.go:108-114 | a hit means the own record, for all results and targets of a catalogue, exactly when the catalogue has at most ten thousand records |
| LoadQueries.RunQueries | internal/memorybackend/load.go:94-115 | one search and one duration per query, hits counted exactly, and a pass exactly when every query is a hit |
| LoadQueries.AsksForTarget | internal/memorybackend/load.go:94-103 | query i asks the scope for ten current results about the one record at its share of the way, by its id |
| LoadQueries.HitsAreRecall | internal/memorybackend/load.go:94-118 | up to ten thousand records the reported hits are the queries whose own record came back |
| Durations.SortDurations | internal/memorybackend/load.go:119-123 | the insertion sort leaves the durations sorted and a permutation of what they were |
| Durations.IndexInBounds | internal/memorybackend/quality.go:223 | the percentile index is inside the list |
| Durations.PercentileMeaning | internal/memorybackend/quality.go:219-225 | a reported percentile is one of the samples, at least index plus one of them are no larger and the others no smaller |
| Durations.PercentileExactly | internal/memorybackend/quality.go:219-225 | a value is the reported percentile exactly when the samples below it make up at most that share of the other samples and, with those equal to it, more |
| Durations.PercentilesOrdered | internal/memorybackend/quality.go:129-130 | P50 is never above P95 |
| Phrases.RequireContent | internal/memorybackend/suite.go:183-191 | succeeds exactly when every phrase is in the joined results |
| Phrases.ForbidContent | internal/memorybackend/suite.go:193-201 | succeeds exactly when no phrase is |
| Quality.EvaluateQualityQuery | internal/memorybackend/quality.go:201-217 | collects exactly the required phrases that are missing and the forbidden ones that are found, and passes exactly when both checks on phrases succeed |
| Quality.QualityRun.RunStep | internal/memorybackend/quality.go:135-199 | one step makes exactly the call that fits it, and the specified changes to the counters |
| Quality.StepCalls | internal/memorybackend/quality.go:143-173 | for each of the six operations: a step whose arguments are there makes the one call of its operation with just its scope, record, id, records or query, and passes on the engine's error; any other step makes no call, changes nothing and is told what is missing or unsupported |
| Quality.StepRecords | internal/memorybackend/quality.go:161-195 | an answered search adds one result, with each required phrase that the answer lacks and each forbidden one that it has, as often as the query names it; a failed search is only timed; other steps touch nothing but the calls |
| Quality.QualityRun.RunScenario | internal/memorybackend/quality.go:110-121 | the steps in turn up to the first error, then the verdict |
| Quality.QualityRun.RunQualitySuite | internal/memorybackend/quality.go:99-133 | the whole report, and for an unhealthy engine a failed report that made no call |
| QualityAccounts.StepAccounts | internal/memorybackend/quality.go:183-195 | every step of any kind and any answer of the engine keeps the books balanced |
| QualityAccounts.SuiteAccounts | internal/memorybackend/quality.go:109-122 | after every scenario of every suite assertions are passed, missing or leaked, recalled facts never exceed required ones, and there is one duration per search |
| QualityAccounts.PassMeans | internal/memorybackend/quality.go:112-127 | the report passes exactly when no executed step errored and every assertion passed; recall is one exactly when nothing was missing |
| QualityAccounts.StopsAtFirstError | internal/memorybackend/quality.go:111-117 | whatever steps follow a scenario's first error, neither the engine nor the counters see them |
| QualityCalls.ScenarioCalls | internal/memorybackend/quality.go:109-117 | a scenario makes one call for each step, in order and of the step's kind, up to the first step that is incomplete or that the engine fails, and its error says which |
| QualityCalls.SuiteCalls | internal/memorybackend/quality.go:108-122 | all calls of a run are those of its scenarios in turn, each played whether or not the ones before it failed, and each reported under its own id |
| QualityAccounts.CleanStepsCompose | internal/memorybackend/quality.go:111-117 | without an error every step runs, and running two lists of steps is running their concatenation |
| QualityAccounts.PercentilesOfSearches | internal/memorybackend/quality.go:128-130 | the percentiles are samples of one duration per search call, in order |
| RealityCase.OneReport | internal/reality/validate.go:154-159 | the order by code and message leaves one possible report for what was added |
| RealityValidation.ValidateFixture | internal/reality/validate.go:228-258 | one fixture adds what the specification adds; which code and message that is, is told by ReportHolds |
| RealityValidation.ValidateSources | internal/reality/validate.go:102-121 | the loop over the sources with its growing set of ids adds what the specification adds and declares the ids that are not blank |
| RealityValidation.ValidateEvents | internal/reality/validate.go:126-151 | the loop over the events does the same for ids, sequence numbers, sources and blank fields |
| RealityValidation.ValidateFactSets | internal/reality/validate.go:276-294 | the loops with two growing sets add what the specification adds, once for each repeated or conflicting fact as told by ReportHolds |
| RealityValidation.ValidateManifest | internal/reality/validate.go:57-100 | the checks of the manifest's own fields, which add nothing exactly when version, id, title, level, continuity lines, lists and task are good |
| RealityValidation.ValidateCase | internal/reality/validate.go:51-161 | the report is sorted by code and message, holds what was added, and is empty exactly for a well-formed case |
| RealityFindings.ReportHolds | internal/reality/validate.go:51-161 | for each of the 33 codes, the report has it once for each place of the manifest, sources, events or facts where its check fails, with the message about that place; the checks, codes and messages are listed in RealityChecks |
| RealityFindings.NothingElse | internal/reality/validate.go:51-161 | the report has no other code |
| RealityValidation.NothingAdded | internal/reality/validate.go:51-161 | nothing is added exactly when ids are distinct and not blank, sequences run from one, every event's source is declared, facts are distinct and disjoint, every fixture is a file of the directory with its declared digest, and the required fields are there |
| RealityLock.LoadCase | internal/reality/validate.go:20-49 | decodes, refuses sealed evidence before anything is validated, and refuses cases with violations by their codes |
| RealityMismatches.LoadFails | internal/reality/validate.go:20-49 | a case that does not load says why: undecodable manifest, sealed evidence, undecodable events, or the codes of its violations, the first that applies |
| RealityLock.BuildFixtureLock | internal/reality/freeze.go:59-95 | each source path once in order with digest and size, whatever order the map gave them |
| RealityLock.CollectPaths | internal/reality/freeze.go:69-77 | a set walked in any order and sorted gives the one ordered list of paths |
| RealityLock.VerifyLockedBytes | internal/reality/report.go:158-170 | mismatches of digest and, unless the size is negative, of size |
| RealityLock.VerifyFixtureLock | internal/reality/report.go:127-156 | the loop over the locked files adds what the specification adds, skipping unusable paths |
| RealityLock.CaseDirectory.FreezeCase | internal/reality/freeze.go:35-57 | writes the lock of a case that loads and changes nothing in any other outcome |
| RealityLock.CaseDirectory.ValidateFrozenCase | internal/reality/report.go:79-125 | load errors, lock errors and mismatches in one sorted list, and a pass exactly when it is empty |
| RealityCodes.SplitJoined | internal/reality/report.go:89 | splitting at commas undoes the joining of codes |
| RealityCodes.InvalidCaseCodes | internal/reality/report.go:83-95 | an invalid case is reported with exactly the codes of its violations although they travel through an error text, and is never taken for sealed evidence |
| RealityFreeze.VerifyClean | internal/reality/report.go:127-170 | verification finds nothing exactly when version, case id, digests, sizes and paths of the lock match the directory |
| RealityFreeze.PassMeans | internal/reality/report.go:79-124 | a frozen case passes exactly when it loads and its lock is there, decodes and matches |
| RealityMismatches.ValidationReports | internal/reality/report.go:79-170 | the report on a case that loads carries its id, level, lines, pressures and the digest of its lock, and exactly the messages about what is missing, undecodable or different, each with the digests and sizes compared |
| RealityMismatches.FailedLoadReports | internal/reality/report.go:79-125 | the report on a case that does not load goes by the name asked for, fails, and holds the load error besides what is wrong with the lock |
| RealityMismatches.FreezeReports | internal/reality/freeze.go:35-57 | a freeze reports the case it froze and the digest of the lock that is there afterwards |
| RealityFreeze.LoadedExactly | internal/reality/validate.go:20-49 | loading succeeds exactly with the well-formed case that manifest and events spell out |
| RealityFreeze.LockCovers | internal/reality/freeze.go:59-95 | every case that loads can be locked, and the lock lists each source path exactly once, in order, with the digest and size of what is there |
| RealityFreeze.LockIgnoresOrder | internal/reality/freeze.go:69-77 | the locked files depend only on which paths the sources name, not on their order or repetition |
| RealityFreeze.LockDetects | internal/reality/report.go:103-124 | with a freeze's lock in place, validation passes exactly when manifest, events and every fixture hold the bytes they were frozen with |
| RealityFreeze.FreezeThenValidate | internal/reality/freeze.go:35-57 | right after a freeze validation passes exactly when no source names the lock file or its bytes did not change |
| RealityFreeze.FreezeTouchesOnlyTheLock | internal/reality/freeze.go:48-51 | a freeze touches no file but the lock, and a failed one not even that |

## Left out

- ThinkMeaning.SanitizeMeaning: stated for texts whose kept tokens read back; for the others ThinkMeaning.LeftMeaning compares the answer with the meaning of the tokens that the loop leaves.
- Overfetch.EnoughFetched: the products of the limit are unbounded; the wrap-around of a limit above two to the power 61 is not modelled.
- LoadRecords.TargetsInRange: the product of index and records does not wrap around in the model.
- Durations.PercentileIndex: exact hundredths instead of binary floating point.
- QualityAccounts.PassMeans: recall is an exact ratio.
- MemoryRecords.NumberRoundTrip: whole numbers only up to where a float holds them exactly; scanning does not know base prefixes, which no printed number has.
- NativeIndex.TableListing: strings are ordered by code point, where PostgreSQL orders by the collation of its database.
- RemoteStore.TagsSeparate: the digest of a tag is taken to be collision-free.
- RemoteRefinement.RunRefines: the calls on which the engines and the table differ (putting a live id, updating or deleting a missing one, and more than a page of rows where mem0 looks a record up or MemOS empties a scope) are shown apart, not refined.
- LoadHits.HitsAreExact: lower-casing is modelled on ASCII letters; no other letter of the generated records or phrases has a case.
- LoadPool.TableIsScheduleFree: stated for the table; the remote engines list the same items in the order in which they were put.
- Overfetch.TextSearch: embeddings, distances and the ranking of a vector search; any order of the server is taken as given.
- HTTP transport, authentication, retries, JSON syntax, SQL execution, schema creation, statistics and health checks.
- Failures of the network or the database in the middle of a call, and other clients changing a scope between two requests of one call.
- The preparation of the matrix run (fixtures, tasks, the first factory call per model) and the writing of its artifacts; providers answer a job as a function of model and task while the context lives, and in any way once it is cancelled.
- The defaults of the load options and of the matrix concurrency: both pools are modelled after they are applied, with at least one record and one worker.
- Run ids and artifact paths, where two model names may be sanitised to one path segment.
- Texts are sequences of code points; invalid UTF-8 is not modelled. The email rule folds case as Go does, including the long s and the Kelvin sign.
- Regular expressions other than the three rules.
- Reality: symbolic links between files of a case directory, file systems that ignore case, files that change while they are read, manifest and event fields that no check reads, the size limit on event lines, and the summary over a directory of cases.
- The path cleaning, quoting, digest and JSON codecs of the standard library are parameters; the proofs about locks ask of them only that digests do not collide and that a written lock reads back.
- The lifecycle suite, the provider probe, governance, bridges, resolvers, attestations, acceptance thresholds and rendering of reports.
