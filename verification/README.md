# devops-cli: a verified model of its stateful cores

devops-cli contains a handful of small machines whose results depend on the order and the cutting of
their inputs. This project models them in Dafny, with the branches, constants and error cases of the
Python code, and proves what callers rely on for every input, every run and every reachable state.

**Thinking stream** (`ThinkingFSM`). A scanner takes a model's answer chunk by chunk, separates reasoning
between two tags from content, holds back what may be the start of a tag, caps the recorded thought, and
takes a second, explicit thinking channel. `StreamSpec` gives two meanings: an incremental scan and a
whole-text parse that holds nothing back. `ThinkingStream` holds the class; each of its methods is proved
equal to a function on values in `StreamMachine`, those functions refine the scan (`RoundIsStep`,
`LoopIsDrain`, `FeedEachIsFeedAll`), and the scan refines the parse (`StreamTheorems`). `StreamRuns` holds
what is true at every point of every run for any tags, `StreamPhases` when thoughts are heard inside a think
phase, `StreamSeams` when cleaning leaves a tag behind,
`StreamBlocks` what the blocks are. `Matching` has the string lemmas: leftmost match
and longest overlap across a cut. `PyText` models `str.strip`.

The constructor accepts any two non-empty tags. Streaming agrees with the whole-text parse under every way
of cutting *exactly* when neither tag hides inside the other (`Separable`: the close tag does not occur in
the open tag before its last character; the open tag does not occur in the close tag before its last
character, unless the close tag begins with it). Both directions are proved, and the default tags qualify.

**Response cache** (`LLMResponseCache`). A memory map over a directory of files, with a time to live and
eviction in both tiers: memory by last access, files by modification time. `CacheSpec` is the state and
step relation, `CacheTheorems` the invariant (what memory holds is on disk and equal; what only the disk
holds is older) and its consequences, `CacheOverfill` when memory can exceed the limit, `ResponseCache` the
class. The main results: the memory tier cannot be noticed, since over every run the cache answers as one
that forgets its memory before each operation; the whole cache is one list of keys, least recently used
first, with a limit and a time to live (`CacheIdeal`); and a stored key is lost only after its time, or after
as many other keys as the limit have been used since (`CacheLru`). `CacheSuggestions` and `CacheCounts` say
what searches answer and what the counters count, in terms of what callers did.

**Budget truncation** (`ContextPacker`), the binary search for the longest statement prefix that fits a
token budget and the cut of the tree. **Pod names** (`Fnv32`, `ArgoNames`), the 32-bit FNV-1a hash and the
names derived from it. **Gateway config** (`GatewayRender`), a line transducer with a pending block.
**Gateway router** (`GatewayRouter`), routes, breaker and state file. **BM25** (`Lexical`, `LexicalOrder`), over the reals.
**Tool-call paging** (`ToolPaging`), overlapping pages and first-seen order.

Where the code does not do what its own text or a reader would expect, the model follows the code:

- `bm25_scores` documents that an empty result means that no query term appeared. Whatever `b` is, a result
  is also empty when `k1 <= -1`, when the limit is 0, and when a negative limit cuts off every match, and
  in no other case (`Lexical.ResultEmptyIff`).
- The constructor's tag check does not make chunking invisible
  (`StreamTheorems.ChunkInvariantIffSeparable`).
- Stripping think blocks is not idempotent: `<th<think></think>ink>` is stripped to `<think>`
  (`ThinkingStream.StrippingCanExposeATag`). From the emitting state, and for tags without white space at
  their ends, it is on exactly the texts in which no tag lies across a seam between two pieces of kept
  content (`ThinkingStream.StrippingTwiceIff`); from the thinking state, on exactly the texts whose pieces
  of content are all blank (`ThinkingStream.StrippingTwiceInsideIff`).
- Thoughts are not always heard inside a think phase. A block loses its phase in two ways: its open tag has
  text before it in the same buffer, which is emitted after the start and ends the phase, or ordinary text
  resumes inside the block after an explicit chunk. Thoughts lie outside a phase exactly when they come
  after one of these with no explicit chunk since (`StreamPhases.ThoughtsInsidePhasesIff`).
- The fallback of `extract_think_blocks` to the whole thought text never adds anything, because the blocks
  make up the thought text (`ThinkingStream.ExtractThinkBlocks`).
- Promotion on a cache hit enforces no limit. A new process can come to hold more than the limit in memory
  exactly when its directory has more files than that which can be looked up before they expire
  (`CacheOverfill.OverfillIff`).
- A `model_list:` line inside a model list overtakes the pending entry, and rendering again moves it
  further (`GatewayRender.NestedListMovesUp`), block by block until it stands below none
  (`GatewayRender.RenderingSettlesIff`).
- Not only a reset restores a failed-over route: a restart forgets a failover that was not saved or cannot
  be read back. There is no third way (`GatewayRouter.StaysFailedOverIff`).

## Model

| member | source | states |
|---|---|---|
| `Matching.FindIsLeftmost` | src/devops_cli/ai/thinking_stream.py:153 | No occurrence of a tag begins before the one the scanner finds, and none is missed. |
| `Matching.OverlapIsLongest` | src/devops_cli/ai/thinking_stream.py:26-32 | No suffix of the buffer that is a proper prefix of a tag is longer than the one that is held back. |
| `ThinkingStream.FindSuffixOverlap` | src/devops_cli/ai/thinking_stream.py:26-32 | The descending search returns the length of the longest suffix of the text that is a proper prefix of the target. |
| `StreamTheorems.RecordSplit` | src/devops_cli/ai/thinking_stream.py:114-135 | Recording a thought in two parts leaves the same text, block and discarded count as recording it at once, wherever the cap falls. |
| `StreamTheorems.NextTagStable` | src/devops_cli/ai/thinking_stream.py:152-192 | With separable tags, text that arrives later never changes which tag comes first in what has arrived. |
| `StreamTheorems.HoldIsEnough` | src/devops_cli/ai/thinking_stream.py:164-205 | Text that was released has no part in any later tag or overlap, for any tags. |
| `StreamTheorems.ScanSplit` | src/devops_cli/ai/thinking_stream.py:152-217 | Scanning a text, then its held tail with more text, ends in the same mode, buffer and tally as scanning everything at once. |
| `StreamTheorems.StepDrains` | src/devops_cli/ai/thinking_stream.py:152-217 | Each round that finds a tag shortens the buffer and leaves the outcome of the loop as it was; a round that finds none is the outcome. |
| `StreamTheorems.FeedSplit` | src/devops_cli/ai/thinking_stream.py:219-232 | In any state and on either channel, feeding a chunk in two parts is feeding it at once. |
| `StreamTheorems.ChunkingIsInvisible` | src/devops_cli/ai/thinking_stream.py:219-232 | The state after an interleaved stream depends only on the stream with empty chunks dropped and neighbours on one channel joined. |
| `StreamTheorems.ScanThenRelease` | src/devops_cli/ai/thinking_stream.py:152-258 | The incremental scan followed by the release of the held tail is the whole-text parse. |
| `StreamTheorems.OneChunkIsBatch` | src/devops_cli/ai/thinking_stream.py:219-258 | One chunk and a flush have the result of the whole-text parse, whatever the tags are. |
| `StreamTheorems.SeparableStreams` | src/devops_cli/ai/thinking_stream.py:219-258 | With separable tags every way of cutting a text gives the clean content, thoughts, blocks, counts and unclosed flag of parsing it whole. |
| `StreamTheorems.CloseInsideOpenBreaks` | src/devops_cli/ai/thinking_stream.py:55-58 | If the close tag occurs in the open tag before its end, some cut makes a stray close tag appear that the whole text does not have. |
| `StreamTheorems.OpenInsideCloseBreaks` | src/devops_cli/ai/thinking_stream.py:55-58 | If the open tag occurs in the close tag before its end without beginning it, some cut changes the clean content. |
| `StreamTheorems.ChunkInvariantIffSeparable` | src/devops_cli/ai/thinking_stream.py:55-258 | Streaming agrees with the whole-text parse on every text, initial mode and cut if and only if the tags are separable. |
| `StreamRuns.ScanLosesNothing` | src/devops_cli/ai/thinking_stream.py:137-258 | At every point of every run the events, read back as text, and the held buffer are exactly the ordinary chunks fed. |
| `StreamRuns.ParseLossless` | src/devops_cli/ai/thinking_stream.py:152-258 | The whole-text parse, read back, is the text. |
| `StreamRuns.TallyIsFoldOfTrace` | src/devops_cli/ai/thinking_stream.py:101-232 | Everything that is accumulated at any point is determined by the events up to it. |
| `StreamRuns.CleanIsContents` | src/devops_cli/ai/thinking_stream.py:137-204 | Clean content is the content events in order, and the stray count is the number of stray close tags. |
| `StreamRuns.BufferIsLongestHold` | src/devops_cli/ai/thinking_stream.py:152-217 | At every point of every run the text since the last tag holds no awaited tag, and the buffer is its longest suffix that may begin one. |
| `StreamRuns.DelayIsBounded` | src/devops_cli/ai/thinking_stream.py:26-32 | Between chunks the buffer is a proper prefix of the close tag or, outside a block, of the open tag, so output lags by less than a tag. |
| `StreamRuns.ThoughtAccounting` | src/devops_cli/ai/thinking_stream.py:101-135 | At every point of every run the thought text is the first cap-many characters of the thought stream, the discarded count is the rest, and closed blocks and current block make it up. |
| `StreamRuns.FlushedBlocks` | src/devops_cli/ai/thinking_stream.py:234-258 | After the flush the blocks alone make up the kept thought text, and the accounting includes the released buffer. |
| `StreamBlocks.BlocksAreStretches` | src/devops_cli/ai/thinking_stream.py:152-173 | At every point the closed blocks and the open one are the stretches of thought between close tags and returns from the explicit channel, as far as the cap goes, without empty ones. |
| `StreamBlocks.BatchBlocks` | src/devops_cli/ai/thinking_stream.py:405-412 | The blocks of a text parsed as a whole are its stretches of thought that are not empty, in order, up to the cap. |
| `StreamRuns.ModeIsOfLastTag` | src/devops_cli/ai/thinking_stream.py:152-206 | At every point of every run the mode is that of the last open or close tag found. |
| `StreamRuns.UnclosedIffInside` | src/devops_cli/ai/thinking_stream.py:244-245 | The flush reports an unclosed stream exactly when, of the tags found, the last that counts is an open tag. |
| `StreamRuns.ExplicitIsInvisible` | src/devops_cli/ai/thinking_stream.py:146-258 | Chunks on the explicit channel, anywhere, change neither clean content nor stray count nor mode nor buffer, before and after the flush. |
| `StreamRuns.CleanedIsFixedIffNoTag` | src/devops_cli/ai/thinking_stream.py:175-206 | Cleaning leaves a text alone exactly when it holds neither tag, and shortens every other text. |
| `StreamMachine.RoundIsStep` | src/devops_cli/ai/thinking_stream.py:152-206 | One round of the machine, notifications included, is one step of the scan, and keeps that no block is open outside thinking. |
| `StreamMachine.LoopIsDrain` | src/devops_cli/ai/thinking_stream.py:208-217 | The loop of the machine has the outcome of the scan. |
| `StreamMachine.FeedEachIsFeedAll` | src/devops_cli/ai/thinking_stream.py:219-232 | Over every run the machine accumulates what the scan accumulates. |
| `StreamMachine.FinishIsFlush` | src/devops_cli/ai/thinking_stream.py:234-258 | The flush of the machine is the flush of the scan, and leaves no think phase pending. |
| `StreamMachine.NotificationsAlternate` | src/devops_cli/ai/thinking_stream.py:77-112 | Over every run start and end notifications alternate beginning with a start, and after the flush there are as many of each. |
| `StreamMachine.CallbacksGetEverything` | src/devops_cli/ai/thinking_stream.py:114-144 | Over a run and its flush the content callback was given exactly the clean content and the thought callback exactly the kept thoughts. |
| `StreamPhases.RoundKeepsPhaseIff` | src/devops_cli/ai/thinking_stream.py:152-206 | While a think phase is open in a block, a round leaves it exactly when it meets an open tag with text before it. |
| `StreamPhases.LeavingKeepsPhaseIff` | src/devops_cli/ai/thinking_stream.py:225-230 | Coming back from the explicit channel leaves the phase exactly when that happens inside a block. |
| `StreamPhases.LoopTracks` | src/devops_cli/ai/thinking_stream.py:208-217 | Over a whole scan, starts are pending inside blocks, and thoughts are heard inside phases, exactly when the scanned events say so. |
| `StreamPhases.ThoughtsInsidePhasesIff` | src/devops_cli/ai/thinking_stream.py:94-232 | At every point of every run all thoughts have been heard between a start and its end if and only if no heard thought of a block comes after one of the two causes above without an explicit chunk or a clean open tag in between. |
| `StreamPhases.FlushedThoughtsInsidePhasesIff` | src/devops_cli/ai/thinking_stream.py:234-258 | The same after the flush, which may release a last thought. |
| `ThinkingStream.ThinkingFSM.constructor` | src/devops_cli/ai/thinking_stream.py:66-92 | A new machine is empty, and starts with a notified think phase only in the thinking state. |
| `ThinkingStream.ThinkingFSM.TriggerThinkStart` | src/devops_cli/ai/thinking_stream.py:94-99 | A start is notified only when no think phase is open. |
| `ThinkingStream.ThinkingFSM.TriggerThinkEnd` | src/devops_cli/ai/thinking_stream.py:101-109 | An end is notified only in an open think phase, and closes the block. |
| `ThinkingStream.ThinkingFSM.RecordThought` | src/devops_cli/ai/thinking_stream.py:114-135 | The chunk is kept up to the cap and the rest counted; the callback sees the kept part. |
| `ThinkingStream.ThinkingFSM.EmitContent` | src/devops_cli/ai/thinking_stream.py:137-144 | The token returned is exactly what clean content grows by. |
| `ThinkingStream.ThinkingFSM.HandleExplicitThinking` | src/devops_cli/ai/thinking_stream.py:146-150 | An explicit chunk is recorded as thought and emits nothing. |
| `ThinkingStream.ThinkingFSM.ProcessInsideThink` | src/devops_cli/ai/thinking_stream.py:152-173 | The method makes the round of the machine, and asks to go on exactly when a tag was found or nothing is held back. |
| `ThinkingStream.ThinkingFSM.ProcessOutsideThink` | src/devops_cli/ai/thinking_stream.py:175-206 | As inside a block; the tokens returned are what clean content grows by, none of them empty. |
| `ThinkingStream.ThinkingFSM.ProcessBuffer` | src/devops_cli/ai/thinking_stream.py:208-217 | The loop terminates in the state that the rounds lead to, and its tokens are what clean content grew by. |
| `ThinkingStream.ThinkingFSM.Feed` | src/devops_cli/ai/thinking_stream.py:219-232 | A chunk on either channel moves the machine as specified, and the tokens returned are what clean content grew by. |
| `ThinkingStream.ThinkingFSM.Flush` | src/devops_cli/ai/thinking_stream.py:234-258 | The end of the stream moves the machine as specified, and the tokens returned are what clean content grew by. |
| `ThinkingStream.FedOnce` | src/devops_cli/ai/thinking_stream.py:405-412 | A machine that is fed once and flushed holds the result of the whole-text parse, and its blocks make up the thought text. |
| `ThinkingStream.StripThinkBlocks` | src/devops_cli/ai/thinking_stream.py:391-417 | The result is the clean content of the whole-text parse with white space removed from both ends and nothing else changed; an empty tag is an error except on an empty text. |
| `ThinkingStream.ExtractThinkBlocks` | src/devops_cli/ai/thinking_stream.py:426-455 | The result lists, in order, exactly the blocks of the whole-text parse that are not blank, each without the white space at its ends and otherwise unchanged; the fallback never adds one. |
| `ThinkingStream.PresentableShows` | src/devops_cli/ai/thinking_stream.py:452 | There is an ascending list of exactly the places of the blocks that are not blank, and the k-th result is the block at the k-th place, trimmed. |
| `StreamSeams.SeamsAreTags` | src/devops_cli/ai/thinking_stream.py:175-206 | What is kept of a text holds a tag if and only if, walking the text, a tag lies across the seam between the content kept so far and the next piece of content. |
| `StreamSeams.CleaningTwiceIff` | src/devops_cli/ai/thinking_stream.py:175-206 | Cleaning is idempotent on a text if and only if the text has no such seam. |
| `StreamSeams.CleaningTwiceUntouched` | src/devops_cli/ai/thinking_stream.py:175-206 | In particular on every text in which no removed tag follows content that may begin a tag. |
| `ThinkingStream.StrippingTwiceIff` | src/devops_cli/ai/thinking_stream.py:391-417 | From the emitting state, stripping is idempotent on every text without such a seam, and, for tags without white space at their ends, on no other. |
| `ThinkingStream.StrippingTwiceInsideIff` | src/devops_cli/ai/thinking_stream.py:391-417 | From the thinking state, stripping is idempotent on a text if and only if every piece of content met on the walk through it is blank, and then nothing is left. |
| `ThinkingStream.SpacedTagsHideASeam` | src/devops_cli/ai/thinking_stream.py:391-417 | A text and a tag that ends in white space for which stripping is idempotent although a tag lies across a seam. |
| `ThinkingStream.StrippingTwiceUntouched` | src/devops_cli/ai/thinking_stream.py:391-417 | Stripping is idempotent on every text in which no removed tag follows content that may begin a tag. |
| `ThinkingStream.StrippingCanExposeATag` | src/devops_cli/ai/thinking_stream.py:391-417 | A text whose stripping leaves a new tag, so that stripping is not idempotent. |
| `ThinkingStream.DefaultTagsAreSeparable` | src/devops_cli/config/defaults.py:79-81 | With the default tags every text may be cut anywhere. |
| `CacheTheorems.StepKeepsInv` | src/devops_cli/ai/response_cache.py:228-380 | Every operation keeps inclusion (memory is on disk, equal) and recency (what only the disk holds is older than all of memory). |
| `CacheTheorems.RunKeepsInv` | src/devops_cli/ai/response_cache.py:228-380 | Inclusion and recency hold in every reachable state, also of a new process with an empty memory over files written in the order of their access. |
| `CacheTheorems.NewestIsUnique` | src/devops_cli/ai/response_cache.py:472-486 | With distinct times there is one way to keep the newest entries. |
| `CacheTheorems.EvictionKeepsInclusion` | src/devops_cli/ai/response_cache.py:472-486 | Although memory is evicted by access and the disk by file time, memory never keeps what the disk drops. |
| `CacheTheorems.EvictionKeepsInv` | src/devops_cli/ai/response_cache.py:107-122 | Evicting both tiers keeps inclusion and recency. |
| `CacheTheorems.GetIsDiskGet` | src/devops_cli/ai/response_cache.py:228-268 | A lookup has the same reply and the same new state as one that looks on disk only. |
| `CacheTheorems.MemoryFirstIsMostRecent` | src/devops_cli/ai/response_cache.py:125-145 | Looking in memory first and on disk only without a match finds the most recently accessed match of both tiers together. |
| `CacheTheorems.MemoryIsTransparent` | src/devops_cli/ai/response_cache.py:228-380 | A cache that has lost its memory answers every operation alike and leaves the same files, counters and clock; only the count that clear returns can tell. |
| `CacheTheorems.RunsAlike` | src/devops_cli/ai/response_cache.py:228-380 | A cache that forgets its memory before each operation can do every run of the cache, and whenever it does, it gives the same replies and ends with the same files, counters and clock. |
| `CacheTheorems.HitIsLatest` | src/devops_cli/ai/response_cache.py:228-326 | A hit returns the content and creation time of the latest set of the key since its last delete or clear, no older than the time to live. |
| `CacheTheorems.HitIffLive` | src/devops_cli/ai/response_cache.py:50-54 | A lookup hits exactly when the cache is enabled, the key valid and its file readable and not expired. |
| `CacheTheorems.StepStaysFaithful` | src/devops_cli/ai/response_cache.py:228-380 | Every operation keeps the counters equal to the enabled, valid-key lookups since the last clear, and every file equal to the latest set of its key. |
| `CacheTheorems.RunStaysFaithful` | src/devops_cli/ai/response_cache.py:228-380 | The same in every reachable state, and both tiers stay within a positive limit that the disk starts in. |
| `CacheCounts.RunStaysCounted` | src/devops_cli/ai/response_cache.py:228-380 | Over every run hits is the number of lookups answered with an entry since the last clear, misses that of the other ones that count, and the hit count of an entry that of its answers since it was set. |
| `CacheCounts.GetStaysCounted` | src/devops_cli/ai/response_cache.py:247-265 | A hit returns a hit count one higher than before and the access time of that lookup. |
| `CacheLru.StepStaysComplete` | src/devops_cli/ai/response_cache.py:228-380 | Nothing that callers stored gets lost before it has outlived its time, or before as many other keys as a positive limit have been used since its own last use. |
| `CacheLru.EveryLookupAnswers` | src/devops_cli/ai/response_cache.py:228-326 | Over every run each hit returns the latest set of its key, not outlived; a lookup of such a key misses only if at least `limit` other keys were set or hit since it was last set or hit itself. |
| `CacheLru.TrackMeans` | src/devops_cli/ai/response_cache.py:228-326 | The keys counted there are exactly the keys set or hit after the key's own last set or hit. |
| `CacheLru.EvictedIsCrowded` | src/devops_cli/ai/response_cache.py:107-122 | Eviction drops a file only when as many newer ones as the limit are kept. |
| `CacheLru.EmptyStart` | src/devops_cli/ai/response_cache.py:185-188 | A new cache over an empty directory satisfies the invariant and agrees with a caller that has stored nothing. |
| `CacheIdeal.StepRefines` | src/devops_cli/ai/response_cache.py:228-380 | Every operation of the cache is one of a single list of keys, least recently used first, cut to the limit from the front, with a time to live; its reply is that of the list. |
| `CacheIdeal.RunRefines` | src/devops_cli/ai/response_cache.py:228-380 | Over every run each lookup hits exactly when the list does, with the same content and creation time, and each search for a starting point returns the last match of the list. |
| `CacheIdeal.EvictionRefines` | src/devops_cli/ai/response_cache.py:472-486 | Evicting by file time leaves exactly the last keys of the list. |
| `CacheIdeal.StartingPointRefines` | src/devops_cli/ai/response_cache.py:328-349 | The most recently accessed match of both tiers is the last match of the list. |
| `CacheSuggestions.EverySearchAnswers` | src/devops_cli/ai/response_cache.py:75-83 | Over every run a search answers the content of the last key of the list that lives and carries the tag asked for or begins with the prefix, and nothing exactly when there is no such key; empty tags and prefixes ask for nothing. |
| `CacheSuggestions.StoredIsFound` | src/devops_cli/ai/response_cache.py:278-349 | What was stored with a tag is what a search for that tag finds next, within the time to live. |
| `CacheSuggestions.ValidKeys` | src/devops_cli/ai/response_cache.py:148-156 | Valid keys are llm_ and 64 hexadecimal characters, and nothing else is. |
| `CacheIdeal.ListExists` | src/devops_cli/ai/response_cache.py:437-459 | Every well-timed directory has such a list to start from. |
| `CacheTheorems.SetWithinLimit` | src/devops_cli/ai/response_cache.py:278-326 | After a set with a positive limit both tiers are within it and the entry just stored is in both. |
| `CacheTheorems.StaysWithinLimit` | src/devops_cli/ai/response_cache.py:253-265 | If the disk is within the limit, every operation leaves it there and memory no larger than the disk, promotion included. |
| `CacheOverfill.StepOverfillsIff` | src/devops_cli/ai/response_cache.py:228-380 | From a memory within a positive limit, an operation ends beyond the limit exactly when it is a lookup that promotes a live file while memory is full. |
| `CacheOverfill.OverfillIff` | src/devops_cli/ai/response_cache.py:253-265 | A new process can come to hold more than the limit, by any operations or by lookups alone, if and only if it is enabled and more keys than the limit can be looked up one after the other before they expire. |
| `CacheOverfill.OverfillIffManyFiles` | src/devops_cli/ai/response_cache.py:253-265 | Without a time to live: if and only if there are more valid, readable files than the limit. |
| `CacheOverfill.PromotionCanOverfill` | src/devops_cli/ai/response_cache.py:253-265 | Two entries are stored with the limit two; a new process over them with the limit one can come to hold two. |
| `ResponseCache.LLMResponseCache.constructor` | src/devops_cli/ai/response_cache.py:162-188 | A new cache has an empty memory, zero counters and the files that it finds. |
| `ResponseCache.LLMResponseCache.LoadFromDisk` | src/devops_cli/ai/response_cache.py:419-435 | The entry of the file if it is readable and for this key; a file for another key is dropped, any other stays. |
| `ResponseCache.LLMResponseCache.Get` | src/devops_cli/ai/response_cache.py:228-268 | Reply, both tiers and counters after a lookup, for hit, promotion, expiry, misfiled file and miss. |
| `ResponseCache.LLMResponseCache.Set` | src/devops_cli/ai/response_cache.py:278-326 | The entry returned is new; unless the cache is off or the key invalid, both tiers hold it and are then evicted to the newest. |
| `ResponseCache.LLMResponseCache.Delete` | src/devops_cli/ai/response_cache.py:270-276 | A valid key leaves both tiers, an invalid one changes nothing. |
| `ResponseCache.LLMResponseCache.EvictExcessDiskFiles` | src/devops_cli/ai/response_cache.py:107-122 | Exactly the newest files up to the limit remain, unchanged. |
| `ResponseCache.LLMResponseCache.EvictExcessMemory` | src/devops_cli/ai/response_cache.py:477-483 | Exactly the most recently accessed entries up to the limit remain, unchanged. |
| `ResponseCache.LLMResponseCache.EnforceCapacity` | src/devops_cli/ai/response_cache.py:472-486 | With a positive limit both tiers are evicted, otherwise neither. |
| `ResponseCache.LLMResponseCache.Clear` | src/devops_cli/ai/response_cache.py:370-380 | Both tiers and counters are empty; the count returned is the entries plus the files there were. |
| `ResponseCache.LLMResponseCache.LoadAllValidDiskEntries` | src/devops_cli/ai/response_cache.py:437-459 | The loop over the files returns the valid, readable entries that have not expired, and drops exactly the misfiled files. |
| `ResponseCache.FindStartingPointCandidates` | src/devops_cli/ai/response_cache.py:125-145 | The unexpired matches in memory, or, only if there are none, the matches among the disk entries. |
| `ResponseCache.LLMResponseCache.GetStartingPoint` | src/devops_cli/ai/response_cache.py:328-349 | The content of the most recently accessed match that has not expired, if any; misfiled files are dropped, nothing else changes. |
| `ResponseCache.ContentOfLatest` | src/devops_cli/ai/response_cache.py:345-349 | Sorting the candidates yields the content of a most recently accessed one, and nothing only without candidates. |
| `ResponseCache.DroppingFrontKeepsNewest` | src/devops_cli/ai/response_cache.py:112-118 | Deleting the front of the sorted list keeps the newest. |
| `ContextPacker.FindTruncationIndex` | src/devops_cli/ai/context_packer.py:293-328 | With any token cost and any estimates the search ends at a prefix that fits while the next longer one does not, and returns its text. |
| `ContextPacker.CutIsLargest` | src/devops_cli/ai/context_packer.py:293-328 | With a monotone cost such a prefix is the largest that fits: exactly the prefixes up to it fit. |
| `ContextPacker.CutIsUnique` | src/devops_cli/ai/context_packer.py:293-328 | With a monotone cost the estimates have no influence on the result. |
| `ContextPacker.TotalWeightAdds` | src/devops_cli/ai/context_packer.py:344-345 | The estimate of a body is the sum of the estimates of its statements. |
| `ContextPacker.PruneTreeToBudget` | src/devops_cli/ai/context_packer.py:331-371 | A prefix of the body (without docstrings, if only the estimate fitted) is kept, exactly the removed names are appended in order, "not truncated" means an untouched tree, and a text other than the placeholder fits the budget. |
| `ContextPacker.LogRemoved` | src/devops_cli/ai/context_packer.py:362-364 | The names of the removed statements are appended in order. |
| `Fnv32.Fnv32a` | src/devops_cli/argo/crd.py:57-62 | The loop computes the hash that the following lemmas are about. |
| `Fnv32.XorLowBits` | src/devops_cli/argo/crd.py:61 | The low bits of an exclusive or depend only on the low bits of its operands. |
| `Fnv32.RoundInjective` | src/devops_cli/argo/crd.py:61 | A round loses nothing: one byte keeps different states different, and one state sends different bytes apart. |
| `Fnv32.SameTail` | src/devops_cli/argo/crd.py:57-62 | The same bytes lead different states to different hashes. |
| `Fnv32.CollisionIsLocal` | src/devops_cli/argo/crd.py:57-62 | Two texts with common front and back collide exactly when their middles do from the state after the front. |
| `Fnv32.OneByteDecides` | src/devops_cli/argo/crd.py:57-62 | Two byte strings of one length that differ in exactly one byte never have the same hash. |
| `Fnv32.ProductsPart` | src/devops_cli/argo/crd.py:61 | States that differ only in the low 8 bits differ above them after the multiplication, so that one more byte cannot make them equal. |
| `Fnv32.AdjacentBytesDecide` | src/devops_cli/argo/crd.py:57-62 | Two different byte strings of one length that differ only within two adjacent bytes never have the same hash. |
| `Fnv32.MaskOnce` | src/devops_cli/argo/crd.py:57-62 | Masking in every round gives the hash that masking once at the end gives. |
| `Fnv32.HashOfA` | src/devops_cli/argo/crd.py:57-62 | The hash of the one byte of "a" is the published one. |
| `ArgoNames.ExtensionRemoved` | src/devops_cli/argo/crd.py:69-70 | A container's name loses one extension, and loses one whenever it has one. |
| `ArgoNames.PodNodeNameMeans` | src/devops_cli/argo/crd.py:67-72 | The name that is hashed is the first of name, id and node id that is not empty, without its extension for a container and only then. |
| `ArgoNames.PodNameMeans` | src/devops_cli/argo/crd.py:74-84 | A derived name is at most 242 characters of the workflow and template names, a dash, and the hash in decimal; it begins with both names in full whenever they fit. |
| `ArgoNames.DecimalMeans` | src/devops_cli/argo/crd.py:84 | The hash is written in decimal digits, most significant first, without leading zeros. |
| `ArgoNames.Utf8Means` | src/devops_cli/argo/crd.py:60 | The bytes that are hashed are the UTF-8 form of the name, section 3 of RFC 3629. |
| `ArgoNames.NodeNamesDoNotCollide` | src/devops_cli/argo/crd.py:57-62 | Node names with parts in one place whose UTF-8 forms differ, but only within two adjacent bytes, never have the same hash. |
| `ArgoNames.OneCharacterDecides` | src/devops_cli/argo/crd.py:57-62 | So names that differ in one character do not, if both characters have UTF-8 forms of one length and lie in one block of 4096. |
| `ArgoNames.PodsDifferIff` | src/devops_cli/argo/crd.py:65-84 | Under one prefix, two derived pod names are equal if and only if the node names have the same hash. |
| `ArgoNames.PodsDiffer` | src/devops_cli/argo/crd.py:65-84 | Under one prefix, nodes whose names differ in one such character get different pod names. |
| `ArgoNames.PodNameFits` | src/devops_cli/argo/crd.py:74-84 | A derived pod name is within the resource name limit unless it is the workflow name itself. |
| `GatewayRender.ProcessDeploymentBlock` | src/devops_cli/ai/gateway_render.py:97-116 | If the first service that a line of the entry names has a known length, every token limit put out is that length and nothing else of a line changes; otherwise all lines stay as they are; in either case the weight lines, and only they, are gone. |
| `GatewayRender.RenderPlaces` | src/devops_cli/ai/gateway_render.py:119-149 | In a file in which nothing is overtaken every entry of the list is put out in its place, processed in that way by the service that it names first. |
| `GatewayRender.RenderLeaves` | src/devops_cli/ai/gateway_render.py:127-144 | There, every line outside the list, every model_list line and every section header is put out in its place as it is. |
| `GatewayRender.RenderedEntries` | src/devops_cli/ai/gateway_render.py:119-149 | In every rendered file every entry of the list has no weight line, and if the first service that it names has a known length, all its token limits are that length. |
| `GatewayRender.LinesOutMeans` | src/devops_cli/ai/gateway_render.py:106-116 | A processed entry has no weight line, names the same first service, and every token limit is the length that was given. |
| `GatewayRender.ProcessTwice` | src/devops_cli/ai/gateway_render.py:97-116 | Processing a processed entry changes nothing. |
| `GatewayRender.RenderGatewayConfig` | src/devops_cli/ai/gateway_render.py:119-149 | The pending-block loop puts out what the function Render says, which the lemmas below relate to splitting, processing and joining. |
| `GatewayRender.RenderIsReferenceIff` | src/devops_cli/ai/gateway_render.py:119-149 | Rendering is splitting the list into entries, processing each and joining, if and only if no model_list line is met while a line to be kept is pending. |
| `GatewayRender.LoopIsReferenceIff` | src/devops_cli/ai/gateway_render.py:126-147 | The same from any point of the loop with any pending block. |
| `GatewayRender.ReferenceKeepsLines` | src/devops_cli/ai/gateway_render.py:119-149 | Outside the list nothing changes; inside it only weight lines vanish and only token limits change; all lines keep their order. |
| `GatewayRender.RenderLosesNoLine` | src/devops_cli/ai/gateway_render.py:119-149 | On every file, nested lists included, each line is put out as often as it came, except the weight lines inside the list. |
| `GatewayRender.RenderTwiceIff` | src/devops_cli/ai/gateway_render.py:119-149 | Rendering a rendered file changes nothing exactly when no model_list line in it overtakes a pending line. |
| `GatewayRender.RenderLifts` | src/devops_cli/ai/gateway_render.py:119-149 | Every rendering lifts each model_list line by exactly one block of kept lines, until it stands below none. |
| `GatewayRender.RenderIsIdempotentIff` | src/devops_cli/ai/gateway_render.py:119-149 | Rendering is idempotent on a file if and only if no model_list line of it stands below two blocks of kept lines in its section. |
| `GatewayRender.RenderingSettlesIff` | src/devops_cli/ai/gateway_render.py:119-149 | After n renderings another changes nothing if and only if no model_list line of the file stands below more than n blocks. |
| `GatewayRender.RenderingSettles` | src/devops_cli/ai/gateway_render.py:119-149 | So repeated rendering settles on every file, after at most one rendering more than it has entries. |
| `GatewayRender.RenderIsIdempotent` | src/devops_cli/ai/gateway_render.py:119-149 | In particular on every file where nothing is overtaken. |
| `GatewayRender.NestedListMovesUp` | src/devops_cli/ai/gateway_render.py:127-130 | A second model_list line after two entries moves up by one entry with every rendering. |
| `GatewayRouter.ApplyKeepsInv` | src/devops_cli/ai/gateway.py:529-693 | Probe, failover, simulation, refusal, reset and restart keep the route invariant, whether or not the file could be written or read. |
| `GatewayRouter.ReachableKeepsInv` | src/devops_cli/ai/gateway.py:86-91 | In every reachable state the virtual models are the default ones in order, targets and URLs are those of default routes, failovers nest no deeper than the fallback chain, and a failover route means a tripped breaker. |
| `GatewayRouter.FirstStart` | src/devops_cli/ai/gateway.py:162-165 | A start without a state file satisfies the invariant. |
| `GatewayRouter.FallbackOk` | src/devops_cli/ai/gateway.py:218-231 | The route that a failover takes over belongs to a default route and is one failover less deep than the chain allows. |
| `GatewayRouter.FailoverTakesEffect` | src/devops_cli/ai/gateway.py:641-680 | A failover that is neither refused nor simulated gives the route of its model, and only that, the target and URL of the route it takes over and a backend one failover deeper, trips the breaker and names the new target. |
| `GatewayRouter.FailoverIsProbed` | src/devops_cli/ai/gateway.py:558-559 | The next probe, whatever it finds, lists the model as failed over and leaves the breaker tripped. |
| `GatewayRouter.OtherFailoversChangeNothing` | src/devops_cli/ai/gateway.py:631-680 | A refused, simulated or unknown failover leaves the state alone, and says which of these it was. |
| `GatewayRouter.ProbeMeans` | src/devops_cli/ai/gateway.py:554-571 | A probe marks every route with its answer and latency and leaves the rest of the routes; the breaker is tripped exactly when the probe failed or some route is failed over. |
| `GatewayRouter.FailoversInOrder` | src/devops_cli/ai/gateway.py:128-130 | The failed-over models are listed in the order of the routes, none left out. |
| `GatewayRouter.OpenMeans` | src/devops_cli/ai/gateway.py:162-183 | Without a readable file a router opens with the default routes and a closed breaker. |
| `GatewayRouter.SavedOrIsLast` | src/devops_cli/ai/gateway.py:170-179 | Of several failover routes that a file lists for one model the last one counts, and other routes count for nothing. |
| `GatewayRouter.SaveThenLoad` | src/devops_cli/ai/gateway.py:162-215 | Save and load bring back the breaker and every failover route as it was; the other routes come back as their defaults. |
| `GatewayRouter.OnlyResetRestores` | src/devops_cli/ai/gateway.py:529-693 | While the file can be written and read, a failed-over route stays as it is, but for health and latency, through every operation but a reset or a failover of its own. |
| `GatewayRouter.OnlyResetEverRestores` | src/devops_cli/ai/gateway.py:529-693 | Over every run of such operations, what is failed over stays failed over until a reset. |
| `GatewayRouter.StaysFailedOverIff` | src/devops_cli/ai/gateway.py:484-693 | With no such assumption, an operation leaves a failed-over route failed over exactly when it is neither a reset nor a restart that finds no such route in the file; a reset restores all routes and closes the breaker. |
| `GatewayRouter.Router.constructor` | src/devops_cli/ai/gateway.py:484-497 | A router starts with the breaker and failover routes of the file, or with the defaults. |
| `GatewayRouter.Router.SaveState` | src/devops_cli/ai/gateway.py:186-215 | Only failover routes are written, and a failed save leaves the old file. |
| `GatewayRouter.Router.ProbeGateway` | src/devops_cli/ai/gateway.py:554-592 | A probe updates health, keeps failover routes and reports them, and leaves the breaker tripped while there are any. |
| `GatewayRouter.Router.TriggerFailover` | src/devops_cli/ai/gateway.py:624-680 | Routes, breaker, file and outcome for an unknown model, a refusal, a simulation and a failover. |
| `GatewayRouter.Router.ResetFailover` | src/devops_cli/ai/gateway.py:682-693 | The defaults are restored, and the virtual models that were failed over are returned. |
| `Lexical.TermCounts` | src/devops_cli/ai/lexical.py:58-60 | Every token of a document and no other word has a count, and it is the number of its occurrences. |
| `Lexical.ScoreDocument` | src/devops_cli/ai/lexical.py:47-70 | The loop over counts computes the sum that TermScoreSign, TermScoreBounded and RankedIffShares are about. |
| `Lexical.Bm25Scores` | src/devops_cli/ai/lexical.py:73-122 | The result is the front, up to the limit, of a ranking that lists exactly the documents with a positive score, each once, by falling score and then rising index. |
| `Lexical.WeightIsPositive` | src/devops_cli/ai/lexical.py:41-44 | However many documents hold a term, its weight is positive, not only "never negative". |
| `Lexical.TermScoreSign` | src/devops_cli/ai/lexical.py:63-69 | An occurring term adds a positive score exactly when k1 is above -1, whatever b is; a missing one adds nothing. |
| `Lexical.RankedIffShares` | src/devops_cli/ai/lexical.py:73-122 | A document is ranked exactly when it contains a query term and k1 is above -1. |
| `Lexical.EmptyIffNoTermAppears` | src/devops_cli/ai/lexical.py:118-121 | The complete ranking is empty exactly when no query term appears in any document or k1 is at most -1. |
| `Lexical.RankingSize` | src/devops_cli/ai/lexical.py:100-121 | With k1 above -1 the ranking has one match for each document that shares a term with the query. |
| `Lexical.ResultEmptyIff` | src/devops_cli/ai/lexical.py:73-122 | The list that is returned is empty exactly when no query term appears, k1 is at most -1, the limit is 0, or a negative limit cuts off as many matches as documents share a term. |
| `Lexical.TermScoreBounded` | src/devops_cli/ai/lexical.py:67-69 | With k1 not negative and b in [0, 1] no term adds more than its weight times k1 + 1. |
| `Lexical.RankingIsUnique` | src/devops_cli/ai/lexical.py:118-121 | The order leaves no choice: one set of matches has one ranking. |
| `LexicalOrder.RarerWeighsMore` | src/devops_cli/ai/lexical.py:41-44 | The fewer documents contain a term, the greater its weight. |
| `LexicalOrder.RarerFirst` | src/devops_cli/ai/lexical.py:47-122 | Of two documents of one length that hold one query term each, equally often, the one with the rarer term comes first. |
| `LexicalOrder.MoreFirst` | src/devops_cli/ai/lexical.py:47-122 | Of two documents of one length that hold one, equally rare, query term each, the one with more occurrences comes first, for k1 positive and b in [0, 1]. |
| `LexicalOrder.ShorterFirst` | src/devops_cli/ai/lexical.py:47-122 | Of two documents that hold one, equally rare, query term each, equally often, the shorter comes first, for k1 and b positive and b at most 1. |
| `LexicalOrder.HigherIsAhead` | src/devops_cli/ai/lexical.py:118-121 | Of two documents with positive scores the one with the higher score comes first, of equal ones the first in the input. |
| `LexicalOrder.AheadInResult` | src/devops_cli/ai/lexical.py:122 | If the second of two ranked documents is returned, so is the first, before it. |
| `LexicalOrder.UpToIsFront` | src/devops_cli/ai/lexical.py:122 | The result is a front of the ranking, of the length that the limit says. |
| `LexicalOrder.FrequencyIsHolding` | src/devops_cli/ai/lexical.py:98 | The document frequency of a term is the number of documents that contain it. |
| `LexicalOrder.CountIsMultiplicity` | src/devops_cli/ai/lexical.py:58-60 | The count of a term in a document is the number of its occurrences. |
| `LexicalOrder.AverageMeans` | src/devops_cli/ai/lexical.py:97 | The average length, times the number of documents, is their total length. |
| `ToolPaging.ExtractToolInvocations` | src/devops_cli/ai/response_repair.py:286-313 | Nothing for a blank text, the extractor's own result for a text of one page, otherwise the first call of each key over all pages. |
| `ToolPaging.CollectFromPages` | src/devops_cli/ai/response_repair.py:298-313 | The loop terminates with the first call of each key, over the pages in order. |
| `ToolPaging.AddNew` | src/devops_cli/ai/response_repair.py:306-310 | The result and the keys seen stay the first calls and the keys of all calls so far. |
| `ToolPaging.FirstsMeans` | src/devops_cli/ai/response_repair.py:298-313 | The calls returned are those at the first position of each key, in first-seen order. |
| `ToolPaging.FirstsKeys` | src/devops_cli/ai/response_repair.py:306-310 | No key is lost and none is returned twice. |
| `ToolPaging.FirstsByFields` | src/devops_cli/ai/response_repair.py:306-310 | Calls that differ in tool name or raw syntax are both returned; of calls that agree in both, the first. |
| `ToolPaging.FoundInOrder` | src/devops_cli/ai/response_repair.py:303-311 | What a page adds stands between what the pages before it and after it add. |
| `ToolPaging.PageIs` | src/devops_cli/ai/response_repair.py:303-304 | Page k holds the characters from k steps on, as many as a page takes. |
| `ToolPaging.CoversIffWithinOverlap` | src/devops_cli/ai/response_repair.py:300-311 | For any page size and smaller overlap, all spans of a length lie on one page in every text if and only if the length is at most the overlap plus one. |
| `ToolPaging.SeenWholeIffWithinOverlap` | src/devops_cli/ai/response_repair.py:300-311 | For any page size and smaller overlap, every span of a length in every text occurs in one of the scanned pages if and only if the length is at most the overlap plus one. |
| `ToolPaging.ListedIsPage` | src/devops_cli/ai/response_repair.py:303-311 | Every scanned page begins at a multiple of the step, inside the text. |
| `ToolPaging.ShortSpansAreSeenWhole` | src/devops_cli/ai/response_repair.py:300-311 | In a long text every such span lies on a scanned page all of whose calls are in the result, up to calls with an equal key. |

## Left out

- ThinkingStream.ThinkingFSM.constructor: takes resolved tags and state; the error on an empty tag is modelled in the two whole-text entry points, the length of the tag tuple is ruled out by its type, and model profiles are not part of this model.
- Callbacks of the thinking stream: recorded as a list of notices, all four present; what they do, console rendering, model responses and the values that the whole-text entry points leave on their own function objects are not modelled.
- ResponseCache.LLMResponseCache.Get: the clock readings of one operation are drawn at its start, and entries are values, so a caller that changes a returned entry is not captured.
- ResponseCache.LLMResponseCache.GetStartingPoint: one clock reading serves the whole search, where the code reads the clock for each entry; files and entries are visited in any order.
- Cache surroundings: the disk is a map without I/O failure, one thread holds the lock, times are integers that strictly increase by arbitrary amounts; key hashing, statistics in bytes and the fields that are only carried along (kept as one text) are not modelled.
- ContextPacker.PruneTreeToBudget: statements, estimates, printer, token counter, names and docstring removal are parameters; the placeholder itself may exceed a tiny budget, so the bound excludes it.
- Fallback of the context packer for code that does not parse: not modelled.
- GatewayRender.RenderGatewayConfig: lines carry the answers of the five line patterns; the patterns, line splitting and number texts are not modelled. A weight line is taken to be no entry, no model_list line and to name no service, as the patterns imply.
- GatewayRouter.Router.ProbeGateway: the HTTP probe is its answer and latency; addresses, credentials, telemetry, provider switching and remote route discovery are not modelled.
- GatewayRouter.Router.TriggerFailover: the capability gate is its answer.
- GatewayRouter.ReachableKeepsInv: state files that something else wrote are outside its runs.
- Lexical.Bm25Scores: works on token lists over the reals; word splitting, case folding, rounding and the logarithm itself (only "positive above 1" and, for the order of documents, "increasing from 1 on" are used) are not modelled.
- ToolPaging.ExtractToolInvocations: the extractor of one page is a parameter.
- ArgoNames.PodsDiffer: speaks of names that differ within two adjacent bytes of their UTF-8 forms; for other differences a 32-bit hash admits collisions.
- ThinkingStream.StrippingTwiceIff: for tags that begin or end in white space only one direction holds, since stripping the ends may cut such a tag (`ThinkingStream.SpacedTagsHideASeam`).
- CacheOverfill.OverfillIff: the clock advances by at least one tick with each of the three readings of a lookup, and expiry is judged on those ticks.
- The Argo and Kubernetes services, web search and fetch, review schemas, severity and routing tables and other code of the repository: I/O, library behaviour or easy members.
