# Verified model of the retrieval pipeline

A Dafny model of the stateful and arithmetic core of a retrieval-augmented generation toolkit: bulk
ingestion, chunking, caching, vector search, fusion, context assembly and ranking metrics. Each
module follows one part of the Python packages and proves what that part is for.

Code that changes state in loops is a method or a class; each method is proved against a
specification function, and the lemmas are about that function. Concurrency is a step relation whose
steps are the code between two awaits, so a theorem about runs holds for every interleaving. Scores
are exact reals; clocks, tokenizers, the square root and the logarithm are parameters.

| module | what it models | main results |
|---|---|---|
| MassIngest | a bulk ingestion run: producer, bounded queue, workers, stage semaphores, dedup index, durable tables, crash and resume | safety at every moment, outcome of a completed run, exactly when runs complete, crash recovery |
| Dedup | near-duplicate merging with a hand-written union-find | clusters are connected components, idempotence, what a kept hit stands for, which texts are merged |
| Cache | the LRU and TTL cache and its instrumentation | last value read, budgets, conservation, exactly when LRU inclusion holds |
| RecursiveChunker, StructuralChunker, Sections | separator chunker, heading stack, section splitting | only separators and headings are lost, the budget, the one greedy grouping, declarative section paths |
| PageMap | the page map of a document | exactly when a page is found at its true place |
| Tokenization | SimpleTokenizer and the token window | inverse tables, round trip, windows cover |
| Ordering, Strategies, ContextBuilder | orderings, budget, cap, overlap merging | fairness, no item lost, budget after merging, words kept, when one merging pass is enough |
| Executor, Fusion, FusionShares, FusionOrder, Hybrid | parallel retrieval and score fusion | completion order does not matter, one list keeps its order |
| Metrics | recall, precision, MRR, AP, nDCG | exactly when they stay in range, when nDCG is one, swap monotonicity |
| VectorStore | the in-memory vector store | a map in a list, Cauchy-Schwarz, nothing better left out |
| Text, WordSplit, Sorting, Permutation, Reals | string search, word splitting, sorting, order-independence, ratios | used by the others |

Where the code and its description disagree the model follows the code: documents without scores are
said to sort after scored ones but are ranked as if they scored zero (`Ordering.UnscoredRank`), and
the token overlap between adjacent chunks is cut short by the separator between them
(`RecursiveChunker.OverlapExactly`).
Properties that fail are stated with the input that breaks them and the exact
condition: `PageMap.JoinedDocument`, `Cache.InclusionExactly`, `Metrics.RecallExactly`,
`Metrics.AveragePrecisionExactly`, `Metrics.NdcgExactly`, `ContextBuilder.OnePassExactly`,
`MassIngest.CompletesExactly`, `StructuralChunker.BudgetExactly`, `Ordering.UnscoredRank`,
`RecursiveChunker.OverlapExactly`, `Dedup.ExactlyDuplicatesMerge`, `Dedup.NearDuplicatesMerge`.

`dafny verify dfyconfig.toml` checks the whole project.

## Model

| member | source | states |
|---|---|---|
| MassIngest.SafeAtEveryMoment | packages/rag-mass-inject/src/rag_mass_inject/pipeline.py:162-204 | In every interleaving and at every moment: no hash has been handed to the embedder twice, no file has two outcomes, stage limits and the queue bound of `2 * max_workers` hold, `processed` counts the finished files |
| MassIngest.CompletedRun | packages/rag-mass-inject/src/rag_mass_inject/pipeline.py:167-209 | A run marked completed: each discovered file has exactly one of the four outcomes, each outcome is backed by the tables, the dead-letter table has grown by the files dead-lettered alone, the job row shows `total` processed items, every worker has taken its sentinel and returned, the queue is empty |
| MassIngest.WritesOnlyOutcomes | packages/rag-mass-inject/src/rag_mass_inject/pipeline.py:278-317 | In every run and at every moment: the dead-letter table has grown by the files dead-lettered, in order, and by nothing else; a new checkpoint is that of an ingested file with its source, old ones are unchanged; a newly indexed hash has its checkpoint or is about to get it; other jobs are untouched |
| MassIngest.OutcomesAreCaused | packages/rag-mass-inject/src/rag_mass_inject/pipeline.py:259-317 | Failed parses and embeddings are as many as the dead letters, written or about to be; successful embeddings as many as the ingested files, recorded or about to be |
| MassIngest.ReportsProgress | packages/rag-mass-inject/src/rag_mass_inject/pipeline.py:180-188 | The job row never runs ahead of the files finished; with one worker it is exact whenever none is being written |
| MassIngest.NeverStuck | packages/rag-mass-inject/src/rag_mass_inject/pipeline.py:165-197 | With at least one worker, some step is enabled until the job is marked completed, unless somebody waits for a stage whose limit is 0 |
| MassIngest.EveryRunCompletes | packages/rag-mass-inject/src/rag_mass_inject/pipeline.py:165-209 | Every interleaving is finite, with an explicit bound on its steps, and where the limits let through whatever has to pass it cannot be extended exactly when the job is marked completed |
| MassIngest.CompletesExactly | packages/rag-mass-inject/src/rag_mass_inject/pipeline.py:165-209 | Every interleaving that cannot be extended is marked completed if and only if there are no files, or the parse limit is not 0 and the embed limit is not 0 or the run resumes and every file is checkpointed |
| MassIngest.StepsDecrease | packages/rag-mass-inject/src/rag_mass_inject/pipeline.py:165-197 | A measure over files to produce, queued items and the stages of all workers falls with every step |
| MassIngest.ParseLimitZeroNeverCompletes | packages/rag-mass-inject/src/rag_mass_inject/workers.py:32-47 | With a parse limit of 0, which is accepted, no run over at least one file is ever marked completed |
| MassIngest.EmbedLimitZeroBlocks | packages/rag-mass-inject/src/rag_mass_inject/workers.py:32-47 | With an embed limit of 0 a run that admits a hash is never marked completed, unless it resumes and the hash has a checkpoint |
| MassIngest.CrashAndResume | packages/rag-mass-inject/src/rag_mass_inject/pipeline.py:275-289 | After any crashes and re-runs: checkpoints are never lost and always mean an indexed hash, a resuming run embeds no hash checkpointed before, and a completed run leaves every file's content indexed unless a file of that content was dead-lettered in that run |
| MassIngest.HistoryExtends | packages/rag-mass-inject/src/rag_mass_inject/jobs.py:195-219 | Over any sequence of runs cut off anywhere, the checkpoint table and the index only grow and stay consistent with each other |
| MassIngest.InvKept | packages/rag-mass-inject/src/rag_mass_inject/pipeline.py:234-317 | Every step keeps the whole invariant of the run |
| MassIngest.QueueKept | packages/rag-mass-inject/src/rag_mass_inject/workers.py:54-83 | The queue stays the produced and not yet taken part of the schedule, in order and within its bound |
| MassIngest.StagesKept | packages/rag-mass-inject/src/rag_mass_inject/workers.py:20-51 | Free permits plus tasks inside a stage stay equal to the stage's limit, on success and failure alike |
| MassIngest.FilesKept | packages/rag-mass-inject/src/rag_mass_inject/pipeline.py:167-188 | Each file stays in exactly one place: not yet taken, held by one worker, or finished once |
| MassIngest.AttemptsKept | packages/rag-doc-handler/src/rag_doc_handler/pipeline.py:95-107 | Check-and-add on the dedup index lets a hash through once, however parses interleave |
| MassIngest.CoverKept | packages/rag-mass-inject/src/rag_mass_inject/pipeline.py:259-317 | Every hash in the dedup index stays accounted for: indexed, dead-lettered in this run, or held by a worker |
| Dedup.UnionFind.Find | packages/rag-context/src/rag_context/dedup.py:55-61 | Ends, returns the root of the node, and path compression changes no node's root |
| Dedup.UnionFind.Union | packages/rag-context/src/rag_context/dedup.py:63-66 | The two classes become one and no other node's class changes |
| Dedup.RepIsReached | packages/rag-context/src/rag_context/dedup.py:55-61 | Following parents from any node reaches its root in finitely many steps: the forest is acyclic |
| Dedup.Cluster | packages/rag-context/src/rag_context/dedup.py:48-85 | The clusters are the connected components of the "Jaccard >= threshold" graph |
| Dedup.ComponentFacts | packages/rag-context/src/rag_context/dedup.py:76-85 | A component lists exactly the indices connected to its smallest one, ascending; components come in order of their smallest index |
| Dedup.ComponentsCover | packages/rag-context/src/rag_context/dedup.py:76-85 | Every index is in some component |
| Dedup.ComponentsSeparate | packages/rag-context/src/rag_context/dedup.py:68-85 | Two indices are in the same component exactly when a chain of similar pairs connects them |
| Dedup.DedupeHits | packages/rag-context/src/rag_context/dedup.py:88-139 | Grouping by key and, on request, clustering of the representatives give the specified list |
| Dedup.SameWordsMerge | packages/rag-context/src/rag_context/dedup.py:105-121 | Hits with the same non-empty list of words are merged into one kept hit, in either mode |
| Dedup.KeptWordsDiffer | packages/rag-context/src/rag_context/dedup.py:88-139 | No two kept hits have the same words |
| Dedup.ExactlyDuplicatesMerge | packages/rag-context/src/rag_context/dedup.py:105-121 | Without near-duplicates exactly these are merged: the same words; no words and the same chunk id; or a chunk id without words that reads like the other text |
| Dedup.NearDuplicatesMerge | packages/rag-context/src/rag_context/dedup.py:48-85 | With near-duplicates, hits sharing at least the threshold of their words are merged if and only if their texts are the same or both are represented by hits with words |
| Dedup.KeptOverlapLittle | packages/rag-context/src/rag_context/dedup.py:126-139 | Kept hits share less than the threshold of their words |
| Dedup.KeptInOrder | packages/rag-context/src/rag_context/dedup.py:105-139 | Kept hits come in the order in which their classes first appear |
| Dedup.BestIsFirst | packages/rag-context/src/rag_context/dedup.py:39-45 | Of the hits with the highest score the first is kept |
| Dedup.Idempotent | packages/rag-context/src/rag_context/dedup.py:88-139 | Deduplicating a deduplicated list changes nothing, for either mode and any threshold |
| Dedup.KeptHitStandsForClass | packages/rag-context/src/rag_context/dedup.py:33-45 | A kept hit has the maximum score of its merged class and, per strategy, the maximum strategy score over every input hit of the class, each attained |
| Dedup.ClassesPartition | packages/rag-context/src/rag_context/dedup.py:105-139 | Every input hit is merged into exactly one kept hit |
| Dedup.RepresentativeStands | packages/rag-context/src/rag_context/dedup.py:39-45 | The representative of a group stands for the group |
| Dedup.Accumulate | packages/rag-context/src/rag_context/dedup.py:33-36 | Per strategy the larger score wins |
| Cache.MemoryCache.Get | packages/rag-cache/src/rag_cache/backends/memory.py:74-83 | A live entry is returned and becomes the most recent, an expired one is removed, other entries stay; the byte count stays the summed lengths |
| Cache.MemoryCache.Set | packages/rag-cache/src/rag_cache/backends/memory.py:85-95 | Stores the value as the most recent entry and trims; evictions reported equal entries lost to trimming |
| Cache.MemoryCache.Delete | packages/rag-cache/src/rag_cache/backends/memory.py:97-100 | Removes the key and nothing else |
| Cache.MemoryCache.Clear | packages/rag-cache/src/rag_cache/backends/memory.py:102-104 | Leaves no entry |
| Cache.MemoryCache.Trim | packages/rag-cache/src/rag_cache/backends/memory.py:109-114 | Ends within both budgets, dropping oldest entries only |
| Cache.MemoryCache.PopOldest | packages/rag-cache/src/rag_cache/backends/memory.py:116-123 | Drops the oldest entry and calls back once |
| Cache.WithinBudgets | packages/rag-cache/src/rag_cache/backends/memory.py:109-123 | After every trace both the item and the byte budget hold |
| Cache.GetReturnsLastSet | packages/rag-cache/src/rag_cache/backends/memory.py:74-95 | On every trace a get returns None or the value last set for that key, unexpired |
| Cache.ReadableAfterSet | packages/rag-cache/src/rag_cache/backends/memory.py:85-114 | Right after a set an unexpired value is readable if and only if it fits `max_bytes` by itself |
| Cache.LivesForItsTtl | packages/rag-cache/src/rag_cache/backends/memory.py:74-95 | A fitting value set at `now` is found later if and only if `later < now + ttl`, with the default ttl where none is given, and always where there is neither |
| Cache.Conservation | packages/rag-cache/src/rag_cache/backends/memory.py:74-123 | Over every trace, new keys inserted equal live plus evicted plus deleted plus expired plus cleared entries |
| Cache.LruInclusion | packages/rag-cache/src/rag_cache/backends/memory.py:74-123 | On one trace and without a byte budget, the entries of the smaller cache are always a subsequence, in LRU order and with equal values and expiries, of those of the larger, so every hit in the smaller is the same hit in the larger |
| Cache.InclusionSet | packages/rag-cache/src/rag_cache/backends/memory.py:85-123 | One set keeps the inclusion: the smaller cache never evicts later than the larger |
| Cache.InclusionExactly | packages/rag-cache/src/rag_cache/backends/memory.py:74-123 | Inclusion, of the entries and of the hits, holds on every trace if and only if there is no byte budget, or the smaller cache has room for one entry, or the capacities are equal |
| Cache.ByteBudgetBreaksInclusion | packages/rag-cache/src/rag_cache/backends/memory.py:109-123 | For every other pair of capacities and every byte budget, a trace after which the smaller cache hits where the larger one misses |
| Cache.InstrumentedCache.constructor | packages/rag-cache/src/rag_cache/stats.py:41-53 | Counts into the statistics given, or into new ones; wires itself to the eviction callback only if none is set |
| Cache.InstrumentedCache.Get | packages/rag-cache/src/rag_cache/stats.py:58-68 | Behaves as the cache and counts a hit or a miss |
| Cache.InstrumentedCache.Set | packages/rag-cache/src/rag_cache/stats.py:70-76 | Behaves as the cache and counts the set and every eviction |
| Cache.InstrumentedCache.Delete | packages/rag-cache/src/rag_cache/stats.py:78-84 | Behaves as the cache and counts the delete |
| Cache.InstrumentedCache.Replay | packages/rag-cache/src/rag_cache/stats.py:50-84 | Over every trace the eviction counter equals the evictions of the conservation ledger |
| RecursiveChunker.SplitRecursively | packages/rag-embedder/src/rag_embedder/chunking/recursive.py:50-71 | Computes the specified split |
| RecursiveChunker.SplitLosesSeparators | packages/rag-embedder/src/rag_embedder/chunking/recursive.py:50-71 | Every character outside the split spans lies in a separator occurrence |
| RecursiveChunker.SplitAtomic | packages/rag-embedder/src/rag_embedder/chunking/recursive.py:50-71 | A span over the budget contains no separator any more |
| RecursiveChunker.FittingPieceStaysWhole | packages/rag-embedder/src/rag_embedder/chunking/recursive.py:50-71 | A piece between two of the first separators that fits the budget is one span |
| RecursiveChunker.Merge | packages/rag-embedder/src/rag_embedder/chunking/recursive.py:73-91 | Computes the specified greedy merge with overlap |
| RecursiveChunker.MergeSteps | packages/rag-embedder/src/rag_embedder/chunking/recursive.py:73-91 | Merged spans have non-decreasing starts and strictly increasing ends |
| RecursiveChunker.MergeFitsOrAtom | packages/rag-embedder/src/rag_embedder/chunking/recursive.py:73-91 | Each merged span fits `chunk_size`, or it ends with one split atom and starts at that atom, moved back by the overlap with the merged span before it |
| RecursiveChunker.MergeBoundary | packages/rag-embedder/src/rag_embedder/chunking/recursive.py:73-91 | Between two merged spans the very next atom would have broken the budget, and the second span starts at it, moved back by the overlap but never before its predecessor |
| RecursiveChunker.MergedSpansAreGreedy | packages/rag-embedder/src/rag_embedder/chunking/recursive.py:73-91 | The split atoms fall into consecutive groups, one a merged span: the span fits with each atom after its first, would not fit with the first of the next group, and starts at its first atom moved back by the overlap |
| RecursiveChunker.GroupingIsUnique | packages/rag-embedder/src/rag_embedder/chunking/recursive.py:73-91 | These conditions determine the merged spans: any two groupings that meet them from the same start agree span by span |
| RecursiveChunker.NewStartMeans | packages/rag-embedder/src/rag_embedder/chunking/recursive.py:85-89 | Without an overlap a span starts at its atom, with one that length before it, never before its predecessor |
| RecursiveChunker.OverlapLength | packages/rag-embedder/src/rag_embedder/chunking/base.py:127-138 | The overlap reaches from the last occurrence of the decoded last tokens to the end, is the whole text if that has no more tokens, and four characters a token where they do not occur |
| RecursiveChunker.OverlapExactly | packages/rag-embedder/src/rag_embedder/chunking/recursive.py:85-89 | Where a finished span ends with its decoded last `overlap` tokens, the next one holds all of them if and only if no separator lies between the two; otherwise it begins as much later |
| RecursiveChunker.OverlapFallsShort | packages/rag-embedder/src/rag_embedder/chunking/recursive.py:50-91 | In the recursive chunker a separator always lies there, so the next span never holds all of them |
| RecursiveChunker.MergeSmallSpans | packages/rag-embedder/src/rag_embedder/chunking/base.py:108-125 | Computes the specified absorption of small spans |
| RecursiveChunker.MergeSmallExactly | packages/rag-embedder/src/rag_embedder/chunking/base.py:108-125 | Exactly the first span and those of the minimum length open a chunk, which runs to the end of the last span before the next of these |
| RecursiveChunker.ChunksStep | packages/rag-embedder/src/rag_embedder/chunking/base.py:108-125 | After absorbing small spans the order is kept and every chunk but the first has the minimum length |
| RecursiveChunker.Chunk | packages/rag-embedder/src/rag_embedder/chunking/recursive.py:42-48 | Splits, merges and absorbs in this order; nothing for an empty text |
| RecursiveChunker.ChunkerLosesOnlySeparators | packages/rag-embedder/src/rag_embedder/chunking/recursive.py:42-91 | After split, merge and small-span merge every character outside all chunks lies in a separator occurrence |
| PageMap.BuildPageMap | packages/rag-embedder/src/rag_embedder/chunking/base.py:46-69 | Computes the specified greedy search |
| PageMap.RangesSpellPages | packages/rag-embedder/src/rag_embedder/chunking/base.py:46-69 | On any document a range spells the text of the page it is recorded for |
| PageMap.LocateMeans | packages/rag-embedder/src/rag_embedder/chunking/base.py:61-65 | A page is located at its first place at or after the position, else at its first place in the text, and nowhere if and only if the text does not contain it |
| PageMap.ContainedPagesAreMapped | packages/rag-embedder/src/rag_embedder/chunking/base.py:46-69 | On any document there is one range for every non-empty page that the text contains, in page order |
| PageMap.JoinedDocument | packages/rag-doc-handler/src/rag_doc_handler/parsers/pdf.py:118-143 | When the text is the join of the page texts by a blank line, the fallback search is never taken and there is one range per non-empty page, in page order and disjoint, each spelling its page; a range is at the page's true place if and only if the page comes first or has a character other than a newline |
| PageMap.NewlinePageIsMisplaced | packages/rag-embedder/src/rag_embedder/chunking/base.py:46-69 | A page of one newline is found in the separator before it: a concrete document |
| PageMap.PagesForSpan | packages/rag-embedder/src/rag_embedder/chunking/base.py:95-105 | Exactly the pages whose range meets the span, each once, ascending |
| PageMap.MeetsMeans | packages/rag-embedder/src/rag_embedder/chunking/base.py:95-105 | A range and a span meet if and only if they share a character |
| Sections.StackIsPath | packages/rag-embedder/src/rag_embedder/chunking/structural.py:73-83 | Heading i is on the path after heading j if and only if every heading in (i, j] has a strictly deeper level |
| Sections.StackRises | packages/rag-embedder/src/rag_embedder/chunking/structural.py:77-83 | The path lists its headings in document order, levels strictly growing |
| Sections.FindSections | packages/rag-embedder/src/rag_embedder/chunking/structural.py:58-86 | Computes the specified sections from the Markdown and HTML matches |
| Sections.SectionsDisjoint | packages/rag-embedder/src/rag_embedder/chunking/structural.py:73-86 | Sections are not empty, come in order and never overlap, even where Markdown and HTML matches do |
| Sections.SectionsCover | packages/rag-embedder/src/rag_embedder/chunking/structural.py:73-86 | Every character lies in a section or in a heading match |
| Sections.SectionMeans | packages/rag-embedder/src/rag_embedder/chunking/structural.py:75-85 | A section is the stretch after one heading, or from the beginning, up to the next, or the end; its path lists, in document order, the titles of the headings since which only strictly deeper ones came |
| StructuralChunker.SplitWithin | packages/rag-embedder/src/rag_embedder/chunking/structural.py:104-131 | Computes the specified split of a section |
| StructuralChunker.RangeAscending | packages/rag-embedder/src/rag_embedder/chunking/structural.py:104-131 | The spans of a section are in order and disjoint although small pieces stretch the span before |
| StructuralChunker.SectionSpansStep | packages/rag-embedder/src/rag_embedder/chunking/structural.py:133-153 | The chunks of a section stay inside it and step forward |
| StructuralChunker.SectionSpansAreGreedy | packages/rag-embedder/src/rag_embedder/chunking/structural.py:133-153 | The chunks of a section group its split spans greedily up to the budget, each starting at its first span moved back by the overlap |
| StructuralChunker.RangeIsSplit | packages/rag-embedder/src/rag_embedder/chunking/structural.py:104-131 | With a minimum size of at most one the split is that of the recursive chunker |
| StructuralChunker.BudgetExactly | packages/rag-embedder/src/rag_embedder/chunking/structural.py:104-131 | Every split span over the budget is free of separators, for every text and tokenizer, if and only if the minimum size is at most one |
| StructuralChunker.StretchIgnoresBudget | packages/rag-embedder/src/rag_embedder/chunking/structural.py:122-127 | Stretching over a small piece ignores the budget: two lines that fit apart and not together make one span |
| StructuralChunker.SectionLosesOnlySeparators | packages/rag-embedder/src/rag_embedder/chunking/structural.py:104-153 | Within a section every character outside its chunks lies in a separator occurrence |
| StructuralChunker.LosesOnlyHeadingsAndSeparators | packages/rag-embedder/src/rag_embedder/chunking/structural.py:34-153 | Every character of a text lies in a chunk, in a heading match or in a separator occurrence |
| StructuralChunker.ChunkInSection | packages/rag-embedder/src/rag_embedder/chunking/structural.py:34-56 | Every chunk lies inside one section and carries that section's path |
| StructuralChunker.ChunkText | packages/rag-embedder/src/rag_embedder/chunking/structural.py:34-56 | Computes the chunks of all sections in order |
| Tokenization.SimpleTokenizer.ToId | packages/rag-embedder/src/rag_embedder/tokenization.py:51-57 | Known tokens keep their id and change nothing, a new one gets the next free id and is the only one added, and the two tables stay inverse |
| Tokenization.SimpleTokenizer.Encode | packages/rag-embedder/src/rag_embedder/tokenization.py:64-65 | Ids of the tokens in the grown vocabulary; no id ever changes; known tokens change nothing |
| Tokenization.SimpleTokenizer.Decode | packages/rag-embedder/src/rag_embedder/tokenization.py:67-69 | The known tokens of the ids joined by blanks, `[UNK]` for unknown ids |
| Tokenization.TokensOfJoin | packages/rag-embedder/src/rag_embedder/tokenization.py:48-49 | Tokenizing tokens joined by blanks gives the tokens back |
| Tokenization.TokensSpell | packages/rag-embedder/src/rag_embedder/tokenization.py:48-49 | The tokens spell the text without its whitespace |
| Tokenization.DecodeOfEncode | packages/rag-embedder/src/rag_embedder/tokenization.py:64-69 | Tokenizing the decoded encoding of a text gives the tokens of the text |
| Tokenization.ChunkTokens | packages/rag-embedder/src/rag_embedder/chunking/token.py:27-63 | Computes the specified windows, the step never below one, and the place of each decoded window, searched for behind the one last found and then from the start |
| Tokenization.PlacesSpell | packages/rag-embedder/src/rag_embedder/chunking/token.py:42-49 | A recorded place spells the decoded window, and none is recorded if and only if the text does not contain it |
| Tokenization.WindowsCover | packages/rag-embedder/src/rag_embedder/chunking/token.py:27-63 | The windows, each later one without its first overlap tokens, concatenate to the whole token sequence |
| Tokenization.WindowShape | packages/rag-embedder/src/rag_embedder/chunking/token.py:27-63 | Every window but the last has exactly `chunk_size` tokens and neighbours share exactly the overlap |
| Tokenization.ConfiguredWindows | packages/rag-embedder/src/rag_embedder/chunking/token.py:30-34 | The same in the configured values: a chunk size below one counts as one, an overlap of the chunk size or more as one less than it |
| WordSplit.WordsOfJoin | packages/rag-context/src/rag_context/tokenizer.py:44-45 | Splitting words joined by one blank gives the words back, so the counter counts a merged text exactly |
| WordSplit.WordsSpell | packages/rag-context/src/rag_context/tokenizer.py:44-45 | The words spell the text without its whitespace |
| ContextBuilder.GreedySelect | packages/rag-context/src/rag_context/builder.py:100-114 | Returns the items of the greedy pick in order: of every item, it is picked if and only if its tokens and those picked before it fit; the flag says whether an item was not picked |
| ContextBuilder.SelectIsGreedy | packages/rag-context/src/rag_context/builder.py:100-114 | The specified selection is that pick |
| ContextBuilder.GreedyIsUnique | packages/rag-context/src/rag_context/builder.py:100-114 | There is no other |
| ContextBuilder.SelectFits | packages/rag-context/src/rag_context/builder.py:100-114 | The selection is within the budget |
| ContextBuilder.RejectedNeverFits | packages/rag-context/src/rag_context/builder.py:100-114 | No item passed over would fit the budget left after selection |
| ContextBuilder.CapPerDocument | packages/rag-context/src/rag_context/builder.py:117-131 | Computes the specified cap; the flag says whether an item was dropped |
| ContextBuilder.CappedKeepsFirst | packages/rag-context/src/rag_context/builder.py:117-131 | Of each document exactly its first `cap` items are kept, in order |
| ContextBuilder.CappedIsWithin | packages/rag-context/src/rag_context/builder.py:117-131 | The cap keeps, in order, exactly the picked items with fewer than `cap` picked ones of their document before them |
| ContextBuilder.SurvivorsAccounted | packages/rag-context/src/rag_context/builder.py:221-228 | A candidate missing after selection and cap exceeds the budget left, or has `cap` picked ones of its document before it |
| ContextBuilder.OverlapIsLongest | packages/rag-context/src/rag_context/builder.py:134-144 | No longer suffix of the one text is a prefix of the other |
| ContextBuilder.OverlapRatio | packages/rag-context/src/rag_context/builder.py:134-144 | The shared words over those of the shorter text, zero for an empty one; above one half exactly when the items are merged |
| ContextBuilder.UnionWords | packages/rag-context/src/rag_context/builder.py:157-165 | The words of a union are those of both texts, the shared ones once |
| ContextBuilder.ContextItem.Absorb | packages/rag-context/src/rag_context/builder.py:155-170 | The item becomes the merge of itself and its neighbour, the neighbour stays |
| ContextBuilder.SortedSetFacts | packages/rag-context/src/rag_context/builder.py:167-167 | Merged page numbers are those of both items, each once, ascending |
| ContextBuilder.UniqueFacts | packages/rag-context/src/rag_context/builder.py:168-170 | Merged section names are those of both items, each once, in order of first appearance |
| ContextBuilder.MergeMeans | packages/rag-context/src/rag_context/builder.py:155-170 | A merged item keeps id, document and score of the first, with the pages of both ascending and the section names of both in order of first appearance |
| ContextBuilder.MergeOverlapping | packages/rag-context/src/rag_context/builder.py:147-173 | In place, the objects come to hold the specified merge |
| ContextBuilder.MergeShrinks | packages/rag-context/src/rag_context/builder.py:147-173 | Merging never adds tokens and counts stay exact |
| ContextBuilder.MergeKeeps | packages/rag-context/src/rag_context/builder.py:147-173 | Every item keeps its words contiguously inside one merged item |
| ContextBuilder.NotIdempotent | packages/rag-context/src/rag_context/builder.py:147-173 | One merging pass is not enough: a family of inputs on which merging the result again changes it |
| ContextBuilder.OnePassIsEnough | packages/rag-context/src/rag_context/builder.py:147-173 | One pass is enough when no item is put behind a merged one that already holds all its words contiguously |
| ContextBuilder.OnePassExactly | packages/rag-context/src/rag_context/builder.py:147-173 | One pass is enough whatever item comes next if and only if it is for the list so far and the last merged item does not lie in the one before it |
| ContextBuilder.UnchangedExactly | packages/rag-context/src/rag_context/builder.py:147-173 | Merging leaves a list unchanged if and only if no two neighbours overlap |
| ContextBuilder.ContextFits | packages/rag-context/src/rag_context/builder.py:221-231 | After selection, cap and merging the words are within the budget, for any order of the candidates |
| ContextBuilder.Build | packages/rag-context/src/rag_context/builder.py:218-247 | From ordering on: refused for an unknown strategy, else total tokens at most `max(0, token_budget - reserve_for_answer)`, survivors' words kept, truncated if and only if a candidate was dropped, numeric citations counted from one |
| Ordering.Diversity | packages/rag-context/src/rag_context/ordering.py:82-104 | A permutation that keeps each document's items in input order, opens with one item per document by descending best score, and at every point has no document more than one item ahead of another that is not used up |
| Ordering.Fair | packages/rag-context/src/rag_context/ordering.py:95-104 | In every prefix of the round-robin two documents differ by at most one item unless the one behind is exhausted |
| Ordering.RoundRobinOf | packages/rag-context/src/rag_context/ordering.py:95-104 | The round-robin takes each document's queue in order and completely |
| Ordering.DocumentGrouped | packages/rag-context/src/rag_context/ordering.py:60-79 | A permutation with each document's items together and in input order, documents by descending best score |
| Ordering.GroupByDocument | packages/rag-context/src/rag_context/ordering.py:66-68 | Groups hold each document's items in input order, keys in order of first appearance |
| Ordering.RankIsRanked | packages/rag-context/src/rag_context/ordering.py:70-75 | Each document once, by descending best score and then by id |
| Ordering.RankByBest | packages/rag-context/src/rag_context/ordering.py:70-75 | Of two documents with scores the first in rank has the higher best score, or the same and the smaller id |
| Ordering.ScoredMeans | packages/rag-context/src/rag_context/ordering.py:70-72 | The scores compared are exactly those of the items that have one |
| Ordering.UnscoredRank | packages/rag-context/src/rag_context/ordering.py:70-75 | In the ranking a document without scores stands behind a scored one if and only if that one's best is positive, or zero with a smaller id |
| Ordering.UnscoredNotAlwaysLast | packages/rag-context/src/rag_context/ordering.py:60-75 | Against its description, grouping puts a document without scores in front of one whose only score is negative |
| Strategies.KeyStrategy | packages/rag-context/src/rag_context/ordering.py:29-57 | The three sorts by key: ascending by the key, equal keys in input order, no item lost |
| Strategies.UnscoredLast | packages/rag-context/src/rag_context/ordering.py:29-37 | By relevance scores descend and items without a score come last |
| Strategies.Chronological | packages/rag-context/src/rag_context/ordering.py:40-47 | Document ids ascend, and within a document the first pages, zero for none |
| Strategies.SectionAware | packages/rag-context/src/rag_context/ordering.py:50-57 | Document ids ascend, and within a document the section paths, name by name |
| Strategies.GroupedStaysTogether | packages/rag-context/src/rag_context/ordering.py:60-79 | Grouped by document, no other document comes between two items of one |
| Strategies.DiversityOpens | packages/rag-context/src/rag_context/ordering.py:82-104 | For diversity every document has its turn, in rank order, before any has a second |
| Strategies.KnownStrategies | packages/rag-context/src/rag_context/ordering.py:107-122 | Exactly the five names are known |
| Strategies.OrderByPermutes | packages/rag-context/src/rag_context/ordering.py:107-122 | Every strategy returns a permutation of its items |
| Strategies.OrderByStrategy | packages/rag-context/src/rag_context/ordering.py:107-122 | Dispatches on the name; an unknown name is refused |
| Executor.RunInv | packages/rag-query/src/rag_query/retrieval_exec.py:73-91 | At every moment of every interleaving at most `max_concurrency` retrievals run and every pair is waiting, running, recorded or counted as failed |
| Executor.FinishedRun | packages/rag-query/src/rag_query/retrieval_exec.py:93-105 | When all retrievals are done each successful pair is in the results exactly once, and failures equal the total exactly when no pair succeeded |
| Executor.SameResults | packages/rag-query/src/rag_query/retrieval_exec.py:73-105 | Two interleavings of the same retrievals record the same results up to order |
| Executor.NeverStuck | packages/rag-query/src/rag_query/retrieval_exec.py:31-39 | With a limit of at least one, a run that is not done can go on |
| Executor.RunLength | packages/rag-query/src/rag_query/retrieval_exec.py:93-96 | No run takes more than two steps a pair |
| Fusion.Fuse | packages/rag-retrieval/src/rag_retrieval/fusion.py:64-114 | Both strategies: refused on a weight list of the wrong length, a division by zero where `k + rank` is zero, else the entries of all terms, best first, cut at `top_k` |
| Fusion.AddShareSum | packages/rag-retrieval/src/rag_retrieval/fusion.py:78-92 | Adding a contribution to a strategy's share adds it to the sum of the shares |
| Fusion.TableTabulates | packages/rag-retrieval/src/rag_retrieval/fusion.py:73-95 | Each chunk has one entry, numbered by first appearance, whose shares per strategy sum to the sum of its contributions |
| Fusion.NormalizedRange | packages/rag-retrieval/src/rag_retrieval/fusion.py:185-195 | Min-max normalised scores lie in [0, 1] and keep the order of the scores |
| Fusion.PositiveDivides | packages/rag-retrieval/src/rag_retrieval/fusion.py:62-82 | With a positive `k` no rank divides by zero |
| Fusion.BuildHits | packages/rag-retrieval/src/rag_retrieval/fusion.py:198-223 | The hits are the best entries with their scores and shares, ranked, normalised to at most one |
| FusionShares.ReciprocalShare | packages/rag-retrieval/src/rag_retrieval/fusion.py:77-92 | A reciprocal-rank contribution times `k + rank` is the weight of its list; it belongs to the hit at that rank and the strategy of the list |
| FusionShares.ShareFalls | packages/rag-retrieval/src/rag_retrieval/fusion.py:77-92 | For positive `k` and weight contributions fall strictly with the rank |
| FusionShares.ReciprocalKeepsOrder | packages/rag-retrieval/src/rag_retrieval/fusion.py:64-114 | Fusing one list without repeated chunks gives the list back, cut at `top_k`, merged or not |
| FusionShares.ScoreShare | packages/rag-retrieval/src/rag_retrieval/fusion.py:128-182 | A score contribution is the weight times the score, or times the normalised score |
| FusionShares.NormalizedMeans | packages/rag-retrieval/src/rag_retrieval/fusion.py:185-195 | A normalised score is the place between the least and the greatest; among equal scores one if positive, else zero |
| FusionShares.ShareRises | packages/rag-retrieval/src/rag_retrieval/fusion.py:128-182 | For a positive weight the higher score of a list has the greater contribution |
| FusionShares.ScoresKeepOrder | packages/rag-retrieval/src/rag_retrieval/fusion.py:128-182 | Fusing one list in descending score without repeated chunks gives the list back, cut at `top_k` |
| FusionShares.SharesPerStrategy | packages/rag-retrieval/src/rag_retrieval/fusion.py:78-92 | The share of a strategy in a chunk is the sum of the contributions from the lists of that strategy |
| FusionShares.FirstHitIsKept | packages/rag-retrieval/src/rag_retrieval/fusion.py:84-89 | A chunk keeps the first hit that mentions it |
| FusionShares.DivisibleMeans | packages/rag-retrieval/src/rag_retrieval/fusion.py:82-82 | There is a division by zero if and only if `k + rank` is zero at some rank of the list |
| FusionShares.CandidatesAreTerms | packages/rag-retrieval/src/rag_retrieval/fusion.py:108-115 | The number of candidates is the number of contributions |
| FusionShares.KeptInOrder | packages/rag-retrieval/src/rag_retrieval/fusion.py:198-223 | Kept entries descend in score, equal ones in order of first appearance |
| FusionOrder.SameScore | packages/rag-retrieval/src/rag_retrieval/fusion.py:64-114 | Every chunk has the same fused score in any order of the result lists |
| FusionOrder.SameTopScores | packages/rag-retrieval/src/rag_retrieval/fusion.py:64-114 | The best `top_k` scores are the same, in the same order, for any order of the result lists, merged or not |
| FusionOrder.KeptAreBest | packages/rag-retrieval/src/rag_retrieval/fusion.py:198-223 | A kept chunk carries its total score, and one left out scores no more than any kept one |
| FusionOrder.CompletionOrderIrrelevant | packages/rag-query/src/rag_query/retrieval_exec.py:73-105 | Whatever order the executor's retrievals complete in, fused chunk scores and best scores are the same |
| Hybrid.Retrieve | packages/rag-retrieval/src/rag_retrieval/hybrid.py:60-111 | The outcome is the fusion of the successful results in retriever order, trimmed and weighted, independent of the completion order; nothing when all failed |
| Hybrid.RunAll | packages/rag-retrieval/src/rag_retrieval/hybrid.py:64-81 | Every bucket holds its retriever's outcome, whatever the completion order |
| Hybrid.SourceOf | packages/rag-retrieval/src/rag_retrieval/hybrid.py:48-102 | Each successful result is fused in retriever order with its first hits, as many as the limit of its strategy allows, and the weight of its strategy |
| Hybrid.FusionIsDetermined | packages/rag-retrieval/src/rag_retrieval/hybrid.py:83-111 | The same sources give the very same hits |
| Metrics.PrecisionRange | packages/rag-eval/src/rag_eval/metrics.py:54-65 | Precision lies in [0, 1] whatever is predicted |
| Metrics.PrecisionMeans | packages/rag-eval/src/rag_eval/metrics.py:54-65 | Precision is the share of relevant places in the cut list, and one if and only if all are relevant |
| Metrics.RecallMeans | packages/rag-eval/src/rag_eval/metrics.py:40-51 | Recall is the number of relevant places over the number of relevant documents |
| Metrics.RecallIsOne | packages/rag-eval/src/rag_eval/metrics.py:40-51 | For a cut list that repeats no relevant document recall is one if and only if it holds every relevant document |
| Metrics.RecallRange | packages/rag-eval/src/rag_eval/metrics.py:40-51 | Recall lies in [0, 1] when the cut list repeats no relevant document |
| Metrics.RecallExactly | packages/rag-eval/src/rag_eval/metrics.py:40-51 | Recall lies in [0, 1] for every ground truth if and only if the cut list repeats no document |
| Metrics.AveragePrecisionRange | packages/rag-eval/src/rag_eval/metrics.py:94-109 | Average precision lies in [0, 1] when no relevant document is predicted twice |
| Metrics.PrecisionAdds | packages/rag-eval/src/rag_eval/metrics.py:99-108 | Every relevant place adds the share of relevant places so far |
| Metrics.AveragePrecisionIsOne | packages/rag-eval/src/rag_eval/metrics.py:94-109 | Average precision is one if and only if the relevant documents lead |
| Metrics.AveragePrecisionExactly | packages/rag-eval/src/rag_eval/metrics.py:94-109 | Average precision lies in [0, 1] for every ground truth if and only if no document is predicted twice |
| Metrics.NdcgRange | packages/rag-eval/src/rag_eval/metrics.py:112-134 | nDCG lies in [0, 1] for every cut-off when the cut list repeats no relevant document |
| Metrics.NdcgIsOne | packages/rag-eval/src/rag_eval/metrics.py:112-134 | And it is 1 if and only if the first min(number of relevant documents, k) predictions are all relevant |
| Metrics.NdcgExactly | packages/rag-eval/src/rag_eval/metrics.py:112-134 | nDCG lies in [0, 1] for every ground truth if and only if the cut-off is not positive or the cut list repeats no document |
| Metrics.DcgAtMostIdeal | packages/rag-eval/src/rag_eval/metrics.py:112-134 | No list gains more than as many hits at the front would |
| Metrics.IdealMeansLeading | packages/rag-eval/src/rag_eval/metrics.py:112-134 | A list gains as much as its hits at the front if and only if they are there |
| Metrics.SwapRaisesNdcg | packages/rag-eval/src/rag_eval/metrics.py:112-134 | Swapping a relevant prediction with an irrelevant one just above it never lowers nDCG and raises it when the upper place is within the cut-off |
| Metrics.SwapRaisesPrecision | packages/rag-eval/src/rag_eval/metrics.py:79-109 | The same swap raises average precision and never lowers the reciprocal rank |
| Metrics.Mrr | packages/rag-eval/src/rag_eval/metrics.py:79-91 | The reciprocal of the first relevant place counted from one, and zero if and only if there is none |
| Metrics.ComputeAveragePrecision | packages/rag-eval/src/rag_eval/metrics.py:94-109 | The loop computes the mean of the precisions at the hits |
| Metrics.ComputeNdcg | packages/rag-eval/src/rag_eval/metrics.py:112-134 | The loops compute discounted gain over ideal gain, also for a cut-off of zero or below |
| VectorStore.CauchySchwarz | packages/rag-db-handler/src/rag_db_handler/memory_store.py:18-30 | The squared dot product is at most the product of the squared norms |
| VectorStore.CosineRange | packages/rag-db-handler/src/rag_db_handler/memory_store.py:18-30 | Every cosine of equal-length vectors lies in [-1, 1] |
| VectorStore.ClampNeverActs | packages/rag-db-handler/src/rag_db_handler/memory_store.py:33-35 | On a cosine the clamp of the normalised score does nothing |
| VectorStore.CosineOfSelf | packages/rag-db-handler/src/rag_db_handler/memory_store.py:18-30 | A vector that is not zero has cosine one with itself |
| VectorStore.ComputeCosine | packages/rag-db-handler/src/rag_db_handler/memory_store.py:18-30 | The loop computes the cosine; vectors of different length are an error |
| VectorStore.CosineMeans | packages/rag-db-handler/src/rag_db_handler/memory_store.py:18-30 | The cosine times both norms is the dot product, and zero where a norm is zero |
| VectorStore.DotChanges | packages/rag-db-handler/src/rag_db_handler/memory_store.py:18-30 | Changing one coordinate changes the dot product by its product with the other vector: it is the sum of the products |
| VectorStore.DotOfZero | packages/rag-db-handler/src/rag_db_handler/memory_store.py:18-30 | The dot product with the zero vector is zero |
| VectorStore.InMemoryVectorStore.Upsert | packages/rag-db-handler/src/rag_db_handler/memory_store.py:67-88 | The map gets the point under its key, replaced in place if present, else appended |
| VectorStore.InMemoryVectorStore.Delete | packages/rag-db-handler/src/rag_db_handler/memory_store.py:136-145 | Exactly the wanted keys of the namespace are gone |
| VectorStore.InMemoryVectorStore.Count | packages/rag-db-handler/src/rag_db_handler/memory_store.py:147-153 | The number of keys of the namespace |
| VectorStore.InMemoryVectorStore.Search | packages/rag-db-handler/src/rag_db_handler/memory_store.py:98-134 | The best `top_k` matching points with score, normalised score and rank; an error when a matching point has another length |
| VectorStore.HitsAt | packages/rag-db-handler/src/rag_db_handler/memory_store.py:112-134 | Hit k carries the point, score and normalised score of the k-th in the ranking, and rank k |
| VectorStore.PutRepresents | packages/rag-db-handler/src/rag_db_handler/memory_store.py:67-88 | The list after an upsert represents the updated map |
| VectorStore.ReturnedMatch | packages/rag-db-handler/src/rag_db_handler/memory_store.py:98-134 | Returned points are stored, match, carry their cosine and come in descending score |
| VectorStore.NothingBetterLeftOut | packages/rag-db-handler/src/rag_db_handler/memory_store.py:98-134 | A matching point left out scores no more than any returned one, and `top_k` are returned |

## Left out

- Bulk ingestion: one run of a job at a time; timeout and cancellation of a run, missing components, file discovery and copying files to the dead-letter directory are not modelled. An embedding that fails leaves the index as it was. Tracker writes and the observer do not fail.
- MassIngest.EveryRunCompletes: for limits that let through whatever has to pass, because otherwise it is false; `MassIngest.CompletesExactly` has both directions.
- Cache.LruInclusion: without a byte budget, because with one it is false but for the cases of `Cache.InclusionExactly`.
- Metrics.RecallRange: for cut lists that repeat no relevant document, because otherwise it is false (`Metrics.RecallExactly`); likewise `Metrics.AveragePrecisionRange` and `Metrics.NdcgRange`.
- FusionOrder.SameTopScores: says nothing about which of two equally scored chunks is kept, because that follows the completion order.
- ContextBuilder.ContextFits: for the whitespace counter only; other tokenizers may count a joined text higher than its parts.
- Hits in Dedup carry id, words, score and strategy scores only; normalised text and lower-casing are given as words.
- Document and chunk ids are numbers in Ordering, ContextBuilder, Fusion, Metrics and VectorStore: they enter only through equality and, for documents, through their order, which is that of the strings.
- ContextBuilder: filtering by score, neighbour expansion, sanitizing and metadata lookups come before the model, and deduplication is in Dedup; section names are numbers. Items become objects where merging begins, since nothing writes to them before.
- Fusion: one method serves both strategies, whose loops differ in the contribution of a hit alone; timings and query ids are left out.
- Hybrid: results are trimmed as values; that the retrievers' own result objects are changed is not captured.
- Executor: the list of query forms and the retrievers are given; log lines are left out.
- VectorStore: points are values replaced in the list, so aliasing of a stored dictionary is not captured; a payload is opaque and filters see only it.
- Sections: the two heading patterns are given as their matches. StructuralChunker and RecursiveChunker leave the tokenizer uninterpreted and stop at spans: chunk ids, page numbers and other chunk metadata are not built.
- Tokenization: `\w` and `\s` are character sets.
- Metrics: `hit_rate` and the registry of metrics.
- Floating-point rounding, SHA-256 and SQLite: exact reals, opaque hashes, maps and sequences.
- Sentence, semantic, parent-child and other chunkers, parsers, OCR, HTTP providers, the API, the command line and the user interface: plumbing around foreign libraries or easy members.
