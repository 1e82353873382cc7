# HarmonClaw verification

A Dafny model of the stateful cores of the HarmonClaw runtime, with proofs of what they keep. Each module models
one source file or one algorithm of it, in the source's own form: objects whose methods update fields are classes,
loops over mutable data are methods with loops, goroutines and crashes are state machines over atomic steps.
`dafny verify dfyconfig.toml` checks everything.

| module | what it models |
|---|---|
| Merkle | the audit root over the store's text files, and what an equal root binds |
| LedgerFile, LedgerProtocol | ledger lines, readers, the crash-safe append; `Record`, `Close` and `drain` interleaved |
| Numbers, Fields, Engram, EngramStore | the engram text format; the bounded index with eviction |
| Postings, JsonLines, SearchIndex, Bm25 | incremental inverted indexes, their files, ranked top-k search |
| Segmenter, Stemmer | forward maximum match; the stemmer |
| TokenBucket, TripleRateLimit | token buckets, per-key buckets, the three-level limiter with interleaved calls |
| SlidingWindow, Quota, IronClaw | windows kept by compaction in place, on shared buffers; why refusals leave them alone |
| ResponseFilter | redaction, cut and trim, and the pipeline around them |
| MemoryMerge, DecayMemory, ContextManager | ranking and merging of memories, decay, conversation windows |
| RealtimeQueue, WorkerPool | the two-class queue; the pool, its stops and restarts |
| ParallelSchedule | one call that submits to the pool and collects results, as one state machine with the pool |
| DepthController | spawn limits |
| Common, GoStrings | what the others share; Go's string functions on bytes |

## Idealisations

- `float64` is `real`, so rounding is not modelled. Clocks are integers or reals that do not run backwards where a
  lemma says so.
- A Go string is a sequence of bytes, one `char` each; in Segmenter and SearchIndex a `char` of a text is one rune.
  Lines of persisted files are byte strings everywhere: the limit of the scanner counts their bytes.
- SHA-256 and CRC-32 are parameters. Binding assumes only that SHA-256 does not collide on the strings that the two
  computations hash, not that it is injective.
- JSON and RFC 3339 formatting are parameters of which only a round trip is assumed: JSON text has no raw tab or
  newline (section 7 of RFC 8259), times come back in whole seconds (section 5.6 of RFC 3339).
- Of `math.Log` only the sign above 1 is assumed. Unicode classes and lower case are parameters; UTF-8 widths and
  the white space of `strings.TrimSpace` are written out.
- `sort.Slice` is a method whose contract says no more than "some sorted permutation"; map iteration picks any key.
- System calls, goroutine scheduling and failures are nondeterministic choices.

## What the code does not do

Where a promise of the code or its comments fails, the code is modelled as it is, and the lemmas show the failure
and say when the promise holds.

- Different stores can have one audit root: an odd last leaf may be doubled, a file may hold what a node hashes, an
  empty store and a store with one empty file agree (Merkle). Equal numbers of text files rule all of these out;
  without files of 64 bytes, only the doubled tail and the empty store remain.
- A filter word that an inserted `***` or the `...` of a cut can complete survives filtering (ResponseFilter).
- `LedgerSafeAppend` drops the error of a failed read and then replaces the ledger by what it did read and one line:
  a successful append can lose entries (LedgerFile, LedgerProtocol).
- `Latest`, and the searches of Bm25 and MemoryMerge, panic for a negative limit unless they have nothing to do.
- `Load` of both indexes adds the tokens of superseded lines, and `Persist` writes lines that `Load` may not read.
  The ranked index also loses its access times, so that recently used documents score half after a reload; and if
  only superseded lines have tokens, its average length is 0 and a search divides by it (Bm25).
- The engram index obeys its limit only as long as it is filled by `Write`: `Load` has no limit, and each `Write`
  evicts a tenth once, which brings it back within the limit only up to 11111 engrams (EngramStore).
- The engram format loses values that are not trimmed, contain newlines, or are longer than a scanner line, list
  items that contain commas, and metadata keys that contain ": ".
- Eviction takes the lowest scores, and the score grows with the time since the last access: of equally important
  engrams the one used last goes first (EngramStore).
- `DecayFactor` is documented as 2^(-age/halfLife) and is linear within each half-life, so the exponential law holds
  only when one of two ages is a whole number of half-lives.
- A worker pool can be stopped once in its life; started again, its workers may leave at once and queued tasks are
  never run. `ScheduleParallel` never returns without a cancellation if a task was refused, panicked, or waits in
  the queue of a pool without workers: one that was never started, was stopped, or has lost them.
- The spawn limits are sure to bound the real depth if every spawn leaves the recorded depths right, as with fresh
  names. They do not always: when cores are spawned from the bottom up, the real depth has no bound.
- Archiving an idle session drops its window without handing it over for a summary.

## Model

| member | source | states |
|---|---|---|
| Merkle.ComputeRoot | viking/merkle.go:22-69 | in place of the walk: the printed root of the hashes of the readable text files, smaller bytes first, of the empty string if there are none, an error exactly if there is no home directory or the walk fails |
| Merkle.CollectLeaves | viking/merkle.go:28-42 | the leaves are the hashes of the readable `.txt` files, in walk order |
| Merkle.TextIff | viking/merkle.go:32-34 | the text files are those whose path ends in `.txt` |
| Merkle.SortLeaves | viking/merkle.go:50-52 | a permutation of the leaves in which, of two that differ, the earlier has the smaller byte where they first differ |
| Merkle.FoldLevels | viking/merkle.go:53-67 | the level loop ends and refines the recursive tree over the leaves |
| Merkle.RootIgnoresWalkOrder | viking/merkle.go:28-52 | stores whose contents are permutations of each other have the same root |
| Merkle.HexInjective | viking/merkle.go:68 | equal printed roots are equal digests |
| Merkle.HexDigits | viking/merkle.go:68 | a byte is printed as its two lower-case hexadecimal digits, the higher one first |
| Merkle.RootsAgree | viking/merkle.go:53-67 | trees of one height have the same root if and only if their leaf lists agree once padded by the self-pairing rule |
| Merkle.PaddedExtends | viking/merkle.go:58-62 | padding only appends to the leaf list |
| Merkle.LeavesBound | viking/merkle.go:50-68 | same number of leaves and same root imply the same leaves |
| Merkle.HashesDetermineContents | viking/merkle.go:39-40 | equal leaf multisets mean equal content multisets when the leaf hash does not collide |
| Merkle.StoresBound | viking/merkle.go:22-69 | binding for stores: equally many text files and equal printed roots imply the same multiset of contents |
| Merkle.RootsAgreeIff | viking/merkle.go:39-67 | without contents of 64 bytes, the length that a node hashes: trees of any sizes have the same root if and only if they have the same height and the same padded leaf list |
| Merkle.StoresBoundUpToPadding | viking/merkle.go:22-69 | without such contents, and with no numbers given: stores with text files and the same printed root hold the same contents, though perhaps not equally often, in trees of one height and padded leaf list |
| Merkle.EmptyStoreBound | viking/merkle.go:46-69 | the root of an empty store belongs to exactly two stores, that without text files and that whose only text file is empty |
| Merkle.OddTailMayBeDoubled | viking/merkle.go:58-62 | three leaves and the same with the last doubled have one root |
| Merkle.NodeMayBeALeaf | viking/merkle.go:39-66 | a file holding two digests stands for the two files: one leaf and two have one root |
| Merkle.EmptyStoreMayBeOneEmptyFile | viking/merkle.go:46-49 | no text file and one empty text file have the same root |
| LedgerFile.ReadsBack | viking/ledger.go:151-172 | splitting and decoding the framed entries gives back exactly the entries, trimmed first or not |
| Common.StringLessIff | viking/ledger.go:187-225 | one string is less than another if and only if it is a proper beginning of it or has the smaller byte at the first difference |
| LedgerFile.LatestReadsBack | viking/ledger.go:116-149 | on a ledger file `Latest(n)` decodes exactly the last min(n, length) entries |
| LedgerFile.Latest | viking/ledger.go:116-149 | the method: no file and an empty file give nothing, an unreadable one an error, a negative `n` panics exactly if there is text, otherwise the last `n` lines decoded, undecodable ones skipped |
| LedgerFile.Find | viking/ledger.go:159-232 | `TraceByActionID` and `Query` fail exactly if the file is unreadable, and else return exactly the wanted entries, each as often as it is there, in byte-wise order of their timestamps |
| LedgerFile.Select | viking/ledger.go:207-229 | the filter loop keeps exactly the wanted entries, in order: equal fields where asked for, and a timestamp within the bounds by the byte-wise order |
| LedgerFile.AppendExtendsIff | viking/write.go:88-91 | an append extends the framed ledger by its entry if and only if its read delivered the whole file |
| LedgerFile.FirstAppend | viking/write.go:88-91 | without a file an append makes one that holds its entry |
| LedgerFile.Disk.LedgerSafeAppend | viking/write.go:81-117 | after any mix of failures the file is the old text or the whole new text (what was read and the line), a crash between any two system calls leaves nothing else, and the new text ends with a tab, the eight hexadecimal digits of the checksum and a newline |
| LedgerFile.HexWordDigits | viking/write.go:90 | digit number i from the right is that of the checksum divided by 16 to the i |
| LedgerProtocol.Conservation | viking/ledger.go:82-114 | over all interleavings: dealt with, then in flight, then buffered entries are the accepted ones in order, and the buffer holds at most 64 |
| LedgerProtocol.DroppedIff | viking/ledger.go:82-92 | a call goes on to the channel if and only if it found the ledger open, and its entry is accepted unless the channel is closed or holds 64 |
| LedgerProtocol.CloseDrains | viking/ledger.go:94-114 | from the moment the first `Close` returns the entries dealt with are exactly the accepted ones, for the rest of the run |
| LedgerProtocol.ReturnedIsFinal | viking/ledger.go:82-114 | after `Close` has returned no step changes what was accepted or dealt with |
| LedgerProtocol.CloseReturns | viking/ledger.go:94-114 | a waiting `Close` is never stuck: `drain` can step, each step leaves less, at most 130 remain |
| LedgerProtocol.CloseCanReturn | viking/ledger.go:94-114 | from every state that a run reaches a `Close` can come to its return |
| LedgerProtocol.FileHoldsWrittenIff | viking/ledger.go:102-114 | on a ledger that holds any entries when opened, at every point of every interleaving: the file frames those entries and then exactly those whose append succeeded, in order, if and only if every successful append so far had read the whole file |
| LedgerProtocol.ClosedLedgerReadsBackIff | viking/ledger.go:82-149 | end to end: after `Close`, `Latest(n)` returns the last `n` of what the ledger held and accepted, for every `n`, if and only if no append failed and every append had read the whole file |
| Numbers.ScanFormatted | viking/engram.go:98-185 | scanning undoes printing for every 64-bit integer |
| Numbers.PrintedDigits | viking/engram.go:98-104 | the decimal digits of the magnitude without leading zeros, behind a minus if and only if the number is negative |
| Numbers.ValueDigits | viking/engram.go:176-185 | a run of digits is read as the number with these decimal digits, leading zeros included |
| Engram.SerializeEngram | viking/engram.go:89-108 | the printed text is the lines of the fixed fields, then of the metadata in the order met, then `---` |
| Engram.WriteField | viking/engram.go:110-115 | one field adds one line "key: value" |
| Engram.ParseEngram | viking/engram.go:145-194 | the parse loop computes the reference parser over the scanned lines |
| Engram.WellFormedSurvives | viking/engram.go:89-194 | parsing a printed well-formed engram gives it back with its times in whole seconds, for any metadata order |
| Engram.ParsedIsWellFormed | viking/engram.go:145-194 | whatever text is parsed, the result is well formed |
| Engram.RoundTripIffWellFormed | viking/engram.go:89-194 | the round trip holds if and only if the engram is well formed: values trimmed, without newline and short enough, lists comma-free and not blank, metadata keys without ": " |
| Engram.RereadingIsStable | viking/engram.go:89-194 | whatever was read from a file can be written and read again without loss |
| EngramStore.EngramStore.Write | viking/engram.go:55-87 | for an index of any size: a failed file write changes nothing; what goes are engrams with the lowest scores; the size afterwards; an index within 10000 stays so, a larger one shrinks |
| EngramStore.WithinLimitIff | viking/engram.go:81-83 | one write brings an index back within its limit if and only if it has at most 11111 engrams with the new one |
| EngramStore.EngramStore.Load | viking/engram.go:118-143 | the index is that of the readable files in walk order, a later file replacing an earlier one with its identifier, the file name standing in for a missing one |
| EngramStore.LoadHasNoLimit | viking/engram.go:118-143 | files with different identifiers are all loaded, however many there are |
| EngramStore.EngramStore.Collect | viking/engram.go:230-261 | a tenth goes, at least one, and none of those scores more than one that stays |
| EngramStore.ScoreOrder | viking/engram.go:237-243 | the score grows with importance and with the time since the last access, so of equally important engrams the one used last goes first |
| EngramStore.ScoreIs | viking/engram.go:237-243 | the score is the importance, at least 1, just after the last access, and as much again for every 30 days since |
| EngramStore.EngramStore.List | viking/engram.go:235-245 | each engram is listed once, with its score |
| EngramStore.LowestGo | viking/engram.go:246-260 | the front of the ascending list is a lowest-scored set of the required size |
| EngramStore.SortedLists | viking/engram.go:246 | a sorted permutation still lists each engram once |
| Postings.ExactIsUnique | viking/search.go:151-175 | an index that counts exactly the tokens of its documents is unique, so its history leaves no trace |
| Postings.Replace | viking/search.go:151-175 | on any index: the tokens of the old content are no longer posted for the document, those of the new are counted, nothing else changes, no posting is left empty |
| Postings.ReplaceExactIff | viking/search.go:151-175 | re-indexing makes the index exact if and only if it was so for all other documents and nothing was posted for this one that its old content lacks |
| Postings.LoadRecords | viking/search.go:58-77 | loading adds every record's tokens to the counts and removes none |
| Postings.TotalIsMultiplicityIff | viking/search.go:58-77 | a loaded count is the token's multiplicity in the last record if and only if the superseded records are blank |
| Postings.LoadOnExactIff | viking/search.go:58-77 | loading onto an exact index keeps it exact if and only if no record with tokens is superseded by a later one, and no document with tokens by a record |
| Postings.LoadExactIff | viking/search.go:58-77 | loading gives the exact index of the loaded documents if and only if no record with tokens is superseded; so it does when names are distinct |
| SearchIndex.Tokenize | viking/search.go:122-148 | the one-pass buffer loop yields every CJK rune alone and every maximal run of other letters and numbers |
| SearchIndex.CjkBlock | viking/search.go:118-127 | a CJK rune is one from U+4E00 to U+9FFF |
| SearchIndex.SearchIndex.Index | viking/search.go:151-175 | an exact index stays exact: each posting count is the token's multiplicity in the document's current content; any other index changes for this document only |
| SearchIndex.SearchIndex.Search | viking/search.go:178-196 | returns each document that a query token is posted for, once, and no other; in an exact index those that share a token with the query |
| SearchIndex.SearchIndex.Load | viking/search.go:47-79 | adds the decoded documents and the tokens of every line |
| SearchIndex.SearchIndex.Persist | viking/search.go:82-120 | writes one line per document, in some order of the map |
| SearchIndex.ScoreIsPositiveIff | viking/search.go:181-190 | a document scores above zero exactly if a query token is posted for it |
| SearchIndex.HitsShare | viking/search.go:151-196 | in an exact index those are the documents that share a token with the query |
| SearchIndex.FreshLoadExactIff | viking/search.go:47-79 | a fresh index that loads a file is exact if and only if no line with tokens is superseded by a later line |
| JsonLines.FileReadsBack | viking/search.go:60-120 | reading back the encoded lines of any values gives those before the first line that is too long, and all exactly if every line fits |
| SearchIndex.PersistedIndexReloads | viking/search.go:47-120 | persisting in any order and loading into a fresh index gives the same documents and postings when every line fits the scanner |
| SearchIndex.ReloadsIffLinesFit | viking/search.go:47-120 | the documents survive persisting and loading if and only if every line fits the scanner |
| Bm25.BM25Index.Index | viking/bm25.go:167-207 | postings, lengths, total and average stay those of the current documents; after a load of superseded lines too, only this document's statistics and the averages change |
| Bm25.BM25Index.Load | viking/bm25.go:69-109 | from the text of the file onto any index: the last line of a document gives its content and length, all its lines are counted, nothing is taken out, and a search can always follow |
| Bm25.LoadedOntoIsConsistentIff | viking/bm25.go:69-109 | statistics that are up to date stay so if and only if no line with tokens is superseded and no document with tokens is superseded by a line |
| Bm25.LoadedIsConsistentIff | viking/bm25.go:69-109 | on a new index the statistics are those of the loaded documents if and only if no line with tokens is superseded |
| Bm25.DividesByZeroIff | viking/bm25.go:69-231 | a search after a load can divide by zero if and only if the last line of every document has no tokens while an earlier line has one |
| Bm25.BM25Index.Persist | viking/bm25.go:112-151 | one encoded line per document, in some order of the map |
| Bm25.ReloadsIffLinesFit | viking/bm25.go:69-151 | persisting in any order and loading into a fresh index gives the same postings, lengths, total, average and documents, but for the access times, if and only if every line fits the scanner |
| Bm25.ReloadedScore | viking/bm25.go:69-243 | a reload halves the score of a document used in the last 30 days and leaves every other score |
| Bm25.BM25Index.RecomputeAvgLen | viking/bm25.go:153-164 | the average is the sum of the lengths over their number |
| Bm25.BM25Index.UpdateAccess | viking/bm25.go:271-278 | changes only the access time of a known document, whatever the state of the statistics |
| Bm25.BM25Index.Search | viking/bm25.go:210-260 | on every index that calls can produce: duplicate-free, sorted by score, of length min(limit, matches), no match left out scores above one included; a negative limit panics exactly if the query has tokens |
| Bm25.Best | viking/bm25.go:244-259 | filter, sort and cut give the best `limit` entries of the score map |
| Bm25.BestIsTop | viking/bm25.go:210-260 | the best of the score map are the best of the documents that a query token is posted for |
| Bm25.HitsAreMatches | viking/bm25.go:217-243 | with statistics up to date the documents that a query token is posted for are those that share a token with it |
| Bm25.ConsistentIsSane | viking/bm25.go:153-207 | whenever a document is posted the average length is positive: no division by zero |
| Bm25.ScorePositiveIff | viking/bm25.go:217-243 | a document scores above zero if and only if a query token is posted for it and the average length is not 0 |
| Bm25.LongerWeighsLess | viking/bm25.go:226-231 | all else equal, a longer document weighs strictly less |
| Bm25.OftenerWeighsMore | viking/bm25.go:226-231 | all else equal, more occurrences of the token weigh strictly more, and always less than 2.2 times the other factors |
| Bm25.TermFactorAt | viking/bm25.go:226-231 | at the average length f occurrences count for 2.2 f / (f + 1.2); in general for 2.2 f a / (f a + 0.3 a + 0.9 l) with length l and average a |
| Bm25.IdfIs | viking/bm25.go:225 | the token counts for the logarithm of (N + 1) / (n + 0.5), for n of N documents |
| Bm25.RarerWeighsMore | viking/bm25.go:225 | with an increasing logarithm a token in fewer documents weighs more |
| Bm25.ImportanceCounts | viking/bm25.go:237-242 | weights are proportional to the importance from 1 on, and anything below counts as 1 |
| Bm25.UseCounts | viking/bm25.go:232-236 | a document not used since the cutoff weighs half |
| Bm25.ImportanceRead | viking/bm25.go:182-188 | the importance is a first character from 1 to 5, and 3 for anything else |
| Segmenter.TheOnlySegmentation | viking/segment.go:69-123 | ordered, disjoint tokens that lose no letter, number or CJK rune, each the longest dictionary word or a maximal run, exist exactly once, and the pass computes them |
| Segmenter.IndexableIff | viking/segment.go:71-123 | what no segmentation may lose are the runes from U+4E00 to U+9FFF, letters and numbers, unless they are white space |
| Segmenter.BoundedLookup | viking/segment.go:86-96 | looking up no more runes than the longest dictionary word finds the same match |
| Segmenter.Segmenter.Segment | viking/segment.go:69-123 | the emitted tokens are those of the one segmentation, dictionary words as they are and others stemmed, none empty |
| Segmenter.Segmenter.Pass | viking/segment.go:79-121 | the loop follows the reference pass step by step |
| Segmenter.Segmenter.LookUp | viking/segment.go:86-100 | finds the longest dictionary word at a place, one rune if there is none |
| Segmenter.Segmenter.constructor | viking/segment.go:20-34 | the words of the file, or the default ones if it gives none, and a bound that no word exceeds |
| Segmenter.Segmenter.LoadDict | viking/segment.go:36-52 | the dictionary is the trimmed lines that are neither empty nor comments |
| Stemmer.StemIsStem | viking/segment.go:133-169 | a stem is never empty, never longer in runes or bytes, and a prefix of the word but for its last rune, which may be an added "e" |
| Stemmer.RuneLenIs | viking/segment.go:134-158 | lengths are counted in bytes of UTF-8 |
| Stemmer.PluralStems | viking/segment.go:138-146 | f + "sses" gives f + "ss", f + "ies" gives f + "i", f + "ss" stays |
| Stemmer.PluralS | viking/segment.go:147-149 | f + "s" gives f where f has at least three bytes and ends neither in "s", "sse" nor "ie" |
| Stemmer.PluralAndSingular | viking/segment.go:133-169 | such a plural and its singular give one token if and only if the singular stays as it is |
| Stemmer.VerbStems | viking/segment.go:150-159 | f + "eed" gives f + "ee", f + "ed" gives f from three bytes on unless f ends in "e", f + "ing" gives f from three bytes on and else stays |
| Stemmer.NounStems | viking/segment.go:160-166 | f + "ational" gives f + "ate", f + "tion" gives f + "tio" |
| Stemmer.StaysIff | viking/segment.go:133-169 | exactly the words with one of these endings, and enough before them, change, and they get shorter |
| TokenBucket.TokenBucket.constructor | governor/ratelimit.go:22-36 | a bucket starts full with the larger of 1 and the burst, and a rate that is not positive counts as 1 |
| TokenBucket.TokenBucket.Allow | governor/ratelimit.go:39-54 | grants one token exactly if the refilled bucket holds one, and takes it |
| TokenBucket.TokenBucket.AllowN | governor/ratelimit.go:57-76 | grants all or nothing; a refusal changes only the time of refill |
| TokenBucket.LevelIsTightestWindow | governor/ratelimit.go:39-76 | after any run the level is the tightest of all window bounds |
| TokenBucket.GrantedIffItFits | governor/ratelimit.go:39-76 | a request is granted if and only if every window from an earlier request stays within capacity plus rate times length |
| TokenBucket.IntervalBound | governor/ratelimit.go:39-76 | in any interval at most capacity + rate * (t - s) tokens are granted |
| TokenBucket.DenialIsInvisible | governor/ratelimit.go:39-76 | a denied request changes no later decision |
| TripleRateLimit.RateLimitMap.Allow | governor/ratelimit.go:96-105 | one key's call looks its bucket up, full if new, and asks it at a later reading of the clock, and leaves all others untouched |
| TripleRateLimit.TripleRateLimiter.Allow | governor/ratelimit.go:172-183 | undisturbed by others: passes exactly if all three levels grant, each at its own readings of the clock; a refusal keeps what earlier levels took |
| TripleRateLimit.UndisturbedCall | governor/ratelimit.go:96-183 | the atomic steps of a call, taken without steps of others between them, do what `Allow` does |
| TripleRateLimit.MoveOnScope | governor/ratelimit.go:96-183 | a step of a call leaves each scope's bucket alone or asks it once, and the call gets further exactly if it is granted |
| TripleRateLimit.TripleBound | governor/ratelimit.go:96-183 | however calls are interleaved, those that a scope grants within any interval are at most the larger of 1 and its burst plus its configured rate times length, for all three kinds of scope at once |
| TripleRateLimit.PassedBound | governor/ratelimit.go:96-183 | the same for the calls that begin and pass within the interval, whatever other calls run beside them |
| SlidingWindow.Compact | governor/quota.go:44-52 | the loop in place leaves the kept times in front and does not touch what is behind them |
| SlidingWindow.Append | governor/quota.go:58 | in place if the capacity suffices, otherwise into a copy |
| SlidingWindow.RefusalHarmlessIff | governor/quota.go:44-55 | a refusal leaves the stored window intact if and only if compaction dropped nothing or everything |
| SlidingWindow.FullWindowKeepsAll | governor/quota.go:44-55 | a window within the limit that is refused dropped nothing, which is why refusals of the quota are harmless |
| SlidingWindow.RefusalMayInvent | governor/quota.go:44-55 | a fact about the shared loop that neither limiter can reach: refusing a window of old and recent times would show some recent time twice |
| SlidingWindow.ThrottledBound | governor/quota.go:44-58 | a history that was throttled has at most `limit` times in any interval of the window's length |
| Quota.Quota.Allow | governor/quota.go:30-60 | follows the reference step: overload, user limit, window, and only an admitted call is counted |
| Quota.Quota.Release | governor/quota.go:62-71 | takes one from a positive count, otherwise changes nothing |
| Quota.AdmittedIff | governor/quota.go:30-60 | a call is admitted if and only if the process is not overloaded, the user has fewer than 3 running, and fewer than 10 were admitted for the skill in the last second |
| Quota.WindowIsHistory | governor/quota.go:43-58 | what compaction has dropped no later window needs |
| Quota.OneSecondBound | governor/quota.go:43-58 | no second, wherever it starts, sees more than 10 calls admitted for one skill |
| Quota.ActiveCounts | governor/quota.go:38-71 | a user's count lies between 0 and 3 and is admissions minus releases if and only if every release was matched |
| IronClaw.Enforcer.Enforce | governor/ironclaw/ironclaw.go:127-184 | the checks in order, exactly when each refuses, and what each leaves in the shared windows |
| IronClaw.Classifications | governor/ironclaw/ironclaw.go:99-108 | public, internal, confidential and secret in this order, whatever their case, and any other name counts as public |
| IronClaw.WindowIsOneSecond | governor/ironclaw/ironclaw.go:145-164 | whatever limits the policies carry, a stored window only ever holds one clock second |
| IronClaw.RefusalChangesNothing | governor/ironclaw/ironclaw.go:145-164 | in every run, a call that is not recorded leaves every window as it is |
| IronClaw.WindowIsHistory | governor/ironclaw/ironclaw.go:145-164 | the window has dropped nothing that a later call needs |
| IronClaw.WithinOwnLimit | governor/ironclaw/ironclaw.go:145-164 | the k-th call recorded in a clock second has a limit of at least k, whatever the limits of the others |
| IronClaw.PerSecondBound | governor/ironclaw/ironclaw.go:145-164 | no clock second has more recorded calls than the limit of the last of them, so none has more than the largest in force |
| IronClaw.RefusedIffSecondFull | governor/ironclaw/ironclaw.go:145-164 | a counted call is refused for its rate if and only if its clock second already has as many recorded calls as its own limit |
| ResponseFilter.RedactTouches | internal/engine/response_pipeline.go:191-193 | after all passes, whatever the other words and the empty one among them, a listed word is left only where it meets a `***` |
| GoStrings.ReplaceAllIs | internal/engine/response_pipeline.go:192 | cut at the first places of the pattern, the text becomes the same parts with the replacement between them |
| GoStrings.ReplaceNothing | internal/engine/response_pipeline.go:192 | an empty pattern puts the replacement before every encoded rune and at the end |
| GoStrings.RuneWidthDecodes | internal/engine/response_pipeline.go:192 | whatever counts as a rune of more than one byte is the UTF-8 encoding of one |
| GoStrings.OnlySpaceGoes | internal/engine/response_pipeline.go:197 | trimming cuts off nothing but the encodings of Unicode white space |
| GoStrings.SpaceIff | internal/engine/response_pipeline.go:197 | the encodings that count as space are those of the 25 white-space code points |
| GoStrings.SpaceDecodes | internal/engine/response_pipeline.go:197 | and nothing else counts as space |
| ResponseFilter.RedactRemoves | internal/engine/response_pipeline.go:191-193 | after all passes a star-proof listed word is gone and later passes do not bring it back |
| ResponseFilter.FilterComplete | internal/engine/response_pipeline.go:186-198 | after replacement, cut and trim no leak-proof listed word is left, whatever else is listed |
| ResponseFilter.PlainWordsAreFiltered | internal/engine/response_pipeline.go:186-198 | non-empty words without `*` and `.` are leak-proof |
| ResponseFilter.FilteredLength | internal/engine/response_pipeline.go:194-197 | a filtered text has at most 4099 bytes |
| ResponseFilter.RedactionWorksIffStarProof | internal/engine/response_pipeline.go:191-193 | redaction works for a word on all texts and lists if and only if no `***` can complete it |
| ResponseFilter.LeakHasCause | internal/engine/response_pipeline.go:186-198 | where a listed word is left in a reply, stars or dots complete it there: which words and lengths allow that |
| ResponseFilter.LeakExists | internal/engine/response_pipeline.go:186-198 | for every such word a list and a text with which it is left in the reply |
| ResponseFilter.FilterWorksIff | internal/engine/response_pipeline.go:186-198 | the filter works for a word of any length on all texts and lists if and only if neither `***` nor `...` can complete it within the bytes of a reply |
| ResponseFilter.FilterWorksIffLeakProof | internal/engine/response_pipeline.go:186-198 | up to 4094 bytes that is: if and only if it is non-empty, has no `***` inside, no `*` at either end and no `.` at its end |
| ResponseFilter.ResponsePipeline.PostProcess | internal/engine/response_pipeline.go:186-198 | computes the filtered text |
| ResponseFilter.ResponsePipeline.Run | internal/engine/response_pipeline.go:100-172 | for every case of intent, routes, model and streaming the reply and the turns kept: what the skills say, the fixed text, the model's filtered answer or the fallback; it streams if and only if that is asked for, nothing answers before, and the model can; an answer that needs no change is itself the reply; what is not streamed is a fixed text or free of all words that the filter works for |
| ResponseFilter.ResponsePipeline.RunSkills | internal/engine/response_pipeline.go:108-119 | the output of the last skill that does not fail, nothing if all fail, each skill being fed the last non-empty text before it |
| ResponseFilter.OneLastOutput | internal/engine/response_pipeline.go:108-119 | that determines the output |
| ResponseFilter.FailingSkillIsSkipped | internal/engine/response_pipeline.go:108-119 | leaving out a skill that fails changes nothing for the rest of the chain |
| ResponseFilter.ResponsePipeline.RunSkillIntent | internal/engine/response_pipeline.go:105-127 | the fallback if the chain's output is empty, else the filtered output; the turn kept is that reply |
| MemoryMerge.ExchangeSort | internal/engine/memory_engine.go:156-163 | the exchanges in place give a descending permutation, and leave alone what is descending already |
| MemoryMerge.ComputeJaccard | internal/engine/memory_engine.go:270-290 | the counting loop computes the share of common words |
| MemoryMerge.SimilarIff | internal/engine/memory_engine.go:270-320 | memories are similar if and only if at least two fifths of all their keywords and entities are common to both |
| MemoryMerge.JaccardIsSimilarity | internal/engine/memory_engine.go:270-290 | symmetric, within [0, 1], 1 exactly for equal non-empty sets, 0 exactly for disjoint ones |
| MemoryMerge.MergeSimilar | internal/engine/memory_engine.go:292-320 | keeps, in order, exactly the entries that resemble no kept entry before them |
| MemoryMerge.TheOnlyMerge | internal/engine/memory_engine.go:292-320 | a choice without similar pairs in which every dropped entry has an earlier similar chosen one exists exactly once, and it is what the loop keeps |
| MemoryMerge.DroppedForABetterOne | internal/engine/memory_engine.go:156-165 | after sorting a dropped memory resembles a kept one of no lower score |
| MemoryMerge.ScoreMonotone | internal/engine/memory_engine.go:142-154 | a memory that is no more important and no fresher scores no more |
| MemoryMerge.ScoreIs | internal/engine/memory_engine.go:142-154 | a fifth of the importance, half of that for an old memory, and never less than 0.2 |
| MemoryMerge.Search | internal/engine/memory_engine.go:127-175 | the first `limit` summaries of the merge of a descending permutation of all scored memories; a negative limit panics exactly if there are memories |
| DecayMemory.DecayFactor | engine/memory_engine.go:60-81 | the loop ends and computes the reference factor, default half-life and floor included |
| DecayMemory.RawBetweenPowers | engine/memory_engine.go:69-76 | after k whole half-lives decay lies in (2^-(k+1), 2^-k] |
| DecayMemory.OneHalfLifeHalves | engine/memory_engine.go:69-76 | before the floor, decay halves if and only if the age grows by one half-life |
| DecayMemory.RawDecreases | engine/memory_engine.go:69-76 | before the floor it strictly decreases |
| DecayMemory.FactorDecreases | engine/memory_engine.go:60-81 | with the floor it never grows with age and stays within [1e-6, 1] |
| DecayMemory.ExponentialLawIff | engine/memory_engine.go:59-76 | the exponential law holds for two ages if and only if one is a whole number of half-lives |
| DecayMemory.KeptIffYoung | engine/memory_engine.go:92-110 | a long-term hit passes the threshold if and only if it is younger than 6.72 half-lives, 47.04 days |
| DecayMemory.MemoryEngine.PushShort | engine/memory_engine.go:44-50 | the buffer is always the last `maxShort` of all entries pushed |
| DecayMemory.MemoryEngine.Retrieve | engine/memory_engine.go:84-113 | newest matching recent entries up to the limit, then the young ones of the retriever's answer |
| DecayMemory.NewestAreHits | engine/memory_engine.go:94-99 | recent results all match, are within the limit, and below the limit none is missing |
| DecayMemory.NewestAreLast | engine/memory_engine.go:94-99 | the recent results are, newest first, exactly the last of all matches: what the limit leaves out is older than everything returned |
| ContextManager.ContextManager.Append | internal/engine/context_manager.go:62-92 | appended turns are those handed over followed by those kept, kept are the last twenty, and the writer gets each turn that is pushed out |
| ContextManager.ContextManager.GetRecent | internal/engine/context_manager.go:106-126 | the last `n` turns appended to the session, as far as the window reaches |
| ContextManager.ContextManager.ArchiveStale | internal/engine/context_manager.go:146-164 | forgets exactly the sessions last used before the cutoff and leaves the others as they are |
| ContextManager.ContextManager.SummarizeTurns | internal/engine/context_manager.go:94-103 | the summary is the trimmed lines of the turns |
| ContextManager.ConservedOneMore | internal/engine/context_manager.go:74-87 | one more turn keeps what was appended equal to what was handed over plus the window |
| ContextManager.RecentIsRecent | internal/engine/context_manager.go:106-126 | the last turns of a window are the last turns of everything appended |
| RealtimeQueue.Conservation | butler/queue.go:46-80 | over all interleavings free tokens, queued items, calls holding a token and calls owing one make 16, and each class is first in, first out |
| RealtimeQueue.SendNeverBlocks | butler/queue.go:76-78 | whenever a token is owed the channel has room for it |
| RealtimeQueue.RefusedIff | butler/queue.go:47-51 | `Enqueue` fails if and only if sixteen items are queued, on their way in or on their way out |
| RealtimeQueue.RemovedIsNext | butler/queue.go:62-75 | what is removed is the oldest of its class, and a normal item leaves only after every priority item that came |
| RealtimeQueue.DrainedInOrder | butler/queue.go:46-80 | up to sixteen items come out again, priority ones first and each class in order, and all tokens are free |
| RealtimeQueue.RealtimeQueue.Enqueue | butler/queue.go:46-60 | an undisturbed call takes its two steps or fails without a token |
| RealtimeQueue.RealtimeQueue.Dequeue | butler/queue.go:62-80 | an undisturbed call removes the next item and gives its token back |
| RealtimeQueue.RealtimeQueue.Len | butler/queue.go:82-86 | what is queued is what the tokens not free and not held or owed by a call stand for |
| WorkerPool.ExactlyOnePlace | architect/pool.go:64-95 | over all interleavings the queue holds at most 64, no more tasks run than workers exist, and every accepted task is in exactly one of queue, worker and finished list, first come first started |
| WorkerPool.RunsOnce | architect/pool.go:64-95 | what has started is never queued again and what has finished never runs again |
| WorkerPool.WorkersProgress | architect/pool.go:38-77 | with the done channel open, work left means that a worker can step, and every step leaves less |
| WorkerPool.AllWorkersMayWait | architect/pool.go:38-77 | a started pool without work can have all its workers waiting in their select |
| WorkerPool.ClosedForGood | architect/pool.go:52-62 | the done channel stays closed, so at most one `Stop` succeeds |
| WorkerPool.StalledOnlyAfterStop | architect/pool.go:38-77 | a running pool lacks workers only if it was stopped before |
| WorkerPool.StallsIffStoppedBefore | architect/pool.go:38-77 | from a running pool a state with queued tasks and no workers can be reached without another `Stop` if and only if it was stopped before |
| WorkerPool.RestartedPoolMayStall | architect/pool.go:38-77 | after a restart, for any number of workers, a queued task may never run |
| ParallelSchedule.SlotsAreRight | architect/scheduler.go:115-164 | on a pool with any past and any other users, at any time: a slot holds its own task's output, its refusal, or nothing, and no send waits |
| ParallelSchedule.ReceivedAsSent | architect/scheduler.go:115-163 | outputs are received in the order in which they were sent |
| ParallelSchedule.CompleteIsExact | architect/scheduler.go:115-164 | a completed call has results[i] equal to task i's output for all i |
| ParallelSchedule.HaltedIffNoMove | architect/scheduler.go:115-164 | neither the call nor a worker can move exactly if all is submitted, nothing runs, no idle worker has a task to take and no output is left to receive |
| ParallelSchedule.HangsIff | architect/scheduler.go:155-163 | a call that cannot move any more waits for good if and only if a task was refused, a task panicked, or an accepted task is queued where no workers are |
| ParallelSchedule.MaximalIsExact | architect/scheduler.go:115-164 | with the pool running and its done channel open, without refusal, panic and cancellation, every maximal run ends with results[i] equal to task i's output for all i |
| ParallelSchedule.MovesAreBounded | architect/scheduler.go:115-164 | every run has a bounded number of moves of the call and the workers, so that maximal runs are reached |
| ParallelSchedule.RunsOfMovesEnd | architect/scheduler.go:115-164 | a run of moves alone has at most five for each task, and what the pool was left with |
| ParallelSchedule.CanHangIff | architect/scheduler.go:115-164 | left to itself, without panics, a call can hang if and only if it has tasks and the pool is not running, was stopped before, has no workers, or has fewer places free in its queue and workers waiting in their select than the call has tasks |
| ParallelSchedule.Collect | architect/scheduler.go:155-163 | the receive loop fills exactly the slots of the outputs that arrive |
| DepthController.DepthController.Spawn | bus/depth_controller.go:42-55 | succeeds exactly if `CanSpawn` holds; a refusal changes nothing and names the limit, that of the depth first |
| DepthController.DepthController.MaySpawn | bus/depth_controller.go:33-39 | answers whether `Spawn` would succeed |
| DepthController.SpawnKeepsDepthsIff | bus/depth_controller.go:42-55 | a successful spawn keeps recorded depths right if and only if the child is not the parent and has no children whose depth would have to change |
| DepthController.RecordedDepthIsReal | bus/depth_controller.go:42-55 | in a careful run the recorded depth is the real length of the parent chain, at most two |
| DepthController.TreeBound | bus/depth_controller.go:10-55 | in a careful run a root's tree has at most 31 cores |
| DepthController.TreeBoundIsReached | bus/depth_controller.go:10-55 | a run with fresh names whose root's tree has 31 cores |
| DepthController.TwoStepsUpIsRoot | bus/depth_controller.go:42-55 | two steps up from any core is its root, so each core is in one tree |
| DepthController.CountersSum | bus/depth_controller.go:53 | the counters together count the successful spawns |
| DepthController.FreshCounters | bus/depth_controller.go:52-53 | with fresh names each counter is the number of the core's children |
| DepthController.FreshIsCareful | bus/depth_controller.go:42-55 | runs with fresh child names are careful, so the bounds hold for them |
| DepthController.BottomUpIsUnbounded | bus/depth_controller.go:42-55 | spawned bottom up, the real depth is unbounded while recorded depths are at most one |
| GoStrings.SplitJoin | viking/engram.go:96-97 | splitting undoes joining for separator-free parts |
| GoStrings.JoinSplit | viking/engram.go:168-175 | joining undoes splitting, and the parts are separator-free |
| GoStrings.ScanUnlines | viking/search.go:60-61 | scanning printed lines gives them back up to the first that is too long |

## Left out

- DecayMemory.MemoryEngine.Retrieve: does not bound the whole answer by the limit, because the code does not cut what a retriever returns beyond what it was asked for.
- EngramStore.EngramStore.Write: does not follow the engram files on disk, only the index.
- Bm25.BM25Index.Persist: timestamps of documents, which nothing reads, are part of the line encoding; the temporary file, `Sync` and rename are not modelled.
- TripleRateLimit.TripleRateLimiter.Allow: is a call that no other call disturbs; interleaved calls are steps of the state machine beside it.
- Rounding of `float64` and the wrap-around of 64-bit counters.
- The metadata of search documents, `Get`, `List`, `Delete`, and errors of the directory walk that loads engrams: map reads and file handling.
- `SafeWrite`, `AppendAuditRoot`, snapshots, backup: file handling without a property that spans calls.
- `RetryAfter`, `UpdateConfig` and reading limiter configurations; `CheckPath` and reading policies.
- Token validation in `Enforce` and the goroutine count in `Allow` are answers from outside, given as parameters.
- `Schedule`: its completion channel closes after the submit, so it orders nothing. `tasksByPriority` is called by nothing but its test.
- The ledger entries that tasks of `ScheduleParallel` write, and `panic` values.
- Prompts, intents, streamed replies, keyword and entity extraction, `FlushSession`: text handling around the modelled parts.
- `SessionTimeout` and wall-clock arithmetic: cutoffs are parameters.
- Locks are modelled as the atomicity of the sections they guard, and only of those; the data race of `GetRecent`, which writes under a read lock, is not modelled.
- HTTP, channels, command line, model clients, cryptography and configuration.
