# A verified model of amoxtli

This project models the algorithmic core of amoxtli, a document indexing and retrieval library, and proves what that
core promises. `dafny verify dfyconfig.toml` checks everything.

- **Metadata filters.** `Filters` is the filter language with its Go evaluator and the way metadata is stored as JSON.
  `Postgres` and `Sqlite` compile it to an SQL syntax tree, evaluated in three-valued logic; `Canonical` is the encoding
  that guards pagination cursors, `FilteredIndex` puts the compiled filters under a search.
- **Pagination.** `Pagination` rebuilds each page from a cursor over a growing candidate window.
- **LLM caches.** `ChatCache` and `EmbeddingsCache` are step machines over every interleaving of concurrent calls.
- **Section trees.** `MarkdownWalk`, `MarkdownSplits`, `Prune` and `MarkdownTree` are the markdown parser on values,
  `MarkdownParser`, `MarkdownPruner` and `MarkdownDocument` the same on objects linked by pointers; `Nesting` and
  `Splitting` are the source-code parser.
- **Ranking.** `Proximity`, `Fusion`, `Reranking`, `Dedup` and `Retrieval`.
- **Blobs.** `BlobScan`, `BlobRefs` and `BlobSweep` follow images from the URIs in documents to garbage collection, over
  tables whose contents may be sealed; `Encryption` is the walk that opens and seals documents in a cyclic object graph.
- `Order` is text order and stable sorting, `SqlValues` what the two SQL dialects share, `SectionLists` the sections as both
  parsers list them, `Wrappers` the optional value.

Code that updates state in the source is a method here, proved equal to a function; what the source promises is proved
about the function. Library calls whose inside does not matter (rounding, date formats, quoting, hashes, the word
counter, AES-GCM) are fields of a record that satisfies stated laws.

## What the proofs found

- An integer of more than 53 bits in metadata is written in full and read back rounded: SQL and `Filter.Matches` then
  may disagree (`Postgres.FirstLostInteger` has the filter for 2^53 + 1). PostgreSQL agrees with Go on every valid filter
  exactly when each number stored under a valid key is the shortest decimal of a float64, SQLite exactly when each is a
  float64 or no 64-bit integer (SQLite reads a larger integer as a REAL); in an array it is enough that the float64 nearest
  to each number is found. The two backends agree exactly when they see each number on the same side of its float64: they
  do not on 2^63 + 1 (`Sqlite.UnsignedIntegerDiffers`).
- A `[]byte` in metadata matches as nothing before a document is stored and as base64 text afterwards.
- `CanonicalBytes` does not quote the operator. An undeclared operator, which `Validate` accepts, can carry a NUL and forge
  the bytes of another filter. That operator names carry no NUL is sufficient for the bytes to be sound, not necessary.
- A blob URI that follows directly after one cut a digit short shares a byte with it. `ScanHashes` returns a URI for what it
  is exactly when the number of cut URIs directly before it is even: each that counts takes the first byte of the next.
- Content that carries the marker `amx1:` in clear is not sealed and does not survive a read. A scan of what the documents
  read back as gives the live set of blobs exactly when no content carries the marker; the reference table is right in any
  case, and when the scan meets a document that does not open, the sweep deletes nothing.
- A row that does not open, under another key for instance, makes replacing and deleting its source fail; deleting by id
  works.
- `EncryptExistingDocuments` writes what its first query read. The reference table stays right exactly when that carries
  the same URIs as what the row stands for by then. Another save under the same id can come in between: the row then
  stands for the old content, and none of its references is listed (`BlobRefs.StaleSealLosesReferences`).
- When sealing one document of a batch fails, the documents before it stay sealed in the caller's memory, although the
  comment on the stash says that no caller observes its document sealed. The caller's rows are as before exactly when none
  of those documents had anything to seal.
- Pruning compares a section with its declared parent. A quoted code block, whose end is taken four bytes too far, then a
  heading without text and a paragraph leave a section that repeats its new parent's range. What is left is free of
  redundant sections, and a second pass changes nothing, exactly when no section the pass keeps has the range of its
  nearest kept ancestor, which shows on the tree before the pass. Documents whose headings all have lines and end beyond
  the text before them meet that.
- A child of an oversized code section, other than the last, can hold fewer words than the maximum although more follow:
  the line that completes the child before it takes words of its chunk. The children up to any one hold their share
  together.
- Filters that select the same documents do not always encode identically, although the comment on `CanonicalBytes` says
  so: an equality and membership in a list of one differ. Two filters have equal bytes exactly when one is the other with
  conditions, alternatives and list operands in any order, at every depth, and with operands that read alike; a cursor
  resumes under exactly these filters.

## Model

| member | source | states |
|---|---|---|
| Filters.NormIdempotent | internal/filternorm/filternorm.go:44-56 | normalising a metadata value twice is normalising it once |
| Filters.MatchesBySight | index/filter.go:258-327 | a condition's verdict depends only on the normal form of the values under its keys |
| Filters.TextsCompareAsSpelled | index/filter.go:258-327 | times and texts compare by one spelling: a date in any zone, given as a time or as RFC 3339 text, by the canonical text of its instant, any other text by itself |
| Filters.DatesAreInstants | internal/filternorm/filternorm.go:28-56 | two dates, each written as a time or as text in any zone, are equal exactly when their instants have one canonical text; text that is no date equals only itself |
| Filters.OtherValuesCompare | internal/filternorm/filternorm.go:119-200 | numbers of any type compare as float64s, booleans are equal or not and never ordered, and nothing else compares |
| Filters.ListsCompareByElement | index/filter.go:258-327 | In holds when the value equals some operand, Any when some element of the stored list does |
| Filters.MissingKeySatisfiesAbsence | index/filter.go:258-327 | a document without the key meets the test for its absence and no other condition on it, Ne included |
| Filters.FiltersCombine | index/filter.go:248-268 | conditions are joined by and, those of an Or are alternatives at any depth; an Or of anything but conditions and an undeclared operator select nothing |
| Filters.StoredAsSpelled | internal/filternorm/filternorm.go:66-85 | what is stored of a time or a text, alone or in a list, is its canonical spelling |
| Filters.StoreKeepsVerdicts | internal/filternorm/filternorm.go:66-85 | storing and reloading metadata changes no filter's verdict exactly when it holds no []byte that turns into text |
| Filters.NumberOrder | internal/filternorm/filternorm.go:104-138 | comparing what a database reads of a stored number with what it receives for a float64 is comparing their float64s, and on a tie the side the number lies on |
| Filters.ReadersAgree | internal/filternorm/filternorm.go:1-14 | two readers of one row give every valid condition the same verdict exactly when they read its numbers alike |
| Filters.SqlSeesWhatGoSees | index/postgres/filter.go:40-57 | a database gives every valid condition the verdict Go gives the reloaded metadata exactly when the stored numbers are float64s to it |
| Postgres.Args.Bind | index/postgres/filter.go:66-70 | a value gets the next number, and no value bound before moves |
| Postgres.BuildFilterSql | index/postgres/filter.go:77-92 | an invalid key is refused and binds nothing; otherwise the expression keeps exactly the matching rows, whatever is bound before or after |
| Postgres.BuildCondition | index/postgres/filter.go:98-177 | the builder over the shared accumulator makes the specified expression and appends the specified binds |
| Postgres.BuildContains | index/postgres/filter.go:184-201 | the element test binds its value before its key, and nothing when the operand is not comparable |
| Postgres.BuildEquals | index/postgres/filter.go:218-237 | the equality test and its binds for each kind of operand |
| Postgres.BuildOrdered | index/postgres/filter.go:241-260 | the order test and its binds for each kind of operand |
| Postgres.ElementCorrect | index/postgres/filter.go:184-201 | jsonb containment of a one-element array tests membership, a missing row and a non-array included |
| Postgres.EqualsCorrect | index/postgres/filter.go:218-237 | an equality is never NULL on a document that has the key and never TRUE on one without, which lets Ne negate it |
| Postgres.OrderedCorrect | index/postgres/filter.go:241-260 | an ordered test is TRUE exactly where the Go comparison is defined and holds |
| Postgres.NeCorrect | index/postgres/filter.go:98-177 | the NOT inside Ne lets no NULL through |
| Postgres.ExistsCorrect | index/postgres/filter.go:98-177 | presence and absence tests agree with Go on a document without a metadata row |
| Postgres.CondCorrect | index/postgres/filter.go:98-177 | every compiled condition, nested Or included, is TRUE exactly where the condition matches, wherever its binds start |
| Postgres.FilterCorrect | index/postgres/filter.go:77-92 | the joined clause keeps exactly the rows the filter rules keep, and binds made before or after change nothing |
| Postgres.PushDownPreservesMeaning | index/postgres/filter.go:77-260 | pushing every valid filter down selects what Filter.Matches selects, documents without metadata included, exactly when each number stored under a valid key is the shortest decimal of a float64, or in an array has its float64 beside it |
| Postgres.GoAndPostgresDiffer | index/postgres/filter.go:218-237 | on metadata with a number that is no shortest decimal of a float64, the equality with itself holds in Go and not in PostgreSQL |
| Sqlite.BuildFilterSql | index/sqlitevec/filter.go:115-134 | clauses and arguments grown in loops make the specified clause; an invalid key is refused |
| Sqlite.BuildCondition | index/sqlitevec/filter.go:141-230 | the condition builder makes the specified clause and arguments |
| Sqlite.EqualsCorrect | index/sqlitevec/filter.go:234-259 | an equality consumes its own arguments, is never NULL with the key and never TRUE without |
| Sqlite.ElementCorrect | index/sqlitevec/filter.go:263-281 | the test of one json_each row agrees with the Go equality of the element |
| Sqlite.OrderedCorrect | index/sqlitevec/filter.go:285-305 | an ordered test consumes its own arguments and is TRUE exactly where the condition matches |
| Sqlite.AnyCorrect | index/sqlitevec/filter.go:141-230 | the array guard and the json_each subquery together test membership |
| Sqlite.CondCorrect | index/sqlitevec/filter.go:141-230 | every compiled condition takes exactly its own arguments and is TRUE exactly where the condition matches |
| Sqlite.FilterCorrect | index/sqlitevec/filter.go:115-134 | the whole clause takes as many arguments as there are and keeps exactly the rows the filter rules keep |
| Sqlite.PushDownPreservesMeaning | index/sqlitevec/filter.go:87-134 | pushing every valid filter down selects what Filter.Matches selects exactly when each number stored under a valid key is a float64 or no 64-bit integer, or in an array has its float64 beside it |
| Sqlite.BackendsAgree | index/sqlitevec/filter.go:115-134 | both backends keep the same document for every valid filter exactly when they see its numbers on the same side of their float64s |
| Sqlite.BackendsDiffer | index/sqlitevec/filter.go:234-259 | on a number that is neither a 64-bit integer nor a shortest decimal, the equality with itself holds in SQLite and not in PostgreSQL |
| Canonical.EncodeOperand | index/filter.go:203-219 | the operand encoder sorts its list |
| Canonical.EncodeCondition | index/filter.go:187-201 | the condition encoder over sorted, quoted alternatives |
| Canonical.EncodeFilter | index/filter.go:172-185 | the filter encoder over sorted conditions; nil for the empty filter |
| Canonical.ScalarSplit | index/filter.go:223-243 | an encoded operand shows where it ends, and operands encoded alike compare alike with everything |
| Canonical.ConditionSplit | index/filter.go:187-201 | an encoded condition shows where it ends, at every depth of nesting |
| Canonical.EncodingSound | index/filter.go:172-243 | filters with equal bytes match exactly the same metadata, when no operator name carries a NUL |
| Canonical.UndeclaredOperatorForges | index/filter.go:187-201 | without that condition two filters with different verdicts have equal bytes |
| Canonical.EquivalentFiltersDiffer | index/filter.go:160-185 | filters that select the same documents may have different bytes |
| Canonical.EncodingForgetsOrder | index/filter.go:172-219 | reordering conditions, alternatives and list operands, and respelling operands, leaves the bytes unchanged |
| Canonical.AlikeScalars | index/filter.go:223-243 | operands are encoded alike exactly when they compare alike, or are compared with nothing and spelled alike |
| Canonical.EncodingExact | index/filter.go:172-243 | two filters with plain operator names have equal bytes exactly when one is the other rearranged, at every depth, with operands that read alike |
| Pagination.MetadataFilter.Queue | ingest/manager.go:495-508 | the documents queued are those of the results not judged before, each once |
| Pagination.MetadataFilter.Apply | ingest/manager.go:495-528 | the memoised filter keeps exactly the matching results, in order, and judges no document twice over its whole life |
| Pagination.SearchCandidates | ingest/manager.go:362-464 | the over-fetch loop ends and gathers the specified candidates on every branch |
| Pagination.PaginateResults | ingest/manager.go:633-670 | without an anchor the page starts at the first result; when no result carries the anchor it is empty and there is no next one; otherwise it is the next pageSize results after the first that carries it, with the cursor of its last when more follow |
| Pagination.PageFollowsAnchor | ingest/manager.go:617-670 | the same of the specified page, over positions |
| Pagination.Search | ingest/manager.go:262-324 | a search validates, resumes, gathers and cuts as specified, errors included |
| Pagination.SearchAnswers | ingest/manager.go:262-324 | which of its errors a search answers with, in order, and otherwise a page of what was gathered |
| Pagination.CandidatesCover | ingest/manager.go:362-464 | the candidates are the first matching results: enough of them for the page, or all there are |
| Pagination.PageAt | ingest/manager.go:262-324 | the page at any point of a walk is the next stretch of one fixed list, and its cursor resumes right after it |
| Pagination.WalkReturnsEveryMatchOnce | ingest/manager.go:262-464 | following the cursor to the end returns exactly the matching entries among those in reach, each once and in ranking order |
| Pagination.WalkIsFiltered | ingest/manager.go:262-464 | without push-down a walk returns, in ranking order, exactly those of the first 500 results, or of the explicit pool, whose document the filter selects |
| Pagination.PushedWalkIsFiltered | ingest/manager.go:362-388 | with push-down it returns the first selected results, as many as 500 or a smaller pool says, or all |
| Pagination.SearchReads | ingest/manager.go:362-464 | a filtered search reads three times what the page needs, and further only three times a window that was full and did not hold enough, never above 500 |
| Pagination.PushDownWalksFurther | ingest/manager.go:362-464 | a filtering index returns the same walk when the ranking has at most 500 entries, and never a shorter one |
| Pagination.CursorBindsFilter | ingest/manager.go:580-615 | barring a hash collision, a cursor resumes exactly under the filter it was issued for, rearranged in any way, and such a filter selects the same documents |
| FilteredIndex.PostgresIndexExact | ingest/manager.go:362-464 | a PostgreSQL index returns for every valid filter and limit what filtering the ranking in Go returns exactly when every ranked document's numbers are float64s to it |
| FilteredIndex.SqliteIndexExact | ingest/manager.go:362-464 | the same of a SQLite index |
| ChatCache.OneAnswerPerKey | llmx/cache.go:134-210 | in any run the inner client gives at most one cacheable answer a key, plus one for each that was not stored or was lost |
| ChatCache.TextsAreGiven | llmx/cache.go:134-210 | a text handed to a caller was given by the inner client for that key |
| ChatCache.EveryCallerGetsTheSameText | llmx/cache.go:134-210 | while nothing is lost, all texts handed out for a key are one and the same, and it is the stored one |
| ChatCache.EveryCallerGetsTheOutcome | llmx/cache.go:134-210 | the leader of a flight and every call that waits for it end with one outcome, told from the steps of the run: the stored text its leader found, the reply of the inner client, or a failure to store its text |
| ChatCache.CallsEndAccounted | llmx/cache.go:134-210 | every call that is done was handed the text stored when it arrived, or the outcome of the flight it was in |
| ChatCache.NobodyFailsForNothing | llmx/cache.go:163-209 | a call fails only in a run in which the inner client failed or a text could not be stored, for its key |
| ChatCache.StoredTextIsServed | llmx/cache.go:134-162 | a call that finds its text stored ends with it at once and asks nobody |
| ChatCache.MissesAreQuestions | llmx/cache.go:163-209 | the misses counted are exactly the questions put to the inner client |
| ChatCache.StoredAnswerStays | llmx/cache.go:134-210 | no step of any call replaces a stored answer |
| ChatCache.HitOrMiss | llmx/cache.go:134-210 | each successful cacheable call is counted once, as a hit or as a miss |
| ChatCache.NobodyIsStranded | llmx/cache.go:134-210 | a call that is not done always has a step that moves it on |
| EmbeddingsCache.CacheIsTransparent | llmx/cache.go:282-366 | callers receive the inner client's vectors in input order, and every stored vector is the inner client's |
| EmbeddingsCache.UsageIsConserved | llmx/cache.go:282-366 | what was billed is what was reported plus what is still owed or was wasted; with all calls done and nothing wasted the two are equal |
| EmbeddingsCache.StepAhead | llmx/cache.go:282-366 | a step of a call or of its fetch brings the call nearer to its end, and no other step takes it further away |
| EmbeddingsCache.FewMovesAreEnough | llmx/cache.go:282-366 | a call with n inputs is done after at most 2n + 5 steps of its own or of its fetch, whatever the other calls do |
| EmbeddingsCache.NobodyIsStranded | llmx/cache.go:282-366 | a call that is not done always has a step that moves it on, whatever the inner client answers |
| EmbeddingsCache.EveryCallerGetsTheOutcome | llmx/cache.go:282-366 | when a fetch lands, its leader and every call that waits for it take its outcome |
| EmbeddingsCache.NobodyFailsForNothing | llmx/cache.go:282-366 | a call fails only when the fetch of its own missing texts failed: the inner client failed, the number of vectors was wrong, or a vector could not be stored |
| EmbeddingsCache.AnsweredIsStored | llmx/cache.go:282-366 | while nothing is lost, every text of a call that succeeded is stored |
| EmbeddingsCache.StoredBatchIsFree | llmx/cache.go:282-366 | a call whose texts are all stored when it arrives never asks the inner client, whatever runs beside it |
| EmbeddingsCache.BrokenFetchFails | llmx/cache.go:313-333 | a fetch that breaks lands as a failure, whatever it had stored, and stores nothing more |
| EmbeddingsCache.CacheChanges | llmx/cache.go:282-366 | the cache changes only by storing the next vector of a fetch under its own text, and by losing an entry |
| EmbeddingsCache.EveryAnswerIsBilled | llmx/cache.go:313-333 | what was billed is the cost of every answer of the inner client, once each, answers of the wrong length included |
| MarkdownWalk.ClosestAncestor | markdown/parser.go:375-385 | the section found is on the way up and of a lower level |
| MarkdownWalk.RaiseKeepsNested | markdown/document.go:172-179 | raising a section with its ancestors keeps every end within its parent's |
| MarkdownWalk.StepSound | markdown/parser.go:86-259 | each node keeps the invariant: one root, levels that rise, exact branches and child lists, nested ends |
| MarkdownWalk.WalkBuildsATree | markdown/parser.go:86-259 | after any node sequence there is one root, split implies a parent, and every section hangs as its own data says |
| MarkdownSplits.TextIsCutInARow | markdown/parser.go:114-148 | between two headings the sections opened by splits share one parent and one level, each full and ending where the next one starts; the first hangs under the section the text started in, unless that was opened by a split too |
| MarkdownSplits.OffBranchIsFinal | markdown/parser.go:86-259 | a section that is not on the way from the root to the current one never changes again |
| MarkdownSplits.LaterOffBranch | markdown/parser.go:114-148 | a section followed by one beside it is no longer on that way: it never grows |
| MarkdownSplits.CurrentHasRoom | markdown/parser.go:114-148 | between two nodes the current section holds fewer words than a section may: it is split as soon as it is full |
| MarkdownSplits.HeadingOpens | markdown/parser.go:160-215 | a heading opens a section of its level at its marks, under the closest section on the way up of a lower level, and ends a row of splits |
| MarkdownSplits.RootReaches | markdown/parser.go:86-259 | the tree reaches exactly as far as the last byte at which a node ends, four bytes past a fenced block |
| MarkdownSplits.WalkFailsExactly | markdown/parser.go:86-259 | when text ends within the document, a parse fails exactly when a heading's marks stand behind the end of its lines or of the document |
| MarkdownSplits.ClosestIsClosest | markdown/parser.go:375-385 | nothing between the section found and the current one is of a lower level |
| MarkdownParser.Section.AppendRange | markdown/document.go:172-179 | the pointer walk up raises exactly the section and its ancestors |
| MarkdownParser.Section.FindClosestAncestor | markdown/parser.go:375-385 | the pointer walk finds the specified ancestor |
| MarkdownParser.Parser.Attach | markdown/parser.go:160-198 | linking a new section changes the object graph as specified |
| MarkdownParser.Parser.SplitAfter | markdown/parser.go:114-148 | a full section is followed by a new one on the same object graph as in the walk: under it after a heading, beside it after a split |
| MarkdownParser.Parser.EnterHeading | markdown/parser.go:160-215 | a heading opens, covers its lines and splits when full |
| MarkdownParser.Parser.EnterText | markdown/parser.go:217-256 | a block or text extends the current section and splits it when full |
| MarkdownParser.ParseAll | markdown/parser.go:84-259 | the object graph after a whole document is the tree of the walk, and it fails exactly when the walk does |
| Prune.NestedIsHollow | markdown/parser.go:269-286 | on nested ranges nothing below an empty section holds text |
| Prune.PruneIsTopDown | markdown/parser.go:287-317 | pruning bottom up against the declared parent removes exactly what is empty or repeats its nearest surviving ancestor, exactly when no kept section has the range of its nearest kept ancestor |
| Prune.PruneCorrect | markdown/parser.go:287-317 | on any tree with exact branches roots stay, survivors keep their preorder and branches are exact; nothing redundant is left, and a second pass changes nothing, exactly when no kept section has the range of its nearest kept ancestor |
| Prune.HollowRepeatsNothing | markdown/parser.go:269-286 | where nothing below an empty section holds text, that is so |
| Prune.StableExactly | markdown/parser.go:287-308 | a pass changes nothing exactly on a tree without redundant sections |
| MarkdownPruner.PruneRedundant | markdown/parser.go:287-308 | re-parenting in place leaves the object graph of the pruned tree |
| MarkdownPruner.Rebranch | markdown/parser.go:312-317 | branches of a whole subtree are rewritten in place, and nothing else |
| MarkdownTree.ForwardFits | markdown/parser.go:86-259 | when every heading has lines that end beyond the text before them, the current section always reaches as far as the text and every section that holds text ends beyond its parent's start |
| MarkdownTree.ForwardDocumentIsLean | markdown/parser.go:50-317 | on such a document nothing below an empty section holds text, so the parse leaves the sections without those that are empty or repeat their nearest surviving ancestor |
| MarkdownTree.ParsedExactly | markdown/parser.go:50-317 | a parse of any document keeps order, root and exact branches, and leaves nothing redundant exactly when no section it keeps has the range of its nearest kept ancestor |
| MarkdownTree.RepeatStays | markdown/parser.go:217-308 | a node sequence the parser can receive on which a section survives that repeats its parent's range, and goes in a second pass |
| MarkdownDocument.ObjectsAreTree | markdown/parser.go:86-264 | the objects linked by the walk stand for its tree, their subtrees apart |
| MarkdownDocument.Parse | markdown/parser.go:50-267 | the objects a parse returns stand for the pruned tree of the walk; it fails exactly when the walk does, and leaves nothing redundant under exactly that condition |
| Nesting.NestSections | sourcecode/parser.go:206-254 | sort, compaction and the stack loop build the specified tree |
| Nesting.NestingBuildsATree | sourcecode/parser.go:206-254 | for any non-empty ranges in the file children lie in their parent, siblings are ordered and disjoint, level and branch follow the parent |
| Nesting.LaminarIsExact | sourcecode/parser.go:206-254 | when ranges nest or stay apart nothing is cut, every distinct range has its section, and its parent is the smallest range that strictly contains it |
| Nesting.NestingForgetsOrder | sourcecode/parser.go:206-254 | the tree depends on the set of ranges only |
| Splitting.SplitByWords | internal/text/word.go:12-36 | the words are the maximal runs without separators, in order, and cover every other byte; the last may end one byte early |
| Splitting.SplitLeaf | sourcecode/split.go:15-72 | the loop cuts the specified slices |
| Splitting.SliceLeafCorrect | sourcecode/split.go:15-72 | an oversized leaf is tiled exactly, cut after newlines only, and a full child holds only the further words of its last line |
| Splitting.CutsFollowChunks | sourcecode/split.go:15-72 | an oversized leaf is cut after the lines on which its n-th, 2n-th, ... words end, and nowhere else |
| Splitting.ChildrenHoldTheirShare | sourcecode/split.go:15-72 | up to the last child, the first i of them hold at least i times maxWords words |
| Splitting.EveryChildIsFull | sourcecode/split.go:15-72 | each child but the last holds maxWords words exactly when, wherever the text is cut, the line goes on past its chunk with at least as many words as the line before went on past the chunk before |
| Splitting.ThinChild | sourcecode/split.go:15-72 | a text of three lines whose second child holds fewer than maxWords words |
| Splitting.OversizedLeavesAreSliced | sourcecode/split.go:15-72 | the leaves of the new tree are the small leaves and the slices of the others, at every depth |
| Splitting.SplittingKeepsText | sourcecode/split.go:15-72 | splitting a tree keeps the text of its leaves and every section that has children |
| Proximity.CountMatched | retrieval/lexical_rerank.go:185-193 | the number of query terms with a position |
| Proximity.SmallestWindow | retrieval/lexical_rerank.go:425-447 | the two pointers find a full run of occurrences, and no full run is narrower |
| Proximity.BestIsSmallest | retrieval/lexical_rerank.go:395-454 | it is the smallest window of token positions that holds every matched term |
| Proximity.ProximityScore | retrieval/lexical_rerank.go:395-454 | the score for none, one and several matched terms |
| Proximity.AtLeastItsTerms | retrieval/lexical_rerank.go:395-454 | the smallest window is no shorter than the number of its terms |
| Proximity.ScoreIsAShare | retrieval/lexical_rerank.go:395-454 | the score lies in [0,1] and is determined by the positions |
| Proximity.PerfectScore | retrieval/lexical_rerank.go:395-454 | the score is 0 exactly when no term is matched, and 1 exactly when all are and stand side by side |
| Proximity.TighterScoresHigher | retrieval/lexical_rerank.go:391-454 | with several terms matched a narrower window scores strictly higher, and so do more terms in the same window |
| Fusion.TallyLegs | index/pipeline/index.go:448-468 | the accumulated maps hold the sum of every contribution, for sources and for sections |
| Fusion.MergeResults | index/pipeline/index.go:444-519 | the result is the fusion of the legs; it fails exactly when some listed source does not read back as a URL |
| Fusion.MergeForgetsOrder | index/pipeline/index.go:444-519 | the fusion is the same for every order of the legs and of map iteration |
| Fusion.MergeIsTop | index/pipeline/index.go:444-519 | it lists the top maxResults of the union by score, then by source |
| Fusion.MergeKeepsConsensus | index/pipeline/index.go:444-519 | with positive weights a source that every leg ranks above another stays above it |
| Fusion.MergeAddsWeights | index/pipeline/index.go:444-519 | a leg of weight v + w fuses as two legs of weights v and w with the same list |
| Fusion.OneListing | index/pipeline/index.go:433-468 | one listing is worth the weight over 61 plus the rank, for a section the rank within its source |
| Fusion.TwoListingsBeatOne | index/pipeline/index.go:433-468 | when a source in both of two equally weighted legs beats one in a single leg, by their ranks; at one rank in both, even the first entry of a leg exactly when it is among their first 61 |
| Reranking.RankFromScores | retrieval/lexical_rerank.go:501-521 | ranks are positions in the order by score and id |
| Reranking.RanksAreABijection | retrieval/lexical_rerank.go:501-521 | the ranks are 0 to n-1, one a section, lower for a higher score, ties by id |
| Reranking.RanksForgetOrder | retrieval/lexical_rerank.go:501-521 | the ranks do not depend on the order of the input |
| Reranking.SearchResult.RankSections | retrieval/rerank.go:158-172 | one result's sections are sorted and scored in place |
| Reranking.ApplyRanking | retrieval/rerank.go:134-183 | the shared results are rewritten and reordered as specified, as objects |
| Reranking.RescoredCorrect | retrieval/rerank.go:134-183 | a result's sections are permuted stably by rank, and its score is its best section score |
| Reranking.ApplyCorrect | retrieval/rerank.go:134-183 | the results are permuted stably by their best section, with scores that never increase |
| Reranking.ApplyIdempotent | retrieval/rerank.go:134-183 | applying a ranking again changes nothing |
| Reranking.RankedSectionsFirst | retrieval/rerank.go:134-183 | ranked sections come first, by rank, and score one over the rank plus one; the others follow in the order they had |
| Reranking.RankedResultsFirst | retrieval/rerank.go:134-183 | of two results the first has a section ranked at least as low as any of the other; results without a ranked section are last, in the order they had |
| Reranking.RerankedByScore | retrieval/lexical_rerank.go:501-521 | reranked by scores, no result comes before one with a section better than all of its own |
| Dedup.GetChildren | index/pipeline/duplicate_content_results_transformer.go:81-93 | exactly the direct children present, under another id |
| Dedup.FindAncestor | index/pipeline/duplicate_content_results_transformer.go:109-121 | whether another section's branch is a prefix |
| Dedup.TransformResults | index/pipeline/duplicate_content_results_transformer.go:18-71 | every result is replaced by its kept sections and keeps its scores |
| Dedup.KeptCorrect | index/pipeline/duplicate_content_results_transformer.go:18-132 | kept sections form an antichain, every found section is comparable with a kept one, and a non-empty result stays non-empty |
| Dedup.KeptExactly | index/pipeline/duplicate_content_results_transformer.go:18-132 | exactly those found sections are kept, in their order, that have no found direct child and lie below no found section without one |
| Retrieval.BuildSectionScores | retrieval/evaluate.go:376-387 | the scores of the kept sections; nil stays nil |
| Retrieval.FuseResults | retrieval/orchestrator.go:276-305 | the loops over groups fuse as specified |
| Retrieval.FuseListsFirst | retrieval/orchestrator.go:276-305 | the fusion lists every section once, where it first occurs, and no empty result |
| Retrieval.FusedFrom | retrieval/orchestrator.go:276-305 | each fused result is what is left of one result, in their order, with its source, score and section scores: the sections first listed there; every result with such a section has its place |
| Retrieval.FreshInOrder | retrieval/orchestrator.go:276-305 | sections keep the order of their first occurrence |
| Retrieval.FuseAssociates | retrieval/orchestrator.go:276-305 | fusing in two rounds is fusing everything at once |
| Retrieval.BuildFiltered | retrieval/evaluate.go:314-340 | filtering by the relevant ids |
| Retrieval.FilterRelevantLists | retrieval/evaluate.go:314-340 | a section is left exactly when it was listed and is relevant |
| Retrieval.FilteredInOrder | retrieval/evaluate.go:314-340 | filtering keeps the order of results and of their sections, with their sources and scores |
| Retrieval.BuildDemoted | retrieval/evaluate.go:347-371 | the stable partition by relevance |
| Retrieval.DemoteLists | retrieval/evaluate.go:347-371 | demoting drops nothing |
| Retrieval.DemotedInOrder | retrieval/evaluate.go:347-371 | results with a relevant section come first, the others last, each in the order they had |
| Retrieval.RunRetrieve | retrieval/orchestrator.go:221-271 | one step searches the query and each other sub-question and fuses in query order; any error is the step's error |
| Retrieval.EveryQuestionIsSearched | retrieval/orchestrator.go:221-271 | a step finds a section exactly when the search of the query or of one of its sub-questions does, and fails exactly when one of these searches does |
| Retrieval.RunSearch | retrieval/orchestrator.go:145-210 | the loop returns what the specified iteration ends with |
| Retrieval.SearchCorrect | retrieval/orchestrator.go:145-210 | at most maxRounds+1 evaluations; demoting loses no retrieved section, filtering returns only what the last verdict calls relevant |
| Retrieval.VerdictEndsSearch | retrieval/orchestrator.go:160-210 | a confident verdict ends the search, as do the last round allowed and a missing reformulator |
| Retrieval.VerdictGoesOn | retrieval/orchestrator.go:160-210 | any other verdict has the query reformulated: an error is the search's error, nothing new ends it, and a new query starts one more round over what was found |
| BlobScan.ScanHashes | blob/store.go:149-174 | the loop over the rest of the content |
| BlobScan.ScanFindsTheUris | blob/store.go:149-174 | the scan returns, in order, every URI with a valid hash, except one that starts on the last byte of an accepted hash |
| BlobScan.FoundAreValid | blob/store.go:73-81 | a hash the scan returns is valid |
| BlobScan.WrittenUriIsFound | blob/store.go:149-174 | a URI written into a document counts exactly when an even number of URIs cut one digit short stand directly before it; otherwise its hash is found only where another URI with it counts |
| BlobScan.GluedUriIsLost | blob/store.go:149-174 | after such a URI the next one is lost, and a hash nobody wrote is found |
| BlobScan.ParseRoundTrip | blob/store.go:100-119 | parsing gives back the hash a URI was made of, or a bare hash |
| BlobScan.ParseExactly | blob/store.go:73-119 | a hash is parsed exactly from its 64 hexadecimal digits or their URI, with spaces around and nothing else |
| BlobRefs.Create | ingest/gorm/encryption.go:47-94 | a create stores the content sealed, or as it is when it is empty or carries the marker, and the caller's document is clear again before its URIs are scanned |
| BlobRefs.Store.SaveBlobReferences | ingest/gorm/blob_reference.go:43-80 | the references of one document are replaced by those of its clear content |
| BlobRefs.Store.DeleteBlobReferences | ingest/gorm/blob_reference.go:83-93 | exactly the references of the given documents go |
| BlobRefs.Store.SaveDocuments | ingest/gorm/document_store.go:653-745 | a batch is saved whole or not at all; then each input that no later one replaced has its row, written as the key writes it, rows of other sources are untouched, under a key every row of the batch is protected, and the table still follows the clear contents |
| BlobRefs.Store.DeleteDocumentById | ingest/gorm/document_store.go:98-127 | exactly the given documents go, with their references, whether they open or not |
| BlobRefs.Store.DeleteDocumentBySource | ingest/gorm/document_store.go:557-583 | the document of a source goes, and its references by the cascade; a missing source or a row that does not open is an error, an unknown source is not |
| BlobRefs.Store.EncryptExistingDocuments | ingest/gorm/encryption.go:169-207 | every row stored in clear is sealed, references and the contents the rows stand for stay as they are even when it stops half way, and on success every row is protected |
| BlobRefs.TableFollowsDocuments | ingest/gorm/blob_reference.go:13-80 | after any sequence of operations, failed ones and stale migration updates included, with or without a key, the table holds exactly what a scan of the contents last saved finds |
| BlobRefs.SaveAllIs | ingest/gorm/document_store.go:653-745 | after a batch the row of each input that no later one replaced is as the input says, stored as the key writes it; rows of other sources are untouched, and no row comes from elsewhere |
| BlobRefs.KeyedStoreIsProtected | ingest/gorm/encryption.go:47-76 | after any run in which every operation has a key, whatever key, every row is sealed or empty |
| BlobRefs.FollowsExactly | ingest/gorm/blob_reference.go:13-80 | it holds what a scan of what the rows stand for finds exactly when every row stands for content with the URIs it was last saved with |
| BlobRefs.CurrentIsSaved | ingest/gorm/encryption.go:188-204 | which is so when every migration update found its row as it had been read |
| BlobRefs.SealRowKeeps | ingest/gorm/encryption.go:188-204 | sealing a row in place keeps the table right exactly when what was read carries the URIs of what the row stands for |
| BlobRefs.StaleSealLosesReferences | ingest/gorm/encryption.go:180-204 | a run with a save between the reading and the update after which the table lists no reference of the content the row stands for |
| BlobRefs.OneKey | ingest/gorm/encryption.go:47-111 | in a run under one key, rows saved before there was a key included, every row was written from its clear content |
| BlobRefs.ReadsBack | ingest/gorm/encryption.go:96-111 | such rows read back as their clear contents exactly when none of these carries the marker |
| BlobRefs.ScanIsLive | ingest/cleanup.go:247-289 | a scan of what is read back gives the live set, however the contents were written, exactly when none of them carries the marker |
| BlobRefs.ListIsScan | ingest/cleanup.go:202-289 | after any run under one key that leaves no content with the marker, a scan of all documents gives the live set of what the rows stand for and the table that of what was last saved; the two agree when every migration update found its row as it had been read |
| BlobSweep.QueryPage | blob/gorm/store.go:215-233 | a page is the first keys above the last one seen |
| BlobSweep.PagePasses | blob/gorm/store.go:207-252 | moving on to the end of a page passes its keys and no others |
| BlobSweep.ListReferenced | ingest/gorm/blob_reference.go:102-143 | the keyset walk yields exactly the distinct hashes of the table |
| BlobSweep.Blobs.Delete | blob/gorm/store.go:173-199 | malformed hashes are ignored, the others go |
| BlobSweep.SweepBlobs | ingest/cleanup.go:160-200 | walking the table while deleting from it in batches leaves exactly the referenced blobs |
| BlobSweep.ScanReferenced | ingest/cleanup.go:247-289 | the paged scan finds the hashes of all contents as read back, and fails exactly when a document does not open |
| BlobSweep.CleanupOrphanedBlobs | ingest/cleanup.go:142-245 | from the table, and by a scan when all documents read back as what they stand for, the sweep ends with exactly the stored blobs that some document references; when the scan fails nothing is deleted |
| Encryption.RoundTrip | crypto/crypto.go:71-116 | reading back what was stored gives the clear content exactly when it does not carry the marker |
| Encryption.CollectDocuments | ingest/gorm/encryption.go:117-160 | on any cyclic graph the walk ends and collects exactly the reachable documents |
| Encryption.ReachableByFields | ingest/gorm/encryption.go:117-160 | reachable rows are the least set with the roots and, with each row, the rows in its fields: the document, parent and sections of a section, the sections and collections of a document, the documents of a collection |
| Encryption.RootRowsAre | ingest/gorm/encryption.go:117-160 | the walk starts at every row pointed to and every struct it was given |
| Encryption.OpenAfterQuery | ingest/gorm/encryption.go:96-111 | exactly the reachable documents are opened, each as often as it is listed, up to the first that does not open, which is the error |
| Encryption.OpensClear | ingest/gorm/encryption.go:96-111 | rows written from clear contents without the marker, sealed or legacy, open without an error to those contents |
| Encryption.LockedFails | ingest/gorm/encryption.go:96-111 | a reachable document that does not open makes the query fail |
| Encryption.SealEach | ingest/gorm/encryption.go:47-76 | the documents before the one whose encryption fails are sealed, each with its own nonce, and no other row changes; the stash holds what every changed row held |
| Encryption.RestoreAfterCreate | ingest/gorm/encryption.go:78-94 | the stashed contents are back |
| Encryption.CreateRows | ingest/gorm/encryption.go:33-94 | exactly the reachable documents are written, each as its sealed content, and the caller's rows are as before; when sealing fails they are as before exactly when no document before the failing one had clear content to seal |
| Encryption.OneStays | ingest/gorm/encryption.go:47-76 | of two documents with something to seal, when encryption works once, one is sealed and the other as before |
| Encryption.HalfSealedBatch | ingest/gorm/encryption.go:47-94 | a batch of two documents on which a create fails and leaves one of them sealed in the caller's memory |

## Left out

- SQL text, placeholder syntax and drivers: a compiled filter is a syntax tree and a list of arguments. A number is kept as
  Go writes it, an integer in full and a float64 by its shortest decimal, which is also what the driver is taken to send
  for a numeric; SQLite is taken to read a decimal as the nearest float64.
- Postgres.PushDownPreservesMeaning: a text operand that holds NUL, which PostgreSQL text cannot hold and which makes the
  query fail, and an infinite number operand, which is no real, are not modelled.
- float32 metadata, infinities, NaN and negative zero, named string types and invalid UTF-8: numbers are reals with a rounding
  function, text is a sequence of code points.
- Floating-point rounding in scores: reals are used, so sums do not depend on the order of their terms.
- Pagination with a reranker, collections, and the JSON and base64 bytes of a cursor: a reranked head can differ between
  pages.
- Uncacheable chat calls and the hit and miss counters of the embeddings cache: they pass by the caches' state.
- MarkdownDocument.Parse: front matter, source URL and metadata are not part of the tree and are not modelled; section ids are
  positions in the order of creation.
- Nesting.NestSections: sections are identified by their order of creation, not by pointers; the capture of declarations
  by tree-sitter is an arbitrary list of ranges.
- Splitting.SplitByWords: separators are judged byte by byte, so words with multi-byte characters are covered by the span laws
  only.
- Splitting.SplitLeaf: the ids, levels and branches of the new children are not modelled.
- Proximity.ProximityScore: the other lexical features (BM25, IDF, coverage, phrase, min-max normalisation) are formulas without an
  invariant worth stating and are not modelled; two terms never share a token position, as the tokenizer guarantees.
- Retrieval.RunRetrieve: sub-queries are searched one after the other; their results are placed by position, so
  concurrency does not show. Prompts, replies and context cancellation are parameters.
- BlobRefs.Store.SaveDocuments: section rows and collections are not part of the tables; that a section row cannot be written
  is part of the input, and rolls the batch back. A transaction is a local change that is committed or dropped.
- BlobRefs.Store.DeleteDocumentBySource: the source deletes the row and leaves its references to the foreign key; the
  cascade is written out here as part of deleting rows, and assumes that the database enforces it.
- BlobRefs.Store.EncryptExistingDocuments: this method runs alone; runs in which saves come between its query and its updates
  are those of BlobRefs.TableFollowsDocuments.
- BlobSweep.CleanupOrphanedBlobs: no writer runs beside the sweep, the scan sees the documents in one fixed order, and
  database errors other than a document that does not open are not modelled.
- Query transformers, converters, image enrichment, telemetry, logging, configuration and the command line.
