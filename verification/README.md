# Verified model of the ORM's hard parts

This project models the algorithms of the ORM that decide what reaches the database and what a
caller gets back, and proves what they are for. Each module follows one source file or a group
of files that work together. Where the source changes things step by step the model has a class
or a method with a loop, and each such method is proved equal to a function on values; the
properties are then proved about that function, for every input or every run.

| file | what it models |
|---|---|
| `sql_logic.dfy` | three-valued SQL conditions, and a reader of flat condition text with the precedence of section 8.12 of ISO/IEC 9075:1992; it knows nothing of expression trees (`TruthTables`, `NullIsUnknown`, `ValuesCompare`, `ListMembers`, `Precedence` and `ParenthesesFirst` say what it does) |
| `where_clause.dfy` | the condition tree, the text its Build methods write, and what both mean |
| `where_shapes.dfy` | which lists of conditions `Not` denies exactly and writing keeps the meaning of |
| `where_texts.dfy` | the texts written out for small lists of any comparisons |
| `soft_delete.dfy` | the rewrite that restricts a statement to live rows |
| `find_in_batches.dfy` | keyset paging: the run of its queries, limit arithmetic and the condition merged for each page; `PageIs` says what the database returns |
| `batches_end.dfy` | when that run comes to an end |
| `lru_model.dfy` | the expiring cache as a recency-ordered sequence, and every run of it |
| `lru_runs.dfy` | what its callers can count on, in terms of the size and ttl they gave |
| `lru_list.dfy`, `lru.dfy` | the cache on the heap: linked ring, key index, expiry buckets |
| `prepared_stmt.dfy` | the prepared-statement store shared by any number of threads |
| `prepared_failures.dfy` | what comes of failed preparations, of Close and of hits in that store |
| `transaction.dfy` | nested transactions with savepoints and the implicit transaction |
| `transaction_outcomes.dfy` | what its calls return, and all or nothing |
| `preload.dfy` | preloading as a hash join, direct and through a join table |
| `preload_results.dfy` | the order of its results, and key strings written out |
| `key_strings.dfy` | for which key types the strings it compares are distinct |
| `reorder_models.dfy` | the order in which models are migrated |
| `sort_callbacks.dfy` | the order in which callbacks run |
| `sort_conflicts.dfy` | when that sort meets all requests |
| `sort_orders.dfy` | where it puts callbacks without and with one request |
| `bind_vars.dfy`, `decimals.dfy` | numbered placeholders, un-numbering and re-numbering |
| `subqueries.dfy` | when a subquery built on its own prints as if it were nested |
| `bind_texts.dfy` | numbers, lists and templates written out |
| `parse_all_columns.dfy` | the parser of column lists in SQLite constraints |
| `parse_errors.dfy` | what that parser refuses, and with which error |
| `ddl_split.dfy` | the splitter of SQLite table bodies, its printer, and a splitter with SQLite's own quotes |
| `options.dfy` | the option type |

Where the code does not do what one would expect, the model keeps the code; a theorem says exactly
when the expectation holds, and smaller lemmas show inputs for which it does not:

- A Where clause that starts with a lone Or is reordered when it is written. Writing keeps the
  meaning exactly when nothing is reordered (`SwapKeepsMeaningIff`, `SwapChangesMeaning`), and
  exactly then the soft-delete rewrite means the user's condition and liveness
  (`RewriteExactIff`); otherwise it loses rows (`RewriteLosesRowsAfterSwap`; `RewriteLosesARow` for
  two columns).
- `Not` is the complement of the And group of its list exactly for one member, for lists with a
  comparison whose members behind the first are all lone Ors, and for lists without one whose Or
  groups behind the first are all lone ones (`NotIsComplementIff`; `InexactAmongComparisons` and
  `InexactAmongGroups` for the two ways to fail). The negation of a comparison with an empty
  value list is not its complement (`NegationIsComplementIffNonEmpty`).
- `FindInBatches` ignores `Limit(0)` (`WantedIsFindIffLimitNotZero`). Its first page leaves the
  conditions as it wrote them, reordered, and later pages start from these. What a page selects is
  said for every list of conditions (`PageSelects`): exactly the user's rows above the last key if
  and only if the conditions have no lone Or (`PageExactIffNoLoneOr`); with one, rows are delivered
  again (`RepeatedRow`, `LoneOrRepeatsRows`). Without a limit it comes to an end exactly when the
  first page is not full, the rows that every page selects do not fill a page, or a turn fails
  (`EndsIff`; `AndOnlyEnds` and `LoneOrNeverEnds` for the two sides).
- A refused savepoint marks the whole transaction as failed. A function that ignores it and
  returns nil still has its writes committed, and `Transaction` returns an error all the same
  (`SwallowedRefusalCommits`, `ErrorCommitsNothingIff`).
- A savepoint is not released when its block succeeds. A rollback is exact if and only if the
  savepoints of its name set below it precede every lasting write (`RollbackExactIff`,
  `ReusedNameKeepsWrites`); the source draws names at random.
- A statement that New overwrites in the prepared-statement store is never closed. That happens
  exactly when New finds an expired entry, or one made in a transaction while its caller is outside
  one (`LosesIffOverwrites`, `LostForGood`, `PreparedTwiceLosesOne`).
- A statement may be closed by the time a caller that waited for it receives it without an error
  (`WaiterMayReceiveClosed`, `ReturnsAClosedOne`), but only if its query was disturbed
  (`ReturnedClosedOnlyIfEvicted`).
- Preload compares keys by their text; when keys collide, children are lost or given to the wrong
  parent (`ExactIffNoCollision`). For given types of the key fields that can happen exactly when
  two of them are texts (`DistinctIffOneText`, `TwoTextsCollide`).
- Callbacks with requests to run before others may be reported as conflicting although all can be
  met (`SatisfiableBeforesMayConflict`); `BeforeOnlyConflictIff` says exactly when. With requests in both directions one may be
  dropped without an error (`MixedRequestsMayBeLost`), but none is when no callback is asked to run
  behind two others (`MixedHonoured`).
- Un-numbering takes a "$k" in the text of a template for a placeholder if it stands before the
  k-th one, and only then (`UnnumberRecoversIff`, `DollarInTextIsTaken`). A subquery prints as if
  nested exactly when it binds no value without a placeholder before one with a placeholder
  (`SubqueryIsNestedIff`, `SurplusMisbinds`).
- The DDL splitter takes "|" and the tab for quotes and lets any quote close any other, which hides
  commas (`BarHidesComma`, `ForeignQuoteHidesComma`). It knows no square brackets: a comma between
  them cuts the name, a round bracket gets the body refused, and a separator hides what follows
  (`SquareBracketsCut`, `SquareBracketsRefused`, `SquareBracketsHideComma`). Nor does it know
  comments: a comma in one cuts the field (`CommentCut`, `LineCommentCut`). On bodies without bars,
  tabs and comments outside quotes, without other separators inside quotes, and without commas,
  round brackets and separators between square brackets it cuts as a splitter with SQLite's quotes
  and comments does (`SplitsAsQuoted`). Tabs may also change the fields on a second pass
  (`TabsChangeFields`, `RoundTripIff`); without tabs only an empty last field is lost
  (`RoundTripIffLastNonEmpty`).

## Model

| member | source | states |
|---|---|---|
| WhereClause.LeafTextIsExact | gorm/clause/expression.go:197-366 | the predicate each comparison writes has, on every row, the truth the comparison asks for, with nil as a test for NULL and an empty list matching nothing |
| WhereClause.NegationIsComplementIffNonEmpty | gorm/clause/expression.go:218-372 | NegationBuild writes the exact three-valued complement on all rows if and only if the comparison has no empty value list |
| WhereClause.GroupMeaning | gorm/clause/where.go:121-245 | And, Or and both kinds of Not groups are alternatives opened by their OR-separated members, denied as a whole for a Not group without comparisons |
| WhereClause.ReadMember | gorm/clause/where.go:43-245 | a member of any tree, followed by any text, is read back as exactly one NOT-level factor with its meaning: parentheses are written wherever precedence needs them |
| WhereClause.ReadAlternative | gorm/clause/where.go:43-90 | reading one AND-chain stops exactly where a lone Or opens the next alternative |
| WhereClause.ReadList | gorm/clause/where.go:43-90 | a whole member list is read back as the disjunction of its alternatives |
| WhereClause.ReorderedIsPermutation | gorm/clause/where.go:31-39 | the in-place swap keeps all members, puts a lone Or first only if there is nothing else, and is idempotent |
| WhereClause.WhereTextMeansTree | gorm/clause/where.go:23-245 | main theorem: for any nesting of non-empty groups the text, re-read with SQL precedence, is complete and has the three-valued truth of the tree on every row |
| WhereTexts.JoinedTexts | gorm/clause/where.go:43-53 | AND between conditions, OR in front of a lone Or, for any comparisons |
| WhereTexts.GroupTexts | gorm/clause/where.go:121-150 | parentheses around a group of several members beside others, none around a sole And group |
| WhereTexts.SwappedTexts | gorm/clause/where.go:25-39 | a lone Or given first changes places with the next member, also inside a sole And group |
| WhereTexts.ReorderedIsSwap | gorm/clause/where.go:31-39 | the first member that is no lone Or and the first one change places, all others stay |
| WhereTexts.DeniedTexts | gorm/clause/where.go:168-245 | Not of comparisons writes the negation of each |
| WhereTexts.NotTexts | gorm/clause/where.go:168-245 | Not of groups writes one NOT and parentheses, with OR in front of an Or group |
| WhereTexts.NotOfOneText | gorm/clause/where.go:168-245 | of one group a NOT in front of it |
| WhereTexts.DeniedGroupText | gorm/clause/where.go:168-245 | and beside a comparison a group gets a NOT of its own |
| WhereTexts.LeafTexts | gorm/clause/expression.go:127-366 | the predicate of every comparison, with nil, empty and one-element lists |
| WhereShapes.SwapKeepsMeaningIff | gorm/clause/where.go:31-39 | writing a list keeps what it means, whatever its members ask for, if and only if its members are not reordered |
| WhereClause.AndMeansItsList | gorm/clause/where.go:103-119 | And means the list it was given, also when it returns its only member |
| WhereTexts.OrMeansAny | gorm/clause/where.go:103-166 | Or asks for one of its conditions, and And, Or and Not of nothing are nil |
| WhereClause.NotOfComparisonsIsNor | gorm/clause/where.go:152-245 | Not of a list with a comparison is the complement of the disjunction of its members, and the exact complement for a single member |
| WhereShapes.NotIsComplementIff | gorm/clause/where.go:103-245 | Not is the complement of the And group of its list, whatever the members ask for, if and only if it has one member, or a comparison and behind the first only lone Ors, or no comparison and behind the first only lone ones among its Or groups |
| WhereShapes.NotDeniesAnd | gorm/clause/where.go:103-166 | for such lists the values that Not and And return are complements of each other |
| WhereClause.MergedConjunct | gorm/clause/where.go:92-101 | a merged member is a conjunct of the whole clause when there is no lone Or |
| WhereClause.PlainMeaning | gorm/clause/where.go:23-101 | merging a comparison into a clause without lone Ors conjoins it with what the clause meant, a sole And group included |
| WhereClause.BuildExprs | gorm/clause/where.go:43-90 | the writing loop produces the text that the reading theorems are about |
| WhereClause.BuildGroup | gorm/clause/where.go:121-150 | And and Or groups write parentheses exactly around more than one member |
| WhereClause.BuildNotMembers | gorm/clause/where.go:168-245 | the separators inside a Not group: AND when each member is denied, else OR in front of Or groups |
| WhereClause.Build | gorm/clause/where.go:121-245 | every expression writes its text and touches nothing else |
| WhereClause.BuildNot | gorm/clause/where.go:168-245 | NotConditions decides between denying each member and one NOT in front by looking for a comparison |
| WhereClause.SwapFirstPlain | gorm/clause/where.go:31-39 | the loop swaps the first member that is no lone Or to the front, in place, and nothing else |
| WhereClause.BuildWhere | gorm/clause/where.go:23-41 | the text is that of the clause before the call; the members, those of a sole And group in its shared list included, are left reordered, and building again gives the same text |
| SoftDelete.LiveMeans | gorm/soft_delete.go:91-93 | the added condition is true exactly of rows whose column is NULL, the zero value or the active flag |
| SoftDelete.RewriteMeansConjunction | gorm/soft_delete.go:76-96 | when the user's clause is not reordered, the rewritten clause means (user condition) AND (row is live) |
| SoftDelete.RewriteExactIff | gorm/soft_delete.go:76-96 | over all clauses of a shape the rewrite means the conjunction if and only if writing the clause alone moves none of its members |
| SoftDelete.RewriteTextMeansConjunction | plugin/soft_delete/soft_delete.go:37-63 | the same of the written text, re-read with SQL precedence |
| SoftDelete.GroupedMeaning | gorm/soft_delete.go:80-88 | with a lone Or anywhere the members are grouped first, so the live condition binds to all alternatives |
| SoftDelete.RewriteLosesRowsAfterSwap | gorm/soft_delete.go:76-96 | in the other case every row on which the swapped member holds and no lone Or does is selected before and rejected after the rewrite |
| SoftDelete.RewriteHappensOnce | gorm/soft_delete.go:77-95 | a second rewrite, by the same or another field, changes nothing; unscoped statements and other clauses stay as they are |
| SoftDelete.Statement.ModifyStatement | plugin/soft_delete/soft_delete.go:37-63 | the method leaves exactly the rewritten clauses behind, and an unscoped or already rewritten statement as it was |
| FindInBatches.SelectedAfter | gorm/finisher_api.go:239-239 | with no lone Or, whatever the first page reordered: a row satisfies the condition of a later page exactly if it satisfies the user's conditions and its key is above the last one |
| FindInBatches.PageSelects | gorm/finisher_api.go:239-239 | for every list of conditions, as the first page left them: a later page selects a row if and only if an earlier alternative holds, or the last one and a key above the last; lists that are only lone Ors, and a sole And group, included |
| FindInBatches.PageExactIffNoLoneOr | gorm/clause/where.go:23-41 | pages select exactly the user's rows above the last key, whatever the members ask for, if and only if there is no lone Or |
| FindInBatches.WantedIsFindIffLimitNotZero | gorm/finisher_api.go:185-200 | the batches ask for the same rows as Find unless the limit is 0 |
| FindInBatches.LimitsMerge | gorm/clause/limit.go:30-46 | a limit and an offset given one after the other are both kept, later ones replace earlier ones, a negative offset takes it back, and a later limit of 0 changes nothing |
| FindInBatches.NextSize | gorm/finisher_api.go:221-228 | while the loop goes on the page size stays positive and never runs past the limit, also with the remainder of the last page |
| FindInBatches.NextPage | gorm/finisher_api.go:196-239 | the next query returns exactly the rows not delivered yet |
| FindInBatches.RunStands | gorm/finisher_api.go:201-229 | after any number of turns of any run at least so many rows are delivered and the next page is within the limit |
| FindInBatches.RunDelivers | gorm/finisher_api.go:201-240 | with conditions joined by AND the batches of any number of turns are a prefix of the rows wanted and the next query is for the rest |
| FindInBatches.FindInBatches | gorm/finisher_api.go:175-245 | for every call that comes to an end: the batches are the pages of its run up to the first stop, non-empty and never longer than asked; the callback accepted all but possibly the last and no query of them failed; a refused batch makes the call fail, and it fails only for a refused batch, a failed query or a last row without a key; with conditions joined by AND the batches are a prefix of the rows wanted after the offset and, without a failure, all of them, each once and in key order |
| BatchesEnd.EndsIff | gorm/finisher_api.go:201-240 | for every list of conditions the call comes to an end if and only if there is a limit, the first page is not full, the rows that every page selects do not fill a page, or a turn fails |
| BatchesEnd.AndOnlyEnds | gorm/finisher_api.go:201-240 | with conditions joined by AND it always ends |
| BatchesEnd.LoneOrNeverEnds | gorm/finisher_api.go:239-239 | with a lone Or and enough rows of the first alternative it never does |
| LruModel.StepInv | gorm/internal/lru/lru.go:97-348 | every operation and each half of the cleaner keeps: distinct keys, recency order, each entry the last value added and expiring a ttl after that, newestEntry bounding its bucket, size respected, every value accounted for |
| LruModel.RunInv | gorm/internal/lru/lru.go:97-348 | the invariant holds after every run of operations |
| LruModel.StepConserves | gorm/internal/lru/lru.go:97-143 | one step neither loses nor duplicates a value: stored and added before is stored, reported or overwritten after |
| LruModel.EveryRun | gorm/internal/lru/lru.go:97-348 | over every run each value ever added is in exactly one of three places, and a positive size is never exceeded |
| LruRuns.WithinSizeAsked | gorm/internal/lru/lru.go:51-61 | after every run the cache holds no more entries than asked for last, by the constructor or by Resize, if that is positive |
| LruRuns.WithinSize | gorm/internal/lru/lru.go:136-141 | without Resize never more than the size given to the constructor |
| LruRuns.KeepsExactly | gorm/internal/lru/lru.go:97-348 | in every reachable state: which entries each operation keeps, by key, bucket and number of younger entries, and that only Add brings a new one |
| LruRuns.UsedAfterIsTouchedLater | gorm/internal/lru/lru.go:136-141 | the younger entries are those added or hit later |
| LruRuns.ReportsTheGone | gorm/internal/lru/lru.go:312-319 | an operation reports exactly the entries whose keys are gone, each once, and none that is overwritten |
| LruRuns.FoundForTheTtl | gorm/internal/lru/lru.go:55-57 | an entry just added is found until the ttl given is over and not later; with a ttl of 0 or less for ten years |
| LruRuns.StaysUntilExpired | gorm/internal/lru/lru.go:323-338 | in a cache without a size an entry stays until it is expired, whatever is done to other keys and however often the cleaner runs |
| LruModel.HitIsFresh | gorm/internal/lru/lru.go:117-159 | a hit returns the value of the last Add of its key within a ttl of it |
| LruModel.CleanRemovesOnlyExpired | gorm/internal/lru/lru.go:323-348 | the cleaner removes exactly its bucket and only expired entries, whatever ran while it slept without the lock |
| LruModel.StaleRun | gorm/internal/lru/lru.go:333-348 | an entry not added again gets closer to its bucket's cleaning by one with every completed cleaning |
| LruModel.GoneAfter100Cleanings | gorm/internal/lru/lru.go:323-348 | it is gone after at most 100; the uint8 index arithmetic never wraps |
| LruRuns.FillIsLast | gorm/internal/lru/lru.go:336-343 | entries go into the bucket that the cleaner takes last, 99 cleanings ahead |
| LruModel.LeastRecentGoesFirst | gorm/internal/lru/lru.go:136-141 | overflow, RemoveOldest and Resize keep only entries used later than everything they drop |
| LruModel.KeysAreLive | gorm/internal/lru/lru.go:236-248 | Keys lists exactly the keys of unexpired entries |
| LruModel.KeysByRecency | gorm/internal/lru/lru.go:236-248 | from the least to the most recently used |
| LruRing.Unlink | gorm/internal/lru/lru.go:447-456 | the assignments take one node out of a doubly linked ring and leave the rest linked both ways |
| LruRing.Link | gorm/internal/lru/lru.go:431-439 | the assignments of insert put a node behind another and keep both directions consistent |
| LruRing.LruList.PushFrontExpirable | gorm/internal/lru/lru.go:479-482 | a fresh node in front, all others in place, len counting them |
| LruRing.LruList.Remove | gorm/internal/lru/lru.go:447-456 | the list loses exactly this node |
| LruRing.LruList.MoveToFront | gorm/internal/lru/lru.go:459-493 | the node comes first and the others keep their order |
| Lru.LRU.constructor | gorm/internal/lru/lru.go:51-93 | an empty cache of the size given, a negative one meaning none, and the ttl given, 0 or less meaning ten years |
| Lru.LRU.Add | gorm/internal/lru/lru.go:117-143 | refines the model: front of the recency order, renewed expiry and bucket, the least recent entry evicted on overflow and reported once, all structures consistent |
| Lru.LRU.Get | gorm/internal/lru/lru.go:146-159 | refines the model: an unexpired hit moves to the front, an expired one is not returned and not moved |
| Lru.LRU.Contains | gorm/internal/lru/lru.go:163-168 | presence, expired or not, without touching the order |
| Lru.LRU.Peek | gorm/internal/lru/lru.go:172-184 | the lookup of Get without touching the order |
| Lru.LRU.Remove | gorm/internal/lru/lru.go:188-196 | the key leaves list, index and bucket and is reported once |
| Lru.LRU.RemoveOldest | gorm/internal/lru/lru.go:199-207 | exactly the least recent entry goes and is returned and reported |
| Lru.LRU.GetOldest | gorm/internal/lru/lru.go:210-217 | the least recent entry, expired or not |
| Lru.LRU.Keys | gorm/internal/lru/lru.go:236-248 | the walk along prev pointers lists the unexpired keys oldest first |
| Lru.LRU.Resize | gorm/internal/lru/lru.go:274-290 | exactly the excess least recent entries go, each reported once; a size of 0 or less lifts the bound |
| Lru.LRU.Purge | gorm/internal/lru/lru.go:97-112 | all three structures are emptied and everything is reported once, in any order of the index |
| Lru.LRU.BeginCleanup | gorm/internal/lru/lru.go:324-329 | the bucket and wake-up time the sleeping cleaner remembers |
| Lru.LRU.FinishCleanup | gorm/internal/lru/lru.go:333-337 | whatever the cache is by then, exactly that bucket is emptied and reported |
| PreparedStmt.NextInv | gorm/prepare_stmt.go:66-86 | every step of any thread, and every expiry, eviction or asynchronous Close, keeps the protocol's invariant |
| PreparedStmt.ReturnedStatements | gorm/prepare_stmt.go:66-86 | in every interleaving a statement returned without error is completely prepared for its query, and a caller outside a transaction never gets one prepared inside a transaction |
| PreparedStmt.ReturnedClosedOnlyIfEvicted | gorm/internal/stmt_store/stmt_store.go:107-129 | a returned statement is closed only if it was evicted, so never while its query is undisturbed |
| PreparedStmt.WaiterMayReceiveClosed | gorm/internal/stmt_store/stmt_store.go:107-129 | from any reachable state: a caller waiting for a statement that was evicted can receive it after its Close |
| PreparedStmt.ReturnsAClosedOne | gorm/internal/stmt_store/stmt_store.go:107-129 | such a run for any query, with two callers and one eviction |
| PreparedStmt.OverwritesOnlyFinished | gorm/internal/stmt_store/stmt_store.go:157-167 | New overwrites an entry only if its ttl has passed, or its preparation is over and it belongs to a transaction the caller is outside of, holding the lock alone |
| PreparedStmt.StatementsAccounted | gorm/internal/stmt_store/stmt_store.go:107-137 | every statement ever made is stored, evicted or replaced and only one of these; only evicted ones are closed, and only after their preparation |
| PreparedFailures.FailedIsNotStored | gorm/internal/stmt_store/stmt_store.go:173-179 | in every interleaving a statement whose preparation failed and is over is not stored |
| PreparedFailures.PreparedAnewAfterFailure | gorm/internal/stmt_store/stmt_store.go:173-179 | when all preparations of a query failed and no thread is under way, the next caller prepares it anew and gets its own statement |
| PreparedFailures.FailingCall | gorm/internal/stmt_store/stmt_store.go:173-179 | a caller whose preparation fails gets an error and no statement and leaves no entry behind |
| PreparedFailures.AnswerDecides | gorm/internal/stmt_store/stmt_store.go:173-179 | the database's answer decides whether the preparation succeeded |
| PreparedFailures.ErrorsComeFromFailures | gorm/prepare_stmt.go:66-86 | a call returns an error only if a preparation of its query failed, its own if it returned no statement |
| PreparedFailures.CloseLeavesNone | gorm/prepare_stmt.go:52-59 | Close leaves no entry that a caller would find and hands all of them to the eviction callback |
| PreparedFailures.HitUnderReadLock | gorm/prepare_stmt.go:67-73 | a caller that may use the entry of its query gets it in three steps under the read lock alone |
| PreparedStmt.LosesIffOverwrites | gorm/internal/stmt_store/stmt_store.go:157-167 | a step loses a statement if and only if it is New finding an entry of its query, and that entry has expired, or is complete and of a transaction while the caller is outside one |
| PreparedStmt.LostForGood | gorm/internal/lru/lru.go:123-130 | a statement overwritten in the cache is never handed to the eviction callback and never closed, whatever follows |
| PreparedStmt.NextCallerLoses | gorm/prepare_stmt.go:66-86 | from any reachable state with no thread under way a caller that may not use the entry of its query gets a statement of its own, and the one stored is overwritten |
| PreparedStmt.PreparedTwiceLosesOne | gorm/prepare_stmt.go:66-86 | a run for any query: prepared inside and then outside a transaction, the first statement is neither stored nor ever closed |
| PreparedStmt.SomeThreadCanRun | gorm/internal/stmt_store/stmt_store.go:123-183 | no deadlock between lock and channels: while a thread has not returned, some thread can take a step |
| PreparedStmt.NoThreadWaitsForever | gorm/prepare_stmt.go:66-86 | if PrepareContext returns, at most 12 steps a thread are possible and when none is left every call has returned |
| PreparedStmt.PreparedOncePerMode | gorm/internal/stmt_store/stmt_store.go:157-183 | single flight: while a query is not evicted, expired or failed, it is prepared at most once inside and once outside a transaction, however many ask |
| Transactions.BeginTransaction | gorm/callbacks/transaction.go:7-18 | an implicit transaction begins only when none is open and the default is not skipped; a refusal is an error of the operation |
| Transactions.CommitOrRollbackTransaction | gorm/callbacks/transaction.go:20-32 | it ends only the transaction it started, keeping its writes exactly if the operation and Commit succeeded |
| Transactions.Operate | gorm/callbacks/transaction.go:7-32 | an operation inside a transaction never ends it, and outside it is committed or leaves nothing |
| TransactionOutcomes.OperationLasts | gorm/callbacks/transaction.go:7-32 | an operation leaves its write if and only if it succeeded on a DB without an error and, outside a transaction, its own was begun and committed or is switched off |
| Transactions.SavePoint | gorm/finisher_api.go:714-735 | a savepoint is set, or its refusal stays as an error on the DB and every later call fails |
| Transactions.RollbackTo | gorm/finisher_api.go:737-757 | back to the youngest savepoint of that name, older ones staying, or a refusal that stays as an error |
| Transactions.Transaction | gorm/finisher_api.go:621-661 | outcome and database state of any tree of nested blocks are those of its effect; inside a transaction older savepoints survive, outside none stays open |
| Transactions.RootTransaction | gorm/finisher_api.go:640-661 | the deferred rollback: committed gains what the block left or nothing, no transaction stays open, and an error that a refused nested call left behind is part of what is returned |
| Transactions.NestedTransaction | gorm/finisher_api.go:624-640 | a failed or panicking nested block goes back to the youngest savepoint of its name, older ones stay, and a refused savepoint or rollback marks the enclosing DB as failed |
| TransactionOutcomes.NestedReturns | gorm/finisher_api.go:624-661 | a nested call returns nil if and only if its savepoint was granted, or nesting is disabled, and its function returned nil; else that function's error or panic, or an error if the savepoint was refused |
| TransactionOutcomes.RootReturns | gorm/finisher_api.go:640-661 | a top-level call returns its function's error or panic, or an error if Begin, Commit or a nested call was refused, else nil |
| TransactionOutcomes.EndsOrStops | gorm/finisher_api.go:621-661 | user code ends as it says, or with the error or panic of the nested call it stopped at |
| TransactionOutcomes.StopsIff | gorm/finisher_api.go:621-661 | the caller stops exactly for an error it returns and a panic it does not recover from |
| TransactionOutcomes.AllOrNothing | gorm/finisher_api.go:621-661 | user code that passes on every error and panic: the call returns nil if and only if everything in the tree went well, and then the writes of all operations that succeeded are committed, in order, and else none |
| TransactionOutcomes.OneFailureFailsAll | gorm/finisher_api.go:632-661 | one function below that fails makes such a call fail and commit nothing |
| Transactions.RunSteps | gorm/finisher_api.go:621-661 | user code left early by a returned error or an unrecovered panic leaves exactly its effect |
| Transactions.FailsIffRefused | gorm/finisher_api.go:714-757 | a function leaves an error on its DB if and only if the savepoint or the rollback of a nested call it made was refused |
| Transactions.NothingAfterRefusal | gorm/finisher_api.go:621-661 | after a refusal nothing more is written through that DB |
| Transactions.RollbackExactIff | gorm/finisher_api.go:626-637 | a failed nested block is undone completely if and only if every savepoint of its own name set below it precedes all lasting writes; so always when names differ |
| Transactions.ReusedNameKeepsWrites | gorm/finisher_api.go:626-637 | a tree of calls with one name reused: the failed block keeps a write and the transaction commits it |
| Transactions.LastingWrites | gorm/finisher_api.go:621-661 | with differing names a block leaves exactly, in order, what it wrote outside nested blocks that were rolled back |
| Transactions.CommitsIff | gorm/finisher_api.go:640-661 | nil is returned if and only if the transaction began, its function returned nil, no nested call was refused and Commit succeeded; all lasting writes are committed if and only if it began, the function returned nil and Commit succeeded, else none |
| Transactions.ErrorCommitsNothingIff | gorm/finisher_api.go:640-757 | an error commits nothing, unless the function ignored a refusal, returned nil, and Commit succeeded with lasting writes |
| Transactions.SwallowedRefusalCommits | gorm/finisher_api.go:626-757 | such a function, for any write and nested block: Transaction returns an error and the write is committed |
| Transactions.DisabledNestingUndoesNothing | gorm/finisher_api.go:626-638 | with nested transactions disabled no nested failure is undone on its own |
| Preload.GetIdentityFieldValuesMap | gorm/schema/utils.go:110-171 | the index holds for every key string exactly the distinct elements with that set key, and the keys are the first of each string |
| Preload.KeysCover | gorm/schema/utils.go:155-165 | every key string there is, is queried for |
| Preload.JoinIdentities | gorm/callbacks/preload.go:226-243 | the relation index lists each parent once for every join row that leads to it |
| Preload.AssignRow | gorm/callbacks/preload.go:324-341 | one child reaches each listed parent as often as it is listed, and no other |
| Preload.DirectTimes | gorm/callbacks/preload.go:247-265 | directly, a queried child is listed under exactly the parents whose set key equals its key |
| Preload.JoinedTimes | gorm/callbacks/preload.go:196-245 | through a join table, a queried child is listed under a parent once for every join row that names both |
| Preload.Assign | gorm/callbacks/preload.go:313-344 | fails exactly when some child's key leads nowhere, else every parent holds its children in result order |
| Preload.Preload | gorm/callbacks/preload.go:185-345 | the assign error is unreachable; it fails if and only if some key is set and the join query or a child query that is made fails; failed queries and all-zero keys leave every parent alone; else, if key strings do not collide, every parent holds exactly the children of the nested-loop join, or the last of them for a single relation |
| Preload.HashJoinIsNestedLoop | gorm/callbacks/preload.go:196-345 | index, IN query and assignment over the queried rows equal the nested-loop join over the whole table, row for row, duplicate join rows included |
| Preload.NestedLoopCounts | gorm/callbacks/preload.go:313-341 | a parent gets each child as often as the two meet, and a zero key meets nothing |
| PreloadResults.MeetIff | gorm/callbacks/preload.go:247-265 | directly, a parent and a child meet once if and only if their keys are equal and not unset |
| PreloadResults.NestedLoopInOrder | gorm/callbacks/preload.go:313-341 | the children of a parent stand in the order of the result rows |
| PreloadResults.UnsetIff | gorm/schema/utils.go:134-166 | a key is unset if and only if each of its values is the zero of its type |
| PreloadResults.KeyWritten | gorm/utils/utils.go:65-90 | the texts of the values joined by underscores; a signed 0 is "nil", an unsigned one "0" |
| Preload.ExactIffNoCollision | gorm/callbacks/preload.go:196-345 | a preload is right for all parents and tables if and only if no strings collide harmfully: directly, of set parent keys; through a join table, parent keys with one string have the same join rows, and no set child key in the rows of these parents shares its string |
| KeyStrings.DistinctIffOneText | gorm/utils/utils.go:65-90 | for key fields of given types, the strings of set keys are always distinct if and only if at most one field is a text |
| KeyStrings.TwoTextsCollide | gorm/utils/utils.go:65-90 | for any types with two texts, two set keys of one string |
| KeyStrings.OneTextNeverCollides | gorm/callbacks/preload.go:196-345 | between models with at most one text in each key no preload goes wrong, whatever rows there are |
| ReorderModels.EmitsExactlyTheWanted | gorm/migrator/migrator.go:971-1007 | even with cycles the walk ends and emits, each exactly once, the requested models and all that can be discovered from them |
| ReorderModels.DependenciesFirst | gorm/migrator/migrator.go:971-990 | every recorded dependency comes before its dependent unless it leads back to it |
| ReorderModels.TopologicalIffAcyclic | gorm/migrator/migrator.go:971-1007 | all recorded dependencies are honoured if and only if no emitted model lies on a cycle |
| ReorderModels.OnlyRequestedWithoutAutoAdd | gorm/migrator/migrator.go:971-1002 | without autoAdd the result is the requested models, each once, in the order first given |
| ReorderModels.DestsAsGiven | gorm/migrator/migrator.go:922-968 | a requested model is migrated as it was first given, a discovered one as a new instance |
| ReorderModels.ResultsInDependencyOrder | gorm/migrator/migrator.go:971-1007 | of what is returned with autoAdd: behind the names every wanted table once, as first given or new, each behind all it depends on unless that leads back to it |
| ReorderModels.NamesFirst | gorm/migrator/migrator.go:992-998 | in front of what is returned stand exactly the names given, in their order |
| ReorderModels.ResultsAsRequested | gorm/migrator/migrator.go:1000-1007 | without autoAdd: behind the names each requested model as first given, in that order |
| ReorderModels.EarlierFirst | gorm/migrator/migrator.go:1000-1002 | with autoAdd too, all that the models given earlier need comes before everything else |
| ReorderModels.StarInOrder | gorm/migrator/migrator.go:977-989 | dependencies go in the order recorded, right before their dependent |
| ReorderModels.Reordering.ParseDependence | gorm/migrator/migrator.go:922-969 | the first value of a schema is recorded, later ones are ignored |
| ReorderModels.Reordering.InsertIntoOrderedList | gorm/migrator/migrator.go:971-990 | the recursive closure does to the lists what the walk on values does, parsing a dependency only when it meets it |
| ReorderModels.Reordering.ReorderModels | gorm/migrator/migrator.go:907-1008 | what is returned: the names, then the values of the models in the order of the walk |
| SortCallbacks.RemoveCallbacks | gorm/callbacks.go:351-360 | the callbacks whose name is not removed, in order |
| SortCallbacks.Compile | gorm/callbacks.go:188-204 | what is sorted are, in order, exactly the matching callbacks whose name no marker removes, and never a marker |
| SortCallbacks.EveryCallbackOnce | gorm/callbacks.go:255-349 | whatever the requests, a successful sort places every callback exactly once |
| SortOrders.NoRequestsKeepOrder | gorm/callbacks.go:328-340 | without requests the callbacks run in the order of registration |
| SortOrders.RightInFront | gorm/callbacks.go:284-287 | a callback that asks to run before an earlier one stands right in front of it |
| SortOrders.BehindAll | gorm/callbacks.go:302-305 | one that asks to run after an earlier one stands behind all |
| SortOrders.UnknownIgnored | gorm/callbacks.go:291-309 | requests for callbacks that are not registered are ignored |
| SortOrders.KeptInOrder | gorm/callbacks.go:188-204 | what is left to sort stands in the order of registration |
| SortCallbacks.AfterOnlySucceedsIffAcyclic | gorm/callbacks.go:278-338 | with requests to run after others only there is never a conflict, and the recursion ends if and only if they have no cycle |
| SortCallbacks.AfterOnlyHonoured | gorm/callbacks.go:278-349 | then all of them are honoured, and the rewritten requests are again of this kind, so the next sort is covered too |
| SortCallbacks.BeforeOnlyHonoured | gorm/callbacks.go:278-349 | with requests to run before others only the sort ends without recursion and, unless it reports a conflict, honours all of them, again and again |
| SortConflicts.BeforeOnlyConflictIff | gorm/callbacks.go:279-295 | with such requests the sort reports a conflict if and only if some callback asks to run before an earlier one that stands in a group no later than a callback asking to run before it |
| SortConflicts.MixedHonoured | gorm/callbacks.go:279-328 | with requests in both directions, if no callback is asked to run behind two others, a sort that succeeds honours every request |
| SortCallbacks.Sorter.SortCallback | gorm/callbacks.go:278-335 | the recursive closure, rewriting the callbacks in place, does what the placement on values does |
| SortCallbacks.Sorter.Before | gorm/callbacks.go:279-296 | the request to run before another, met, put off to the target, ignored or in conflict |
| SortCallbacks.Sorter.After | gorm/callbacks.go:298-328 | the request to run after another, placing that one first if need be |
| SortCallbacks.SortCallbacks | gorm/callbacks.go:255-349 | one handler for every callback, in the order found |
| SortOrders.OwnHandler | gorm/callbacks.go:342-346 | a name stands for the handler of its own callback and no other |
| BindVars.ReplacesNext | gorm/statement.go:216-221 | replacing the first "$k" undoes the k-th placeholder although "$1" begins "$10", or, if it stands elsewhere, spoils the text for good |
| BindVars.UnnumberRecoversIff | gorm/statement.go:210-221 | un-numbering recovers the template for any number of values, also more values than placeholders, if and only if for each k no "$k" stands in the text before the k-th placeholder |
| BindVars.AddVarPrints | gorm/statement.go:170-262 | values, lists, nested expressions and subqueries, each of which binds no value without a placeholder before one with, print placeholders numbered on from the statement, left to right, with the values in the same order |
| BindVars.WalkPrints | gorm/clause/expression.go:28-76 | Expr.Build gives every "?" its argument, spreading lists behind a parenthesis |
| BindVars.SubqueryIsNested | gorm/statement.go:208-237 | a subquery that was built on its own, and binds no value without a placeholder before one with, prints under any outer statement as if its expression stood there itself |
| Subqueries.SubqueryIsNestedIff | gorm/statement.go:208-237 | it prints so under every outer statement if and only if it binds no value without a placeholder before one with, given the same of the subqueries inside it |
| BindVars.OnClauseRenumbered | gorm/callbacks/query.go:203-215 | the conditions of a join, printed on their own, are numbered on from the query they join |
| BindVars.PrintsBind | driver/postgres/postgres.go:122-133 | a value bound behind m numbered ones prints "$" and m+1, the query mode taking no number |
| BindTexts.SameBehindMode | driver/postgres/postgres.go:122-133 | with the query mode in front of the values any argument prints the same text as without it, numbered from the number of other values plus one |
| BindTexts.FirstBehindMode | driver/postgres/postgres.go:122-133 | the first value behind the query mode prints "$1" |
| BindTexts.ListWritten | gorm/statement.go:200-204 | a list of values in parentheses, with commas, numbered on |
| BindTexts.EmptyListWritten | gorm/statement.go:204-206 | an empty list is a NULL in parentheses |
| BindTexts.ListInTemplate | gorm/clause/expression.go:34-66 | right behind a parenthesis, or where none is asked for, a list goes without its own and an empty one is a bound NULL; elsewhere it brings its own |
| BindTexts.LeftOver | gorm/clause/expression.go:60-75 | arguments left over are bound in order and write nothing; a "?" without an argument stays |
| BindVars.ReadBackIffApart | driver/postgres/postgres.go:122-133 | the numbers read from the text are those meant if and only if no digit stands right behind a placeholder of the template |
| BindVars.UnnumberEach | gorm/callbacks/query.go:207-213 | the replacing loop is un-numbering |
| BindVars.Statement.AddVar | gorm/statement.go:170-262 | the method writes and binds what the function says, building a subquery twice |
| BindVars.Statement.FillIn | gorm/clause/expression.go:36-58 | right behind a parenthesis a list goes without its own, and an empty one binds nil |
| BindVars.Statement.BuildExpr | gorm/clause/expression.go:28-76 | the byte loop over idx and afterParenthesis is the walk on values |
| ParseAllColumns.ParseAllColumns | driver/sqlite/ddlmod_parse_all_columns.go:19-105 | the loop computes the state machine on every input, errors included |
| ParseAllColumns.PrintedParses | driver/sqlite/ddlmod_parse_all_columns.go:19-105 | any non-empty list of names, bare or quoted in any way with the closing quote doubled, with any white space, prefix without "(" and suffix, comes back exactly |
| ParseAllColumns.ParsesExactlyTheWritten | driver/sqlite/ddlmod_parse_all_columns.go:19-105 | the parser succeeds with some names if and only if the input is such a list of these names |
| ParseAllColumns.AnyNamesSurviveQuoting | driver/sqlite/ddlmod_parse_all_columns.go:68-84 | any names at all survive quoting |
| ParseErrors.NameMissing | driver/sqlite/ddlmod_parse_all_columns.go:31-48 | the closing parenthesis where a name must stand is the unexpected token |
| ParseErrors.QuoteInName | driver/sqlite/ddlmod_parse_all_columns.go:49-69 | so is a quote inside a bare name |
| ParseErrors.BehindQuotedName | driver/sqlite/ddlmod_parse_all_columns.go:70-96 | so is anything but white space, a comma or the parenthesis behind a quoted name |
| ParseErrors.BehindBareName | driver/sqlite/ddlmod_parse_all_columns.go:84-96 | and anything else behind a bare name and white space |
| ParseErrors.Unfinished | driver/sqlite/ddlmod_parse_all_columns.go:101-103 | an input that ends inside the list is an unexpected end |
| ParseErrors.NeverOpened | driver/sqlite/ddlmod_parse_all_columns.go:101-103 | and so is one without a parenthesis |
| ParseErrors.QuotedIn | driver/sqlite/ddlmod_parse_all_columns.go:107-117 | any name comes back from backquotes, single and double quotes and square brackets, with blanks and tabs around them |
| ParseErrors.BareName | driver/sqlite/ddlmod_parse_all_columns.go:49-69 | any other characters make a bare name |
| DdlSplit.SplitFields | driver/sqlite/ddlmod.go:42-91 | the loop computes the trimmed pieces, or fails, as the scan on values says |
| DdlSplit.Turn | driver/sqlite/ddlmod.go:42-77 | one turn of the loop on bracket level and quote: a doubled separator is taken whole, any separator closes any other |
| DdlSplit.PiecesRebuildBody | driver/sqlite/ddlmod.go:42-91 | the untrimmed pieces joined by commas are the body, so nothing but outer white space and one final comma is lost |
| DdlSplit.TrimIs | driver/sqlite/ddlmod.go:70-70 | a field is its piece without the white space at its ends, which it neither starts nor ends with |
| DdlSplit.WhiteSpace | driver/sqlite/ddlmod.go:70-70 | which ASCII characters are white space |
| DdlSplit.FailsIffUnbalanced | driver/sqlite/ddlmod.go:66-85 | it fails if and only if the brackets outside quotes are not balanced |
| DdlSplit.PiecesWhole | driver/sqlite/ddlmod.go:58-77 | every piece is a single field, and a comma cuts behind all but the last |
| DdlSplit.SplitJoined | driver/sqlite/ddlmod.go:189-195 | such pieces, joined as compile joins them, split into themselves |
| DdlSplit.FieldsWhole | driver/sqlite/ddlmod.go:68-91 | without tabs, trimming changes no cut: the fields of any body are single fields |
| DdlSplit.RoundTripIff | driver/sqlite/ddlmod.go:189-195 | for every body, splitting the printed fields gives the same fields if and only if each is a single field, behind all but the last a comma cuts, and there are none or the last is not empty |
| DdlSplit.SplitsAsQuoted | driver/sqlite/ddlmod.go:42-91 | on bodies without "|", tabs and comments outside quotes, without other separators inside quotes, and without commas, round brackets and separators between square brackets, the pieces are those of a splitter with SQLite's own comments and quotes, each closed only by itself |
| DdlSplit.BarHidesComma | driver/sqlite/ddlmod.go:14-15 | for any texts around it: "|" or a tab hides the comma behind it, which SQLite's quotes would not |
| DdlSplit.ForeignQuoteHidesComma | driver/sqlite/ddlmod.go:68-77 | for any two quotes: the other kind inside quotes closes them, and the comma behind the real end is hidden |
| DdlSplit.SquareBracketsCut | driver/sqlite/ddlmod.go:53-77 | for any texts around it: a comma between square brackets cuts the name in two, which is one piece for SQLite |
| DdlSplit.SquareBracketsRefused | driver/sqlite/ddlmod.go:64-87 | a round bracket of either kind between square brackets gets the body refused as unbalanced, which SQLite accepts |
| DdlSplit.SquareBracketsHideComma | driver/sqlite/ddlmod.go:55-63 | a separator between square brackets opens a quote and hides the comma behind the name |
| DdlSplit.CommentCut | driver/sqlite/ddlmod.go:53-77 | for any texts around it: a comma in a comment between slashes and stars cuts the field in two, which is one piece for SQLite |
| DdlSplit.LineCommentCut | driver/sqlite/ddlmod.go:53-77 | so does one behind two dashes |

## Left out

- Drivers, connections, logging, reflection, schema and tag parsing: the database is an abstract table, a transaction with savepoints, or an answer; models are records with keys.
- Raw SQL inside WHERE (`Expr`, `NamedExpr`) and the substring test that wraps it; comparisons are over one column and scalar values or lists, not composite keys.
- Condition trees with empty groups, which write an empty text.
- WhereClause.BuildWhere: a group is a value here; that its list is shared shows for holders of the clause, not for a group that the caller holds on its own or put into two clauses.
- SoftDelete.RewriteMeansConjunction: holds when the user's clause is not reordered, which RewriteExactIff shows to be the exact condition.
- FindInBatches.FindInBatches: a table that does not change and no other order; what the batches add up to is stated for conditions without a lone Or, and what single pages select otherwise is PageSelects. Models with soft deletion are left out: their rewrite runs for each query on the clause to which the key condition was already merged, so that a lone Or is grouped together with that condition.
- Lru: the methods KeyValues, Values and Cap, a nil callback, and the ticker that starts the cleaner, which a cache without a ttl has not.
- Lru.LRU.BeginCleanup: time and the sleep are parameters; the lock is the boundary of each method, and the runs of LruModel interleave the two halves of the cleaner with everything else.
- PreparedStmt.NoThreadWaitsForever: assumes that PrepareContext returns and that possible steps are taken; contexts and cancellation are not modelled.
- Transactions.Transaction: a failing Rollback of the whole transaction, and a dialect that hides a failed SAVEPOINT, are not modelled; savepoint names are random in the source and a parameter here.
- Preload: nested preloads, polymorphic values and inline conditions only filter the table given; whether a query with several key columns is written as tuples is not modelled.
- Preload.Preload: keys of parents and children have the same Go types here. With an unsigned parent key and a signed child key a 0 inside a composite key is "0_x" on one side and "nil_x" on the other, and the error of Assign is then reachable.
- ReorderModels: recorded dependencies are taken as given; IgnoreRelationshipsWhenMigrating is a graph without edges.
- ReorderModels.Reordering.ParseDependence: does not model join tables and the order deferred for them; they are appended after a model's dependencies were recorded, to a copy.
- SortCallbacks: the wildcard "*" and warnings; what requests in both directions come to when some callback is asked to run behind two others.
- SortCallbacks.SortCallbacks: names are distinct; several callbacks registered under one name, as Replace leaves them, are not modelled.
- BindVars.Statement.AddVar: columns, tables, values with a driver method, byte slices, named arguments and subqueries not built yet are left out; an argument left over that is itself a list or an expression is bound as one opaque value.
- DdlSplit: the regular expressions that find the body and read the fields, the head, and adding or removing constraints.
- Error translators, type maps, the SQL of the migrator, naming, and the simple clause printers, which would only add easy members.
