# A model of sqlc's hard parts

This project models, in Dafny, the parts of sqlc where a wrong step would be silent, and proves what
they are for:

- **Batch planner.** A DuckDB batch is rewritten from one statement per row into set statements run in
  rounds. Rounds end in the same table, and reading back is exact.
- **Type catalog.** Types are interned by the spelling of their canonical expression in a row store,
  behind a memo, with a read-only twin and aliases.
- **Store and action cache.** Many processes share one directory through staged files and renames. What
  the two clients of the cache return is what they would have computed.
- **Prepared statements.** A cache filled in three phases, racing with begin, commit and rollback.
- **Protobuf codec.** A marshaller that writes backwards into a buffer of computed size, and the decoder
  that undoes it. The format is that of the Protocol Buffers Encoding specification, sections "Base 128
  Varints" and "Last One Wins".
- **Text.** Edit application, the query formatter's cutting of a file, globs compiled to expressions.
- **Outer-join nullability**, against a semantics of joins.

Each area is one or more modules: pure specification functions, imperative methods proved against them
where the source works by changing things, and lemmas about the specification. Protocols are state
machines: every system call, or every critical section, is one step, and theorems are about all runs.

| area | files |
|---|---|
| batch planner | BatchRounds, BatchReturning, BatchQueries, BatchPlan, BatchMeaning |
| text | SourceEdits, EditSubstitution, EditOrders, QueryFormat, QueryFormatLines, QueryFormatHeaders, GlobPattern, Text |
| type catalog | TypeExprs, TypeExprRoundTrip, TypeExprKeys, TypeRewrites, TypeRewriteMeaning, TypeStore, TypeStoreInvariant, TypeStoreStability, TypeStoreShadowing, TypeStoreTakeover, TypeStoreRepeats, TypeStoreRewriting, TypeStoreRegrowth, TypeStoreFuel, TypeStoreNames, Catalog |
| cache | ActionKey, CacheStore, CacheDisk, CacheClients, CacheStaleness, CachedAnalyzer, CachedCatalog |
| prepared statements | StmtCache |
| codec | Varint, Wire, AnalysisCodec, AnalysisBuffers |
| nullability | JoinNullability |

## What the model takes as given

- SHA-256 is a parameter without collisions on the bytes a history is about; the JSON form of an action
  result is a parameter that reads back what was written.
- The analyzer and the catalog builder are functions of the call: the tool, the request, and what a call
  hands on besides (for an analysis the parsed statement and the parameter names). A stored value decodes
  to itself; for analyses the codec theorems show this up to EqualVT.
- A staging name is never drawn again after its file is gone (names are 64 random bits). With reuse, a
  process could remove or publish another one's staging file.
- I/O failures, partial writes and stopping processes are choices of the environment. A stopped process
  loses nothing it wrote: power loss is not modelled.
- Text is ASCII. Go slices are shorter than 2^63, so lengths do not overflow an int.
- What a SQL statement does with one row is an abstract effect on the bucket of that row's key. What an
  expression is worth on a row is a parameter; row_number, GROUP BY, joins and ORDER BY are modelled.

## Where code and promise differ

- A cached analysis can be stale: the analyzers put parameter names into their results, and the key does
  not hold them. After a parameter is renamed the cache still answers with the old name
  (CacheStaleness.RenamedParameterIsStale). CacheStaleness.TransparentIff says exactly when this cannot
  happen.
- Resolving a type twice can give two rows (TypeStoreShadowing.ResolveNotRepeatable): an unknown name
  qualified with a default namespace shadows a bare name registered before it.
  A rewrite that applies only once a name is known does the same (TypeStoreRegrowth.RewrittenLater).
  TypeStoreRewriting.SameRowIff says exactly when it happens, and TypeStoreTakeover.ResolveTwiceIff puts
  the condition in terms of names that are taken over, without rewrites.
- Even where the same row comes back, the second resolve may insert other rows, and a lookup right after
  the first resolve may answer the family instead of the row (TypeStoreRegrowth.SameRowYetInserts).
  TypeStoreRewriting.ResolveAgainIff and TypeStoreRewriting.LookupFindsIff say exactly when neither
  happens.
- A batch with RETURNING reads its rows after the last round, so a row whose key occurs again shows what
  the later row left, and a row that DO UPDATE ... WHERE refuses is answered although its own statement
  returns nothing. BatchReturning.ReadAgreesIff says exactly when reading back agrees with the statements.
- isTableRequired forgets an outer join above a nested join (JoinNullability.NestedJoinUnsound), and takes
  an occurrence of a table without an alias for any other of that table
  (JoinNullability.SelfJoinUnsound). JoinNullability.NullabilityRightIff says exactly when its answer is
  right.
- A compiled glob accepts text with newlines exactly when the pattern holds a newline itself.
- Edits at one location depend on an unstable sort, and may even fail in one order only
  (EditOrders.TieMayFail). EditOrders.OrderNeverMatters says exactly when the order does not matter.

## Model

| member | source | states |
|---|---|---|
| BatchRounds.RoundsPreserveMeaning | internal/compiler/batch_duckdb.go:250-258 | for every batch with distinct order numbers and every statement whose effect on a row touches only that row's key bucket (NULL components grouped), rounds 1..n, n as the rounds query counts it, end in the same table as the rows one at a time |
| BatchRounds.EachRowOnce | internal/compiler/batch_duckdb.go:256 | every batch row is taken in exactly one of the rounds 1..n |
| BatchRounds.NoRoundEmpty | internal/compiler/batch_duckdb.go:250-258 | no round from 1 to n is empty, and there are no rounds exactly when the batch is empty |
| BatchRounds.RoundsExist | internal/compiler/batch_duckdb.go:257 | every batch has a number the rounds query can answer |
| BatchRounds.RoundOfKey | internal/compiler/batch_duckdb.go:251-256 | round r takes the r-th row of a key in sqlc_ord order and no other row of that key |
| BatchRounds.ReadBackExact | internal/compiler/batch_duckdb.go:261-276 | after all rounds of an upsert that leaves the key alone, on keys without NULL, the read query answers exactly one row per batch row, in sqlc_ord order, tagged with that row's own element, holding what one statement per row leaves under its key |
| BatchMeaning.PlanKeepsMeaning | internal/compiler/batch_duckdb.go:247-258 | for every plan with keys: running its write query with $2 = 1 to n, n as its rounds query answers, ends in the table of one statement per row; a row's key is the tuple of values of the plan's key expressions |
| BatchMeaning.PlanReadsBack | internal/compiler/batch_duckdb.go:261-276 | for every plan that reads back: what its read query may answer after the rounds is, for each batch row in sqlc_ord order, the row's own element and the row its key holds |
| BatchQueries.WriteTakesRound | internal/compiler/batch_duckdb.go:238-256 | the write query in round r selects exactly the rows whose number among those with equal key values, NULLs counting as equal, in sqlc_ord order, is r |
| BatchQueries.RoundsCounts | internal/compiler/batch_duckdb.go:257 | the rounds query answers n if and only if n is the size of the largest group of equal key values, 0 for no rows |
| BatchQueries.ReadReadsBack | internal/compiler/batch_duckdb.go:263-276 | the join on one equation per key, ordered by sqlc_ord, answers what reading back by key does |
| BatchQueries.SelectBack | internal/compiler/batch_duckdb.go:238-256 | the write query can be read back from its words and expressions |
| BatchQueries.RoundsBack | internal/compiler/batch_duckdb.go:257 | so can the rounds query |
| BatchQueries.ReadBack | internal/compiler/batch_duckdb.go:272-273 | and the read query |
| BatchReturning.ReadAgreesIff | internal/compiler/batch_duckdb.go:15-22 | against one statement per row with its own RETURNING: the read query answers the same rows in the same order if and only if every row is applied, DO UPDATE ... WHERE included, and the later rows of its key leave in the end what it left |
| BatchReturning.OneRoundAgrees | internal/compiler/batch_duckdb.go:250-276 | in particular when the rounds query counts at most one round and every row applies |
| BatchReturning.RefusedIsRead | internal/compiler/batch_duckdb.go:261-276 | a row that the WHERE refuses returns nothing by itself, and the read query answers the row it met |
| BatchReturning.RepeatedKeyDiffers | internal/compiler/batch_duckdb.go:261-276 | a concrete batch of two rows of one key: the first is read back as the second left it |
| BatchRounds.NullKeyNotReadBack | internal/compiler/batch_duckdb.go:115-123 | a batch row whose key holds a NULL is never answered by the read query, which is what the gate on NOT NULL keys prevents |
| BatchPlans.PlanBatch | internal/compiler/batch_duckdb.go:95-281 | a batch leaves the row-by-row loop if and only if it meets every gate; its expressions are the simultaneous substitution of their placeholders, its keys the expressions of the last column of each key's name; the write statement is the original text with the row replaced by the write query over these expressions and keys and a RETURNING that is read back dropped, both at once; the rounds and read texts are those queries spelled out; it reads back if and only if it returns rows by key, and then it is an upsert whose keys all refuse NULL |
| BatchPlans.WriteStatement | internal/compiler/batch_duckdb.go:260-279 | pasting the pieces around the row and the RETURNING clause is the simultaneous substitution of both spans |
| BatchPlans.ReadQuery | internal/compiler/batch_duckdb.go:263-276 | the loops give one item per returned item and one equation per key, and the query that joins on all of them in sqlc_ord order |
| BatchPlans.NothingLeft | internal/compiler/batch_duckdb.go:130-198 | in an accepted batch every placeholder of the row lies inside a replaced span of its own number |
| BatchPlans.RefMeans | internal/compiler/batch_duckdb.go:149-187 | a placeholder gives way to its JSON column, turned back as the type of the last parameter of its number asks, the element type where it is unnested |
| BatchPlans.CheckUnnested | internal/compiler/batch_duckdb.go:130-148 | true exactly when each unnested placeholder lies inside an unnest of its own number |
| BatchPlans.CollectWraps | internal/compiler/batch_duckdb.go:149-169 | fails exactly when some parameter is not in the row or its type does not travel; otherwise the last parameter of a number decides its wrap |
| BatchPlans.FindColumn | internal/compiler/batch_duckdb.go:216-221 | the index holds a column of the key's name, ignoring case, no later column has it, and -1 means none has |
| BatchPlans.Rewrite | internal/compiler/batch_duckdb.go:188-212 | edits collected from unnests and placeholders, sorted in place and applied per expression, give the substitution of all of them at once |
| SourceEdits.Mutate | internal/source/code.go:60-97 | the edit slice is permuted into descending order of location and the result, or the error, is the right-to-left application of the sorted edits |
| SourceEdits.SortBy | internal/source/code.go:65 | in-place sorting: a permutation, ascending by key, distinct keys staying distinct |
| SourceEdits.CutStep | internal/source/code.go:69-95 | cutting one more span out of text already rewritten to its right is the simultaneous substitution with that span added |
| SourceEdits.OrderImmaterial | internal/source/code.go:65 | a simultaneous substitution depends only on the set of spans when their starts differ |
| EditSubstitution.AppliedExact | internal/source/code.go:67-96 | edits sorted from right to left apply if and only if all are in bounds and none reaches into the next, and the result replaces all spans of the original at once |
| EditSubstitution.MeasuredExact | internal/source/code.go:67-96 | for any measuring functions: sorted edits apply if and only if the spans they measure in the text rewritten so far are in bounds and none reaches into the next, and the result replaces those at once |
| EditSubstitution.MutateSimultaneous | internal/source/code.go:60-97 | for edits at distinct locations in any input order: success if and only if all spans are in bounds and pairwise disjoint, and the result is the simultaneous substitution of the edits as given |
| EditSubstitution.TiesDependOnOrder | internal/source/code.go:65 | two insertions at one location come out in the reverse of the order sorting left them in, so distinct locations are needed |
| EditOrders.EveryOrderApplies | internal/source/code.go:65-92 | every order the unstable sort may leave applies if and only if all spans are in bounds, pairwise disjoint, and no span that replaces something shares its start with another edit |
| EditOrders.OrderNeverMatters | internal/source/code.go:60-97 | all those orders apply and give one text if and only if, besides, texts inserted at one location commute |
| EditOrders.TieMayFail | internal/source/code.go:87-92 | an insertion and a replacement at one location: one order is refused as an overlap and the other applies |
| EditSubstitution.PlainEditsSteady | internal/source/code.go:73-78 | edits that carry their old text never measure differently in the rewritten text |
| EditSubstitution.RewriteSpan | internal/compiler/batch_duckdb.go:199-211 | the left-to-right loop with its moving cursor computes the simultaneous substitution of the edits inside the span and passes over the others |
| EditSubstitution.BothWaysAgree | internal/compiler/batch_duckdb.go:197-211 | on disjoint spans the planner's left-to-right loop and Mutate's right-to-left loop give the same text |
| TypeExprRoundTrip.ParseUndoesString | internal/core/typeexpr.go:120-324 | on plain expressions (no nullable marks, labels on type arguments only, word-like lower-case names that are not numerals or booleans, no bare words, no backslashes or doubled quotes in strings) parsing the printed form gives the expression back |
| TypeExprKeys.KeyIff | internal/core/typeexpr.go:102-113 | two expressions have one key if and only if they agree up to their own outermost nullable mark, marks and labels inside included, for all names without parentheses, commas, colons and quotes that do not end in the mark or read as a literal |
| TypeExprKeys.ElementMarkCounts | internal/core/typeexpr.go:289-324 | an array of nullable elements has another key than an array of the same elements that are not |
| TypeExprRoundTrip.ParseNullable | internal/core/typeexpr.go:127-131 | nullable(t) is t with the nullable mark |
| TypeExprRoundTrip.ParseArray | internal/core/typeexpr.go:121-124 | t[] is the array of t |
| TypeExprRoundTrip.ParseWordsBehind | internal/core/typeexpr.go:196-240 | words behind the argument list belong to the name, as in timestamp(6) with time zone |
| TypeExprRoundTrip.ParseSpaceLabel | internal/core/typeexpr.go:138-176 | a word before a type is its label |
| TypeExprRoundTrip.ParseQuotedLabel | internal/core/typeexpr.go:138-176 | a quoted text and an equals sign before an argument are its label |
| TypeExprRoundTrip.ParseDoubled | internal/core/typeexpr.go:138-190 | a quote inside a string may be doubled |
| TypeExprRoundTrip.KeyInjective | internal/core/typeexpr.go:102-113 | distinct plain expressions have distinct keys |
| TypeExprRoundTrip.IdentPrintsAsType | internal/core/typeexpr.go:289-324 | a bare-word argument and a type argument of that name have the same key although they differ |
| TypeExprs.MatchingParen | internal/core/typeexpr.go:244-268 | the loop finds the parenthesis that closes the given one, quotes and nesting passed over, or -1 |
| TypeExprs.SplitInner | internal/core/typeexpr.go:196-240 | the loop cuts the text at its top-level commas and trims the pieces |
| TypeExprs.QuotedEndLoop | internal/core/typeexpr.go:178-190 | the loop ends just past the literal, honouring backslashes and doubled quotes |
| TypeExprs.PrintType | internal/core/typeexpr.go:289-324 | the builder loop writes the specified spelling of an expression with its nullable mark and arguments |
| TypeStoreInvariant.RunKeepsValid | internal/core/types.go:614-659 | after any run of resolves and lookups every instance row's spelling is the key of the expression rebuilt from its argument rows, its kind is its family's, an array's element is its first argument's type, at most one row has a namespace and a spelling, and earlier rows are unchanged |
| TypeStoreInvariant.InternKeeps | internal/core/types.go:750-846 | one call of internType keeps those invariants, whatever the names, at every nesting depth, and its canonical expression is spelled as the one rebuilt from the row it returns |
| TypeStoreInvariant.RunKeepsAnswers | internal/core/types.go:614-659 | the expression rebuilt for a row is the same before and after any run |
| TypeStoreInvariant.OneRowOneType | internal/core/types.go:614-659 | distinct types never share a row: two canonical expressions found at one row, with any run in between, are equal, nullable marks at every depth included |
| TypeStoreStability.ResolveTwice | internal/core/types.go:678-683 | when rewrites name only families the catalog holds and no unknown name is qualified with a default namespace, resolving again returns the same row and inserts nothing |
| TypeStoreRewriting.ResolveAgainIff | internal/core/types.go:678-683 | for every dialect, rewrites included: resolving again returns the first row and inserts nothing if and only if, told from names on the tables before the first resolve, the expression as the second resolve unfolds it has known names only, needs no row that is missing, and is given the same namespace and spelling |
| TypeStoreRewriting.SameRowIff | internal/core/types.go:678-683 | for every dialect: a second resolve that succeeds, inserting or not, returns the first row if and only if both unfoldings are given one namespace and spelling |
| TypeStoreRewriting.RepeatsCleanlyIff | internal/core/types.go:750-846 | for every dialect: a second resolve inserts nothing exactly when the second unfolding needs nothing that is not there, and exactly then interning without permission to write finds a row, the one the second resolve returns |
| TypeStoreRewriting.LookupFindsIff | internal/core/types.go:719-742 | for every dialect: a lookup after a resolve answers the resolved row if and only if resolving again would insert nothing and return that row |
| TypeStoreRewriting.Unfolds | internal/core/rewrite.go:219-361 | what a resolve finds, and every row it inserts, is what the dialect without rules does with the expression unfolded by its rewrites |
| TypeStoreRegrowth.RewrittenLater | internal/core/rewrite.go:219-361 | a concrete run in which a rewrite applies only the second time, the name being known by then, and two rows are returned |
| TypeStoreRegrowth.SameRowYetInserts | internal/core/types.go:719-846 | a concrete run, g(f(int), public.f): both resolves return one row, and yet the second inserts another, and a lookup in between does not answer the row |
| TypeStoreRepeats.InsertsNothingIff | internal/core/types.go:678-683 | without rewrites a second resolve inserts nothing if and only if every row the expression needs with all its names known was there, was needed by the first resolve, or is a family it registered |
| TypeStoreRepeats.LookupIff | internal/core/types.go:719-742 | without rewrites a lookup after a resolve answers the resolved row if and only if that holds and the expression is still spelled the same in the same namespace |
| TypeStoreRepeats.InternRows | internal/core/types.go:750-846 | without rewrites a resolve adds the rows of the families it registers and of the instances it needs, and no other |
| TypeStoreTakeover.SecondRow | internal/core/types.go:678-683 | without rewrites a second resolve always finds a row; it is the first row if and only if, by looking up names alone, the outermost name still stands for a family of the same namespace and the expression is still spelled the same |
| TypeStoreTakeover.ResolveTwiceIff | internal/core/types.go:678-683 | on expressions that can be read in one way: the same row if and only if the outermost name is not taken over by a name registered after it and no alias in the arguments is taken over by one registered after it |
| TypeStoreTakeover.TakenOverIff | internal/core/types.go:305-345 | the outermost name is taken over if and only if it is bare and some argument spells out an unknown family of its name in a default namespace that lookups prefer |
| TypeStoreTakeover.InternMeets | internal/core/types.go:750-846 | without rewrites a resolve registers exactly the names met, from the outside in and from left to right, and its canonical expression and row are those the names say |
| TypeStoreFuel.MoreFuel | internal/core/types.go:750-846 | an outcome other than a failure does not change with more fuel |
| TypeStoreFuel.DepthSuffices | internal/core/types.go:750-846 | without rewrites every outcome is that of fuel equal to the nesting depth |
| TypeStoreStability.Again | internal/core/types.go:750-846 | what was resolved once is found in every later state, with or without permission to write, and nothing is written |
| TypeStoreStability.LookupAgrees | internal/core/types.go:719-742 | a lookup after a resolve writes nothing and finds that row, with the same canonical expression and the family recorded in the row |
| TypeStoreStability.LookupWritesNothing | internal/core/types.go:719-742 | interning without permission to write leaves the tables as they were |
| TypeStoreStability.AliasInvariance | internal/core/types.go:515-527 | without rewrites or identifier settings, expressions that differ only in alias spellings, at any depth, intern to one row and one canonical expression |
| TypeStoreStability.AliasAfterwards | internal/core/types.go:515-527 | one after the other, resolving the second spelling returns the row of the first and inserts nothing |
| TypeStoreShadowing.ResolveNotRepeatable | internal/core/types.go:305-378 | a concrete run in which resolving the same expression twice gives two rows: a name qualified with a default namespace is registered between the two and shadows the bare one |
| TypeRewriteMeaning.ApplyIff | internal/core/rewrite.go:242-361 | rewriting gives u if and only if some rule is the first whose pattern fits, argument by argument, with its integer binding in the named relation to the limit, and u is its template with every hole filled at any depth, labels as documented and nullable as before; it gives nothing if and only if no rule fits so |
| TypeRewriteMeaning.MatchIff | internal/core/rewrite.go:314-343 | a pattern matches if and only if every argument is a hole or compares alike; each hole stands for the argument at its last place |
| TypeRewriteMeaning.HoldsIff | internal/core/rewrite.go:132-157 | a condition holds if and only if its binding is an integer in the named relation to the limit |
| TypeRewriteMeaning.SubstituteIff | internal/core/rewrite.go:345-361 | substitution fills every bound hole and changes nothing else |
| TypeRewriteMeaning.IdentifyIff | internal/core/rewrite.go:278-301 | exactly the bare words the dialect calls identifiers, everywhere or at their place in a family, become identifiers |
| TypeRewriteMeaning.CanonicalizeIff | internal/core/rewrite.go:219-240 | an expression is canonicalized to v if and only if v comes from its identifiers and the first rule that fires, else the first that fires under the name the catalog spells its family by, else is unchanged |
| TypeRewriteMeaning.CanonicalIff | internal/core/types.go:515-527 | the canonical row is the end of the alias chain, of at most sixteen rows |
| TypeRewriteMeaning.FloatIsReal | internal/core/rewrite.go:132-157 | float(n) is real for n up to 24 and left alone above, under that rule |
| TypeStoreNames.QualifiedApart | internal/core/types.go:659-671 | two families off the default namespaces never have one qualified name |
| TypeStoreNames.ArrayRegistered | internal/core/types.go:761-765 | an array family that no seed lists is registered with category A, in public |
| TypeStoreNames.UserTypeRegistered | internal/core/types.go:679-683 | any other unknown family is registered on the type its affinity names and with that type's category, in the schema it names or the dialect's own |
| TypeStoreNames.UserTypeBaseMeans | internal/core/rewrite.go:192-212 | the first step of the affinity rule that has no words, or one that the upper-cased name contains, decides |
| TypeRewrites.ApplyNames | internal/core/rewrite.go:242-361 | a rewrite introduces no family name that neither the expression nor the rules hold |
| Catalogs.Catalog.InternType | internal/core/types.go:750-846 | the recursive method with its row inserts and memo updates computes the specified interning and keeps the catalog's invariants |
| Catalogs.Catalog.InternArgLoop | internal/core/types.go:789-810 | the loop over the arguments interns each argument type first and collects canonical arguments and rows in order |
| Catalogs.Catalog.CanonicalOID | internal/core/types.go:515-527 | the loop follows alias rows to the canonical family, or fails after sixteen steps |
| Catalogs.Catalog.LookupType | internal/core/types.go:572-596 | the row of an oid, remembered once read |
| Catalogs.Catalog.TypeExprOf | internal/core/types.go:614-659 | the answer equals the expression rebuilt from the rows, as a fresh object that shares nothing with the memo |
| Catalogs.ExprNode.Clone | internal/core/typeexpr.go:77-90 | the copy has the same value and no object in common with the original |
| Catalogs.AnswerTwice | internal/core/types.go:614-659 | a caller that sets nullability on an answer does not change the next answer for the same row |
| ActionKeys.ActionBytesInjective | internal/cache/digest.go:67-100 | two builders feed the hasher the same bytes only when mnemonic, tool digest and the whole sequence of inputs are the same, for any number of inputs of lengths below 2^64 |
| ActionKeys.RequestBytesInjective | internal/analyzer/analyzer.go:77-82 | two requests of either client feed the same bytes only when they are the same request made by the same tool |
| ActionKeys.Action.constructor | internal/cache/digest.go:72-77 | a new action has been fed the mnemonic and the tool digest, framed |
| ActionKeys.Action.Write | internal/cache/digest.go:95-100 | each write appends an eight-byte little-endian length and the data |
| ActionKeys.Action.AddInput | internal/cache/digest.go:81-85 | an input appends its framed name and its framed data |
| ActionKeys.DigestRequest | internal/core/cache.go:79-83 | the loop over schema inputs ends with the hash of the request's framed bytes |
| CacheStore.StoreAtomicity | internal/cache/cas.go:59-124 | in every interleaving of Put, Get and eviction steps of any number of processes, with failing calls and processes that stop anywhere, every file under cas/ hashes to its own name, every file under ac/ is a complete encoding whose outputs passed the check of its Put, and no two processes stage under one name |
| CacheStore.StepAc | internal/cache/action.go:179-209 | a step that publishes an entry publishes a whole one, whose outputs have all passed the check |
| CacheStore.StepCas | internal/cache/cas.go:74-102 | a step that publishes a blob publishes the whole data under its hash; evictions keep the rest |
| CacheStore.WrongSizeIsMissing | internal/cache/cas.go:126-138 | a blob whose file has another size than it should is written anew by Put, is not opened, keeps an action from being recorded, and evicts an entry that names it |
| CacheDisk.Disk.CreateTemp | internal/cache/cas.go:59-69 | the first drawn name no staging file has is created empty; failure means all 10000 were taken |
| CacheDisk.Disk.Put | internal/cache/cas.go:74-102 | is a run of the store's steps; on success a blob of the right size is there and no staging file stays; on failure neither directory has changed, and at most staging files of its own stay when their removal fails too |
| CacheDisk.Disk.Get | internal/cache/cas.go:107-124 | is a run of the store's steps; a blob is returned only when it hashes to the digest, and one that does not is the only thing evicted |
| CacheDisk.Disk.ActionGet | internal/cache/action.go:46-70 | is a run of the store's steps; a hit is a decoded entry all of whose outputs are in the store, and an entry missing one is evicted |
| CacheDisk.Disk.ActionPut | internal/cache/action.go:179-209 | is a run of the store's steps; the entry is recorded, whole, only when every output is in the store; on failure at most staging files of its own stay |
| CacheClients.CacheServes | internal/analyzer/analyzer.go:50-119 | any history of both clients in any number of processes, with failures, crashes, evictions and deletions, and overwritten blobs where the client re-hashes: what a call returns is what it, or a call with the same tool and request, computes without the cache |
| CacheClients.CacheTransparent | internal/core/cache.go:45-131 | where every call with the same tool and request that succeeds computes the call's own value, what a call returns equals the uncached computation |
| CacheClients.AnalysisTransparentUnderTampering | internal/analyzer/analyzer.go:50-119 | under the same condition an analysis is right even when blobs are overwritten with other content along the way |
| CacheStaleness.RightIffKeyDecides | internal/analyzer/analyzer.go:77-97 | that condition is exact: the answers to a call are right in every history if and only if it holds |
| CacheStaleness.TransparentIff | internal/analyzer/analyzer.go:77-97 | every history is right for all calls in play if and only if no two of them with the same tool and request differ in what they compute |
| CacheStaleness.RenamedParameterIsStale | internal/analyzer/analyzer.go:36-97 | a concrete pair of calls that differ in a parameter's name: one key, and a history in which the second is answered with the first one's name |
| CacheStaleness.GivenAlike | internal/analyzer/analyzer.go:84-91 | what one call stored, a later call with the same key is given, whatever it would compute itself |
| CacheClients.RunKeeps | internal/analyzer/analyzer.go:50-119 | every event of every process keeps the invariant: entries are genuine, what is in flight is genuine, each client waits for what it asked for |
| CacheClients.SameKeyIffAlike | internal/analyzer/analyzer.go:77-82 | two calls have one key if and only if tool and request are the same; what else they hand on does not matter |
| CacheClients.HitIsAlike | internal/analyzer/analyzer.go:84 | an entry found under a call's key is the result of a call with the same tool and request |
| CacheClients.BlobIsServed | internal/analyzer/analyzer.go:85-90 | a blob with such a digest decodes to what that call computes |
| CachedAnalyzers.CachedAnalyzer.Analyze | internal/analyzer/analyzer.go:36-119 | whatever the directory holds or fails to do, the answer is the plain analyzer's for this call or for one with the same tool and request, and this call's own where those agree; the directory stays sound |
| CachedAnalyzers.CachedAnalyzer.Recall | internal/analyzer/analyzer.go:84-96 | what is read back, if anything, is the plain analyzer's answer for a call with the same tool and request |
| CachedAnalyzers.CachedAnalyzer.Remember | internal/analyzer/analyzer.go:100-116 | storing an analysis keeps the directory sound, whichever call fails |
| CachedCatalogs.Builder.NewCached | internal/core/cache.go:45-69 | the catalog is one that the dialect and the schema build, whether or not it was restored, as long as every blob hashes to its name, which each call keeps; this call's own where what it applies is settled by dialect and schema |
| CachedCatalogs.Builder.Restore | internal/core/cache.go:89-116 | what is restored, if anything, is what a call with the same dialect and schema builds, although only the blob's size is looked at |
| CachedCatalogs.Builder.Save | internal/core/cache.go:119-131 | storing a catalog keeps the directory intact, whichever call fails |
| CacheDisk.Disk.Filename | internal/cache/cas.go:50-55 | is a run of the store's steps; a blob is reported only when one of the right size is there |
| CacheClients.HitDigest | internal/core/cache.go:90-94 | the digest found under a call's key and output name is that of the value of a call with the same tool and request |
| StmtCaches.RunKeeps | internal/core/db.go:39-86 | in every interleaving of prepared, begin, commit and rollback from an empty cache: one open statement per query in stmts; txStmts present exactly while a transaction is current and holding only its open statements; no database statement lost; every returned database statement is the cached open one |
| StmtCaches.LoserClosed | internal/core/db.go:76-86 | a statement that lost the race on the database is closed and its preparer gets the winner |
| StmtCaches.LookupIsCurrent | internal/core/db.go:39-50 | in every interleaving a lookup hits exactly what is cached for the current transaction, or for the database when there is none: an open statement for the query, prepared there |
| StmtCaches.SettledIsOwn | internal/core/db.go:51-87 | what prepared returns after preparing is for its query and of the owner of its snapshot, and open unless that transaction has finished |
| StmtCaches.LoserNeverReturned | internal/core/db.go:76-86 | after any further actions no goroutine holds it |
| StmtCaches.InsertedForCurrent | internal/core/db.go:56-69 | an entry appears in txStmts only for a statement of the transaction that is current and not finished |
| StmtCaches.CloseReleasesAll | internal/core/db.go:158-171 | once every goroutine is done, closing the cached statements closes every open database statement |
| StmtCaches.StmtCache.Find | internal/core/db.go:40-46 | the read-locked part returns the transaction and the statement of the map of the moment |
| StmtCaches.StmtCache.KeepDb | internal/core/db.go:76-86 | the write-locked part keeps the winner of the query |
| StmtCaches.StmtCache.KeepTx | internal/core/db.go:56-69 | the write-locked part in a transaction inserts only while that transaction is current |
| StmtCaches.StmtCache.Begin | internal/core/db.go:123-133 | installs the transaction with an empty statement map |
| StmtCaches.StmtCache.EndTx | internal/core/db.go:137-143 | detaches the transaction and its statements and returns it |
| StmtCaches.StmtCache.CloseAll | internal/core/db.go:158-171 | the loop closes every cached statement and empties the map |
| AnalysisBuffers.MarshalThenUnmarshal | internal/analysis/analysis_vtproto.pb.go:570-625 | for every analysis without unknown fields the encoding decodes successfully into a message EqualVT to it |
| AnalysisBuffers.MarshalAnalysis | internal/analysis/analysis_vtproto.pb.go:570-625 | the buffer SizeVT asks for is filled from its end, the cursor never underflows and lands on 0, and the bytes are the specified encoding |
| AnalysisBuffers.SizeAnalysis | internal/analysis/analysis_vtproto.pb.go:1085-1105 | the accumulating loops count exactly the bytes of the encoding, nil elements as empty |
| AnalysisBuffers.ColumnSizeExact | internal/analysis/analysis_vtproto.pb.go:998-1066 | the size of a column is the number of its encoded bytes |
| AnalysisBuffers.ParameterSizeExact | internal/analysis/analysis_vtproto.pb.go:1068-1083 | the size of a parameter is the number of its encoded bytes |
| AnalysisBuffers.MarshalIdentifier | internal/analysis/analysis_vtproto.pb.go:307-341 | writing backwards from the cursor puts the identifier's encoding there and leaves the rest of the buffer alone |
| AnalysisBuffers.MarshalColumn | internal/analysis/analysis_vtproto.pb.go:361-520 | the same for a column's seventeen fields and nested identifiers |
| AnalysisBuffers.MarshalParameter | internal/analysis/analysis_vtproto.pb.go:540-568 | the same for a parameter and its nested column |
| AnalysisBuffers.UnmarshalIdentifier | internal/analysis/analysis_vtproto.pb.go:1113-1259 | the decode loop strictly advances and computes the specified decoding, errors included |
| AnalysisBuffers.UnmarshalColumn | internal/analysis/analysis_vtproto.pb.go:1260-1768 | the same for a column |
| AnalysisBuffers.UnmarshalParameter | internal/analysis/analysis_vtproto.pb.go:1769-1874 | the same for a parameter |
| AnalysisBuffers.UnmarshalAnalysis | internal/analysis/analysis_vtproto.pb.go:1875-1993 | the same for an analysis |
| AnalysisCodec.AnalysisRoundTrip | internal/analysis/analysis_vtproto.pb.go:1875-1993 | decoding an encoded analysis gives the message back, nil elements read as empty ones |
| AnalysisCodec.ColumnRoundTrip | internal/analysis/analysis_vtproto.pb.go:1260-1768 | decoding an encoded column gives it back, negative integers sent as ten-byte varints included |
| AnalysisCodec.ParameterRoundTrip | internal/analysis/analysis_vtproto.pb.go:1769-1874 | decoding an encoded parameter gives it back |
| AnalysisCodec.IdentifierRoundTrip | internal/analysis/analysis_vtproto.pb.go:1113-1259 | decoding an encoded identifier gives it back |
| AnalysisCodec.AnalysisConcat | internal/analysis/analysis_vtproto.pb.go:1875-1993 | when the first buffer decodes, decoding the concatenation equals decoding the first and then the second into the message, error or not, unknown fields and skipped groups included |
| AnalysisCodec.ColumnConcat | internal/analysis/analysis_vtproto.pb.go:1260-1768 | the same for columns, whose nested messages merge |
| AnalysisCodec.ParameterConcat | internal/analysis/analysis_vtproto.pb.go:1769-1874 | the same for parameters |
| AnalysisCodec.IdentifierConcat | internal/analysis/analysis_vtproto.pb.go:1113-1259 | the same for identifiers |
| AnalysisCodec.EqualAnalysis | internal/analysis/analysis_vtproto.pb.go:239-280 | the comparing loops decide equality element by element, a nil element standing for an empty one |
| Varint.EncodeVarint | internal/analysis/analysis_vtproto.pb.go:627-637 | the loop fills exactly the bytes before the offset that the size function counts, with the varint, and returns where it starts |
| Varint.SovIsLength | internal/analysis/analysis_vtproto.pb.go:1107-1109 | the size function counts the bytes the encoder writes |
| Varint.ReadEncode | internal/analysis/analysis_vtproto.pb.go:1118-1132 | reading undoes writing whatever follows |
| Varint.ReadLoop | internal/analysis/analysis_vtproto.pb.go:1118-1132 | the shift-and-or loop on a 64- or 32-bit accumulator computes the groups' sum modulo the width, or reports overflow or a short buffer |
| Varint.ReadLocal | internal/analysis/analysis_vtproto.pb.go:1118-1132 | a successful read does not depend on the bytes after it |
| Wire.Skip | internal/analysis/analysis_vtproto.pb.go:1995-2072 | the loop of skip, with its group depth, computes the specified end of a field or the error |
| Wire.SkipLocal | internal/analysis/analysis_vtproto.pb.go:1995-2072 | a field skipped successfully is skipped the same way whatever follows |
| Wire.NextTokenLocal | internal/analysis/analysis_vtproto.pb.go:1260-1300 | a field is recognised the same way whatever bytes follow it |
| QueryFormat.FormatConserves | internal/cmd/fmt.go:213-294 | for statements in order and in bounds, when each statement's printed text keeps its characters, the file comes out with every character other than whitespace and semicolons once and in order |
| QueryFormatLines.FormatLines | internal/cmd/fmt.go:213-294 | the output line by line: for every block its header lines, each a whole line, then its statement from a line of its own on, with the comments behind it at the end of its last line, then one empty line |
| QueryFormatLines.PieceAt | internal/cmd/fmt.go:213-294 | the lines of the blocks stand in the output in order, one empty line after each |
| QueryFormatHeaders.LeadingMeans | internal/cmd/fmt.go:322-369 | the header is the longest run of comment lines from the start, line for line; what follows starts with a line that is no comment, or with a block comment that does not close at the end of a line |
| QueryFormatHeaders.HeaderMeans | internal/cmd/fmt.go:322-369 | only blank lines at the end of that run are dropped, and none when the scan stops inside a block comment |
| QueryFormatHeaders.StatementIsNoComment | internal/cmd/fmt.go:402-411 | a statement that keeps its own text never starts as a line comment |
| QueryFormatHeaders.TrailingMeans | internal/cmd/fmt.go:299-316 | a comment goes behind the statement before it if and only if it is all that stands on the terminator's line; the rest starts at the line break |
| QueryFormatHeaders.BodyMeans | internal/cmd/fmt.go:259-262 | only terminators and space are dropped before a statement, only space behind it |
| QueryFormatHeaders.FallbackFixed | internal/cmd/fmt.go:402-411 | falling back ends the text with a terminator and is idempotent |
| QueryFormatHeaders.ClosingsMeans | internal/cmd/fmt.go:325-345 | comment ends are counted, each once |
| QueryFormatHeaders.CommentForms | internal/cmd/fmt.go:371-391 | what counts as a comment line, a blank one included |
| QueryFormat.FallbackConserves | internal/cmd/fmt.go:402-411 | in particular when every statement falls back to its own text |
| QueryFormat.FormatQueries | internal/cmd/fmt.go:213-294 | the loop with its cursor and blocks computes the specified segments, trailing comments, headers and tail, or reports a span out of bounds |
| QueryFormat.SplitTrailingComment | internal/cmd/fmt.go:299-316 | the comment on the terminator's line and the text after it |
| QueryFormat.SquashTrailing | internal/cmd/fmt.go:299-316 | the comment and the remainder hold the characters of the segment, in order |
| QueryFormat.SplitLeadingComments | internal/cmd/fmt.go:322-369 | the loops give the comment lines above a statement, block comments over several lines included, and the statement |
| QueryFormat.TakeBlock | internal/cmd/fmt.go:332-350 | the inner loop takes a block comment up to the line that closes it at its end, or reports that there is none |
| QueryFormat.SquashLeading | internal/cmd/fmt.go:322-369 | header and rest hold the characters of the text, in order |
| QueryFormat.SquashFallback | internal/cmd/fmt.go:403 | the fallback keeps a statement's characters |
| QueryFormat.SameComments | internal/cmd/fmt.go:464-481 | counting up and down decides equality of the trimmed texts as multisets |
| GlobPatterns.CompilePreservesMeaning | internal/pattern/match.go:45-86 | a pattern compiles if and only if it has no illegal or dangling escape, and then the expression accepts exactly the strings the glob stands for with wildcards that stop at newlines |
| GlobPatterns.AgreeWithoutNewlines | internal/pattern/match.go:45-86 | on newline-free strings the expression and the glob agree for every valid pattern |
| GlobPatterns.ExactWithoutNewlines | internal/pattern/match.go:45-86 | for a pattern without a newline the expression accepts exactly the newline-free strings of the glob |
| GlobPatterns.NewlinePatternAccepts | internal/pattern/match.go:69-70 | a pattern that holds a newline accepts some string with one |
| GlobPatterns.ExactIffNoNewline | internal/pattern/match.go:45-86 | the expression accepts exactly the newline-free strings of the glob if and only if the pattern holds no newline |
| GlobPatterns.CompilesIffValid | internal/pattern/match.go:50-77 | compilation fails exactly on an illegal or dangling escape |
| GlobPatterns.Compile | internal/pattern/match.go:45-86 | the loop with its escaped flag builds the anchored expression or the error |
| GlobPatterns.MatchCache.MatchCompile | internal/pattern/match.go:23-43 | the cached answer is the compiled one, and only successes are cached |
| JoinNullability.NullabilityExact | internal/compiler/output_columns.go:428-468 | when every operand an outer join extends is a table and no occurrence of the column's table without an alias comes before, a NOT NULL column stays NotNull if and only if no data and conditions make it NULL; self joins told apart by aliases included |
| JoinNullability.NullableIffExtended | internal/compiler/output_columns.go:449-458 | over all data and conditions, a table can be NULL in a result row if and only if some outer join above it extends its side, at any depth |
| JoinNullability.NeverNull | internal/compiler/output_columns.go:449-458 | a table no outer join extends is present in every row of the result |
| JoinNullability.DemotedIff | internal/compiler/output_columns.go:404-468 | for a column that refers, by table name and reference name, to one occurrence of a table: the code demotes it exactly when an outer join extends, as a whole operand, the occurrence it settles on, which is the column's own unless one of the same table without an alias comes first |
| JoinNullability.NullabilityRightIff | internal/compiler/output_columns.go:428-468 | on every clause of the six known join types the answer is right if and only if the extension of the column's occurrence and the direct extension of the one the code settles on go together; they are one exactly when no occurrence without an alias hides it, and then a demoted column can be NULL |
| JoinNullability.NestedJoinUnsound | internal/compiler/output_columns.go:439-458 | a LEFT JOIN (b JOIN c) keeps the columns of b NotNull although they can be NULL |
| JoinNullability.SelfJoinTold | internal/compiler/output_columns.go:432-438 | employees e LEFT JOIN employees m: the columns of e stay NotNull, those of m do not |
| JoinNullability.SelfJoinUnsound | internal/compiler/output_columns.go:432-438 | employees LEFT JOIN employees m: the columns of m are kept NotNull although they can be NULL |
| JoinNullability.OnlyDemotes | internal/compiler/output_columns.go:404-417 | a column never becomes NotNull, nothing else of it changes, and an exempt one stays |
| JoinNullability.DemoteAll | internal/compiler/output_columns.go:404-417 | the final loop overwrites NotNull of each column by the first FROM item that knows its table |

## Left out

- TypeStoreStability.ResolveTwice: a sufficient condition that a seed can be checked for; TypeStoreRewriting.ResolveAgainIff is the exact one.
- TypeStoreStability.LookupAgrees: under the same sufficient condition; TypeStoreRewriting.LookupFindsIff is the exact one.
- TypeStoreRewriting.ResolveAgainIff: every rewrite's template names a type; a template with a blank name, which would register a family without a name, is excluded.
- TypeStoreRewriting.LookupFindsIff: no family may be called as the expression is spelled, and the rewrites may not give arguments to the bare family a lookup falls back on, or to an expression that had none the first time.
- TypeStoreRepeats.LookupIff: no family may be called as the expression is spelled.
- TypeStoreTakeover.SecondRow: says which row is returned; whether rows of arguments are inserted on the way is TypeStoreRepeats.InsertsNothingIff.
- TypeStoreTakeover.ResolveTwiceIff: for canonical forms that can be read in one way, since names with commas or parentheses and bare-word arguments can make different expressions print alike; TypeStoreTakeover.SecondRow has no such restriction.
- TypeExprKeys.KeyIff: bare-word arguments print like types (TypeExprRoundTrip.IdentPrintsAsType), and strings with a backslash are excluded, since the printer does not escape it.
- QueryFormatHeaders.StatementIsNoComment: for statements that keep their own text; what the printer writes is a parameter.
- TypeStoreInvariant.InternKeeps: recursion is bounded by a fuel parameter, since a dialect's rewrites could make internType recurse for ever.
- TypeExprs.QuotedEndLoop: an argument that is a single quote character makes the Go code panic; the model reads it as an empty string.
- Varint.ReadLoop: a length that overflows the index when added to it is reported as a short buffer where the Go code reports an invalid length; it is an error in both.
- AnalysisBuffers.MarshalAnalysis: the encoding is shorter than 2^63 bytes.
- AnalysisCodec.AnalysisRoundTrip: for messages without unknown fields, since kept bytes need not be well-formed fields.
- CacheStore.StoreAtomicity: MkdirAll is part of the staging step; file permissions and power loss are not modelled.
- CacheClients.CacheTransparent: a restored catalog is the value its file decodes to when it is opened; how SQLite reads the file is not part of this model.
- SourceEdits.Mutate: measured old lengths are not negative.
- EditSubstitution.AppliedExact: spans are those of the original only when a measuring function gives the same length whatever was written from the next edit on; EditSubstitution.MeasuredExact has no such condition.
- EditSubstitution.MutateSimultaneous: the same condition, and distinct locations; EditOrders has the case of shared ones.
- BatchPlans.PlanBatch: positions are relative to the statement; the JSON form of each column type, and the SELECT that unpacks the JSON rows, are parameters; the sorted list of unnested numbers is a set.
- QueryFormat.FormatQueries: the printer, its fixed-point and fingerprint checks and the slicing of interior comments are one parameter.
- JoinNullability.NullabilityRightIff: the rows of join types the code does not look into are not modelled, so the clause has none of them; JoinNullability.DemotedIff and DemoteAll cover them.
- The operators createComparisons adds, the namespace memo, dialect flags in tables, loading rules from tables, parsing rewrite conditions, pseudo types and dropped types of the type catalog.
- GetTree, PutTree, ExecDir and the memo of the tool digest: path and file plumbing.
- SQL semantics of DuckDB, SQLite and the engines; the generated batch runtime; commands, configuration, plugins, network and user interface.
- The codec of internal/vet, which repeats the one modelled with more scalar fields.
