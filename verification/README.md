# Ryx verification model

Ryx is an asynchronous ORM with a Python and a Rust front end over shared Rust back ends. This project
models the parts of it where a small mistake silently loses or corrupts data, and proves what they
promise, for all inputs, all runs and all schedules:

- **Bulk SQL** (`BulkSql`, `BulkUpdate`, `BulkMeaning`, `BulkInsert`, `BulkDelete`, `Placeholders`).
  The back ends compile many single-row operations into one statement and a flat bind vector. The
  statements are syntax trees with an evaluator over tables (CASE and three-valued logic as in ISO/IEC
  9075-2:2003, sections 6.11 and 6.34); the evaluator takes the database's own comparison and casts as
  parameters, so the theorems hold for any of them. Placeholder text is modelled character by character.
- **The in-process cache** (`MemoryCache`, `CacheRuns`): an ordered dictionary changed in place, with a
  recorded history, and theorems about one run and about two runs with different capacities.
- **The string interner** (`Interner`): threads taking one step at a time under two read-write locks.
- **Schema differencing** (`SchemaDiff`, `Migration`): the patch generator, and the patch replayed.
- **Streams** (`Streams`, `KeysetStreams`, `OffsetStreams`): keyset pagination over a table that changes between fetches, and offset
  pagination in both languages.
- **Filters** (`LookupKeys`, `FilterTrees`, `QuerySets`, `SelectRelated`, `Joins`): lookup keys, Q
  expressions across three representations under three-valued logic, runs of `filter` and `exclude`, and
  the joins of `select_related` from the tables to the rows taken apart.
- **Transactions** (`Transactions`): the handle, the active slot and the `transaction` function, over a
  server with savepoints (ISO/IEC 9075-2:2003, section 16.4).

## What the code does not do

Some laws hold only under a condition. Each is stated as an if-and-only-if:

- A bulk statement is refused for a `List` among its values, which is not bound, and for more parameters
  than the database takes: n(2F + 1) of them for n updates of F columns, one per cell for an insert and one
  per pk for a delete (`BulkMeaning.BulkUpdateMeansSingles`, `BulkInsert.InsertRoundTrip`,
  `BulkDelete.BulkDeleteMeaning`). Batches no larger than that limit make any number of pks go
  (`BulkDelete.BulkDelete`).
- Schema and table names are quoted but not escaped: a statement finds its table exactly when neither name
  holds a double quote (`BulkSql.TargetReadsBackIff`).
- Inserted rows come back unchanged exactly when, besides, the casts leave their values as they are
  (`BulkInsert.InsertRoundTrip`). On MySQL the first row's values choose the casts of every row
  (`BulkInsert.MySqlRoundTrip`).
- Every `?` is rewritten for PostgreSQL, also the jsonb operators `?`, `?|` and `?&` that the `has_key`,
  `has_any` and `has_all` lookups write, so such filters are always misread
  (`Placeholders.JsonOperatorIsLost`, `Placeholders.HasKeyText`). The rewritten text says what was meant
  exactly when there is no such operator, no bind inside quotes, and no digit directly after a `$` or an
  uncast bind (`Placeholders.NormalizePreservesBinding`).
- Interned symbols stay distinct exactly while there are at most 2^32 of them
  (`Interner.FaithfulIffFits`), and a symbol gives back its string exactly when that string's own place
  is below 2^32 (`Interner.ResolveUndoesIntern`).
- A lookup key is split without loss exactly when a part after the first is a known lookup; a chained
  transform before a known last part goes to the column, contrary to the doc comments
  (`LookupKeys.ParseKeepsKeyIff`, `LookupKeys.LastKnownPartIsLookup`).
- Every stream overwrites the query's own limit, and each treats its own offset differently: the Python
  LIMIT/OFFSET loops ignore it, the Rust stream forgets it after the first chunk, and the keyset loop
  skips it again in every fetch. So a sliced query such as `qs[2:5]` is streamed as its slice only in the
  cases that `OffsetStreams.OffsetSliceIff`, `OffsetStreams.OwnSliceIff` and `KeysetStreams.KeysetSliceIff` state.
- The keyset stream adds no ORDER BY. With unique keys it delivers the table exactly when after every full
  chunk the rows are cut into smaller and larger keys (`KeysetStreams.KeysetDeliversIff`), and for every chunk
  size exactly when they ascend (`KeysetStreams.EveryChunkIffOrdered`).
- A joined row whose pk is 0 is reconstructed as no row (`SelectRelated.InstanceIff`).
- `exclude` of two keywords and `exclude` of one Q with both agree on a row exactly when both
  comparisons have the same value there (`QuerySets.ExcludeKwargsVersusQ`).
- `exclude(k=v)` negates `filter(k=v)` exactly when `k` is not `pk` and coercion leaves `v` as it is:
  `exclude` resolves and coerces nothing (`QuerySets.ExcludeNegatesFilterIff`,
  `QuerySets.ExcludePkIsUnresolved`).
- Inside `transaction` every query runs in the transaction, whatever database it names. It reaches the
  database it names exactly when the slot is empty or holds a transaction on it
  (`Transactions.ActiveTransaction.Execute`, `Transactions.Transaction`).
- Joined rows can be taken apart again exactly when no column name starts with the prefix of a relation it
  does not belong to (`SelectRelated.RecoversIff`). With relations named `type` and `type_`, every column of
  the latter does (`SelectRelated.TrailingUnderscoreClashes`).

## Model

| member | source | states |
|---|---|---|
| SqlValues.BindValues | ryx-backend/src/backends/postgres.rs:83-116 | values are bound in order and a List is skipped |
| SqlValues.BoundAll | ryx-backend/src/backends/postgres.rs:104-112 | as many binds as values exactly when no value is a List |
| BulkUpdate.BulkUpdatePostgres | ryx-backend/src/backends/postgres.rs:729-795 | no-op exactly for no pks or no columns; otherwise the qualified target, every clause, placeholder number, cast and bind of the statement |
| BulkUpdate.BulkUpdateMySql | ryx-backend/src/backends/mysql.rs:622-677 | the same statement and the same binds with `?` throughout |
| BulkUpdate.ParameterArithmetic | ryx-backend/src/backends/postgres.rs:756-783 | field fi, row i uses parameters 2(n fi + i) + 1 and + 2; the IN list starts at 2nF + 1 |
| BulkUpdate.BindArithmetic | ryx-backend/src/backends/postgres.rs:751-787 | those parameters name that row's pk and new value; n(2F + 1) binds in all |
| BulkUpdate.BindableIff | ryx-backend/src/backends/postgres.rs:104-112 | every value is bound exactly when no pk and no value in use is a List |
| BulkMeaning.BulkUpdateMeansSingles | ryx-backend/src/backends/postgres.rs:741-795 | on any table, under either SET order, the statement is refused exactly for a repeated column, more than the database's number of parameters (n(2F + 1) are needed) or a List, and otherwise equals the single-row updates run from last to first |
| BulkMeaning.SinglesKeepFirst | ryx-backend/src/backends/postgres.rs:756-775 | of several updates to one row the one of the first matching pk stays |
| BulkMeaning.CaseNeverFallsThrough | ryx-backend/src/backends/postgres.rs:760-797 | a row is selected exactly when some pk matches it, and then every CASE takes its first matching WHEN, never the implicit ELSE NULL |
| BulkMeaning.UpdateRowKeepsFirst | ryx-backend/src/backends/postgres.rs:756-797 | unmatched rows are untouched and matched rows get the first match's values |
| BulkMeaning.MySqlReadsAsPostgres | ryx-backend/src/backends/mysql.rs:642-677 | the `?` numbered left to right give the PostgreSQL statement without casts |
| BulkMeaning.BackEndsAgree | ryx-backend/src/backends/mysql.rs:634-677 | without casts both back ends leave the same table, though MySQL sets columns left to right |
| BulkSql.TargetReadsBackIff | ryx-backend/src/backends/mod.rs:23-29 | the qualified name reads back as its schema and table, or the table alone for an empty schema, exactly when neither name holds a double quote |
| BulkMeaning.BulkUpdateChangesOneTable | ryx-backend/src/backends/postgres.rs:789-795 | on a database the update changes the table of that schema and name as the single-row updates would, and no other table |
| Placeholders.NormalizePostgresSql | ryx-backend/src/backends/postgres.rs:119-168 | whatever binds and characters the text was written from, the rewritten text says the same with numbered parameters exactly when it was safe: no `?` that is not a bind, no bind in quotes, no digit after a `$` or an uncast bind |
| Placeholders.NormalizePreservesBinding | ryx-backend/src/backends/postgres.rs:119-138 | the same for every statement and every choice of casts |
| Placeholders.ParametersInOrder | ryx-backend/src/backends/postgres.rs:121-131 | the rewritten text of a safe statement holds one parameter per bind, numbered 1, 2, .. from left to right |
| Placeholders.PlaceholderCastText | ryx-backend/src/backends/postgres.rs:144-198 | the text after a parameter: the registered field type's by a table of names, for the column of that number; failing that `::date` exactly for a date or date-shaped text, `::timestamp` exactly for a timestamp or other text of its shape, `::vector` exactly for a vector, and otherwise nothing |
| Placeholders.ParameterHasCast | ryx-backend/src/backends/postgres.rs:119-168 | wherever a safe statement has a bind, the rewritten text is read as the parameter of its number followed by that text, and around it as it was meant |
| Placeholders.JsonOperatorIsLost | ryx-backend/src/backends/postgres.rs:124-131 | no statement with a jsonb `?` operator is read as it was meant |
| Placeholders.HasKeyText | ryx-query/src/lookups/json_lookups.rs:93-95 | a `has_key` filter with its one bind comes out with two parameters, whatever the casts |
| BulkInsert.PostgresValues | ryx-backend/src/backends/postgres.rs:597-623 | the text of every cell of the VALUES list, casts kept across renumbering |
| BulkInsert.Flatten | ryx-backend/src/backends/postgres.rs:625-630 | the binds are the rows laid end to end |
| BulkInsert.CellArithmetic | ryx-backend/src/backends/postgres.rs:605-630 | cell (r, c) is `$(r m + c + 1)` with column c's cast, and that bind is its value |
| BulkInsert.InsertRoundTrip | ryx-backend/src/backends/postgres.rs:597-658 | the list stores the rows, converted by their columns' casts, exactly when all rows have one value per column, none is a List and the database takes that many parameters; they are stored unchanged exactly when the casts leave them so |
| BulkInsert.MySqlValues | ryx-backend/src/backends/mysql.rs:500-524 | every row gets the first row's cell texts |
| BulkInsert.MySqlCellsAgree | ryx-backend/src/backends/mysql.rs:500-531 | the `?` of a cell comes in the position of the PostgreSQL cell's number |
| BulkInsert.MySqlCellText | ryx-backend/src/backends/mysql.rs:500-517 | every row's cell is cast to DATE, TIMESTAMP or TIME exactly when the first row's value is a date, timestamp or time, or text of the shape of the first two |
| BulkInsert.MySqlRoundTrip | ryx-backend/src/backends/mysql.rs:500-531 | on MySQL the rows are stored unchanged exactly when, besides the same conditions, the cast chosen by the first row leaves every value of its column as it is |
| BulkDelete.BulkDeletePostgres | ryx-backend/src/backends/postgres.rs:676-722 | one numbered, cast parameter per pk; no-op exactly for no pks |
| BulkDelete.BulkDeleteMySql | ryx-backend/src/backends/mysql.rs:576-619 | one `?` per pk; no-op exactly for no pks |
| BulkDelete.BulkDeleteMeaning | ryx-backend/src/backends/postgres.rs:684-722 | exactly the rows some pk matches go, unless there are more pks than the database takes parameters or one is a List |
| BulkDelete.BulkDeleteChangesOneTable | ryx-backend/src/backends/postgres.rs:705-722 | on a database the rows go from the table of that schema and name, and no other table changes |
| BulkDelete.MySqlKeysNumber | ryx-backend/src/backends/mysql.rs:593-603 | the `?` are numbered as the PostgreSQL parameters |
| BulkDelete.Chunked | ryx-python/ryx/bulk.py:456-460 | the chunks joined are the input, all full but the last; zero is refused, a negative size yields nothing |
| BulkDelete.BulkDelete | ryx-python/ryx/bulk.py:390-409 | the rows left are those that some pk does not match, whatever the batch size, and the total is how many went; it succeeds exactly when no pk is a List and a batch has no more pks than the database takes parameters, and otherwise stops at the first batch that cannot be sent with the whole batches before it done; a zero size is refused unless there are no pks |
| MemoryCache.Cache.constructor | ryx-python/ryx/cache.py:96-100 | an empty store with the given capacity and default ttl |
| MemoryCache.Cache.Get | ryx-python/ryx/cache.py:102-112 | a hit moves the entry to the recent end, an expired entry is removed, and the answer is the lookup's |
| MemoryCache.GetLeaves | ryx-python/ryx/cache.py:102-112 | after a get an expired entry is gone, one that answers stands at the recent end, and every other entry is there in the order it had |
| MemoryCache.Cache.Set | ryx-python/ryx/cache.py:114-124 | the entry goes to the recent end and the oldest are evicted down to capacity |
| MemoryCache.Cache.EvictOldest | ryx-python/ryx/cache.py:123-124 | the newest entries up to capacity stay |
| MemoryCache.Cache.Delete | ryx-python/ryx/cache.py:126-128 | the key goes |
| MemoryCache.Cache.DeleteMany | ryx-python/ryx/cache.py:130-133 | all the keys go |
| MemoryCache.Cache.Clear | ryx-python/ryx/cache.py:135-137 | everything goes |
| MemoryCache.Cache.Keys | ryx-python/ryx/cache.py:139-147 | the listing of unexpired matching keys in store order |
| MemoryCache.ListedIffHit | ryx-python/ryx/cache.py:107-147 | a matching key is listed exactly when a get would hit, except at the instant of expiry |
| MemoryCache.ListedInOrder | ryx-python/ryx/cache.py:139-147 | the listing is the keys of the matching entries not yet at their expiry, each entry once, in store order |
| MemoryCache.RunKeeps | ryx-python/ryx/cache.py:96-137 | in every reachable store keys are distinct and the size is within capacity |
| CacheRuns.LargerCacheKeepsEveryHit | ryx-python/ryx/cache.py:102-137 | for any calls, the smaller cache holds a subsequence of the larger, lags by at most the difference in capacity, and its hits are the larger's hits |
| CacheRuns.HitIsLastWrite | ryx-python/ryx/cache.py:102-137 | a get answers only with the last set of the key, not deleted or cleared since and not expired |
| CacheRuns.RoomyCacheIsExact | ryx-python/ryx/cache.py:102-137 | a cache in which every set finds room, under a clock that never goes back, answers exactly the unexpired last writes |
| CacheRuns.FewKeysNeverFill | ryx-python/ryx/cache.py:114-124 | room for all the different keys ever set is room enough, whatever the number of calls |
| CacheRuns.SetIsServedUntilExpiry | ryx-python/ryx/cache.py:107-124 | a set value is served while no more than the ttl has passed; no ttl and zero mean forever; the call's ttl wins |
| CacheRuns.OrderedByLastUse | ryx-python/ryx/cache.py:111-121 | entries stand in the order of their last set or hit |
| CacheRuns.EvictsLeastRecent | ryx-python/ryx/cache.py:118-124 | whatever is evicted was used before everything that stays |
| Interner.Table.Intern | ryx-query/src/symbols.rs:31-53 | alone: the known symbol, or the next index, with map and vec kept inverse |
| Interner.ExclusionKept | ryx-query/src/symbols.rs:33-52 | every thread step keeps the two locks exclusive |
| Interner.InverseKept | ryx-query/src/symbols.rs:41-52 | every thread step keeps map and vec inverse but for the entry its lock holder is adding |
| Interner.Linearizable | ryx-query/src/symbols.rs:31-57 | under every schedule the record is a linearization: a correct one-at-a-time execution in which each call stands once, taken between its first and last step, with its own argument and the answer its thread gets, nothing else stands, and calls that do not overlap keep their order |
| Interner.TableIsRecord | ryx-query/src/symbols.rs:41-52 | under every schedule the table is what the recorded calls lead to, holds no string twice, and `map` is its inverse whenever no entry is half written |
| Interner.CallsOnRecord | ryx-query/src/symbols.rs:31-57 | each thread's calls run one by one, each on record from its start to its end at the latest, and its answer is the one on record |
| Interner.PlaceHasCall | ryx-query/src/symbols.rs:31-57 | every entry of the record belongs to a call |
| Interner.PlaceHasOneCall | ryx-query/src/symbols.rs:31-57 | and to no other call of any thread |
| Interner.RealTimeOrder | ryx-query/src/symbols.rs:31-57 | a call that ended before another began stands before it |
| Interner.RunsGrow | ryx-query/src/symbols.rs:49-51 | the table only grows, by extension |
| Interner.SameStringSameSymbol | ryx-query/src/symbols.rs:34-47 | every intern of a string by any thread gets the same symbol |
| Interner.FaithfulIffFits | ryx-query/src/symbols.rs:49 | equal strings and equal symbols coincide exactly while the index fits 32 bits |
| Interner.ResolveUndoesIntern | ryx-query/src/symbols.rs:49-57 | resolving a symbol at any later time gives back its string exactly when the string's own place fits 32 bits |
| Interner.ResolvedText | ryx-query/src/symbols.rs:55-57 | a resolve on record gives the string at that place of the table as it then was, and nothing beyond its end |
| Interner.NeverStuck | ryx-query/src/symbols.rs:33-57 | while a call is under way some call can take a step |
| SchemaDiff.DiffStates | ryx-rs/src/migration.rs:102-223 | the five loops emit the changes in the order schemas, tables, new tables' columns, missing columns, changed columns |
| Migration.SchemaSetSpec | ryx-rs/src/migration.rs:105-109 | the ordered set holds each table's schema once, ascending |
| Migration.LessIs | ryx-rs/src/migration.rs:105-116 | schemas ascend in dictionary order |
| Migration.FoundIsIn | ryx-rs/src/migration.rs:126-129 | a table is found by its schema and name together, exactly when there is one |
| Migration.PutsSpec | ryx-rs/src/migration.rs:143-220 | column changes touch exactly the places where the target differs, each once, with the right kind and old column |
| Migration.NothingToChangeIff | ryx-rs/src/migration.rs:102-223 | no changes exactly when every target table is there and every target column equal |
| Migration.DiffReplays | ryx-rs/src/migration.rs:102-223 | on any database that holds the current tables, schemas prepared in advance included, every change is accepted in order; afterwards target columns are as declared, and all else, tables and columns, is as it was |
| Migration.DiffConverges | ryx-rs/src/migration.rs:102-223 | differencing any snapshot of the migrated database against the target finds nothing |
| KeysetStreams.StreamKeyset | ryx-python/ryx/queryset.py:1309-1339 | the loop delivers what the fetches of the keyset stream deliver, whatever table each fetch meets and whatever the query's own slice |
| KeysetStreams.KeysetNeverRepeats | ryx-python/ryx/queryset.py:1313-1339 | under arbitrary change between fetches the delivered keys rise strictly |
| KeysetStreams.KeysetMissesNothing | ryx-python/ryx/queryset.py:1313-1339 | when the stream of a query without an offset ends, every key present at each fetch was delivered |
| KeysetStreams.KeysetOnStill | ryx-python/ryx/queryset.py:1313-1339 | on an unchanging table in ascending order it ends and delivers every row, with length / chunk + 1 fetches |
| KeysetStreams.KeysetDeliversIff | ryx-python/ryx/queryset.py:1309-1316 | with unique keys it delivers the table exactly when every full chunk is a cut between smaller and larger keys |
| KeysetStreams.EveryChunkIffOrdered | ryx-python/ryx/queryset.py:1309-1316 | it delivers the table for every chunk size exactly when the rows ascend strictly |
| KeysetStreams.KeysetSliceIff | ryx-python/ryx/queryset.py:1314-1317 | when a query's own offset and limit are respected: exactly in the stated cases of length, slice and chunk |
| OffsetStreams.StreamOffset | ryx-python/ryx/queryset.py:1340-1362 | the loop delivers every row in order with length / chunk + 1 fetches, whatever the query's own slice |
| OffsetStreams.OffsetDelivers | ryx-python/ryx/bulk.py:442-452 | from any offset on the loop delivers exactly the rest of the table in order and then ends |
| OffsetStreams.OffsetSliceIff | ryx-python/ryx/queryset.py:1344 | that is the query's result exactly when its slice is the whole table |
| OffsetStreams.QueryStream.NextChunk | ryx-rs/src/stream.rs:55-85 | one call: the chunk at the current offset, the moved cursor, None once done |
| OffsetStreams.CallsDeliver | ryx-rs/src/stream.rs:55-85 | repeated calls deliver one chunk at the query's own offset and then the table from its second chunk on, and None for ever after |
| OffsetStreams.CallsDeliverAll | ryx-rs/src/stream.rs:55-85 | without an own offset: every row, with length / chunk + 1 queries |
| Streams.FullChunksIs | ryx-rs/src/stream.rs:75-77 | the count of full chunks is the quotient of the length by the chunk size |
| OffsetStreams.OwnSliceIff | ryx-rs/src/stream.rs:66-71 | a query is streamed as its slice exactly when its limit cuts nothing off and its offset is zero or reaches into the last chunk |
| OffsetStreams.SlicedStreams | ryx-python/ryx/queryset.py:734-748 | what the three streams make of `qs[2:5]` |
| LookupKeys.ParseFieldLookup | ryx-rs/src/q.rs:18-34 | cuts before the rightmost known part; failing that the first part and exact |
| LookupKeys.ParseLookupKey | ryx-python/ryx/queryset.py:1236-1260 | the same result as the Rust parser for the same known lookups |
| LookupKeys.JoinUndoesSplit | ryx-rs/src/q.rs:19-28 | joining the parts gives back the key |
| LookupKeys.PartsHaveNoSeparator | ryx-rs/src/q.rs:19 | no part contains the separator, and none before a separator ends in `_` |
| LookupKeys.SplitUndoesJoin | ryx-rs/src/q.rs:19 | parts that hold no separator, and end in `_` only at the very end, are what their join splits into |
| LookupKeys.ParsedParts | ryx-rs/src/q.rs:18-34 | the key's parts are the column's and then the lookup's, which begins with the last known part; with no known part after the first, the column is the first part and the lookup exact |
| LookupKeys.ParseKeepsKeyIff | ryx-rs/src/q.rs:18-34 | column, separator and lookup make up the key exactly when a part after the first is known |
| LookupKeys.LastKnownPartIsLookup | ryx-python/ryx/queryset.py:1251-1255 | a known last part is the whole lookup, whatever transform stands before it |
| FilterTrees.QKeepsMeaning | ryx-python/ryx/queryset.py:79-140 | every Q expression survives the trip through its dict to the Rust tree with its three-valued value unchanged |
| FilterTrees.LeavesKeepMeaning | ryx-python/src/lib.rs:595-653 | the dict reader accepts keyword leaves and their conjunction keeps its value |
| FilterTrees.DictKeepsMeaning | ryx-python/src/lib.rs:595-653 | any dict at all is accepted exactly when its parts are there, and is then read as what it says; a leaf without `negated` is not negated |
| FilterTrees.RustQKeepsMeaning | ryx-rs/src/q.rs:112-129 | the Rust Q keeps its three-valued value |
| QuerySets.WithFilterAnds | ryx-query/src/ast.rs:398-401 | a flat condition is ANDed wherever it is stored |
| QuerySets.WithQAnds | ryx-query/src/ast.rs:404-410 | a tree is ANDed however it is nested |
| QuerySets.RustQuerySet.Filter | ryx-rs/src/queryset.rs:90-110 | the condition is ANDed on every row |
| QuerySets.RustQuerySet.Exclude | ryx-rs/src/queryset.rs:117-138 | the negated condition is ANDed on every row |
| QuerySets.RustRunIsConjunction | ryx-rs/src/queryset.rs:90-138 | any run of calls selects by the conjunction of their conditions |
| QuerySets.BuildPlan | ryx-python/src/plan.rs:44-75 | the op loop folds the ops in order and stops at the first error |
| QuerySets.PlanSelects | ryx-python/src/plan.rs:44-75 | any list of ops at all is accepted exactly when each of its dicts says something, and then selects by the conjunction of what the ops state; otherwise the error is that of the first dict refused |
| QuerySets.PythonRunIsConjunction | ryx-python/ryx/queryset.py:454-496 | the ops of any run of calls, Qs and keywords in any order, are accepted by the plan builder and select by the conjunction of their conditions: a filter keyword compares the column it names, `pk` resolved and the value coerced for that column, an exclude keyword takes both as they are |
| QuerySets.PythonRunIsAsMeant | ryx-python/ryx/queryset.py:454-496 | with exclude keywords that `filter` reads alike, the run selects by its Qs, its filter keywords and the negation of its exclude keywords |
| QuerySets.PkIsResolved | ryx-python/ryx/queryset.py:472-477 | `filter(pk=v)` is the filter by the primary key's name, coercion included |
| QuerySets.ExcludeNegatesFilterIff | ryx-python/ryx/queryset.py:469-494 | excluding by a keyword negates filtering by it on every row exactly when it is not `pk`, or resolving it changes nothing, and coercion leaves its value |
| QuerySets.ExcludePkIsUnresolved | ryx-python/ryx/queryset.py:471-494 | `exclude(pk=v)` compares a column named `pk` |
| QuerySets.ExcludeKwargsVersusQ | ryx-python/ryx/queryset.py:482-496 | keyword and Q exclusion of two comparisons agree exactly when both comparisons have the same value |
| SelectRelated.BuildSelectRelated | ryx-rs/src/queryset.rs:491-531 | one LEFT JOIN per known relation asked for, the qualified main columns, and an alias for each of the relations' columns |
| SelectRelated.FindsFirst | ryx-rs/src/queryset.rs:496 | a name is looked up as the first declared relation of that name |
| SelectRelated.UsedAsAsked | ryx-rs/src/queryset.rs:495-507 | the relations used are those of the declared names among the names asked for, in the order asked |
| Joins.JoinsRelate | ryx-rs/src/queryset.rs:497-504 | the joins yield exactly the rows of the main table with, beside each and in every combination, a row of each relation's table whose target column matches the row's foreign key, or none where none matches |
| Joins.NoRowIsLost | ryx-rs/src/queryset.rs:498 | every row of the main table is in the result |
| Joins.SelectsFlatRow | ryx-rs/src/queryset.rs:510-531 | the main columns and aliases read the flat row: the main row's fields and each related row's columns under their aliases |
| Joins.RelatedRowComesBack | ryx-python/ryx/queryset.py:899-909 | taking a relation's prefix off what the query returns gives the related row that the foreign key names, or nulls when there is none |
| SelectRelated.RowUsesAliases | ryx-rs/src/queryset.rs:515-526 | the row's extra columns are named by those aliases in order |
| SelectRelated.PlainNamesApart | ryx-python/ryx/queryset.py:355-364 | different names without `__` and without a final `_` are apart |
| SelectRelated.LeakIff | ryx-python/ryx/queryset.py:355-364 | some column of one relation gets an alias under the other's prefix exactly when one prefix begins with the other |
| SelectRelated.NamesApartNeverLeak | ryx-python/ryx/queryset.py:355-364 | names that are pairwise apart never leak, whatever the columns |
| SelectRelated.DecodesOwnRow | ryx-python/ryx/queryset.py:903-919 | stripping a relation's prefix gives exactly that relation's row |
| SelectRelated.MainRowKept | ryx-python/ryx/queryset.py:899 | the main table's columns are not disturbed |
| SelectRelated.InstanceIff | ryx-python/ryx/queryset.py:921-935 | an unmatched relation gives no instance; a matched one gives one exactly when its pk is neither null nor zero and its row not all null or empty |
| SelectRelated.RecoversIff | ryx-python/ryx/queryset.py:899-919 | whatever the rows, the main row and each relation's row come back exactly when no column name is under another relation's prefix |
| SelectRelated.ClashingNamesLeak | ryx-python/ryx/queryset.py:355-364 | for any two names that are not apart, a column in the first makes rows unrecoverable |
| SelectRelated.TrailingUnderscoreClashes | ryx-python/ryx/queryset.py:903-909 | a name with a final underscore leaks every column into the name without it |
| Transactions.TransactionHandle.Begin | ryx-backend/src/transaction.rs:64-73 | a fresh handle is open on the durable contents with no savepoints |
| Transactions.TransactionHandle.Commit | ryx-backend/src/transaction.rs:76-86 | takes the transaction, makes it durable and answers Ok if it gets through, answers with an error if not, and is a no-op the second time |
| Transactions.TransactionHandle.Rollback | ryx-backend/src/transaction.rs:89-99 | takes and discards the transaction, with an error when the server could not be told |
| Transactions.TransactionHandle.Send | ryx-backend/src/transaction.rs:109-156 | a statement runs inside the open transaction and is an error on an ended one |
| Transactions.TransactionHandle.Savepoint | ryx-backend/src/transaction.rs:102-106 | the name is recorded exactly when the server accepted it |
| Transactions.ActiveUntilEnded | ryx-backend/src/transaction.rs:159-161 | the handle is active exactly until a commit or rollback was asked for |
| Transactions.ActiveTransaction.Execute | ryx-backend/src/backends/postgres.rs:475-557 | a back-end call goes to the active transaction, on whatever database that is, or straight to the database it names when there is none |
| Transactions.Transaction | ryx-rs/src/transaction.rs:22-42 | the closure's answers and the durable contents are those of the run (`AnswerIs`, `DurableIsOutcome`), the slot is empty on return, and the databases that its calls name do not change |
| Transactions.DurableIsOutcome | ryx-backend/src/transaction.rs:76-156 | the durable contents are the start plus exactly the surviving statements if the first ending command is a COMMIT that gets through on an unblocked transaction, and the start otherwise |
| Transactions.EndingAnswer | ryx-backend/src/transaction.rs:76-99 | the first COMMIT or ROLLBACK is answered Ok exactly when it got through |
| Transactions.AnswerIs | ryx-backend/src/transaction.rs:76-156 | every answer of a run: by what the command does to what has survived until then, and after the end Ok for COMMIT and ROLLBACK alone |
| Transactions.SurvivorsAreAccepted | ryx-backend/src/transaction.rs:123-138 | with no rollback to a savepoint, the survivors are the statements answered Ok |
| Transactions.AfterTheEnd | ryx-backend/src/transaction.rs:125-127 | once ended, every statement fails and nothing changes |
| Transactions.DurableChangesOnce | ryx-rs/src/transaction.rs:28-41 | the durable contents change at most once |
| Transactions.RollbackToUndoes | ryx-backend/src/transaction.rs:102-113 | rolling back to a savepoint that was not given up undoes everything since, failures and nested savepoints, rollbacks and releases included, and keeps it |

## Left out

- The SQL compiler, the lookup registry, the DDL generator and the migration runner; lookups are a set of names, a comparison is an abstract truth value, and a schema change is applied abstractly. On SQLite an altered column emits no SQL, so `Migration` speaks of databases that alter columns.
- Python `bulk_update` over several batches: it accumulates columns while sending only the last batch's pks; the Rust kernel is modelled.
- BulkDelete.BulkDelete: starts from the pks left after instances without one are dropped.
- Chunked: is a list, not a lazy generator.
- NormalizePreservesBinding: PostgreSQL's comments, dollar-quoted strings, escape strings and names that contain `$` are read as plain characters outside quotes.
- A negative `max_size` for the cache, on which `set` empties the store and raises.
- BuildSelectRelated: is the Rust builder; the Python one emits the same aliases. Taking `_id` off a relation name is not modelled: the names are given.
- JoinsRelate: names hold no dot and differ from each other, as the emitted text needs; how often a combination of rows comes is not stated, and the filters of the query are left out.
- BulkUpdateChangesOneTable: MySQL is taken to read double quotes as name quotes (its ANSI_QUOTES mode); other back ends than PostgreSQL get an empty schema.
- PkIsResolved: which values `_coerce_filter_value` turns into integers (ryx-python/ryx/queryset.py:430-452) is abstract, a function of column, lookup and value.
- InstanceIff: fields are raw values, without the field types' own conversion to Python.
- Conversion of Python values to SQL values, and interning of field names inside filter nodes, are the identity.
- PlaceholderCast: a date is recognised by characters, the code counts bytes; they differ only on non-ASCII text.
- ON CONFLICT, RETURNING and rows-affected results of the bulk statements.
- Keyset values that are null, and the as-dict form of streamed rows.
- A nearest-neighbour query whose own k takes the place of the chunk limit, and `qs[i]`, which is not a query.
- PythonRunIsConjunction: `_validate_filters` (ryx-python/ryx/queryset.py:403-427) can raise before any op is built; the calls modelled are those it lets pass.
- The keyset parameter of the Rust stream, which is stored and not used.
- Transactions: other sessions, a connection lost during COMMIT after it took effect, nested calls of `transaction`, a handle that the closure leaks, a closure that panics or is cancelled, after which the slot stays set, and the pool-level bulk calls, which bypass the active transaction.
- Raw SQL sent through `execute_raw` that itself says COMMIT or ROLLBACK.
- The Python transaction context manager.
- The query cache key and the Rust cache.
- Pools, row decoding, macros, configuration, command line, file storage, validators and signals.
