# sql-layer core in Dafny

This project models sixteen small pieces of the sql-layer database server. It also proves what
each piece promises. The pieces are:

- **Operators and rows.**
  - The `Update_Returning` cursor is modelled as a lifecycle state machine (idle, active,
    destroyed). It sits over an abstract input cursor and keeps a ghost trace of what it asks its
    input, the query context and the store adapter to do.
  - The memory-table group scan, which numbers its rows with a hidden primary key.
  - The `PValuesRow` arity and type check.
  - The three-valued `ANY` over a subquery. This is the quantified comparison predicate of SQL-92
    (ISO/IEC 9075:1992, section 8.7).
- **The REST insert planner** (`InsertGenerator`).
  - It builds a values scan, a projection onto the table's row type, Insert_Returning, and a
    projection onto the primary key.
  - Expressions are an abstract datatype. The type registry and the cast resolvers are
    uninterpreted.
- **Stateful tables and caches.**
  - The in-memory table status cache, with per-table counters.
  - The access-ordered LRU `CacheMap`, with its allocate-on-miss allocator.
  - The `WeightedRandom` test utility, with its 32-bit overflow-checked weight sums.
- **Scalars.**
  - TRIM, LTRIM and RTRIM.
  - INET_ATON.
  - Boolean formatting in `TFormatter`.
- **Schema helpers.**
  - Group-index propagation up the parent chain.
  - The single-root-per-group validation.
  - The duplicate-root-name check in the conversion of a schema to entities.
  - `ChangedTableDescription`.
  - The memoised column list of `PrimaryKey`.

Several parts change state in place, and those are classes whose methods carry `modifies`
clauses:

- the cursor and its input;
- the scan;
- the status cache and each table's status object;
- the LRU map;
- the weighted chooser and its randomizer;
- the schema's group-index sets;
- the validation output;
- the primary key's cached list;
- the insert planner's (operator, row type) stream.

Each such method is tied to a specification function of the old state, and the properties are
proved about those functions.

Java's fixed-width arithmetic is written out in `common.dfy`:

- `long` and `int` wrap-around (`Wrap64`, `Wrap32`);
- remainder truncating toward zero (`JavaRem`);
- `Math.abs(Integer.MIN_VALUE)` (`JavaAbs32`).

Where the code and its surrounding description differ, the model follows the code:

- `setUniqueID` writes `Math.max(uniqueID, uniqueID)`. The parameter shadows the field there, so
  the given value is stored outright, even when it is smaller.
- `Update_Returning`'s `next()` accepts an idle cursor as well as an active one
  (`checkIdleOrActive`). The lifecycle checks are modelled as always on.
- `InetAton` on "." or "..": Java's `split` returns no tokens, and `tks[-1]` then throws an
  uncaught `ArrayIndexOutOfBoundsException`. This is the `IndexOutOfBounds` outcome.
- `InsertGenerator`: a default on a column past the input's fields reads `insertsP.get(i)` out of
  range. This is modelled as an error outcome.

## Model

| member | source | states |
|---|---|---|
| Common.Wrap32 | src/main/java/com/akiban/qp/memoryadapter/SimpleMemoryGroupScan.java:35 | Java `int` wrap: the result is congruent to the input modulo 2^32 and equals it when it fits |
| Common.Wrap64 | src/main/java/com/akiban/server/MemoryOnlyTableStatusCache.java:169-172 | Java `long` wrap: congruent modulo 2^64, unchanged when in range |
| Common.JavaRem | src/test/java/com/akiban/util/WeightedRandom.java:120 | Java `%`: the remainder has the dividend's sign, its magnitude is \|a\| mod b, and it is bounded by the divisor |
| Common.JavaAbs32 | src/test/java/com/akiban/util/WeightedRandom.java:120 | `Math.abs` on an int: non-negative magnitude, except that `Integer.MIN_VALUE` maps to itself |
| Common.Max | src/main/java/com/akiban/server/MemoryOnlyTableStatusCache.java:174-176 | the result is one of the two arguments and at least both |
| Rows.TClassOf | src/main/java/com/akiban/qp/row/PValuesRow.java:53 | `TInstance.tClass`: null exactly for a null instance, otherwise the instance's class |
| UpdateReturning.NewOperator | src/main/java/com/akiban/qp/operator/Update_Returning.java:101-107 | construction fails exactly when the update function is null; otherwise the operator keeps its input, function and flag |
| UpdateReturning.Cursor | src/main/java/com/akiban/qp/operator/Update_Returning.java:96-99 | `cursor` returns a fresh, idle cursor with an empty trace, over the given input, using the operator's update function |
| UpdateReturning.Execution.constructor | src/main/java/com/akiban/qp/operator/Update_Returning.java:211-220 | a new cursor is idle, not active and not destroyed, and has done nothing yet |
| UpdateReturning.Execution.Open | src/main/java/com/akiban/qp/operator/Update_Returning.java:128-139 | fails exactly when not idle, touching nothing; otherwise opens the input at its start (one trace step) and becomes active |
| UpdateReturning.Execution.Next | src/main/java/com/akiban/qp/operator/Update_Returning.java:141-169 | a destroyed cursor fails, and a canceled query fails before any pull. Otherwise one row is pulled. An exhausted input, or one still closed because the cursor is idle, gives null and no other call. A row r gives a constraint check of f(r) strictly before `updateRow(r, f(r))`, and f(r) is returned; a violation stops before the update |
| UpdateReturning.Execution.Close | src/main/java/com/akiban/qp/operator/Update_Returning.java:171-179 | fails exactly when destroyed; from active it closes the input once and becomes idle; from idle it touches nothing |
| UpdateReturning.Execution.Destroy | src/main/java/com/akiban/qp/operator/Update_Returning.java:181-189 | closes an active input first, destroys the input and ends destroyed; a second destroy adds nothing to the trace |
| UpdateReturning.ExactlyOneState | src/main/java/com/akiban/qp/operator/Update_Returning.java:191-207 | exactly one of isIdle, isActive and isDestroyed holds for any cursor |
| AnySubquery.ResultType | src/main/java/com/akiban/server/types3/texpressions/AnySubqueryTExpression.java:32-34 | the declared type is a nullable BOOLEAN |
| AnySubquery.AnyTrueIffSomeTrue | src/main/java/com/akiban/server/types3/texpressions/AnySubqueryTExpression.java:73-75 | the result is TRUE if and only if some inner row's predicate is true |
| AnySubquery.AnyUnknownIffNoTrueSomeUnknown | src/main/java/com/akiban/server/types3/texpressions/AnySubqueryTExpression.java:70-72 | the result is NULL if and only if no row is true and some row is null |
| AnySubquery.AnyFalseIffAllFalse | src/main/java/com/akiban/server/types3/texpressions/AnySubqueryTExpression.java:64 | the result is FALSE if and only if every row is false, so an empty subquery gives FALSE |
| AnySubquery.FirstTrue | src/main/java/com/akiban/server/types3/texpressions/AnySubqueryTExpression.java:73-75 | the index found is the first true row, or the end when there is none |
| AnySubquery.Conditions | src/main/java/com/akiban/server/types3/texpressions/AnySubqueryTExpression.java:66-69 | one predicate value per inner row, in row order |
| AnySubquery.AnyEval | src/main/java/com/akiban/server/types3/texpressions/AnySubqueryTExpression.java:62-83 | `doEval` computes the three-valued ANY of the rows' predicates, and it pulls rows only up to and including the first true one (or all rows and the end marker) |
| MemoryGroupScan.ScanRows | src/main/java/com/akiban/qp/memoryadapter/SimpleMemoryGroupScan.java:32-37 | a full scan yields one row per element, in iterator order, each built by createRow with its hidden key |
| MemoryGroupScan.HiddenPkCountsFromOne | src/main/java/com/akiban/qp/memoryadapter/SimpleMemoryGroupScan.java:35-51 | the k-th row, counting from 1, is built with hidden primary key k |
| MemoryGroupScan.SimpleMemoryGroupScan.constructor | src/main/java/com/akiban/qp/memoryadapter/SimpleMemoryGroupScan.java:44-51 | a new scan is at the first element, with hiddenPk 0 and nothing produced |
| MemoryGroupScan.SimpleMemoryGroupScan.Next | src/main/java/com/akiban/qp/memoryadapter/SimpleMemoryGroupScan.java:31-37 | an exhausted scan returns null and keeps returning null without advancing hiddenPk. Otherwise it returns the next element's row with hiddenPk incremented (as an int), and the row is appended to the rows produced |
| MemoryGroupScan.SimpleMemoryGroupScan.Close | src/main/java/com/akiban/qp/memoryadapter/SimpleMemoryGroupScan.java:39-42 | close changes no state |
| PValuesRows.NewPValuesRow | src/main/java/com/akiban/qp/row/PValuesRow.java:28-58 | succeeds exactly when the arity matches and every value has its position's class. An arity mismatch is reported, with both counts, exactly when the counts differ. A class mismatch, the only error at matching arity, names the first bad position with the required and the actual class. A row built this way returns its row type, the i-th value for `pvalue(i)` and a null hKey |
| InsertGen.UserTableRowType | src/main/java/com/akiban/server/service/restdml/InsertGenerator.java:112 | the table's row type has one field per column, with the column's type |
| InsertGen.ProjectionsUpTo | src/main/java/com/akiban/server/service/restdml/InsertGenerator.java:124-159 | a successful run over the first k columns gives exactly k expressions |
| InsertGen.PrependTwice | src/main/java/com/akiban/server/service/restdml/InsertGenerator.java:119-122 | prefixing resolved expressions composes, and a failure passes through |
| InsertGen.AssembleValueScan | src/main/java/com/akiban/server/service/restdml/InsertGenerator.java:90-106 | the stream becomes a values scan of one row whose field i is VARCHAR parameter i, for each visible column |
| InsertGen.PreparedFields | src/main/java/com/akiban/server/service/restdml/InsertGenerator.java:115-117 | one field reference per input field, at its own position and with its own type |
| InsertGen.AssembleProjectTable | src/main/java/com/akiban/server/service/restdml/InsertGenerator.java:108-167 | on success the stream becomes a projection of the input onto the table's row type, with the resolved column expressions. On failure the stream is unchanged and the exception is the first column's that throws |
| InsertGen.ResolveRow | src/main/java/com/akiban/server/service/restdml/InsertGenerator.java:119-159 | filling the `row` array column by column gives exactly the specified projections, or the first column's exception |
| InsertGen.Unwrap | src/main/java/com/akiban/server/service/restdml/InsertGenerator.java:161 | `Arrays.asList(row)` of a filled array lists each slot's expression in order |
| InsertGen.ResolveColumn | src/main/java/com/akiban/server/service/restdml/InsertGenerator.java:125-158 | one iteration of the column loop gives the specified expression for column i |
| InsertGen.LaterColumnsKeepFailure | src/main/java/com/akiban/server/service/restdml/InsertGenerator.java:124-159 | once a column throws, the whole projection fails with that exception |
| InsertGen.Create | src/main/java/com/akiban/server/service/restdml/InsertGenerator.java:63-88 | `create` builds exactly the specified insert plan: values scan, table projection, Insert_Returning and, when there is a primary key, the key projection |
| InsertGen.ProjectionsByColumn | src/main/java/com/akiban/server/service/restdml/InsertGenerator.java:119-164 | a successful projection has one expression per column of the table's row type, and column i's expression is its own resolution |
| InsertGen.SuppliedFieldCastIffTypesDiffer | src/main/java/com/akiban/server/service/restdml/InsertGenerator.java:120-135 | a supplied field stays at its position and is cast exactly when its type differs from the column's |
| InsertGen.MissingFieldIsNullLiteral | src/main/java/com/akiban/server/service/restdml/InsertGenerator.java:127-131 | a column with no input field, no generator and no default gets a null literal of the column's type |
| InsertGen.IdentityColumnGetsNextVal | src/main/java/com/akiban/server/service/restdml/InsertGenerator.java:138-201 | an identity column gets NEXTVAL of its sequence, whatever its declared default. BY DEFAULT becomes IFNULL(supplied, NEXTVAL) |
| InsertGen.DefaultUsesUncastField | src/main/java/com/akiban/server/service/restdml/InsertGenerator.java:141-158 | a column with a default and no generator gets IFNULL of the uncast input field and the default literal; past the input's fields, it is an error |
| InsertGen.KeyProjectionsInKeyOrder | src/main/java/com/akiban/server/service/restdml/InsertGenerator.java:73-85 | the key projection lists the key columns in key order, each as the field at the column's position |
| InsertGen.EvalSequenceGenerator | src/main/java/com/akiban/server/service/restdml/InsertGenerator.java:169-202 | NEXTVAL evaluates to the sequence value; under BY DEFAULT a non-null supplied value wins |
| InsertGen.ResolutionOrder | src/main/java/com/akiban/server/service/restdml/InsertGenerator.java:124-159 | for a supplied column: an identity yields the sequence value (or the supplied value under BY DEFAULT), then a default fills a null, and otherwise the supplied value is used, cast as needed |
| InsertGen.UnsuppliedResolution | src/main/java/com/akiban/server/service/restdml/InsertGenerator.java:127-141 | a column the input does not supply evaluates to NEXTVAL for an identity and to null otherwise |
| TableStatusCache.RowDeletedStep | src/main/java/com/akiban/server/MemoryOnlyTableStatusCache.java:160-163 | rowCount drops by one but never below zero; nothing else changes |
| TableStatusCache.RowWrittenStep | src/main/java/com/akiban/server/MemoryOnlyTableStatusCache.java:169-172 | rowCount rises by exactly one, wrapping at Long.MAX_VALUE; nothing else changes |
| TableStatusCache.SetAutoIncrementStep | src/main/java/com/akiban/server/MemoryOnlyTableStatusCache.java:174-176 | autoIncrement becomes the larger of the old and the given value, so it never decreases |
| TableStatusCache.SetUniqueIDStep | src/main/java/com/akiban/server/MemoryOnlyTableStatusCache.java:182-184 | uniqueID becomes the given value exactly, even when it is smaller |
| TableStatusCache.CreateNewUniqueIDStep | src/main/java/com/akiban/server/MemoryOnlyTableStatusCache.java:186-188 | returns the old uniqueID plus one and stores it |
| TableStatusCache.SetOrdinalStep | src/main/java/com/akiban/server/MemoryOnlyTableStatusCache.java:178-180 | the ordinal becomes the given value; nothing else changes |
| TableStatusCache.TruncateStep | src/main/java/com/akiban/server/MemoryOnlyTableStatusCache.java:190-195 | zeroes autoIncrement, uniqueID and rowCount, and keeps the ordinal and the RowDef |
| TableStatusCache.UniqueIDs | src/main/java/com/akiban/server/MemoryOnlyTableStatusCache.java:186-188 | n successive calls hand out n ids |
| TableStatusCache.UniqueIDsIncrease | src/main/java/com/akiban/server/MemoryOnlyTableStatusCache.java:186-188 | successive unique ids are old+1, old+2, ..., so they strictly increase |
| TableStatusCache.RowCountStaysNonNegative | src/main/java/com/akiban/server/MemoryOnlyTableStatusCache.java:160-172 | any sequence of written and deleted rows keeps rowCount between zero and the start plus the number of writes |
| TableStatusCache.DropResets | src/main/java/com/akiban/server/MemoryOnlyTableStatusCache.java:46-91 | after `drop`, the next access on that id sees an all-zero status, and other ids keep theirs |
| TableStatusCache.InternalTableStatus.constructor | src/main/java/com/akiban/server/MemoryOnlyTableStatusCache.java:93-102 | a new status has every counter zero and no RowDef |
| TableStatusCache.InternalTableStatus.RowDeleted | src/main/java/com/akiban/server/MemoryOnlyTableStatusCache.java:160-163 | the counters change as RowDeletedStep says |
| TableStatusCache.InternalTableStatus.RowUpdated | src/main/java/com/akiban/server/MemoryOnlyTableStatusCache.java:165-167 | no counter changes |
| TableStatusCache.InternalTableStatus.RowWritten | src/main/java/com/akiban/server/MemoryOnlyTableStatusCache.java:169-172 | the counters change as RowWrittenStep says |
| TableStatusCache.InternalTableStatus.SetAutoIncrement | src/main/java/com/akiban/server/MemoryOnlyTableStatusCache.java:174-176 | the counters change as SetAutoIncrementStep says |
| TableStatusCache.InternalTableStatus.SetOrdinal | src/main/java/com/akiban/server/MemoryOnlyTableStatusCache.java:178-180 | the counters change as SetOrdinalStep says |
| TableStatusCache.InternalTableStatus.SetUniqueID | src/main/java/com/akiban/server/MemoryOnlyTableStatusCache.java:182-184 | the counters change as SetUniqueIDStep says |
| TableStatusCache.InternalTableStatus.CreateNewUniqueID | src/main/java/com/akiban/server/MemoryOnlyTableStatusCache.java:186-188 | the counters and the returned id are as CreateNewUniqueIDStep says |
| TableStatusCache.InternalTableStatus.Truncate | src/main/java/com/akiban/server/MemoryOnlyTableStatusCache.java:190-195 | the counters change as TruncateStep says |
| TableStatusCache.InternalTableStatus.SetRowDef | src/main/java/com/akiban/server/MemoryOnlyTableStatusCache.java:150-153 | only the RowDef changes |
| TableStatusCache.MemoryOnlyTableStatusCache.constructor | src/main/java/com/akiban/server/MemoryOnlyTableStatusCache.java:26-91 | a new cache has no entries |
| TableStatusCache.MemoryOnlyTableStatusCache.GetInternalTableStatus | src/main/java/com/akiban/server/MemoryOnlyTableStatusCache.java:84-91 | returns the id's status object, creating an all-zero one on first use; no other entry changes |
| TableStatusCache.MemoryOnlyTableStatusCache.GetTableStatus | src/main/java/com/akiban/server/MemoryOnlyTableStatusCache.java:71-74 | returns the id's status, creating it when missing; no counter changes |
| TableStatusCache.MemoryOnlyTableStatusCache.RowDeleted | src/main/java/com/akiban/server/MemoryOnlyTableStatusCache.java:26-29 | only that id's counters change, as RowDeletedStep says |
| TableStatusCache.MemoryOnlyTableStatusCache.RowUpdated | src/main/java/com/akiban/server/MemoryOnlyTableStatusCache.java:31-34 | no counter of any id changes, though the entry is created when missing |
| TableStatusCache.MemoryOnlyTableStatusCache.RowWritten | src/main/java/com/akiban/server/MemoryOnlyTableStatusCache.java:36-39 | only that id's counters change, as RowWrittenStep says |
| TableStatusCache.MemoryOnlyTableStatusCache.Truncate | src/main/java/com/akiban/server/MemoryOnlyTableStatusCache.java:41-44 | only that id's counters change, as TruncateStep says |
| TableStatusCache.MemoryOnlyTableStatusCache.Drop | src/main/java/com/akiban/server/MemoryOnlyTableStatusCache.java:46-49 | the id's entry is removed and every other entry is kept |
| TableStatusCache.MemoryOnlyTableStatusCache.SetAutoIncrement | src/main/java/com/akiban/server/MemoryOnlyTableStatusCache.java:51-54 | only that id's counters change, as SetAutoIncrementStep says |
| TableStatusCache.MemoryOnlyTableStatusCache.CreateNewUniqueID | src/main/java/com/akiban/server/MemoryOnlyTableStatusCache.java:56-59 | only that id's counters change, and the id returned is the new uniqueID |
| TableStatusCache.MemoryOnlyTableStatusCache.SetUniqueID | src/main/java/com/akiban/server/MemoryOnlyTableStatusCache.java:61-64 | only that id's counters change, as SetUniqueIDStep says |
| TableStatusCache.MemoryOnlyTableStatusCache.SetOrdinal | src/main/java/com/akiban/server/MemoryOnlyTableStatusCache.java:66-69 | only that id's counters change, as SetOrdinalStep says |
| TableStatusCache.MemoryOnlyTableStatusCache.DetachAIS | src/main/java/com/akiban/server/MemoryOnlyTableStatusCache.java:76-81 | every entry loses its RowDef and keeps its counters |
| CacheMaps.IndexOf | src/main/java/com/akiban/util/CacheMap.java:74 | finds the first position of the key, or reports that no entry has it |
| CacheMaps.LookupAt | src/main/java/com/akiban/util/CacheMap.java:74 | with distinct keys, looking up an entry's key finds that entry's value |
| CacheMaps.PutKeepsInvariant | src/main/java/com/akiban/util/CacheMap.java:88-91 | after any put, the size is at most maxSize and the keys stay distinct |
| CacheMaps.PutMakesMostRecent | src/main/java/com/akiban/util/CacheMap.java:65-79 | a put leaves the key as the most recently used entry, holding the value |
| CacheMaps.PutEvictsEldest | src/main/java/com/akiban/util/CacheMap.java:65-91 | a new key put into a full map evicts exactly the least recently used entry |
| CacheMaps.PutBelowCapacityKeepsAll | src/main/java/com/akiban/util/CacheMap.java:88-91 | a new key put below capacity keeps every entry |
| CacheMaps.MoveKeepsMapping | src/main/java/com/akiban/util/CacheMap.java:65-74 | an access reorders the entries but changes no key's value |
| CacheMaps.InsertMapping | src/main/java/com/akiban/util/CacheMap.java:79-91 | after a new key is inserted, it maps to its value |
| CacheMaps.InsertKeepsOther | src/main/java/com/akiban/util/CacheMap.java:79-91 | after a new key is inserted, any other key keeps its value, except the eldest when the map was full |
| CacheMaps.CacheMap.constructor | src/main/java/com/akiban/util/CacheMap.java:64-70 | a new map is empty, with the given capacity and allocator |
| CacheMaps.CacheMap.Create | src/main/java/com/akiban/util/CacheMap.java:60-70 | construction fails exactly when size < 1 |
| CacheMaps.CacheMap.CreateDefault | src/main/java/com/akiban/util/CacheMap.java:52-58 | the constructors without a size use capacity 100 |
| CacheMaps.CacheMap.PutEntry | src/main/java/com/akiban/util/CacheMap.java:88-91 | the inherited put: returns the previous value and updates the entries as Put says, with LRU eviction |
| CacheMaps.CacheMap.Get | src/main/java/com/akiban/util/CacheMap.java:72-86 | a hit returns the stored value, calls no allocator and makes the key most recent. A miss without an allocator returns null and changes nothing. A miss with an allocator inserts and returns `allocateFor(key)`, and the hook runs once |
| WeightedRandoms.PrefixMonotone | src/test/java/com/akiban/util/WeightedRandom.java:109-112 | with non-negative weights the running sum never decreases |
| WeightedRandoms.FirstAbove | src/test/java/com/akiban/util/WeightedRandom.java:120-127 | the selection scan stops at an index no lower than it started from and no higher than the length |
| WeightedRandoms.TargetInRange | src/test/java/com/akiban/util/WeightedRandom.java:120 | `Math.abs(pseudoRandom % total)` lies in 0..total-1 and is \|pseudoRandom\| mod total |
| WeightedRandoms.CheckFromAccepts | src/test/java/com/akiban/util/WeightedRandom.java:105-113 | the first loop accepts exactly non-negative weights whose sum fits in an int, and then returns that sum |
| WeightedRandoms.RandomWeightedAccepts | src/test/java/com/akiban/util/WeightedRandom.java:99-118 | `randomWeighted` succeeds exactly on non-empty, non-negative weights whose sum is positive and at most Integer.MAX_VALUE; an empty array is rejected as such |
| WeightedRandoms.RandomWeightedRejects | src/test/java/com/akiban/util/WeightedRandom.java:104-118 | any negative weight, or all-zero weights, is rejected |
| WeightedRandoms.AllZeroPrefix | src/test/java/com/akiban/util/WeightedRandom.java:115-118 | all-zero weights have a zero running sum |
| WeightedRandoms.FirstAboveIsFirst | src/test/java/com/akiban/util/WeightedRandom.java:120-127 | the index found is the first whose inclusive prefix sum exceeds the target |
| WeightedRandoms.RandomWeightedChoice | src/test/java/com/akiban/util/WeightedRandom.java:94-127 | on success the index is in range, has a positive weight, and is the first index whose prefix sum exceeds \|pseudoRandom % total\| |
| WeightedRandoms.RandomWeightedIndex | src/test/java/com/akiban/util/WeightedRandom.java:99-129 | the two loops over the array compute exactly the specified choice or exception |
| WeightedRandoms.Randomizer.constructor | src/test/java/com/akiban/util/WeightedRandom.java:27-34 | the randomizer starts at its seed |
| WeightedRandoms.Randomizer.NextInt | src/test/java/com/akiban/util/WeightedRandom.java:27-34 | each draw advances the state by one step and returns the new state |
| WeightedRandoms.IndexOfElement | src/test/java/com/akiban/util/WeightedRandom.java:64 | `indexOf`: the first position holding the element |
| WeightedRandoms.WeightedRandom.constructor | src/test/java/com/akiban/util/WeightedRandom.java:44-55 | every element starts with weight 1 |
| WeightedRandoms.WeightedRandom.Create | src/test/java/com/akiban/util/WeightedRandom.java:44-55 | construction fails exactly when the randomizer is null |
| WeightedRandoms.WeightedRandom.SetWeight | src/test/java/com/akiban/util/WeightedRandom.java:57-68 | rejects a negative weight, and throws for an absent element, changing nothing; otherwise only the element's slot changes |
| WeightedRandoms.WeightedRandom.HasWeights | src/test/java/com/akiban/util/WeightedRandom.java:70-77 | holds if and only if some weight is positive |
| WeightedRandoms.WeightedRandom.Get | src/test/java/com/akiban/util/WeightedRandom.java:80-85 | draws once, picks as `randomWeighted` does on the old weights, and adds delta (as an int) to the chosen element's weight only; a failed pick changes no weight |
| Trim.LeftTrimmedRemovesLeadingRun | src/main/java/com/foundationdb/server/expression/std/TrimExpression.java:80-86 | the left trim is a suffix, what it removes is all ch, and it does not start with ch |
| Trim.RightTrimmedRemovesTrailingRun | src/main/java/com/foundationdb/server/expression/std/TrimExpression.java:88-94 | the right trim is a prefix, what it removes is all ch, and it does not end with ch |
| Trim.TrimIdempotent | src/main/java/com/foundationdb/server/expression/std/TrimExpression.java:80-94 | trimming twice is trimming once, on either side |
| Trim.TrimSidesCommute | src/main/java/com/foundationdb/server/expression/std/TrimExpression.java:71-74 | trimming the left then the right side equals the other order |
| Trim.RightKeepsHead | src/main/java/com/foundationdb/server/expression/std/TrimExpression.java:88-94 | the right trim keeps the first character unless the whole string is ch |
| Trim.RightDropsHead | src/main/java/com/foundationdb/server/expression/std/TrimExpression.java:88-94 | right-trimming commutes with dropping a first character equal to ch |
| Trim.Ltrim | src/main/java/com/foundationdb/server/expression/std/TrimExpression.java:80-86 | `ltrim` returns the input without its leading run of ch, so all-ch gives "" |
| Trim.Rtrim | src/main/java/com/foundationdb/server/expression/std/TrimExpression.java:88-94 | `rtrim` returns the input without its trailing run of ch, so all-ch gives "" |
| Trim.Eval | src/main/java/com/foundationdb/server/expression/std/TrimExpression.java:59-78 | `eval` gives the specified value of TRIM, LTRIM or RTRIM, including null for a null operand and an error for an empty trim string |
| Trim.TrimValueSides | src/main/java/com/foundationdb/server/expression/std/TrimExpression.java:62-74 | a null operand yields null. Only the trim string's first character is used. LEADING trims the left side only, TRAILING the right side only, and null trims both |
| Trim.TrimBothEnds | src/main/java/com/foundationdb/server/expression/std/TrimExpression.java:71-74 | both-sides TRIM leaves neither end equal to the trim character |
| Trim.ComposeType | src/main/java/com/foundationdb/server/expression/std/TrimExpression.java:106-114 | rejects any argument count other than two; otherwise both arguments become VARCHAR and the result is VARCHAR |
| Trim.Name | src/main/java/com/foundationdb/server/expression/std/TrimExpression.java:150-154 | the name starts with "TRIM " and is exactly that for the both-sides form |
| InetAton.PiecesBetweenDots | src/main/java/com/akiban/server/types3/common/funcs/InetAton.java:57 | splitting at dots gives at least one piece, none containing a dot |
| InetAton.DropTrailingEmpty | src/main/java/com/akiban/server/types3/common/funcs/InetAton.java:57 | only trailing empty pieces are removed, and they are all removed |
| InetAton.SplitDot | src/main/java/com/akiban/server/types3/common/funcs/InetAton.java:57 | the tokens of `split("\\.")` contain no dot |
| InetAton.ParseShort | src/main/java/com/akiban/server/types3/common/funcs/InetAton.java:64-72 | a parsed short lies in -32768..32767 |
| InetAton.DoEvaluate | src/main/java/com/akiban/server/types3/common/funcs/InetAton.java:55-87 | `doEvaluate` produces exactly the specified outcome for the input string |
| InetAton.TooManyTokensIsNull | src/main/java/com/akiban/server/types3/common/funcs/InetAton.java:57-59 | more than four tokens give null without a warning |
| InetAton.AllTokensInRange | src/main/java/com/akiban/server/types3/common/funcs/InetAton.java:34-79 | tokens all in 0..255 give the last token plus each leading token times its factor (2^24, 2^16, 2^8) |
| InetAton.LeadingAllInRange | src/main/java/com/akiban/server/types3/common/funcs/InetAton.java:71-79 | the loop over in-range leading tokens adds their weighted sum |
| InetAton.LeadingOutOfRange | src/main/java/com/akiban/server/types3/common/funcs/InetAton.java:72-76 | a numeric leading token outside 0..255 makes the loop return null |
| InetAton.TokenOutOfRangeIsNull | src/main/java/com/akiban/server/types3/common/funcs/InetAton.java:67-76 | every token numeric but one outside 0..255 gives null without a warning |
| InetAton.LeadingWarnsOnlyOnBadNumber | src/main/java/com/akiban/server/types3/common/funcs/InetAton.java:72-86 | the loop warns only when some leading token is not a short |
| InetAton.WarningMeansBadNumber | src/main/java/com/akiban/server/types3/common/funcs/InetAton.java:64-86 | a warning is raised only for a token that is not a short, and always when the last token is not one |
| InetAton.NumericOnlyIfAllBytes | src/main/java/com/akiban/server/types3/common/funcs/InetAton.java:57-80 | a numeric result needs one to four tokens that are all shorts in 0..255, so one token out of range or not a short rules a number out whatever the others are |
| InetAton.FirstBadNumberWarns | src/main/java/com/akiban/server/types3/common/funcs/InetAton.java:64-86 | the first leading token that is not a short, after a last token and earlier tokens in 0..255, makes the result a warning plus null |
| InetAton.ValueInRange | src/main/java/com/akiban/server/types3/common/funcs/InetAton.java:34-79 | a numeric result lies in 0..2^32-1 |
| InetAton.LeadingSum | src/main/java/com/akiban/server/types3/common/funcs/InetAton.java:71-79 | the leading tokens add at most 255 times their factors |
| InetAton.FactorsBound | src/main/java/com/akiban/server/types3/common/funcs/InetAton.java:34 | the factors sum to at most 2^24 + 2^16 + 2^8 |
| InetAton.SplitEdgeCases | src/main/java/com/akiban/server/types3/common/funcs/InetAton.java:57-64 | "" splits to [""] and warns; "." splits to no tokens and fails on `tks[-1]` |
| InetAton.SplitExamples | src/main/java/com/akiban/server/types3/common/funcs/InetAton.java:57 | concrete splits of dotted strings |
| InetAton.ParseExamples | src/main/java/com/akiban/server/types3/common/funcs/InetAton.java:64 | concrete `parseShort` results |
| InetAton.DottedExamples | src/main/java/com/akiban/server/types3/common/funcs/InetAton.java:63-79 | "10.0.0.1" is 167772161; "10.1" gives the same value, because the last token is added unweighted |
| InetAton.SingleToken | src/main/java/com/akiban/server/types3/common/funcs/InetAton.java:68 | a single in-range token is its own value |
| GroupIndexHelper.Applied | src/main/java/com/akiban/ais/model/GroupIndexHelper.java:51-67 | ADD puts the index into a table's set and REMOVE takes it out; other members stay |
| GroupIndexHelper.FirstForeign | src/main/java/com/akiban/ais/model/GroupIndexHelper.java:25-36 | finds the first key column that belongs to another index, or none exactly when all belong |
| GroupIndexHelper.FirstForeignAt | src/main/java/com/akiban/ais/model/GroupIndexHelper.java:34-36 | a foreign column after a run of the index's own columns is the first foreign one |
| GroupIndexHelper.Schema.constructor | src/main/java/com/akiban/ais/model/GroupIndexHelper.java:49-53 | a schema whose parent links strictly decrease a rank is acyclic and keeps its tables' group-index sets |
| GroupIndexHelper.Schema.Ancestors | src/main/java/com/akiban/ais/model/GroupIndexHelper.java:49-69 | the ancestor path starts at the table and stays within the schema |
| GroupIndexHelper.Schema.AncestorsClosed | src/main/java/com/akiban/ais/model/GroupIndexHelper.java:50-68 | each table's parent on the path is next on it, and the path ends at a root |
| GroupIndexHelper.Schema.AncestorsDistinct | src/main/java/com/akiban/ais/model/GroupIndexHelper.java:50-52 | a path never repeats a table, so the walk terminates |
| GroupIndexHelper.Schema.AncestorsRankDecreasing | src/main/java/com/akiban/ais/model/GroupIndexHelper.java:50-52 | the rank strictly decreases along a path |
| GroupIndexHelper.Schema.AncestorsRankBelow | src/main/java/com/akiban/ais/model/GroupIndexHelper.java:50-52 | no table on a path has a higher rank than its start |
| GroupIndexHelper.Schema.OnSomePathIff | src/main/java/com/akiban/ais/model/GroupIndexHelper.java:34-36 | a table is on some key column's path exactly when it is an ancestor of one of those columns' tables |
| GroupIndexHelper.Schema.ActedAlong | src/main/java/com/akiban/ais/model/GroupIndexHelper.java:34-36 | acting along several paths keeps one set per table |
| GroupIndexHelper.Schema.ActOnPath | src/main/java/com/akiban/ais/model/GroupIndexHelper.java:49-69 | acting along one path keeps one set per table |
| GroupIndexHelper.Schema.ActedAlongTouchesPaths | src/main/java/com/akiban/ais/model/GroupIndexHelper.java:33-69 | after the key columns' actions, a table on some path has the index added or removed, and every other table is unchanged |
| GroupIndexHelper.Schema.ActedAlongAt | src/main/java/com/akiban/ais/model/GroupIndexHelper.java:33-37 | one table's set after several paths: applied once if on any path, unchanged otherwise |
| GroupIndexHelper.Schema.Act | src/main/java/com/akiban/ais/model/GroupIndexHelper.java:46-71 | ADD or REMOVE walks from the table to its root, applying the action at each table on the path and nowhere else |
| GroupIndexHelper.Schema.ActOnColumn | src/main/java/com/akiban/ais/model/GroupIndexHelper.java:24-31 | a column of another index is rejected and changes nothing; otherwise the action runs on the column's table |
| GroupIndexHelper.Schema.ActOnIndex | src/main/java/com/akiban/ais/model/GroupIndexHelper.java:33-37 | acts once per key column, in order. The first column of another index stops the loop with an error, after the earlier columns have been applied |
| GroupSingleRoot.RootsOf | src/main/java/com/akiban/ais/model/validation/GroupSingleRoot.java:36-37 | the roots found are no more than the tables |
| GroupSingleRoot.GroupFailuresCount | src/main/java/com/akiban/ais/model/validation/GroupSingleRoot.java:35-45 | a group reports max(0, roots-1) failures, each naming the group, the first root found and one later root |
| GroupSingleRoot.RootsAreThisGroupsRoots | src/main/java/com/akiban/ais/model/validation/GroupSingleRoot.java:37 | a table is counted exactly when it is a root of that group |
| GroupSingleRoot.SingleRootNoFailure | src/main/java/com/akiban/ais/model/validation/GroupSingleRoot.java:38-39 | a group with at most one root reports nothing |
| GroupSingleRoot.ValidationOutput.constructor | src/main/java/com/akiban/ais/model/validation/GroupSingleRoot.java:28 | a new output has no failures |
| GroupSingleRoot.ValidationOutput.ReportFailure | src/main/java/com/akiban/ais/model/validation/GroupSingleRoot.java:41-42 | a report appends one failure |
| GroupSingleRoot.ValidateGroup | src/main/java/com/akiban/ais/model/validation/GroupSingleRoot.java:34-46 | the scan appends exactly the group's failures, in table order |
| GroupSingleRoot.Validate | src/main/java/com/akiban/ais/model/validation/GroupSingleRoot.java:28-32 | every group is validated, in order |
| GroupSingleRoot.AllFailuresPerGroup | src/main/java/com/akiban/ais/model/validation/GroupSingleRoot.java:29-45 | the failures number the extra roots of all groups, and each failure is an extra root of some group |
| AisToSpace.NamesUpTo | src/main/java/com/akiban/server/entity/fromais/AisToSpace.java:36-37 | one entity name per group, its root's unqualified table name |
| AisToSpace.EntitiesKeys | src/main/java/com/akiban/server/entity/fromais/AisToSpace.java:37-41 | the entity map's keys are exactly the root names |
| AisToSpace.EntitiesValues | src/main/java/com/akiban/server/entity/fromais/AisToSpace.java:35-41 | with distinct root names there are as many entities as groups, each group's under its name |
| AisToSpace.ConvertFromSucceeds | src/main/java/com/akiban/server/entity/fromais/AisToSpace.java:35-42 | the loop succeeds exactly when every group has a root and the root names are distinct |
| AisToSpace.ConvertFromHoldsAll | src/main/java/com/akiban/server/entity/fromais/AisToSpace.java:35-42 | a successful loop holds exactly the entities of all groups |
| AisToSpace.RepeatedNameNotDistinct | src/main/java/com/akiban/server/entity/fromais/AisToSpace.java:38-39 | a name already taken makes the full list of names repeat |
| AisToSpace.ConvertFromFails | src/main/java/com/akiban/server/entity/fromais/AisToSpace.java:36-39 | a failed loop reports the first group at fault: the first without a root, or the first whose name is taken |
| AisToSpace.CreateSpaceProperties | src/main/java/com/akiban/server/entity/fromais/AisToSpace.java:33-44 | success exactly on rooted groups with distinct names. A success has one entity per group, keyed by its root's table name, and passes the generator through unchanged |
| AisToSpace.CreateSpaceFailure | src/main/java/com/akiban/server/entity/fromais/AisToSpace.java:36-39 | a failed `create` reports the first group at fault |
| AisToSpace.SharedRootNameFails | src/main/java/com/akiban/server/entity/fromais/AisToSpace.java:38-39 | two groups whose roots share a table name cause the exception |
| AisToSpace.Create | src/main/java/com/akiban/server/entity/fromais/AisToSpace.java:33-44 | the loop over the groups computes exactly the specified space or exception |
| ChangedTable.NewDescription | src/main/java/com/akiban/ais/util/ChangedTableDescription.java:47-60 | rejects a null table name, then a null index map; otherwise the description keeps every argument |
| ChangedTable.GetNewName | src/main/java/com/akiban/ais/util/ChangedTableDescription.java:66-68 | the new definition's name when there is one, otherwise the old name |
| ChangedTable.RenameNeedsDefinition | src/main/java/com/akiban/ais/util/ChangedTableDescription.java:66-68 | a new name that differs from the old one comes from a new definition |
| ChangedTable.MapText | src/main/java/com/akiban/ais/util/ChangedTableDescription.java:108 | a map renders between braces |
| ChangedTable.DescriptionText | src/main/java/com/akiban/ais/util/ChangedTableDescription.java:107-109 | the text is old=new, then [newGroup=..][parentChange=..], then the index map |
| ChangedTable.ToStringDeterminesGroupChange | src/main/java/com/akiban/ais/util/ChangedTableDescription.java:98-109 | when the names print without '[', two descriptions with the same `toString()` text agree on `isNewGroup()` and on the parent change (null included) |
| ChangedTable.SameNameBothSides | src/main/java/com/akiban/ais/util/ChangedTableDescription.java:66-109 | with no new definition the same name appears on both sides of '=' |
| PrimaryKeys.ColumnsOf | src/main/java/com/akiban/ais/model/PrimaryKey.java:27-30 | the columns of the index's index-columns, in order |
| PrimaryKeys.GeneratedKeyHasOneHiddenColumn | src/main/java/com/akiban/ais/model/PrimaryKey.java:45-48 | a key is generated if and only if it has exactly one column and that column is the generated one |
| PrimaryKeys.PrimaryKey.constructor | src/main/java/com/akiban/ais/model/PrimaryKey.java:35-58 | keeps the index, which `getIndex` returns, and has no cached list yet |
| PrimaryKeys.PrimaryKey.Empty | src/main/java/com/akiban/ais/model/PrimaryKey.java:50-53 | the default constructor leaves both the index and the list null |
| PrimaryKeys.PrimaryKey.GetColumns | src/main/java/com/akiban/ais/model/PrimaryKey.java:24-33 | returns the index's columns and caches them, and a cached list is never rebuilt. Without an index the call fails |
| PrimaryKeys.PrimaryKey.IsAkibanPK | src/main/java/com/akiban/ais/model/PrimaryKey.java:45-48 | holds exactly for a generated key, and caches the list |
| PrimaryKeys.ColumnsAreKept | src/main/java/com/akiban/ais/model/PrimaryKey.java:26-32 | two calls return the same list, which is the cached one |
| TFormatter.BooleanText | src/main/java/com/foundationdb/server/types3/common/TFormatter.java:31 | "true" exactly for true, otherwise "false" |
| TFormatter.UpperCase | src/main/java/com/foundationdb/server/types3/common/TFormatter.java:36 | upper-casing keeps the length |
| TFormatter.Format | src/main/java/com/foundationdb/server/types3/common/TFormatter.java:30-32 | appends "true" or "false" and keeps what was already written |
| TFormatter.FormatAsLiteral | src/main/java/com/foundationdb/server/types3/common/TFormatter.java:35-37 | appends "TRUE" or "FALSE" and keeps what was already written |
| TFormatter.LiteralIsUpperCasePlain | src/main/java/com/foundationdb/server/types3/common/TFormatter.java:31-36 | the literal form is the upper case of the plain form |
| TFormatter.FormatDeterminesValue | src/main/java/com/foundationdb/server/types3/common/TFormatter.java:30-32 | the plain text determines the value |

## Left out

- Timestamps: `now()` in the status cache (the last-update time) and the `rowUpdated` timestamp
  are not modelled, so `RowUpdated` changes no modelled counter.
- `synchronized` is not modelled: every operation runs sequentially.
- Taps, logging, `getExplainer`, `toString` and `describe` of the operators are not modelled.
  The details of `checkQueryCancelation` are reduced to a `canceled` flag of the query context.
- `CursorLifecycle` is not part of this model. Its idle, active and destroyed checks are modelled
  directly from `isIdle`, `isActive` and `isDestroyed`.
- The contents of a `RowDef` are reduced to an optional id.
- Cast, overload and sequence resolution in `InsertGenerator` are uninterpreted functions of the
  registry. The plan is a datatype of expressions and operators, not executable operators.
- `Short.parseShort` accepts only ASCII digits here, while Java also accepts other Unicode
  digits.
- A null input string to INET_ATON is left to the expression framework, which handles nulls
  before `doEvaluate` runs.
- The default constructor of `ThreadlessRandomizer` seeds from the clock, which is not modelled.
  The randomizer is a seed plus an opaque step function.
- Aliasing: callers that keep a `TableStatus` returned by the cache and change it later are not
  modelled.
- `HashMap` iteration order is the order of a sequence, and sets are Dafny sets.
- `TableName.toString` is a parameter of the rendering.
- The internals of `EntityBuilder` and `Space.create` are not modelled:
  - an entity is built from its root table;
  - a space pairs the entities with the generator.
- Reference identity (`==` on tables, groups and classes) is modelled as value equality.
- `addGroupIndex` and `removeGroupIndex` are modelled as adding to and removing from a set.
- `SimpleMemoryGroupScan`'s iterator is a sequence plus a position. The `MemoryAdapter`
  lookup of the row type is replaced by the row type itself.
- Files of the repository outside these sixteen are not part of this model.
- HiddenPkCountsFromOne: only for k up to Integer.MAX_VALUE. Beyond that, `Next` still states the
  wrapped value.
- UniqueIDsIncrease: only while the long does not wrap. `CreateNewUniqueIDStep` states the
  wrapped step.
- RowCountStaysNonNegative: assumes the count starts non-negative and does not reach
  Long.MAX_VALUE.
- UpdateReturning.InputCursor: the input operator is a stand-in. It yields its rows in order while open and nothing while closed. What a real closed input does is up to that operator.
- Trim.Eval: strings are sequences of Unicode scalar values, not Java's UTF-16 code units. When
  the trim string starts with a character outside the Basic Multilingual Plane, Java takes only
  its high surrogate as the trim character; the model takes the whole character. Ltrim and Rtrim
  compare whole characters in the same way.
- PrimaryKeys.PrimaryKey.GetColumns: the index is fixed for the key's lifetime. So the model
  does not show the memoised list going stale when columns are added to the index after the
  first call. Nor does it show callers changing the returned `ArrayList`, which Java shares
  with the key.
- CacheMaps.CacheMap.Get: values are never null. In Java a key mapped to null counts as a miss,
  and an allocator may return null, which is then stored. Neither case is modelled.
