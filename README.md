# SimpleDB core: page locks, schemas, group-by aggregation, Insert and Delete

This project models six classes of SimpleDB, a teaching relational database, and proves
properties of the model:

- **LockManager** (`lock_manager.dfy`, module `Locking`). Page-granularity locking. A
  `PageLock` per page keeps the holder map `txLockMap` (transaction to READ or WRITE) next to a
  read-write lock, modelled by its read count and write flag. The `LockManager` creates one
  `PageLock` per page, lazily, in `pageLockMap`. It records in `txRelatedPages` the pages each
  transaction acquired for writing. The model is sequential: a request that would make the
  thread wait returns `granted == false` and changes nothing. The main invariant is mutual
  exclusion: a WRITE entry never shares a page with another holder. The proofs also show that
  two READ holders of a page can never upgrade. Each one's upgrade loop waits for the other, and
  there is no timeout.
- **TupleDesc** (`tuple_desc.dfy`, module `TupleDescs`). A schema value: columns of (type,
  optional name), the name-to-index map and the cached byte length. These are built by the
  constructor loop and then never changed. `fieldNameToIndex` returns the LAST column with the
  name, because later `put`s overwrite earlier ones. The method's doc comment promises the first.
- **IntegerAggregator / StringAggregator** (`aggregation.dfy`, `integer_aggregator.dfy`,
  `string_aggregator.dfy`). Group-by aggregation, kept in a map from group key to a running
  statistic that `mergeTupleIntoGroup` updates in place. A ghost map records the tuples merged
  into each group. The class invariant ties every stored statistic to a fold of those tuples, and
  per-operator lemmas give each fold its meaning: least, greatest, 32-bit sum, sum and count,
  count. The string aggregator reads the group-by field even without grouping, so with
  `NO_GROUPING` every merge throws. It counts only for COUNT; any other operator leaves the map
  unchanged.
- **Insert / Delete** (`insert.dfy`, `delete.dfy`, shared parts in `operators.dfy`). One-shot
  operators: the first `fetchNext` drains the child through the buffer pool and returns a
  one-column tuple with the number of calls that succeeded; later calls return null.

Java `int` arithmetic is written out in `java_int.dfy`: wrap-around to 32 bits and division that
truncates toward zero. Tuples and fields are in `types.dfy`, and Java exceptions and
null/absent values in `wrappers.dfy`.

## Model

| member | source | states |
|---|---|---|
| Locking.SoleReaderIsSoleHolder | src/java/simpledb/LockManager.java:42-57 | when the upgrade loop may exit (one reader, no writer), the upgrading transaction is the page's only holder |
| Locking.TwoReadersBlockUpgrades | src/java/simpledb/LockManager.java:42-52 | with two READ holders of a page, neither one's upgrade loop can ever exit |
| Locking.NewWriterNeedsFreePage | src/java/simpledb/LockManager.java:37-41 | a transaction with no entry gets the write lock exactly when no one holds the page |
| Locking.GrantedWriterIsSoleHolder | src/java/simpledb/LockManager.java:37-62 | whenever WLock may return on an exclusive holder map, no transaction other than the caller holds the page |
| Locking.AfterRLock | src/java/simpledb/LockManager.java:23-35 | a newcomer is recorded as READ, an existing holder (READ or WRITE) is left alone; mutual exclusion is preserved when the read lock is obtainable |
| Locking.AfterWLock | src/java/simpledb/LockManager.java:37-62 | the caller holds WRITE afterwards; a WRITE holder changes nothing; a grant leaves the caller as the only holder |
| Locking.AfterUnlock | src/java/simpledb/LockManager.java:64-74 | the caller's entry is removed whatever its mode, no-op when absent, other holders untouched, mutual exclusion preserved |
| Locking.AfterUnlockRead | src/java/simpledb/LockManager.java:76-82 | only a READ entry of the caller is removed; a WRITE hold survives; others untouched |
| Locking.PageLock.constructor | src/java/simpledb/LockManager.java:89-91 | a new page lock has no holders and a free read-write lock |
| Locking.PageLock.RLock | src/java/simpledb/LockManager.java:23-35 | granted exactly when the caller already holds the page or no one writes it; the holder map becomes AfterRLock; the read count and write flag stay in step with the map |
| Locking.PageLock.WLock | src/java/simpledb/LockManager.java:37-62 | granted exactly when a newcomer finds the page free, a READ holder is the only reader with no writer, or the caller already writes; the map becomes AfterWLock; the replaced read-write lock is write-locked with no readers |
| Locking.PageLock.Unlock | src/java/simpledb/LockManager.java:64-74 | the holder map becomes AfterUnlock, with the read-write lock released in the matching mode |
| Locking.PageLock.UnlockRead | src/java/simpledb/LockManager.java:76-82 | the holder map becomes AfterUnlockRead, with the read count dropping only for a READ hold |
| Locking.RecordWrite | src/java/simpledb/LockManager.java:118-124 | pid is added to tid's page set, the set being created when absent; other transactions' sets unchanged |
| Locking.LockManager.constructor | src/java/simpledb/LockManager.java:94-95 | both maps start empty |
| Locking.LockManager.OneLockPerPage | src/java/simpledb/LockManager.java:108-115 | two distinct pages never share a PageLock |
| Locking.LockManager.GetOrCreate | src/java/simpledb/LockManager.java:107-115 | an unseen page gets a fresh PageLock filed under it; a seen one reuses its PageLock; no other entry and no holder map changes |
| Locking.LockManager.OthersAreDistinct | src/java/simpledb/LockManager.java:108-115 | the PageLock of a page is filed under no other page |
| Locking.LockManager.ReadLockFiled | src/java/simpledb/LockManager.java:125-127 | READ_ONLY branch: grant iff the read lock is obtainable, the page's holders become AfterRLock, other pages' holders unchanged, the write index unchanged |
| Locking.LockManager.WriteLockFiled | src/java/simpledb/LockManager.java:116-124 | READ_WRITE branch: grant iff the write lock is obtainable, the page's holders become AfterWLock, and only a grant records the page in tid's page set |
| Locking.LockManager.Acquire | src/java/simpledb/LockManager.java:105-128 | the page gains a PageLock if it had none; the grant condition and the holder map after it are those of the requested mode; other pages unchanged; only a granted READ_WRITE request extends the write index |
| Locking.LockManager.UnlockFiled | src/java/simpledb/LockManager.java:136 | unlocking on a filed PageLock changes that page's holders as Unlock/UnlockRead do and no other page's |
| Locking.LockManager.Release | src/java/simpledb/LockManager.java:130-139 | returns normally or with NullPointerException, nothing else; no-op for a page without PageLock; otherwise tid's entry is removed and pid dropped from tid's page set, with a NullPointerException (after the unlock) when tid has no set; the invariants are kept |
| Locking.LockManager.UnlockRead | src/java/simpledb/LockManager.java:141-148 | as Release, but only a READ hold is given up |
| Locking.ReadOnlyReleaseThrows | src/java/simpledb/LockManager.java:125-137 | a transaction that acquired a page READ_ONLY has no page set, so its `release` of that page throws NullPointerException |
| Locking.WriterUnlockReadKeepsHold | src/java/simpledb/LockManager.java:141-148 | after a READ_WRITE acquire, `unlockRead` returns normally and drops the page from the writer's page set while the WRITE hold survives |
| TupleDescs.SumLenAppend | src/java/simpledb/TupleDesc.java:80 | the summed column length of a concatenation is the sum of the two sums |
| TupleDescs.LastIndexMapSpec | src/java/simpledb/TupleDesc.java:77-79 | a name is in the map iff some column carries it, and it maps to the last such column |
| TupleDescs.New | src/java/simpledb/TupleDesc.java:68-82 | column i has type typeAr[i] and name fieldAr[i] when fieldAr is non-null and long enough, else no name; the name map and 32-bit byte length are those the loop builds |
| TupleDescs.NewUnnamed | src/java/simpledb/TupleDesc.java:92-95 | the columns have exactly the given types and no names |
| TupleDescs.GetFieldType | src/java/simpledb/TupleDesc.java:134-141 | the type of column i for a valid index; NoSuchElementException at or past the end, IndexOutOfBoundsException below zero |
| TupleDescs.GetFieldName | src/java/simpledb/TupleDesc.java:115-122 | the name of column i for a valid index; NoSuchElementException at or past the end, IndexOutOfBoundsException below zero |
| TupleDescs.NumFields | src/java/simpledb/TupleDesc.java:100-104 | exactly the indices below the result are valid column references |
| TupleDescs.FieldNameToIndex | src/java/simpledb/TupleDesc.java:152-159 | succeeds iff the name is non-null and some column carries it, returning the last such column; NoSuchElementException otherwise |
| TupleDescs.GetSize | src/java/simpledb/TupleDesc.java:165-168 | the 32-bit sum of the column lengths |
| TupleDescs.MergedSize | src/java/simpledb/TupleDesc.java:180-192 | the size of a concatenated schema is the 32-bit sum of the two sizes |
| TupleDescs.Merge | src/java/simpledb/TupleDesc.java:180-194 | td1's columns (types and names) then td2's; a valid schema whose size is the 32-bit sum of the two sizes |
| TupleDescs.SameSchemaIsEquivalence | src/java/simpledb/TupleDesc.java:207-222 | schema equality is reflexive, symmetric and transitive |
| TupleDescs.Equals | src/java/simpledb/TupleDesc.java:207-222 | true iff the argument is a TupleDesc with as many columns and the same type at every position; names are ignored |
| TupleDescs.HashOfIsWrappedSum | src/java/simpledb/TupleDesc.java:230-241 | the hash accumulated in Java ints equals the sum of coefficient(type_i) * i * 30 reduced to 32 bits |
| TupleDescs.HashRespectsEquals | src/java/simpledb/TupleDesc.java:207-241 | equal schemas have equal hash codes |
| TupleDescs.HashCode | src/java/simpledb/TupleDesc.java:224-243 | the loop, adding 17*i*30 for an INT column and 101*i*30 for a STRING column in Java ints, returns the hash of the column types (hence the wrapped weighted sum) |
| Aggregation.MinSpec | src/java/simpledb/IntegerAggregator.java:81-85 | MIN's v1 is at most every merged value and is one of them, or Integer.MAX_VALUE for none |
| Aggregation.MaxSpec | src/java/simpledb/IntegerAggregator.java:86-90 | MAX's v1 is at least every merged value and is one of them, or Integer.MIN_VALUE for none |
| Aggregation.SumSpec | src/java/simpledb/IntegerAggregator.java:91-95 | SUM's v1 is the sum of the merged values reduced to 32 bits |
| Aggregation.AvgSpec | src/java/simpledb/IntegerAggregator.java:96-100 | AVG keeps the 32-bit sum in v1 and the 32-bit count in v2 |
| Aggregation.CountSpec | src/java/simpledb/IntegerAggregator.java:101-105 | COUNT's v1 is the 32-bit number of merged tuples, whatever their aggregate fields hold |
| Aggregation.Output | src/java/simpledb/IntegerAggregator.java:142-152 | the reported value; AVG with a zero count throws ArithmeticException |
| Aggregation.GroupOutput | src/java/simpledb/IntegerAggregator.java:134-152 | for a group of 1..Integer.MAX_VALUE tuples the output is the least, greatest, wrapped sum, wrapped sum divided toward zero by the count, or the count |
| Aggregation.OutputTuple | src/java/simpledb/IntegerAggregator.java:153-158 | (key, v) with grouping and (v) without, matching the output schema when the key has the group-by type |
| Aggregation.EnumerateKeys | src/java/simpledb/IntegerAggregator.java:126 | the key-set iterator hands out every key exactly once |
| IntegerAggregation.IntegerAggregator.constructor | src/java/simpledb/IntegerAggregator.java:48-59 | output schema (INT) without grouping and (group type, INT) with it; empty map, no iterator |
| IntegerAggregation.IntegerAggregator.MergeOneMore | src/java/simpledb/IntegerAggregator.java:80-106 | folding one more tuple into its group keeps every stored statistic equal to the fold of its group's tuples |
| IntegerAggregation.IntegerAggregator.MergeTupleIntoGroup | src/java/simpledb/IntegerAggregator.java:68-107 | the switch folds the tuple in as one step of the group's statistic; only the entry of the tuple's group key changes, seeded by the operator's default; NO_GROUPING uses IntField(0); IndexOutOfBounds or ClassCast leave the map unchanged; COUNT never reads the aggregate field |
| IntegerAggregation.IntegerAggregator.AtMostOneGroup | src/java/simpledb/IntegerAggregator.java:71-76 | without grouping there is at most one group, IntField(0) |
| IntegerAggregation.IntegerAggregator.StoredStat | src/java/simpledb/IntegerAggregator.java:80-106 | each stored statistic is the least, greatest, 32-bit sum, (sum, count) or count of its group's tuples; AVG's count is at least 1 below 2^31 merges |
| IntegerAggregation.IntegerAggregator.Open | src/java/simpledb/IntegerAggregator.java:124-128 | a fresh iterator over all group keys, each exactly once |
| IntegerAggregation.IntegerAggregator.Rewind | src/java/simpledb/IntegerAggregator.java:163-165 | a fresh iterator over all group keys, each exactly once |
| IntegerAggregation.IntegerAggregator.HasNext | src/java/simpledb/IntegerAggregator.java:130-132 | whether keys remain; NullPointerException with no iterator |
| IntegerAggregation.IntegerAggregator.Next | src/java/simpledb/IntegerAggregator.java:134-161 | consumes the next key and returns its output tuple (AVG divides toward zero); NullPointerException without iterator, NoSuchElementException when exhausted |
| IntegerAggregation.IntegerAggregator.Close | src/java/simpledb/IntegerAggregator.java:171-173 | the iterator is dropped |
| StringAggregation.StringAggregator.constructor | src/java/simpledb/StringAggregator.java:43-54 | output schema (INT) without grouping and (group type, INT) with it; empty map, no iterator |
| StringAggregation.StringAggregator.CountOneMore | src/java/simpledb/StringAggregator.java:67-70 | adding one to a group's count while appending the tuple keeps every count equal to its group's size |
| StringAggregation.StringAggregator.CountInto | src/java/simpledb/StringAggregator.java:67-70 | COUNT raises the key's count by one, starting from 0, and touches no other entry |
| StringAggregation.StringAggregator.MergeTupleIntoGroup | src/java/simpledb/StringAggregator.java:60-72 | the key is always the group-by field, so a merge throws IndexOutOfBounds outside the tuple (also with NO_GROUPING); COUNT updates only that key; other operators change nothing |
| StringAggregation.StringAggregator.StoredCount | src/java/simpledb/StringAggregator.java:67-70 | a stored count is the 32-bit size of its group, equal to the COUNT fold, and all its tuples carry the key |
| StringAggregation.StringAggregator.Open | src/java/simpledb/StringAggregator.java:88-91 | a fresh iterator over all group keys, each exactly once |
| StringAggregation.StringAggregator.Rewind | src/java/simpledb/StringAggregator.java:119-121 | a fresh iterator over all group keys, each exactly once |
| StringAggregation.StringAggregator.HasNext | src/java/simpledb/StringAggregator.java:93-95 | whether keys remain; NullPointerException with no iterator |
| StringAggregation.StringAggregator.Next | src/java/simpledb/StringAggregator.java:97-117 | consumes the next key and returns (key, count) or (count), the count being the group's size; NullPointerException or NoSuchElementException as the iterator dictates |
| StringAggregation.StringAggregator.Close | src/java/simpledb/StringAggregator.java:127-129 | the iterator is dropped |
| Operators.Restart | src/java/simpledb/Insert.java:51 | the child delivers its tuples again from the first |
| Operators.Remaining | src/java/simpledb/Insert.java:95-96 | the tuples the child has still to deliver are the suffix after those delivered |
| Operators.CountTrue | src/java/simpledb/Insert.java:97-102 | the number of successful buffer-pool calls is at most the number of calls |
| Operators.CountTrueExtremes | src/java/simpledb/Insert.java:97-102 | the count equals the number of calls iff all succeeded, and is zero iff none did |
| Operators.CountTrueAppend | src/java/simpledb/Insert.java:95-103 | counting is additive over consecutive runs of calls |
| Operators.CountTrueStep | src/java/simpledb/Insert.java:97-102 | one more call adds one exactly when it succeeded |
| Operators.Drain | src/java/simpledb/Insert.java:94-103 | the loop hands every remaining child tuple to the buffer pool in order, leaves the child exhausted, and counts the successful calls in a Java int |
| InsertOperator.Insert.constructor | src/java/simpledb/Insert.java:34-42 | one INT output column; the count is still to be returned; nothing inserted |
| InsertOperator.Insert.HasNext | src/java/simpledb/Insert.java:67-69 | true exactly while the count tuple has not been returned: construction, `open` and `rewind` make it true, `fetchNext` and `close` false |
| InsertOperator.Insert.Open | src/java/simpledb/Insert.java:49-53 | the child restarts and hasNext() is true |
| InsertOperator.Insert.Close | src/java/simpledb/Insert.java:55-59 | hasNext() is false |
| InsertOperator.Insert.Rewind | src/java/simpledb/Insert.java:61-65 | the child restarts and hasNext() is true |
| InsertOperator.Insert.FetchNext | src/java/simpledb/Insert.java:89-110 | the first call inserts every remaining child tuple and returns (number of successful inserts); later calls return null and change nothing; hasNext() is false afterwards |
| InsertOperator.Insert.Next | src/java/simpledb/Insert.java:71-74 | as fetchNext |
| InsertOperator.Insert.SetChildren | src/java/simpledb/Insert.java:119-125 | the child is replaced only by a non-null array of exactly one |
| DeleteOperator.Delete.constructor | src/java/simpledb/Delete.java:27-33 | one INT output column; the count is still to be returned; nothing deleted |
| DeleteOperator.Delete.HasNext | src/java/simpledb/Delete.java:58-60 | true exactly while the count tuple has not been returned: construction, `open` and `rewind` make it true, `fetchNext` and `close` false |
| DeleteOperator.Delete.Open | src/java/simpledb/Delete.java:40-44 | the child restarts and hasNext() is true |
| DeleteOperator.Delete.Close | src/java/simpledb/Delete.java:46-50 | hasNext() is false |
| DeleteOperator.Delete.Rewind | src/java/simpledb/Delete.java:52-56 | the child restarts and hasNext() is true |
| DeleteOperator.Delete.FetchNext | src/java/simpledb/Delete.java:76-95 | the first call deletes every remaining child tuple and returns (number of successful deletes); later calls return null and change nothing; hasNext() is false afterwards |
| DeleteOperator.Delete.Next | src/java/simpledb/Delete.java:62-65 | as fetchNext |
| DeleteOperator.Delete.SetChildren | src/java/simpledb/Delete.java:104-110 | the child is replaced only by a non-null array of exactly one |
| JavaInt.WrapAddLeft | src/java/simpledb/IntegerAggregator.java:94 | wrapping an intermediate sum does not change the wrapped total |
| JavaInt.WrapMulRight | src/java/simpledb/TupleDesc.java:234 | wrapping an intermediate product does not change the wrapped product |
| JavaInt.TruncDiv | src/java/simpledb/IntegerAggregator.java:150 | Java's division: the remainder is smaller than the divisor in magnitude and has the dividend's sign |
| JavaInt.JavaDiv | src/java/simpledb/IntegerAggregator.java:150 | int division; for a positive divisor it is truncating division |

## Left out

- Blocking and concurrency in LockManager are not modelled. This covers the read-write lock's waits, the `Thread.sleep` polling of the upgrade and the `ConcurrentHashMap` check-then-put race. A request that would wait returns `granted == false` with the state unchanged; waking up is calling again. There is no timeout or deadlock detection to model.
- `PageId`, `TransactionId` and `Permissions` are not part of this model; they are plain datatypes here.
- The model decides grants per transaction, assuming each transaction runs on its own thread. `ReentrantReadWriteLock` decides them per thread: a thread holding the write lock gets the read lock at once and re-enters the write lock. So two transactions sharing one thread could hold READ beside WRITE, or two WRITEs, on one page; mutual exclusion (`Exclusive`) is not promised for that case.
- The `rwl` object is reduced to its read count and write flag. The upgrade's replacement of `rwl` discards the caller's read hold on the old lock, and the model resets the count to zero for that step.
- `Type.getLen()` is not part of this model. It is the parameter `len`, and byte lengths are added in Java ints.
- `Tuple`, `Field` and `Aggregator.Op` are not part of this model. Tuples are sequences of fields, and `getField` at an index outside the tuple throws IndexOutOfBoundsException. Only the five operators the aggregators switch on are modelled.
- HashMap key order is not fixed: `EnumerateKeys` picks some order. ConcurrentModificationException from merging while an iterator is open is not modelled; the remaining keys stay valid.
- IntegerAggregation.IntegerAggregator.constructor and StringAggregation.StringAggregator.constructor require a group-by type whenever grouping is on. With a null type, TupleDesc's constructor dereferences it, and that failure is not modelled.
- TupleDescs.Equals: `None` stands for both a null argument and an object that is not a TupleDesc.
- `child.close()` is not modelled: the child's state after close is left as it was.
- The buffer pool is the sequence `oks`: whether the i-th `insertTuple`/`deleteTuple` call returned or threw IOException. Pages, files and the table id are not modelled; `tid` and `tableId` are only recorded.
- `Debug.log`, `toString`, `iterator()`, `getTupleDesc()`, `getChildren()` contracts and Serializable are left out: logging and string formatting have no state to state; `getChildren` is modelled but has no property beyond returning the child.
- HeapFile, IntHistogram and Aggregate are not part of this model (file I/O, floating point, a forwarding wrapper).
