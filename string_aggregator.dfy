/** Group-by aggregation over a string field: only COUNT is computed. */
module StringAggregation {
  import opened JavaInt
  import opened Types
  import opened Wrappers
  import opened Aggregation
  import TupleDescs

  class StringAggregator {
    const gbfield: int
    const gbfieldtype: Option<Type>
    const afield: int
    const aOp: Op
    const tupleDesc: TupleDescs.TupleDesc

    /** The group map `data`: group key to running count. */
    var data: map<Field, Stat>
    /** The keys the open key iterator has still to hand out; None while no iterator is open. */
    var keyIt: Option<seq<Field>>
    /** The tuples counted in each group, in merge order. */
    ghost var merged: map<Field, seq<Tuple>>

    /** Each of `tups` carries `key` at the group-by position (read even without grouping). */
    ghost predicate IsGroup(key: Field, tups: seq<Tuple>)
    {
      && |tups| >= 1
      && forall i :: 0 <= i < |tups| ==> 0 <= gbfield < |tups[i]| && tups[i][gbfield] == key
    }

    /**
     * The output schema matches the grouping; every stored statistic counts the tuples merged into
     * its group; operators other than COUNT store nothing; an open iterator hands out only stored keys.
     */
    ghost predicate Valid()
      reads this
    {
      && (gbfield != NoGrouping ==> gbfieldtype.Some?)
      && TupleDescs.TypesOf(tupleDesc.columns) == Schema(gbfield, gbfieldtype)
      && Counts(data, merged)
      && (aOp != Count ==> merged == map[])
      && (keyIt.Some? ==> forall k :: k in keyIt.value ==> k in data)
    }

    constructor (gbfield: int, gbfieldtype: Option<Type>, afield: int, what: Op, len: Type -> int)
      requires gbfield != NoGrouping ==> gbfieldtype.Some?
      ensures Valid()
      ensures this.gbfield == gbfield && this.gbfieldtype == gbfieldtype
      ensures this.afield == afield && this.aOp == what
      ensures TupleDescs.Valid(tupleDesc, len)
      ensures TupleDescs.TypesOf(tupleDesc.columns) == Schema(gbfield, gbfieldtype)
      ensures data == map[] && keyIt.None?
    {
      var td;
      if gbfield == NoGrouping {
        td := TupleDescs.NewUnnamed([IntType], len);
      } else {
        td := TupleDescs.NewUnnamed([gbfieldtype.value, IntType], len);
      }
      this.gbfield := gbfield;
      this.gbfieldtype := gbfieldtype;
      this.afield := afield;
      this.aOp := what;
      tupleDesc := td;
      data := map[];
      keyIt := None;
      merged := map[];
    }

    /** Every group's statistic counts the tuples merged into the group. */
    ghost predicate Counts(data: map<Field, Stat>, merged: map<Field, seq<Tuple>>)
    {
      && data.Keys == merged.Keys
      && forall k :: k in merged ==> IsGroup(k, merged[k]) && data[k] == Stat(Wrap(|merged[k]|), Invalid)
    }

    /** The tuples counted so far in the group `key` (none for a key without an entry). */
    ghost function GroupOf(key: Field): seq<Tuple>
      reads this`merged
    {
      if key in merged then merged[key] else []
    }

    /** Counting one more tuple under its key keeps every group's count equal to its number of tuples. */
    lemma CountOneMore(data: map<Field, Stat>, merged: map<Field, seq<Tuple>>, tup: Tuple)
      requires Counts(data, merged)
      requires 0 <= gbfield < |tup|
      ensures var key := tup[gbfield];
        var group := if key in merged then merged[key] else [];
        var count := if key in data then data[key].v1 else 0;
        Counts(data[key := Stat(Wrap(count + 1), Invalid)], merged[key := group + [tup]])
    {
      var key := tup[gbfield];
      var tups := if key in merged then merged[key] else [];
      var group := tups + [tup];
      var count := if key in data then data[key].v1 else 0;
      WrapAddLeft(|tups|, 1);
      assert Wrap(count + 1) == Wrap(|group|);
      assert forall i :: 0 <= i < |tups| ==> group[i] == tups[i];
      assert IsGroup(key, group);
    }

    /** One more tuple counted under its key `tup[gbfield]`: `data.put(key, new Stat(count + 1, INVALID))`. */
    method CountInto(tup: Tuple)
      requires Valid() && aOp == Count && 0 <= gbfield < |tup|
      modifies this`data, this`merged
      ensures Valid()
      ensures var key := tup[gbfield];
        && merged == old(merged)[key := old(GroupOf(key)) + [tup]]
        && data == old(data)[key := Stat(Wrap((if key in old(data) then old(data)[key].v1 else 0) + 1), Invalid)]
    {
      var key := tup[gbfield];
      var count: int := if key in data then data[key].v1 else 0;  // getOrDefault(key, Stat(0, INVALID)).v1
      ghost var group := GroupOf(key) + [tup];
      CountOneMore(data, merged, tup);
      data, merged := data[key := Stat(Wrap(count + 1), Invalid)], merged[key := group];
      assert Counts(data, merged);
    }

    /**
     * `mergeTupleIntoGroup(tup)`: read the group-by field (throwing past the tuple's end, also
     * without grouping), then, for COUNT only, add one to the group's count; any other operator
     * changes nothing.
     */
    method MergeTupleIntoGroup(tup: Tuple) returns (outcome: Outcome)
      requires Valid()
      modifies this`data, this`merged
      ensures Valid()
      ensures outcome == Normal <==> 0 <= gbfield < |tup|
      ensures outcome.Thrown? ==> outcome.exception == IndexOutOfBoundsException
      ensures outcome.Thrown? || aOp != Count ==> data == old(data) && merged == old(merged)
      ensures outcome == Normal && aOp == Count ==>
        var key := tup[gbfield];
        && merged == old(merged)[key := old(GroupOf(key)) + [tup]]
        && data == old(data)[key := Stat(Wrap((if key in old(data) then old(data)[key].v1 else 0) + 1), Invalid)]
    {
      if !(0 <= gbfield < |tup|) {
        return Thrown(IndexOutOfBoundsException);
      }
      if aOp == Count {  // the switch has no other case
        CountInto(tup);
      }
      outcome := Normal;
    }

    /** A group's stored count is the number of tuples merged into it, in 32 bits. */
    lemma StoredCount(key: Field)
      requires Valid() && key in data
      ensures aOp == Count
      ensures data[key] == Stat(Wrap(|merged[key]|), Invalid) == StatOf(Count, afield, merged[key])
      ensures forall i :: 0 <= i < |merged[key]| ==> merged[key][i][gbfield] == key
    {
      CountSpec(afield, merged[key]);
    }

    /** `open()`: start an iterator over the group keys, each handed out exactly once. */
    method Open()
      requires Valid()
      modifies this`keyIt
      ensures Valid()
      ensures keyIt.Some? && Distinct(keyIt.value) && |keyIt.value| == |data|
      ensures forall k :: k in keyIt.value <==> k in data
    {
      var order := EnumerateKeys(data.Keys);
      keyIt := Some(order);
    }

    /** `rewind()`: a fresh iterator over the group keys, as `open` makes. */
    method Rewind()
      requires Valid()
      modifies this`keyIt
      ensures Valid()
      ensures keyIt.Some? && Distinct(keyIt.value) && |keyIt.value| == |data|
      ensures forall k :: k in keyIt.value <==> k in data
    {
      var order := EnumerateKeys(data.Keys);
      keyIt := Some(order);
    }

    /** `hasNext()`: whether the iterator has keys left; with no iterator open, a NullPointerException. */
    function HasNext(): (r: Result<bool>)
      reads this`keyIt
      ensures r.Err? <==> keyIt.None?
      ensures r.Err? ==> r.exception == NullPointerException
      ensures r == Ok(true) <==> keyIt.Some? && |keyIt.value| > 0
    {
      match keyIt
      case None => Err(NullPointerException)
      case Some(keys) => Ok(keys != [])
    }

    /** `next()`: take the next key and report (key, count), or (count) without grouping. */
    method Next() returns (r: Result<Tuple>)
      requires Valid()
      modifies this`keyIt
      ensures Valid()
      ensures old(HasNext()).Err? ==> r == Err(NullPointerException) && keyIt == old(keyIt)
      ensures old(HasNext()) == Ok(false) ==> r == Err(NoSuchElementException) && keyIt == old(keyIt)
      ensures old(HasNext()) == Ok(true) ==>
        var key := old(keyIt).value[0];
        && key in data
        && keyIt == Some(old(keyIt).value[1..])
        && r == Ok(OutputTuple(gbfield, key, Wrap(|merged[key]|)))
      ensures r.Ok? && (gbfield == NoGrouping || TypeOf(r.value[0]) == gbfieldtype.value) ==>
        Conforms(r.value, TupleDescs.TypesOf(tupleDesc.columns))
    {
      if keyIt.None? {
        return Err(NullPointerException);
      }
      var keys := keyIt.value;
      if keys == [] {
        return Err(NoSuchElementException);
      }
      var key := keys[0];
      keyIt := Some(keys[1..]);
      var stat := data[key];
      var v: Int32 := 0;
      match aOp {
        case Count => v := stat.v1;
        case _ =>
      }
      StoredCount(key);
      r := Ok(OutputTuple(gbfield, key, v));
    }

    /** `close()`: drop the iterator. */
    method Close()
      requires Valid()
      modifies this`keyIt
      ensures Valid()
      ensures keyIt.None?
    {
      keyIt := None;
    }
  }
}
