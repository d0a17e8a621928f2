/** Group-by aggregation over an integer field, kept in a map from group key to running statistic. */
module IntegerAggregation {
  import opened JavaInt
  import opened Types
  import opened Wrappers
  import opened Aggregation
  import TupleDescs

  class IntegerAggregator {
    const gbfield: int
    const gbfieldtype: Option<Type>
    const afield: int
    const aOp: Op
    const tupleDesc: TupleDescs.TupleDesc

    /** The group map `data`: group key to running statistic. */
    var data: map<Field, Stat>
    /** The keys the open key iterator has still to hand out; None while no iterator is open. */
    var keyIt: Option<seq<Field>>
    /** The tuples merged into each group, in merge order. */
    ghost var merged: map<Field, seq<Tuple>>

    /** `tups` could all have been merged into the group `key`: each is grouped under it and fits the operator. */
    ghost predicate IsGroup(key: Field, tups: seq<Tuple>)
    {
      && |tups| >= 1
      && AllMergeable(aOp, afield, tups)
      && forall i :: 0 <= i < |tups| ==> HasGroupField(gbfield, tups[i]) && GroupKey(gbfield, tups[i]) == key
    }

    /**
     * The output schema matches the grouping; every stored statistic is the fold of the tuples
     * merged into its group; an open iterator hands out only stored keys.
     */
    ghost predicate Valid()
      reads this
    {
      && (gbfield != NoGrouping ==> gbfieldtype.Some?)
      && TupleDescs.TypesOf(tupleDesc.columns) == Schema(gbfield, gbfieldtype)
      && Consistent(data, merged)
      && (keyIt.Some? ==> forall k :: k in keyIt.value ==> k in data)
    }

    constructor (gbfield: int, gbfieldtype: Option<Type>, afield: int, what: Op, len: Type -> int)
      requires gbfield != NoGrouping ==> gbfieldtype.Some?
      ensures Valid()
      ensures this.gbfield == gbfield && this.gbfieldtype == gbfieldtype
      ensures this.afield == afield && this.aOp == what
      ensures TupleDescs.Valid(tupleDesc, len)
      ensures TupleDescs.TypesOf(tupleDesc.columns) == Schema(gbfield, gbfieldtype)
      ensures data == map[] && keyIt.None?
    {
      var td;
      if gbfield == NoGrouping {
        td := TupleDescs.NewUnnamed([IntType], len);
      } else {
        td := TupleDescs.NewUnnamed([gbfieldtype.value, IntType], len);
      }
      this.gbfield := gbfield;
      this.gbfieldtype := gbfieldtype;
      this.afield := afield;
      this.aOp := what;
      tupleDesc := td;
      data := map[];
      keyIt := None;
      merged := map[];
    }

    /** The tuples merged so far into the group `key` (none for a key without an entry). */
    ghost function GroupOf(key: Field): seq<Tuple>
      reads this`merged
    {
      if key in merged then merged[key] else []
    }

    /** Every group's statistic is the fold of the tuples merged into the group. */
    ghost predicate Consistent(data: map<Field, Stat>, merged: map<Field, seq<Tuple>>)
    {
      && data.Keys == merged.Keys
      && forall k :: k in merged ==> IsGroup(k, merged[k]) && data[k] == StatOf(aOp, afield, merged[k])
    }

    /** Folding one more tuple into its group keeps every group's statistic the fold of its tuples. */
    lemma MergeOneMore(data: map<Field, Stat>, merged: map<Field, seq<Tuple>>, tup: Tuple)
      requires Consistent(data, merged)
      requires HasGroupField(gbfield, tup) && Mergeable(aOp, afield, tup)
      ensures var key := GroupKey(gbfield, tup);
        var tups := if key in merged then merged[key] else [];
        var stat := if key in data then data[key] else Seed(aOp);
        Consistent(data[key := MergeStep(aOp, stat, tup, afield)], merged[key := tups + [tup]])
    {
      var key := GroupKey(gbfield, tup);
      var tups := if key in merged then merged[key] else [];
      var stat := if key in data then data[key] else Seed(aOp);
      var group := tups + [tup];
      assert group[..|group| - 1] == tups;
      assert forall i :: 0 <= i < |tups| ==> group[i] == tups[i];
      assert IsGroup(key, group);
      assert StatOf(aOp, afield, group) == MergeStep(aOp, stat, tup, afield);
      var data', merged' := data[key := MergeStep(aOp, stat, tup, afield)], merged[key := group];
      forall k | k in merged'
        ensures IsGroup(k, merged'[k]) && data'[k] == StatOf(aOp, afield, merged'[k])
      {
        if k != key {
          assert merged'[k] == merged[k] && data'[k] == data[k];
        }
      }
    }

    /**
     * `mergeTupleIntoGroup(tup)`: fold tup into its group's statistic, creating the group from the
     * operator's seed. Reading a field past the tuple's end, or a non-integer aggregate field,
     * throws and leaves the map as it was.
     */
    method MergeTupleIntoGroup(tup: Tuple) returns (outcome: Outcome)
      requires Valid()
      modifies this`data, this`merged
      ensures Valid()
      ensures outcome == Normal <==> HasGroupField(gbfield, tup) && Mergeable(aOp, afield, tup)
      ensures outcome.Thrown? ==>
        && data == old(data) && merged == old(merged)
        && outcome.exception ==
             if HasGroupField(gbfield, tup) && 0 <= afield < |tup| then ClassCastException
             else IndexOutOfBoundsException
      ensures outcome == Normal ==>
        var key := GroupKey(gbfield, tup);
        && merged == old(merged)[key := old(GroupOf(key)) + [tup]]
        && data == old(data)[key := MergeStep(aOp, if key in old(data) then old(data)[key] else Seed(aOp), tup, afield)]
    {
      var key: Field;
      if gbfield != NoGrouping {
        if !(0 <= gbfield < |tup|) {
          return Thrown(IndexOutOfBoundsException);
        }
        key := tup[gbfield];
      } else {
        key := IntField(0);  // defaultField
      }
      var oldStat := if key in data then data[key] else Seed(aOp);
      // every case but COUNT casts the aggregate field to an integer before updating the map
      if aOp != Count {
        if !(0 <= afield < |tup|) {
          return Thrown(IndexOutOfBoundsException);
        }
        if !tup[afield].IntField? {
          return Thrown(ClassCastException);
        }
      }
      var newStat := MergeStep(aOp, oldStat, tup, afield);  // the switch on the operator
      ghost var newMerged := merged[key := GroupOf(key) + [tup]];
      MergeOneMore(data, merged, tup);
      data, merged := data[key := newStat], newMerged;
      outcome := Normal;
    }

    /** Without grouping all tuples share the key `IntField(0)`, so there is at most one group. */
    lemma AtMostOneGroup()
      requires Valid() && gbfield == NoGrouping
      ensures data.Keys <= {IntField(0)}
    {
      forall k | k in data
        ensures k == IntField(0)
      {
        assert GroupKey(gbfield, merged[k][0]) == k;
      }
    }

    /** The statistic stored for a group is what its operator makes of the group's tuples. */
    lemma StoredStat(key: Field)
      requires Valid() && key in data
      ensures aOp != Count ==> AllIntAt(afield, merged[key])
      ensures aOp == Min ==>
        && data[key].v1 in Values(afield, merged[key])
        && forall i :: 0 <= i < |merged[key]| ==> data[key].v1 <= Values(afield, merged[key])[i]
      ensures aOp == Max ==>
        && data[key].v1 in Values(afield, merged[key])
        && forall i :: 0 <= i < |merged[key]| ==> Values(afield, merged[key])[i] <= data[key].v1
      ensures aOp == Sum ==> data[key].v1 == Wrap(Total(Values(afield, merged[key])))
      ensures aOp == Avg ==> data[key] == Stat(Wrap(Total(Values(afield, merged[key]))), Wrap(|merged[key]|))
      ensures aOp == Avg && |merged[key]| <= MaxValue ==> data[key].v2 >= 1
      ensures aOp == Count ==> data[key].v1 == Wrap(|merged[key]|)
    {
      var tups := merged[key];
      match aOp
      case Min => MinSpec(afield, tups);
      case Max => MaxSpec(afield, tups);
      case Sum => SumSpec(afield, tups);
      case Avg => AvgSpec(afield, tups);
      case Count => CountSpec(afield, tups);
    }

    /** `open()`: start an iterator over the group keys, each handed out exactly once. */
    method Open()
      requires Valid()
      modifies this`keyIt
      ensures Valid()
      ensures keyIt.Some? && Distinct(keyIt.value) && |keyIt.value| == |data|
      ensures forall k :: k in keyIt.value <==> k in data
    {
      var order := EnumerateKeys(data.Keys);
      keyIt := Some(order);
    }

    /** `rewind()`: a fresh iterator over the group keys, as `open` makes. */
    method Rewind()
      requires Valid()
      modifies this`keyIt
      ensures Valid()
      ensures keyIt.Some? && Distinct(keyIt.value) && |keyIt.value| == |data|
      ensures forall k :: k in keyIt.value <==> k in data
    {
      var order := EnumerateKeys(data.Keys);
      keyIt := Some(order);
    }

    /** `hasNext()`: whether the iterator has keys left; with no iterator open, a NullPointerException. */
    function HasNext(): (r: Result<bool>)
      reads this`keyIt
      ensures r.Err? <==> keyIt.None?
      ensures r.Err? ==> r.exception == NullPointerException
      ensures r == Ok(true) <==> keyIt.Some? && |keyIt.value| > 0
    {
      match keyIt
      case None => Err(NullPointerException)
      case Some(keys) => Ok(keys != [])
    }

    /**
     * `next()`: take the next key and report its group as an output tuple. The key is consumed even
     * when AVG's division throws.
     */
    method Next() returns (r: Result<Tuple>)
      requires Valid()
      modifies this`keyIt
      ensures Valid()
      ensures old(HasNext()).Err? ==> r == Err(NullPointerException) && keyIt == old(keyIt)
      ensures old(HasNext()) == Ok(false) ==> r == Err(NoSuchElementException) && keyIt == old(keyIt)
      ensures old(HasNext()) == Ok(true) ==>
        var key := old(keyIt).value[0];
        && key in data
        && keyIt == Some(old(keyIt).value[1..])
        && r == match Output(aOp, data[key])
                case Ok(v) => Ok(OutputTuple(gbfield, key, v))
                case Err(e) => Err(e)
      ensures r.Ok? && (gbfield == NoGrouping || TypeOf(r.value[0]) == gbfieldtype.value) ==>
        Conforms(r.value, TupleDescs.TypesOf(tupleDesc.columns))
    {
      if keyIt.None? {
        return Err(NullPointerException);
      }
      var keys := keyIt.value;
      if keys == [] {
        return Err(NoSuchElementException);
      }
      var key := keys[0];
      keyIt := Some(keys[1..]);
      var stat := data[key];
      var v: Int32 := 0;
      match aOp {
        case Min => v := stat.v1;
        case Max => v := stat.v1;
        case Sum => v := stat.v1;
        case Count => v := stat.v1;
        case Avg =>
          if stat.v2 == 0 {
            return Err(ArithmeticException);
          }
          v := JavaDiv(stat.v1, stat.v2);
      }
      r := Ok(OutputTuple(gbfield, key, v));
    }

    /** `close()`: drop the iterator. */
    method Close()
      requires Valid()
      modifies this`keyIt
      ensures Valid()
      ensures keyIt.None?
    {
      keyIt := None;
    }
  }
}
