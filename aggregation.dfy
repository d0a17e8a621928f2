/**
 * What the integer and string aggregators share: the aggregation operators, the per-group running
 * statistic `Stat` and how one tuple updates it, the group statistic specified as a fold over the
 * tuples merged into the group, the output tuple of a group, and the enumeration of group keys.
 */
module Aggregation {
  import opened JavaInt
  import opened Types
  import opened Wrappers

  /** The aggregation operators the aggregators handle. */
  datatype Op = Min | Max | Sum | Avg | Count

  /** The group-by index that means "no grouping". */
  const NoGrouping: int := -1

  /** The filler the aggregators store in a statistic slot they do not use. */
  const Invalid: Int32 := -1

  /** A group's running statistic: MIN/MAX/SUM/COUNT keep their value in v1; AVG keeps sum in v1 and count in v2. */
  datatype Stat = Stat(v1: Int32, v2: Int32)

  /** The group-by field can be read: grouping is off, or the index is inside the tuple. */
  predicate HasGroupField(gbfield: int, tup: Tuple)
  {
    gbfield == NoGrouping || 0 <= gbfield < |tup|
  }

  /** The key a tuple is grouped under; without grouping every tuple goes to the one key `IntField(0)`. */
  function GroupKey(gbfield: int, tup: Tuple): Field
    requires HasGroupField(gbfield, tup)
  {
    if gbfield == NoGrouping then IntField(0) else tup[gbfield]
  }

  /** The aggregate field of every tuple holds an integer. */
  predicate AllIntAt(afield: int, tups: seq<Tuple>)
  {
    forall i {:trigger tups[i]} :: 0 <= i < |tups| ==> IsIntAt(tups[i], afield)
  }

  /** The operator can take the tuple: COUNT never reads the aggregate field, the others need an integer there. */
  predicate Mergeable(op: Op, afield: int, tup: Tuple)
  {
    op == Count || IsIntAt(tup, afield)
  }

  predicate AllMergeable(op: Op, afield: int, tups: seq<Tuple>)
  {
    op == Count || AllIntAt(afield, tups)
  }

  /** The statistic of a group that has no entry yet (the default given to `getOrDefault`). */
  function Seed(op: Op): Stat
  {
    match op
    case Min => Stat(MaxValue, Invalid)
    case Max => Stat(MinValue, Invalid)
    case Sum => Stat(0, Invalid)
    case Avg => Stat(0, 0)
    case Count => Stat(0, Invalid)
  }

  /** The statistic after one more tuple is merged, in Java `int` arithmetic. */
  function MergeStep(op: Op, s: Stat, tup: Tuple, afield: int): Stat
    requires Mergeable(op, afield, tup)
  {
    match op
    case Min =>
      var v := tup[afield].intValue;
      Stat(if v < s.v1 then v else s.v1, Invalid)
    case Max =>
      var v := tup[afield].intValue;
      Stat(if v > s.v1 then v else s.v1, Invalid)
    case Sum => Stat(Wrap(s.v1 + tup[afield].intValue), Invalid)
    case Avg => Stat(Wrap(s.v1 + tup[afield].intValue), Wrap(s.v2 + 1))
    case Count => Stat(Wrap(s.v1 + 1), Invalid)
  }

  /** The statistic of a group into which `tups` were merged, in this order. */
  function StatOf(op: Op, afield: int, tups: seq<Tuple>): Stat
    requires AllMergeable(op, afield, tups)
  {
    if tups == [] then Seed(op)
    else
      var n := |tups| - 1;
      MergeStep(op, StatOf(op, afield, tups[..n]), tups[n], afield)
  }

  /** The aggregate-field values of the tuples, in order. */
  function Values(afield: int, tups: seq<Tuple>): (vs: seq<Int32>)
    requires AllIntAt(afield, tups)
    ensures |vs| == |tups|
  {
    seq(|tups|, i requires 0 <= i < |tups| => assert IsIntAt(tups[i], afield); tups[i][afield].intValue)
  }

  /** The mathematical sum of the values. */
  function Total(vs: seq<Int32>): int
  {
    if vs == [] then 0 else Total(vs[..|vs| - 1]) + vs[|vs| - 1]
  }

  /** Dropping the last tuple drops the last value. */
  lemma ValuesPrefix(afield: int, tups: seq<Tuple>)
    requires AllIntAt(afield, tups)
    requires tups != []
    ensures IsIntAt(tups[|tups| - 1], afield)
    ensures Values(afield, tups) ==
      Values(afield, tups[..|tups| - 1]) + [tups[|tups| - 1][afield].intValue]
  {
  }

  /** MIN: v1 is the least value merged into the group, or Integer.MAX_VALUE while there is none. */
  lemma {:induction false} MinSpec(afield: int, tups: seq<Tuple>)
    requires AllIntAt(afield, tups)
    ensures var s, vs := StatOf(Min, afield, tups), Values(afield, tups);
      && (forall i :: 0 <= i < |vs| ==> s.v1 <= vs[i])
      && (if vs == [] then s.v1 == MaxValue else s.v1 in vs)
      && s.v2 == Invalid
  {
    if tups != [] {
      var n := |tups| - 1;
      MinSpec(afield, tups[..n]);
      ValuesPrefix(afield, tups);
    }
  }

  /** MAX: v1 is the greatest value merged into the group, or Integer.MIN_VALUE while there is none. */
  lemma {:induction false} MaxSpec(afield: int, tups: seq<Tuple>)
    requires AllIntAt(afield, tups)
    ensures var s, vs := StatOf(Max, afield, tups), Values(afield, tups);
      && (forall i :: 0 <= i < |vs| ==> vs[i] <= s.v1)
      && (if vs == [] then s.v1 == MinValue else s.v1 in vs)
      && s.v2 == Invalid
  {
    if tups != [] {
      var n := |tups| - 1;
      MaxSpec(afield, tups[..n]);
      ValuesPrefix(afield, tups);
    }
  }

  /** SUM: v1 is the sum of the merged values, wrapped to 32 bits. */
  lemma {:induction false} SumSpec(afield: int, tups: seq<Tuple>)
    requires AllIntAt(afield, tups)
    ensures StatOf(Sum, afield, tups) == Stat(Wrap(Total(Values(afield, tups))), Invalid)
  {
    if tups != [] {
      var n := |tups| - 1;
      SumSpec(afield, tups[..n]);
      ValuesPrefix(afield, tups);
      WrapAddLeft(Total(Values(afield, tups[..n])), tups[n][afield].intValue);
    }
  }

  /** AVG: v1 is the 32-bit sum of the merged values and v2 their 32-bit count. */
  lemma {:induction false} AvgSpec(afield: int, tups: seq<Tuple>)
    requires AllIntAt(afield, tups)
    ensures StatOf(Avg, afield, tups) == Stat(Wrap(Total(Values(afield, tups))), Wrap(|tups|))
  {
    if tups != [] {
      var n := |tups| - 1;
      AvgSpec(afield, tups[..n]);
      ValuesPrefix(afield, tups);
      WrapAddLeft(Total(Values(afield, tups[..n])), tups[n][afield].intValue);
      WrapAddLeft(n, 1);
    }
  }

  /** COUNT: v1 is the 32-bit number of merged tuples, whatever their aggregate fields hold. */
  lemma {:induction false} CountSpec(afield: int, tups: seq<Tuple>)
    ensures StatOf(Count, afield, tups) == Stat(Wrap(|tups|), Invalid)
  {
    if tups != [] {
      var n := |tups| - 1;
      CountSpec(afield, tups[..n]);
      WrapAddLeft(n, 1);
    }
  }

  /** The aggregate value `next` reports for a group statistic; AVG divides as Java's `int` division does. */
  function Output(op: Op, s: Stat): (r: Result<Int32>)
    ensures r.Err? <==> op == Avg && s.v2 == 0
    ensures r.Err? ==> r.exception == ArithmeticException
  {
    if op == Avg then
      if s.v2 == 0 then Err(ArithmeticException) else Ok(JavaDiv(s.v1, s.v2))
    else Ok(s.v1)
  }

  /**
   * The value reported for a group that received between 1 and Integer.MAX_VALUE tuples: the least,
   * the greatest, the 32-bit sum, the 32-bit sum divided by the count rounding toward zero, the count.
   */
  lemma GroupOutput(op: Op, afield: int, tups: seq<Tuple>)
    requires AllMergeable(op, afield, tups)
    requires 1 <= |tups| <= MaxValue
    ensures var r, s := Output(op, StatOf(op, afield, tups)), StatOf(op, afield, tups);
      r.Ok? &&
      match op
      case Min => r.value in Values(afield, tups) && forall i :: 0 <= i < |tups| ==> r.value <= Values(afield, tups)[i]
      case Max => r.value in Values(afield, tups) && forall i :: 0 <= i < |tups| ==> Values(afield, tups)[i] <= r.value
      case Sum => r.value == Wrap(Total(Values(afield, tups)))
      case Avg => r.value == TruncDiv(Wrap(Total(Values(afield, tups))), |tups|)
      case Count => r.value == |tups|
  {
    match op
    case Min => MinSpec(afield, tups);
    case Max => MaxSpec(afield, tups);
    case Sum => SumSpec(afield, tups);
    case Avg => AvgSpec(afield, tups);
    case Count => CountSpec(afield, tups);
  }

  /** The column types of the aggregate's output: (group, aggregate) with grouping, (aggregate) without. */
  function Schema(gbfield: int, gbfieldtype: Option<Type>): seq<Type>
    requires gbfield != NoGrouping ==> gbfieldtype.Some?
  {
    if gbfield == NoGrouping then [IntType] else [gbfieldtype.value, IntType]
  }

  /** The output tuple of a group: (key, v) with grouping, (v) without. */
  function OutputTuple(gbfield: int, key: Field, v: Int32): (t: Tuple)
    ensures forall gbfieldtype: Option<Type> ::
      (gbfield == NoGrouping || (gbfieldtype.Some? && TypeOf(key) == gbfieldtype.value)) ==>
        Conforms(t, Schema(gbfield, gbfieldtype))
  {
    if gbfield == NoGrouping then [IntField(v)] else [key, IntField(v)]
  }

  /** No key occurs twice. */
  predicate Distinct(s: seq<Field>)
  {
    forall i, j :: 0 <= i < j < |s| ==> s[i] != s[j]
  }

  /** The order in which the key set's iterator hands out the keys: each key once, in some order. */
  method EnumerateKeys(keys: set<Field>) returns (order: seq<Field>)
    ensures Distinct(order)
    ensures forall k :: k in order <==> k in keys
    ensures |order| == |keys|
  {
    order := [];
    var rest := keys;
    while rest != {}
      invariant rest <= keys
      invariant Distinct(order)
      invariant forall k :: k in order <==> k in keys && k !in rest
      invariant |order| + |rest| == |keys|
      decreases |rest|
    {
      var k :| k in rest;
      order := order + [k];
      rest := rest - {k};
    }
  }
}
