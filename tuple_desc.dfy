/**
 * TupleDesc: the schema of a tuple, a list of (type, optional name) columns together with a
 * name-to-index map and the cached byte length, both filled in by the constructor's loop.
 * A TupleDesc is never changed after construction, so it is a value here.
 */
module TupleDescs {
  import opened Wrappers
  import opened JavaInt
  import opened Types

  /** One column: its type and its (possibly null) name. */
  datatype TDItem = TDItem(fieldType: Type, fieldName: Option<string>)

  /** The three fields of a TupleDesc object. */
  datatype TupleDesc = TupleDesc(columns: seq<TDItem>, byteLen: Int32, name2IdxMap: map<string, int>)

  function TypesOf(columns: seq<TDItem>): seq<Type>
  {
    seq(|columns|, i requires 0 <= i < |columns| => columns[i].fieldType)
  }

  function NamesOf(columns: seq<TDItem>): seq<Option<string>>
  {
    seq(|columns|, i requires 0 <= i < |columns| => columns[i].fieldName)
  }

  /** The name the constructor gives column i: fieldAr[i] when fieldAr is non-null and long enough, else null. */
  function NameAt(fieldAr: Option<seq<Option<string>>>, i: nat): Option<string>
  {
    if fieldAr.Some? && i < |fieldAr.value| then fieldAr.value[i] else None
  }

  /** The sum of `getLen()` over the given column types (`len` stands for Type.getLen). */
  function SumLen(len: Type -> int, ts: seq<Type>): int
  {
    if ts == [] then 0 else SumLen(len, ts[..|ts| - 1]) + len(ts[|ts| - 1])
  }

  /** The map a run of `put(name, i)` calls leaves behind: a later column overwrites an earlier one. */
  function LastIndexMap(names: seq<Option<string>>): map<string, int>
  {
    if names == [] then map[]
    else
      var before := LastIndexMap(names[..|names| - 1]);
      match names[|names| - 1]
      case None => before
      case Some(n) => before[n := |names| - 1]
  }

  /** The name map is the one the constructor builds from the column names. */
  ghost predicate IndexMapValid(td: TupleDesc)
  {
    td.name2IdxMap == LastIndexMap(NamesOf(td.columns))
  }

  /** The cached byte length is the (32-bit) sum of the column lengths. */
  ghost predicate SizeValid(td: TupleDesc, len: Type -> int)
  {
    td.byteLen == Wrap(SumLen(len, TypesOf(td.columns)))
  }

  ghost predicate Valid(td: TupleDesc, len: Type -> int)
  {
    IndexMapValid(td) && SizeValid(td, len)
  }

  /** The length of a concatenation of column lists is the sum of their lengths. */
  lemma {:induction false} SumLenAppend(len: Type -> int, a: seq<Type>, b: seq<Type>)
    ensures SumLen(len, a + b) == SumLen(len, a) + SumLen(len, b)
    decreases |b|
  {
    if b == [] {
      assert a + b == a;
    } else {
      var b' := b[..|b| - 1];
      assert (a + b)[..|a + b| - 1] == a + b';
      SumLenAppend(len, a, b');
    }
  }

  /**
   * A name is in the map exactly when some column carries it, and it then maps to the LAST
   * such column (the doc comment of fieldNameToIndex promises the first one).
   */
  lemma {:induction false} LastIndexMapSpec(names: seq<Option<string>>, n: string)
    ensures n in LastIndexMap(names) <==> exists i :: 0 <= i < |names| && names[i] == Some(n)
    ensures n in LastIndexMap(names) ==>
      var i := LastIndexMap(names)[n];
      0 <= i < |names| && names[i] == Some(n) && forall j :: i < j < |names| ==> names[j] != Some(n)
  {
    if names != [] {
      var prefix := names[..|names| - 1];
      LastIndexMapSpec(prefix, n);
      assert forall i :: 0 <= i < |prefix| ==> prefix[i] == names[i];
    }
  }

  /** `new TupleDesc(typeAr, fieldAr)`: the loop appends a column per type, records names and adds up lengths. */
  method New(typeAr: seq<Type>, fieldAr: Option<seq<Option<string>>>, len: Type -> int) returns (td: TupleDesc)
    ensures |td.columns| == |typeAr|
    ensures forall i :: 0 <= i < |typeAr| ==> td.columns[i] == TDItem(typeAr[i], NameAt(fieldAr, i))
    ensures Valid(td, len)
  {
    var columns: seq<TDItem> := [];
    var byteLen: Int32 := 0;
    var name2IdxMap: map<string, int> := map[];
    for i := 0 to |typeAr|
      invariant |columns| == i
      invariant forall j :: 0 <= j < i ==> columns[j] == TDItem(typeAr[j], NameAt(fieldAr, j))
      invariant byteLen == Wrap(SumLen(len, TypesOf(columns)))
      invariant name2IdxMap == LastIndexMap(NamesOf(columns))
    {
      var field: Option<string> := None;
      if fieldAr.Some? && i < |fieldAr.value| {
        field := fieldAr.value[i];
      }
      ghost var before := columns;
      columns := columns + [TDItem(typeAr[i], field)];
      if field.Some? {
        name2IdxMap := name2IdxMap[field.value := i];
      }
      WrapAddLeft(SumLen(len, TypesOf(before)), len(typeAr[i]));
      byteLen := Wrap(byteLen + len(typeAr[i]));
      assert TypesOf(columns)[..i] == TypesOf(before);
      assert NamesOf(columns)[..i] == NamesOf(before);
    }
    td := TupleDesc(columns, byteLen, name2IdxMap);
  }

  /** `new TupleDesc(typeAr)`: every column is anonymous. */
  method NewUnnamed(typeAr: seq<Type>, len: Type -> int) returns (td: TupleDesc)
    ensures TypesOf(td.columns) == typeAr
    ensures forall i :: 0 <= i < |td.columns| ==> td.columns[i].fieldName.None?
    ensures Valid(td, len)
  {
    td := New(typeAr, None, len);
  }

  /** The type of column i; an index at or past the end throws NoSuchElementException. */
  function GetFieldType(td: TupleDesc, i: int): (r: Result<Type>)
    ensures r.Ok? <==> 0 <= i < |td.columns|
    ensures r.Ok? ==> r.value == TypesOf(td.columns)[i]
    ensures i >= |td.columns| ==> r == Err(NoSuchElementException)
    ensures i < 0 ==> r == Err(IndexOutOfBoundsException)
  {
    if i >= |td.columns| then Err(NoSuchElementException)
    else if i < 0 then Err(IndexOutOfBoundsException)
    else Ok(td.columns[i].fieldType)
  }

  /** The (possibly null) name of column i; an index at or past the end throws NoSuchElementException. */
  function GetFieldName(td: TupleDesc, i: int): (r: Result<Option<string>>)
    ensures r.Ok? <==> 0 <= i < |td.columns|
    ensures r.Ok? ==> r.value == NamesOf(td.columns)[i]
    ensures i >= |td.columns| ==> r == Err(NoSuchElementException)
    ensures i < 0 ==> r == Err(IndexOutOfBoundsException)
  {
    if i >= |td.columns| then Err(NoSuchElementException)
    else if i < 0 then Err(IndexOutOfBoundsException)
    else Ok(td.columns[i].fieldName)
  }

  /** The number of columns: exactly the indices below it are valid field references. */
  function NumFields(td: TupleDesc): (n: nat)
    ensures forall i :: 0 <= i < n <==> GetFieldType(td, i).Ok?
  {
    |td.columns|
  }

  /** The index of the column named `name`; a null or absent name throws NoSuchElementException. */
  function FieldNameToIndex(td: TupleDesc, name: Option<string>): (r: Result<int>)
    requires IndexMapValid(td)
    ensures r.Ok? <==> name.Some? && exists i :: 0 <= i < |td.columns| && td.columns[i].fieldName == name
    ensures r.Ok? ==>
      0 <= r.value < |td.columns| && td.columns[r.value].fieldName == name &&
      forall j :: r.value < j < |td.columns| ==> td.columns[j].fieldName != name
    ensures r.Err? ==> r.exception == NoSuchElementException
  {
    if name.Some? then
      var names := NamesOf(td.columns);
      LastIndexMapSpec(names, name.value);
      assert forall i :: 0 <= i < |names| ==> names[i] == td.columns[i].fieldName;
      if name.value in td.name2IdxMap then Ok(td.name2IdxMap[name.value]) else Err(NoSuchElementException)
    else
      Err(NoSuchElementException)
  }

  /** The size in bytes of a tuple of this schema: the column lengths added up in 32 bits. */
  function GetSize(td: TupleDesc, len: Type -> int): (r: Int32)
    requires SizeValid(td, len)
    ensures r == Wrap(SumLen(len, TypesOf(td.columns)))
  {
    td.byteLen
  }

  /** The size of a concatenation of schemas is the 32-bit sum of their sizes. */
  lemma MergedSize(len: Type -> int, td1: TupleDesc, td2: TupleDesc, td: TupleDesc)
    requires td.columns == td1.columns + td2.columns
    requires SizeValid(td, len) && SizeValid(td1, len) && SizeValid(td2, len)
    ensures td.byteLen == Wrap(td1.byteLen + td2.byteLen)
  {
    var a, b := SumLen(len, TypesOf(td1.columns)), SumLen(len, TypesOf(td2.columns));
    assert TypesOf(td.columns) == TypesOf(td1.columns) + TypesOf(td2.columns);
    SumLenAppend(len, TypesOf(td1.columns), TypesOf(td2.columns));
    WrapAddLeft(a, Wrap(b));
    WrapAddLeft(b, a);
  }

  /** `merge(td1, td2)`: td1's columns then td2's, through the constructor. */
  method Merge(td1: TupleDesc, td2: TupleDesc, len: Type -> int) returns (td: TupleDesc)
    ensures td.columns == td1.columns + td2.columns
    ensures Valid(td, len)
    ensures SizeValid(td1, len) && SizeValid(td2, len) ==> td.byteLen == Wrap(td1.byteLen + td2.byteLen)
  {
    var fieldtypes: seq<Type> := [];
    var fieldnames: seq<Option<string>> := [];
    for i := 0 to |td1.columns|
      invariant fieldtypes == TypesOf(td1.columns)[..i]
      invariant fieldnames == NamesOf(td1.columns)[..i]
    {
      fieldtypes := fieldtypes + [td1.columns[i].fieldType];
      fieldnames := fieldnames + [td1.columns[i].fieldName];
    }
    for i := 0 to |td2.columns|
      invariant fieldtypes == TypesOf(td1.columns) + TypesOf(td2.columns)[..i]
      invariant fieldnames == NamesOf(td1.columns) + NamesOf(td2.columns)[..i]
    {
      fieldtypes := fieldtypes + [td2.columns[i].fieldType];
      fieldnames := fieldnames + [td2.columns[i].fieldName];
    }
    assert fieldtypes == TypesOf(td1.columns + td2.columns);
    assert fieldnames == NamesOf(td1.columns + td2.columns);
    td := New(fieldtypes, Some(fieldnames), len);
    if SizeValid(td1, len) && SizeValid(td2, len) {
      MergedSize(len, td1, td2, td);
    }
  }

  /** `equals`: same number of columns and the same type at every position; names are ignored. */
  predicate SameSchema(a: TupleDesc, b: TupleDesc)
  {
    |a.columns| == |b.columns| &&
    forall i :: 0 <= i < |a.columns| ==> a.columns[i].fieldType == b.columns[i].fieldType
  }

  /** Schema equality is an equivalence relation. */
  lemma SameSchemaIsEquivalence(a: TupleDesc, b: TupleDesc, c: TupleDesc)
    ensures SameSchema(a, a)
    ensures SameSchema(a, b) ==> SameSchema(b, a)
    ensures SameSchema(a, b) && SameSchema(b, c) ==> SameSchema(a, c)
  {
  }

  /** `td.equals(o)`; None stands for a null argument or an object that is not a TupleDesc. */
  method Equals(td: TupleDesc, o: Option<TupleDesc>) returns (eq: bool)
    ensures eq <==> o.Some? && SameSchema(td, o.value)
  {
    if o.None? {
      return false;
    }
    var td2 := o.value;
    if |td.columns| != |td2.columns| {
      return false;
    }
    for i := 0 to |td.columns|
      invariant forall j :: 0 <= j < i ==> td.columns[j].fieldType == td2.columns[j].fieldType
    {
      if td.columns[i].fieldType != td2.columns[i].fieldType {
        return false;
      }
    }
    return true;
  }

  /** The multiplier hashCode gives each column type. */
  function Coefficient(t: Type): int
  {
    match t
    case IntType => 17
    case StringType => 101
  }

  /** What hashCode's loop adds for column i of type t: `c*i*30` evaluated in Java ints. */
  function HashTerm(t: Type, i: int): Int32
  {
    Wrap(Wrap(Coefficient(t) * i) * 30)
  }

  /** The accumulator of hashCode's loop after the given columns. */
  function HashOf(ts: seq<Type>): Int32
  {
    if ts == [] then 0 else Wrap(HashOf(ts[..|ts| - 1]) + HashTerm(ts[|ts| - 1], |ts| - 1))
  }

  /** The same sum over unbounded integers: the sum of c(type_i) * i * 30. */
  function WeightedSum(ts: seq<Type>): int
  {
    if ts == [] then 0 else WeightedSum(ts[..|ts| - 1]) + Coefficient(ts[|ts| - 1]) * (|ts| - 1) * 30
  }

  /** hashCode is the sum of c(type_i) * i * 30 over the columns, reduced to 32 bits. */
  lemma {:induction false} HashOfIsWrappedSum(ts: seq<Type>)
    ensures HashOf(ts) == Wrap(WeightedSum(ts))
  {
    if ts != [] {
      var n := |ts| - 1;
      var c := Coefficient(ts[n]);
      HashOfIsWrappedSum(ts[..n]);
      WrapMulRight(c * n, 30);
      WrapAddLeft(WeightedSum(ts[..n]), HashTerm(ts[n], n));
      WrapAddLeft(c * n * 30, WeightedSum(ts[..n]));
      assert HashTerm(ts[n], n) == Wrap(c * n * 30);
      assert Wrap(WeightedSum(ts[..n]) + Wrap(c * n * 30)) == Wrap(Wrap(c * n * 30) + WeightedSum(ts[..n]));
    }
  }

  /** Equal schemas have equal hash codes: the hash reads only each column's position and type. */
  lemma HashRespectsEquals(a: TupleDesc, b: TupleDesc)
    requires SameSchema(a, b)
    ensures HashOf(TypesOf(a.columns)) == HashOf(TypesOf(b.columns))
  {
    assert TypesOf(a.columns) == TypesOf(b.columns);
  }

  /** `hashCode()`: the loop accumulating one term per column in a Java int. */
  method HashCode(td: TupleDesc) returns (h: Int32)
    ensures h == HashOf(TypesOf(td.columns))
  {
    var acc: Int32 := 0;
    ghost var ts := TypesOf(td.columns);
    for i := 0 to |td.columns|
      invariant acc == HashOf(ts[..i])
    {
      var term := HashTerm(td.columns[i].fieldType, i);  // the switch on the column type
      assert ts[..i + 1][..i] == ts[..i];
      acc := Wrap(acc + term);
    }
    assert ts[..|td.columns|] == ts;
    h := acc;
  }
}
