/** Column types, field values and tuples, as the modelled operators see them. */
module Types {
  import opened JavaInt

  /** The two column types of the engine. */
  datatype Type = IntType | StringType

  /** A field value; Java compares fields by value, as Dafny compares datatype values. */
  datatype Field = IntField(intValue: Int32) | StringField(stringValue: string)

  /** A tuple is the sequence of its field values. */
  type Tuple = seq<Field>

  /** The column type a field value belongs to. */
  function TypeOf(f: Field): Type
  {
    match f
    case IntField(_) => IntType
    case StringField(_) => StringType
  }

  /** Whether position i of the tuple exists and holds an integer (the cast `(IntField) tup.getField(i)` succeeds). */
  predicate IsIntAt(tup: Tuple, i: int)
  {
    0 <= i < |tup| && tup[i].IntField?
  }

  /** Every field of the tuple has the type its schema gives that position. */
  predicate Conforms(tup: Tuple, ts: seq<Type>)
  {
    |tup| == |ts| && forall i :: 0 <= i < |tup| ==> TypeOf(tup[i]) == ts[i]
  }
}
