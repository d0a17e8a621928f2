/**
 * The Delete operator: drains its child, deleting each tuple through the buffer pool, and reports,
 * once, how many tuples were deleted.
 */
module DeleteOperator {
  import opened JavaInt
  import opened Types
  import opened Wrappers
  import opened Operators
  import TupleDescs
  import Locking

  class Delete {
    const tid: Locking.TransactionId
    const tupleDesc: TupleDescs.TupleDesc
    var child: Child
    var isReturned: bool
    /** The tuples handed to the buffer pool's `deleteTuple(tid, t)`, in call order. */
    ghost var deleted: seq<Tuple>

    /** The output schema is one INT column. */
    ghost predicate Valid()
    {
      TupleDescs.TypesOf(tupleDesc.columns) == [IntType]
    }

    constructor (t: Locking.TransactionId, child: Child, len: Type -> int)
      ensures Valid() && TupleDescs.Valid(tupleDesc, len)
      ensures tid == t && this.child == child
      ensures HasNext() && deleted == []
    {
      var td := TupleDescs.NewUnnamed([IntType], len);
      this.child := child;
      tupleDesc := td;
      isReturned := false;
      tid := t;
      deleted := [];
    }

    /** `hasNext()`: the count tuple has not been returned yet. */
    function HasNext(): (r: bool)
      reads this`isReturned
      ensures r <==> !isReturned
    {
      !isReturned
    }

    /** `open()`: open the child and arm the operator again. */
    method Open()
      modifies this`child, this`isReturned
      ensures child == Restart(old(child))
      ensures HasNext()
    {
      child := Restart(child);
      isReturned := false;
    }

    /** `close()`: close the child (its effect on the child is not modelled) and disarm the operator. */
    method Close()
      modifies this`isReturned
      ensures !HasNext()
    {
      isReturned := true;
    }

    /** `rewind()`: rewind the child and arm the operator again. */
    method Rewind()
      modifies this`child, this`isReturned
      ensures child == Restart(old(child))
      ensures HasNext()
    {
      child := Restart(child);
      isReturned := false;
    }

    /**
     * `fetchNext()`: on its first call, pass every remaining child tuple to the buffer pool and
     * return the number of calls that did not throw IOException (`oks[i]` says how the i-th call
     * ended) as a one-field tuple; on later calls, return null.
     */
    method FetchNext(oks: seq<bool>) returns (r: Option<Tuple>)
      requires Valid()
      requires !isReturned ==> |oks| == |Remaining(child)|
      modifies this`child, this`isReturned, this`deleted
      ensures isReturned
      ensures old(isReturned) ==> r.None? && child == old(child) && deleted == old(deleted)
      ensures !old(isReturned) ==>
        && r == Some([IntField(Wrap(CountTrue(oks)))])
        && child == old(child).(pos := |old(child).tuples|)
        && deleted == old(deleted) + old(Remaining(child))
      ensures r.Some? ==> Conforms(r.value, TupleDescs.TypesOf(tupleDesc.columns))
    {
      if isReturned {
        return None;
      }
      var count, c, sent := Drain(child, oks);
      child := c;
      deleted := deleted + sent;
      r := Some([IntField(count)]);
      isReturned := true;
    }

    /** `next()`: the count tuple on the first call, null afterwards. */
    method Next(oks: seq<bool>) returns (r: Option<Tuple>)
      requires Valid()
      requires !isReturned ==> |oks| == |Remaining(child)|
      modifies this`child, this`isReturned, this`deleted
      ensures isReturned
      ensures old(isReturned) ==> r.None? && child == old(child) && deleted == old(deleted)
      ensures !old(isReturned) ==>
        && r == Some([IntField(Wrap(CountTrue(oks)))])
        && child == old(child).(pos := |old(child).tuples|)
        && deleted == old(deleted) + old(Remaining(child))
    {
      r := FetchNext(oks);
    }

    /** `getChildren()`: the one child. */
    function GetChildren(): seq<Child>
      reads this`child
    {
      [child]
    }

    /** `setChildren(children)`: adopt the child only from a non-null array of exactly one. */
    method SetChildren(children: Option<seq<Child>>)
      modifies this`child
      ensures child == if children.Some? && |children.value| == 1 then children.value[0] else old(child)
    {
      if children.Some? && |children.value| == 1 {
        child := children.value[0];
      }
    }
  }
}
