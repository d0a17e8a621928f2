/**
 * What Insert and Delete share: the child operator they drain, seen as the sequence of tuples it
 * delivers and how far it has got, and the count of buffer-pool calls that succeeded.
 */
module Operators {
  import opened JavaInt
  import opened Types

  /** A child operator: the tuples it delivers after `open`/`rewind`, and how many it has delivered. */
  datatype ChildState = ChildState(tuples: seq<Tuple>, pos: nat)

  /** A child never reports more delivered tuples than it has. */
  type Child = c: ChildState | c.pos <= |c.tuples| witness ChildState([], 0)

  /** `child.open()` / `child.rewind()`: delivery starts again from the first tuple. */
  function Restart(c: Child): (r: Child)
    ensures r.tuples == c.tuples && r.pos == 0
  {
    c.(pos := 0)
  }

  /** The tuples the child has still to deliver. */
  function Remaining(c: Child): (r: seq<Tuple>)
    ensures |r| == |c.tuples| - c.pos
    ensures c.tuples == c.tuples[..c.pos] + r
  {
    c.tuples[c.pos..]
  }

  /** How many buffer-pool calls returned without an IOException. */
  function CountTrue(oks: seq<bool>): (n: nat)
    ensures n <= |oks|
  {
    if oks == [] then 0
    else CountTrue(oks[..|oks| - 1]) + (if oks[|oks| - 1] then 1 else 0)
  }

  /** All calls succeeded exactly when the count is the number of calls; none did exactly when it is zero. */
  lemma {:induction false} CountTrueExtremes(oks: seq<bool>)
    ensures CountTrue(oks) == |oks| <==> forall i :: 0 <= i < |oks| ==> oks[i]
    ensures CountTrue(oks) == 0 <==> forall i :: 0 <= i < |oks| ==> !oks[i]
  {
    if oks != [] {
      var n := |oks| - 1;
      CountTrueExtremes(oks[..n]);
      assert forall i :: 0 <= i < n ==> oks[..n][i] == oks[i];
    }
  }

  /** The count of a concatenation of call outcomes is the sum of the counts. */
  lemma {:induction false} CountTrueAppend(a: seq<bool>, b: seq<bool>)
    ensures CountTrue(a + b) == CountTrue(a) + CountTrue(b)
  {
    if b != [] {
      var n := |b| - 1;
      assert (a + b)[..|a + b| - 1] == a + b[..n];
      CountTrueAppend(a, b[..n]);
    } else {
      assert a + b == a;
    }
  }

  /** Counting one more call outcome adds one exactly when that call succeeded. */
  lemma CountTrueStep(oks: seq<bool>, i: nat)
    requires i < |oks|
    ensures CountTrue(oks[..i + 1]) == CountTrue(oks[..i]) + (if oks[i] then 1 else 0)
  {
    assert oks[..i + 1][..i] == oks[..i];
  }

  /**
   * The loop of `fetchNext`: hand every remaining tuple of the child to the buffer pool, in order,
   * counting in a Java `int` the calls that returned without an IOException (`oks[i]` says how the
   * i-th call ended). Returns the count, the drained child and the tuples handed over.
   */
  method Drain(c0: Child, oks: seq<bool>) returns (count: Int32, c: Child, ghost sent: seq<Tuple>)
    requires |oks| == |Remaining(c0)|
    ensures count == Wrap(CountTrue(oks))
    ensures c == c0.(pos := |c0.tuples|)
    ensures sent == Remaining(c0)
  {
    count := 0;
    sent := [];
    var pos := c0.pos;
    ghost var n := 0;
    while pos < |c0.tuples|  // child.hasNext()
      invariant c0.pos <= pos <= |c0.tuples|
      invariant n == CountTrue(oks[..pos - c0.pos]) && count == Wrap(n)
      invariant sent == c0.tuples[c0.pos..pos]
      decreases |c0.tuples| - pos
    {
      var t := c0.tuples[pos];  // child.next()
      var i := pos - c0.pos;
      sent := sent + [t];
      pos := pos + 1;
      CountTrueStep(oks, i);
      if oks[i] {
        WrapAddLeft(n, 1);
        count, n := Wrap(count as int + 1), n + 1;
      }
    }
    assert oks[..pos - c0.pos] == oks;
    c := c0.(pos := pos);
  }
}
