/** Java's 32-bit two's-complement `int` arithmetic, written out over unbounded integers. */
module JavaInt {

  const TwoTo32: int := 0x1_0000_0000
  const MinValue: int := -0x8000_0000   // Integer.MIN_VALUE
  const MaxValue: int := 0x7fff_ffff    // Integer.MAX_VALUE

  type Int32 = x: int | MinValue <= x <= MaxValue

  /** The Java `int` holding the low 32 bits of x: what `+`, `*` and `++` leave behind. */
  function Wrap(x: int): (r: Int32)
    ensures MinValue <= x <= MaxValue ==> r == x
  {
    (x - MinValue) % TwoTo32 + MinValue
  }

  /** Wrapping moves x by a whole number of 2^32 steps. */
  lemma WrapOffset(x: int) returns (k: int)
    ensures Wrap(x) == x + k * TwoTo32
  {
    k := -((x - MinValue) / TwoTo32);
  }

  /** Adding a multiple of 2^32 is invisible in 32 bits. */
  lemma WrapPeriodic(x: int, k: int)
    ensures Wrap(x + k * TwoTo32) == Wrap(x)
  {
    var y := x - MinValue;
    assert (y + k * TwoTo32) % TwoTo32 == y % TwoTo32 by {
      var q, r := y / TwoTo32, y % TwoTo32;
      assert y + k * TwoTo32 == (q + k) * TwoTo32 + r;
    }
  }

  /** Wrapping an intermediate result of a sum does not change the wrapped total. */
  lemma WrapAddLeft(a: int, b: int)
    ensures Wrap(Wrap(a) + b) == Wrap(a + b)
  {
    var k := WrapOffset(a);
    WrapPeriodic(a + b, k);
    assert Wrap(a) + b == (a + b) + k * TwoTo32;
  }

  /** Wrapping a factor of a product does not change the wrapped product. */
  lemma WrapMulRight(x: int, c: int)
    ensures Wrap(Wrap(x) * c) == Wrap(x * c)
  {
    var k := WrapOffset(x);
    assert Wrap(x) * c == x * c + (k * c) * TwoTo32;
    WrapPeriodic(x * c, k * c);
  }

  /** Division rounding toward zero, as Java's `/` does (Dafny's `/` is Euclidean). */
  function TruncDiv(a: int, b: int): (q: int)
    requires b != 0
    ensures var r := a - q * b;
      (if r < 0 then -r else r) < (if b < 0 then -b else b) && (r == 0 || (r < 0 <==> a < 0))
  {
    var n := if a < 0 then -a else a;
    var d := if b < 0 then -b else b;
    var q0, r0 := n / d, n % d;
    assert n == q0 * d + r0 && 0 <= r0 < d;
    var q := if (a < 0) == (b < 0) then q0 else -q0;
    assert q * b == (if a < 0 then -(q0 * d) else q0 * d);
    assert a - q * b == (if a < 0 then -r0 else r0);
    q
  }

  /** Java's `int` division `a / b` (b non-zero): truncation, then wrap (MIN_VALUE / -1 == MIN_VALUE). */
  function JavaDiv(a: Int32, b: Int32): (q: Int32)
    requires b != 0
    ensures b > 0 ==> q == TruncDiv(a, b)
  {
    Wrap(TruncDiv(a, b))
  }
}
