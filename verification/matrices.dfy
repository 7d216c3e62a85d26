/** The "identity" tuples `I3` and `I4` built at module level of
    humanoid_robot.py, together with Python's tuple repetition `k * (x,)`
    that they (and the zero velocity/acceleration vectors) rely on.

    `In` is computed as `reduce(lambda m, i: m + (Row(i),), range(n), ())`
    where `Row(i)` is `i` zeros, one `1.0`, then `2 - i` zeros. Each step
    appends the row as one nested element, so `In` is a tuple of `n` rows.
    The trailing count is `2 - i` for both sizes, so `I3` is the 3x3
    identity while the rows of `I4` have lengths 3, 3, 3 and 4 rather than
    four each. The model keeps that literal shape. */
module Matrices {

  /** Python's `k * (x,)`: `k` copies of `x`; a count of zero or less gives
      the empty tuple. */
  function Repeat(k: int, x: real): (r: seq<real>)
    ensures |r| == if k <= 0 then 0 else k
    ensures forall j :: 0 <= j < |r| ==> r[j] == x
    decreases k
  {
    if k <= 0 then [] else [x] + Repeat(k - 1, x)
  }

  /** `n * (0.,)`, the all-zero configuration vector of size `n`. */
  function Zeros(n: nat): (r: seq<real>)
    ensures |r| == n
    ensures forall j :: 0 <= j < n ==> r[j] == 0.0
  {
    Repeat(n, 0.0)
  }

  /** Row `i` of the fold: `i*(0.,) + (1.,) + (2-i)*(0.,)`. */
  function Row(i: int): seq<real>
  {
    Repeat(i, 0.0) + [1.0] + Repeat(2 - i, 0.0)
  }

  /** A row has a single `1.0`, in column `i`, and is padded to at least
      three entries. */
  lemma RowShape(i: nat)
    ensures |Row(i)| == if i <= 2 then 3 else i + 1
    ensures forall j :: 0 <= j < |Row(i)| ==> Row(i)[j] == (if j == i then 1.0 else 0.0)
  {
    var a, b := Repeat(i, 0.0), Repeat(2 - i, 0.0);
    forall j | 0 <= j < |Row(i)|
      ensures Row(i)[j] == (if j == i then 1.0 else 0.0)
    {
      if j < i {
        assert Row(i)[j] == a[j];
      } else if j > i {
        assert Row(i)[j] == b[j - i - 1];
      }
    }
  }

  /** The integers `0 .. n-1` in order, as `range(n)`. */
  function Range(n: nat): (r: seq<int>)
    ensures |r| == n
    ensures forall j :: 0 <= j < n ==> r[j] == j
  {
    seq(n, j => j)
  }

  /** A tuple of rows: each element is itself a tuple of reals. */
  type Rows = seq<seq<real>>

  /** `reduce(lambda m, i: m + (Row(i),), xs, acc)`: a left fold that
      appends one row, as a single nested element, per element of `xs`. */
  function FoldRows(xs: seq<int>, acc: Rows): Rows
    decreases |xs|
  {
    if |xs| == 0 then acc else FoldRows(xs[1..], acc + [Row(xs[0])])
  }

  /** The tuple `reduce(..., range(n), ())` of the source. */
  function Folded(n: nat): Rows
  {
    FoldRows(Range(n), [])
  }

  /** `I3` of the source. */
  function I3(): Rows
  {
    Folded(3)
  }

  /** `I4` of the source, with its literal `2 - i` padding. */
  function I4(): Rows
  {
    Folded(4)
  }

  /** Independent reference definition: the rows of `xs` in order, built
      without an accumulator. */
  function ConcatRows(xs: seq<int>): Rows
    decreases |xs|
  {
    if |xs| == 0 then [] else [Row(xs[0])] + ConcatRows(xs[1..])
  }

  /** Rows `0 .. n-1`, defined by adding the last row. */
  function Stacked(n: nat): Rows
  {
    if n == 0 then [] else Stacked(n - 1) + [Row(n - 1)]
  }

  /** The fold with an accumulator prepends the accumulator to the plain
      sequence of rows. */
  lemma {:induction false} FoldRowsIsConcat(xs: seq<int>, acc: Rows)
    ensures FoldRows(xs, acc) == acc + ConcatRows(xs)
    decreases |xs|
  {
    if |xs| == 0 {
      assert acc + ConcatRows(xs) == acc;
    } else {
      FoldRowsIsConcat(xs[1..], acc + [Row(xs[0])]);
      assert acc + [Row(xs[0])] + ConcatRows(xs[1..]) == acc + ([Row(xs[0])] + ConcatRows(xs[1..]));
    }
  }

  /** The sequence of rows distributes over appending one more index. */
  lemma {:induction false} ConcatRowsSnoc(xs: seq<int>, x: int)
    ensures ConcatRows(xs + [x]) == ConcatRows(xs) + [Row(x)]
    decreases |xs|
  {
    if |xs| == 0 {
      assert xs + [x] == [x];
      assert [x][1..] == [];
      assert ConcatRows([x]) == [Row(x)] + [];
    } else {
      var ys := xs + [x];
      assert ys[0] == xs[0];
      assert ys[1..] == xs[1..] + [x];
      ConcatRowsSnoc(xs[1..], x);
      calc {
        ConcatRows(ys);
        [Row(xs[0])] + ConcatRows(xs[1..] + [x]);
        [Row(xs[0])] + (ConcatRows(xs[1..]) + [Row(x)]);
        ([Row(xs[0])] + ConcatRows(xs[1..])) + [Row(x)];
        ConcatRows(xs) + [Row(x)];
      }
    }
  }

  /** The source's `reduce` over `range(n)` builds exactly rows `0 .. n-1`,
      one element each, in order. */
  lemma {:induction false} FoldedIsStacked(n: nat)
    ensures Folded(n) == Stacked(n)
  {
    FoldRowsIsConcat(Range(n), []);
    assert Folded(n) == ConcatRows(Range(n));
    StackedIsConcat(n);
  }

  lemma {:induction false} StackedIsConcat(n: nat)
    ensures ConcatRows(Range(n)) == Stacked(n)
  {
    if n == 0 {
      assert Range(0) == [];
    } else {
      assert Range(n) == Range(n - 1) + [n - 1];
      ConcatRowsSnoc(Range(n - 1), n - 1);
      StackedIsConcat(n - 1);
    }
  }

  /** `I3` is a tuple of three rows of three entries, and entry `(r, c)` is
      1 exactly on the diagonal: the 3x3 identity. */
  lemma I3IsIdentity()
    ensures |I3()| == 3
    ensures forall r :: 0 <= r < 3 ==> |I3()[r]| == 3
    ensures forall r, c :: 0 <= r < 3 && 0 <= c < 3 ==>
      I3()[r][c] == (if r == c then 1.0 else 0.0)
  {
    FoldedIsStacked(3);
    RowShape(0);
    RowShape(1);
    RowShape(2);
    assert Stacked(3) == [Row(0), Row(1), Row(2)];
  }

  /** `I4` is a tuple of four rows: the three rows of `I3` followed by the
      row `(0., 0., 0., 1.)`, which has four entries where the others have
      three. */
  lemma I4Shape()
    ensures |I4()| == 4
    ensures I4()[..3] == I3()
    ensures I4()[3] == [0.0, 0.0, 0.0, 1.0]
  {
    FoldedIsStacked(3);
    FoldedIsStacked(4);
    RowShape(3);
    assert Stacked(4) == Stacked(3) + [Row(3)];
    assert |Stacked(3)| == 3 by {
      assert Stacked(3) == [Row(0), Row(1), Row(2)];
    }
    assert Row(3) == [0.0, 0.0, 0.0, 1.0];
  }
}
