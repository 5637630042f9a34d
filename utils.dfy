/** `product` and the builtin `sum`: the product and the sum of a list of numbers. */
module Utils {

  /** `functools.reduce(operator.mul, xs, acc)`: fold the list into `acc` from the left. */
  function FoldMul(acc: int, xs: seq<int>): int
    decreases |xs|
  {
    if |xs| == 0 then acc else FoldMul(acc * xs[0], xs[1..])
  }

  /** `product(xs)`: the fold starts from 1. */
  function Product(xs: seq<int>): int {
    FoldMul(1, xs)
  }

  /** The product of the numbers, multiplied from the right: the textbook definition. */
  function RightProduct(xs: seq<int>): int {
    if |xs| == 0 then 1 else xs[0] * RightProduct(xs[1..])
  }

  /** A left fold from `acc` is `acc` times the product of the list. */
  lemma {:induction false} FoldMulScales(acc: int, xs: seq<int>)
    ensures FoldMul(acc, xs) == acc * RightProduct(xs)
    decreases |xs|
  {
    if |xs| > 0 {
      FoldMulScales(acc * xs[0], xs[1..]);
      assert acc * xs[0] * RightProduct(xs[1..]) == acc * (xs[0] * RightProduct(xs[1..]));
    }
  }

  /** `product` agrees with the right-nested product. */
  lemma {:induction false} ProductIsRightProduct(xs: seq<int>)
    ensures Product(xs) == RightProduct(xs)
  {
    FoldMulScales(1, xs);
  }

  /** Appending one more factor multiplies the product by it. */
  lemma {:induction false} ProductSnoc(xs: seq<int>, x: int)
    ensures Product(xs + [x]) == Product(xs) * x
  {
    FoldMulSnoc(1, xs, x);
  }

  lemma {:induction false} FoldMulSnoc(acc: int, xs: seq<int>, x: int)
    ensures FoldMul(acc, xs + [x]) == FoldMul(acc, xs) * x
    decreases |xs|
  {
    if |xs| == 0 {
      assert xs + [x] == [x];
    } else {
      assert (xs + [x])[1..] == xs[1..] + [x];
      FoldMulSnoc(acc * xs[0], xs[1..], x);
    }
  }

  /** A zero factor anywhere makes the product zero. */
  lemma {:induction false} ProductZero(xs: seq<int>)
    requires exists i :: 0 <= i < |xs| && xs[i] == 0
    ensures Product(xs) == 0
  {
    ProductIsRightProduct(xs);
    RightProductZero(xs);
  }

  lemma {:induction false} RightProductZero(xs: seq<int>)
    requires exists i :: 0 <= i < |xs| && xs[i] == 0
    ensures RightProduct(xs) == 0
  {
    if xs[0] != 0 {
      var i :| 0 <= i < |xs| && xs[i] == 0;
      assert xs[1..][i - 1] == 0;
      RightProductZero(xs[1..]);
    }
  }

  /** The product of a pair, as the checksum uses it. */
  lemma {:induction false} ProductPair(a: int, b: int)
    ensures Product([a, b]) == a * b
  {
    ProductIsRightProduct([a, b]);
    assert [a, b][1..] == [b];
    assert [b][1..] == [];
    assert RightProduct([b]) == b * RightProduct([]);
  }

  /** The example in the doc comment of `product`, and the empty product. */
  lemma {:induction false} ProductExample()
    ensures Product([1, 2, 3, 4, 5]) == 120
    ensures Product([]) == 1
  {
    ProductIsRightProduct([1, 2, 3, 4, 5]);
  }

  /** The builtin `sum` of a list of numbers, accumulated from the left. */
  function Sum(xs: seq<int>): int {
    if |xs| == 0 then 0 else Sum(xs[..|xs| - 1]) + xs[|xs| - 1]
  }

  /** The sum of a concatenation is the sum of its parts. */
  lemma {:induction false} SumAppend(a: seq<int>, b: seq<int>)
    ensures Sum(a + b) == Sum(a) + Sum(b)
    decreases |b|
  {
    if |b| > 0 {
      assert (a + b)[..|a + b| - 1] == a + b[..|b| - 1];
      SumAppend(a, b[..|b| - 1]);
    } else {
      assert a + b == a;
    }
  }

  /** Sums of short lists. */
  lemma {:induction false} SumOne(a: int)
    ensures Sum([a]) == a
  {
    assert [a][..0] == [];
  }

  lemma {:induction false} SumThree(a: int, b: int, c: int)
    ensures Sum([a, b, c]) == a + b + c
  {
    assert [a, b, c][..2] == [a, b];
    assert [a, b][..1] == [a];
    SumOne(a);
  }
}
