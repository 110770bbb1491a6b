/** Rust standard-library notions the analytics code relies on: Option, Ordering,
    i64 bounds, i64 division (which truncates toward zero) and iterator sums. */
module Prelude {

  datatype Option<+T> = None | Some(value: T)

  /** std::cmp::Ordering */
  datatype Ordering = Less | Equal | Greater

  const I64Min: int := -0x8000_0000_0000_0000
  const I64Max: int := 0x7fff_ffff_ffff_ffff

  type I64 = x: int | I64Min <= x <= I64Max

  /** Ord::cmp on integers. */
  function Cmp(a: int, b: int): (r: Ordering)
    ensures r == Less <==> a < b
    ensures r == Equal <==> a == b
    ensures r == Greater <==> a > b
  {
    if a < b then Less else if a == b then Equal else Greater
  }

  /** Rust's `/` on signed integers: the quotient truncated toward zero
      (Dafny's own `/` is Euclidean).  Division by zero panics in Rust. */
  function TruncDiv(a: int, b: int): (q: int)
    requires b != 0
    ensures b > 0 && a >= 0 ==> q * b <= a < q * b + b
    ensures b > 0 && a < 0 ==> q * b - b < a <= q * b
    ensures a >= 0 && b > 0 ==> q == a / b
  {
    if b > 0 then
      (if a >= 0 then a / b else -((-a) / b))
    else
      (if a >= 0 then -(a / (-b)) else (-a) / (-b))
  }

  /** Any integer in the truncation window of a positive divisor is the truncated quotient. */
  lemma TruncDivUnique(a: int, b: int, q: int)
    requires b > 0
    requires a >= 0 ==> q * b <= a < q * b + b
    requires a < 0 ==> q * b - b < a <= q * b
    ensures TruncDiv(a, b) == q
  {
    var r := TruncDiv(a, b);
    MulSucc(r, b);
    MulSucc(q, b);
    if r < q {
      MulMonotone(r + 1, q, b);
    } else if r > q {
      MulMonotone(q + 1, r, b);
    }
  }

  lemma MulSucc(x: int, b: int)
    ensures (x + 1) * b == x * b + b
  {
  }

  lemma MulMonotone(x: int, y: int, b: int)
    requires x <= y && b > 0
    ensures x * b <= y * b
  {}

  /** `iter().sum()` of a slice: a left fold from zero. */
  function Sum(s: seq<int>): int
  {
    if |s| == 0 then 0 else Sum(s[..|s| - 1]) + s[|s| - 1]
  }

  lemma {:induction false} SumAppend(s: seq<int>, t: seq<int>)
    ensures Sum(s + t) == Sum(s) + Sum(t)
  {
    if |t| == 0 {
      assert s + t == s;
    } else {
      assert (s + t)[..|s + t| - 1] == s + t[..|t| - 1];
      SumAppend(s, t[..|t| - 1]);
    }
  }

  /** The sum of n copies of c is n * c. */
  lemma {:induction false} SumConstant(s: seq<int>, c: int)
    requires forall i :: 0 <= i < |s| ==> s[i] == c
    ensures Sum(s) == |s| * c
  {
    if |s| > 0 {
      SumConstant(s[..|s| - 1], c);
    }
  }

  /** A sum lies between |s| times its smallest and |s| times its largest term. */
  lemma {:induction false} SumBounds(s: seq<int>, lo: int, hi: int)
    requires forall i :: 0 <= i < |s| ==> lo <= s[i] <= hi
    ensures |s| * lo <= Sum(s) <= |s| * hi
  {
    if |s| > 0 {
      SumBounds(s[..|s| - 1], lo, hi);
    }
  }
}
