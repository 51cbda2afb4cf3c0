/** Small shared vocabulary: optional values, results, and sums over finite sets. */
module Prelude {

  datatype Option<+T> = None | Some(value: T)

  datatype Result<+R, +E> = Ok(value: R) | Err(error: E)

  function Abs(x: int): nat { if x < 0 then -x else x }

  /** The sum of `f` over a finite set. */
  ghost function SumOver<T(!new)>(s: set<T>, f: T -> int): int
    decreases |s|
  {
    if s == {} then 0 else
    var x :| x in s;
    f(x) + SumOver(s - {x}, f)
  }

  /** The sum does not depend on the element taken out first. */
  lemma {:induction false} SumTakeOut<T(!new)>(s: set<T>, x: T, f: T -> int)
    requires x in s
    ensures SumOver(s, f) == f(x) + SumOver(s - {x}, f)
    decreases |s|
  {
    var y :| y in s && SumOver(s, f) == f(y) + SumOver(s - {y}, f);
    if y != x {
      SumTakeOut(s - {y}, x, f);
      SumTakeOut(s - {x}, y, f);
      assert s - {y} - {x} == s - {x} - {y};
    }
  }

  /** Sums of functions that agree on the set are equal. */
  lemma {:induction false} SumSame<T(!new)>(s: set<T>, f: T -> int, g: T -> int)
    requires forall x :: x in s ==> f(x) == g(x)
    ensures SumOver(s, f) == SumOver(s, g)
    decreases |s|
  {
    if s != {} {
      var x :| x in s;
      SumTakeOut(s, x, f);
      SumTakeOut(s, x, g);
      SumSame(s - {x}, f, g);
    }
  }

  /** Changing the summand at one element changes the sum by that difference. */
  lemma SumChange<T(!new)>(s: set<T>, x: T, f: T -> int, g: T -> int)
    requires x in s
    requires forall y :: y in s && y != x ==> f(y) == g(y)
    ensures SumOver(s, g) == SumOver(s, f) + g(x) - f(x)
  {
    SumTakeOut(s, x, f);
    SumTakeOut(s, x, g);
    SumSame(s - {x}, f, g);
  }

  /** A pointwise bound bounds the sum. */
  lemma {:induction false} SumMonotone<T(!new)>(s: set<T>, f: T -> int, g: T -> int)
    requires forall x :: x in s ==> f(x) <= g(x)
    ensures SumOver(s, f) <= SumOver(s, g)
    decreases |s|
  {
    if s != {} {
      var x :| x in s;
      SumTakeOut(s, x, f);
      SumTakeOut(s, x, g);
      SumMonotone(s - {x}, f, g);
    }
  }
}
