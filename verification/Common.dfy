/** Small shared vocabulary: optional values, results, and sums over sequences. */
module Common {

  type byte = b: int | 0 <= b < 256

  datatype Option<+T> = None | Some(value: T)

  datatype Result<+T, +E> = Ok(value: T) | Err(error: E)

  /** Sum of `weight` over the elements of `s`. */
  function SumBy<T>(weight: T -> nat, s: seq<T>): nat {
    if s == [] then 0 else weight(s[0]) + SumBy(weight, s[1..])
  }

  /** Replacing one element moves the sum by the difference of the two weights. */
  lemma {:induction false} SumByUpdate<T>(weight: T -> nat, s: seq<T>, i: nat, x: T)
    requires i < |s|
    ensures SumBy(weight, s[i := x]) == SumBy(weight, s) - weight(s[i]) + weight(x)
    ensures weight(s[i]) <= SumBy(weight, s)
  {
    if i == 0 {
      assert s[0 := x][1..] == s[1..];
    } else {
      assert s[i := x][1..] == s[1..][i - 1 := x];
      SumByUpdate(weight, s[1..], i - 1, x);
    }
  }

  /** If every weight is at most `bound`, the sum is at most `|s| * bound`. */
  lemma {:induction false} SumByBound<T>(weight: T -> nat, s: seq<T>, bound: nat)
    requires forall i :: 0 <= i < |s| ==> weight(s[i]) <= bound
    ensures SumBy(weight, s) <= |s| * bound
  {
    if s != [] {
      assert forall i :: 0 <= i < |s[1..]| ==> s[1..][i] == s[i + 1];
      SumByBound(weight, s[1..], bound);
    }
  }

  /** A sum of zeros is zero, and a zero sum has only zero terms. */
  lemma {:induction false} SumByZero<T>(weight: T -> nat, s: seq<T>)
    ensures SumBy(weight, s) == 0 <==> forall i :: 0 <= i < |s| ==> weight(s[i]) == 0
  {
    if s != [] {
      SumByZero(weight, s[1..]);
      assert forall i :: 0 <= i < |s[1..]| ==> s[1..][i] == s[i + 1];
      if SumBy(weight, s[1..]) == 0 && weight(s[0]) == 0 {
        forall i | 0 <= i < |s| ensures weight(s[i]) == 0 {
          if i > 0 { assert s[i] == s[1..][i - 1]; }
        }
      }
    }
  }

  /** Sums over concatenations add up. */
  lemma {:induction false} SumByConcat<T>(weight: T -> nat, a: seq<T>, b: seq<T>)
    ensures SumBy(weight, a + b) == SumBy(weight, a) + SumBy(weight, b)
  {
    if a == [] {
      assert a + b == b;
    } else {
      assert (a + b)[1..] == a[1..] + b;
      SumByConcat(weight, a[1..], b);
    }
  }
}
