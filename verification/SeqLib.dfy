/**
 Sequence facts shared by the models: absence of duplicates, removal of one
 element, and sums of weights over a sequence.
 */
module SeqLib {

  datatype Option<+T> = None | Some(value: T)

  ghost predicate NoDup<T>(s: seq<T>) {
    forall i, j :: 0 <= i < j < |s| ==> s[i] != s[j]
  }

  /** `s` without its first occurrence of `x`. */
  function Without<T(==)>(s: seq<T>, x: T): (r: seq<T>)
    ensures |r| == |s| - (if x in s then 1 else 0)
  {
    if s == [] then []
    else if s[0] == x then s[1..]
    else [s[0]] + Without(s[1..], x)
  }

  lemma {:induction false} WithoutAbsent<T>(s: seq<T>, x: T)
    requires NoDup(s)
    ensures x !in Without(s, x)
  {
    if s != [] && s[0] != x { WithoutAbsent(s[1..], x); }
  }

  lemma {:induction false} WithoutMember<T>(s: seq<T>, x: T, y: T)
    requires y != x
    ensures y in Without(s, x) <==> y in s
  {
    if s != [] && s[0] != x { WithoutMember(s[1..], x, y); }
  }

  lemma {:induction false} ShiftedRemoval<T>(s: seq<T>, k: nat)
    requires 0 < k < |s|
    ensures [s[0]] + (s[1..][..k - 1] + s[1..][k..]) == s[..k] + s[k + 1..]
  {
  }

  /** Removing the element that sits at index `k` of a duplicate-free sequence. */
  lemma {:induction false} WithoutAt<T>(s: seq<T>, k: nat)
    requires NoDup(s) && k < |s|
    ensures Without(s, s[k]) == s[..k] + s[k + 1..]
    ensures s[k] !in Without(s, s[k])
  {
    WithoutAbsent(s, s[k]);
    if k == 0 {
      assert s[..0] + s[1..] == s[1..];
    } else {
      var tail := s[1..];
      assert NoDup(tail);
      WithoutAt(tail, k - 1);
      calc {
        Without(s, s[k]);
        [s[0]] + Without(tail, tail[k - 1]);
        [s[0]] + (tail[..k - 1] + tail[k..]);
        { ShiftedRemoval(s, k); }
        s[..k] + s[k + 1..];
      }
    }
  }

  // ----- sums -----

  function Sum<T>(s: seq<T>, f: T -> int): (r: int)
  {
    if s == [] then 0 else f(s[0]) + Sum(s[1..], f)
  }

  lemma {:induction false} SumUpdate<T>(s: seq<T>, f: T -> int, k: nat, x: T)
    requires k < |s|
    ensures Sum(s[k := x], f) == Sum(s, f) - f(s[k]) + f(x)
  {
    if k == 0 {
      assert s[0 := x][1..] == s[1..];
    } else {
      assert s[k := x][1..] == s[1..][k - 1 := x];
      SumUpdate(s[1..], f, k - 1, x);
    }
  }

  lemma {:induction false} SumPush<T>(x: T, s: seq<T>, f: T -> int)
    ensures Sum([x] + s, f) == f(x) + Sum(s, f)
  {
    assert ([x] + s)[1..] == s;
  }

  lemma {:induction false} SumConcat<T>(a: seq<T>, b: seq<T>, f: T -> int)
    ensures Sum(a + b, f) == Sum(a, f) + Sum(b, f)
  {
    if a == [] {
      assert a + b == b;
    } else {
      assert (a + b)[1..] == a[1..] + b;
      SumConcat(a[1..], b, f);
    }
  }

  lemma {:induction false} SumWithout<T>(s: seq<T>, x: T, f: T -> int)
    ensures Sum(Without(s, x), f) == Sum(s, f) - (if x in s then f(x) else 0)
  {
    if s != [] && s[0] != x {
      SumWithout(s[1..], x, f);
      SumPush(s[0], Without(s[1..], x), f);
    }
  }

  /** The indicator function of one element. */
  function Is<T(==)>(x: T): T -> int { (y: T) => if y == x then 1 else 0 }

  lemma {:induction false} SumIs<T>(s: seq<T>, x: T)
    ensures Sum(s, Is(x)) >= 0
    ensures Sum(s, Is(x)) > 0 <==> x in s
  {
    if s != [] { SumIs(s[1..], x); }
  }

  lemma {:induction false} SumIsNoDup<T>(s: seq<T>, x: T)
    requires NoDup(s)
    ensures Sum(s, Is(x)) == if x in s then 1 else 0
  {
    if s != [] { SumIsNoDup(s[1..], x); }
  }

  lemma {:induction false} SumNonNegative<T>(s: seq<T>, f: T -> int)
    requires forall x :: x in s ==> f(x) >= 0
    ensures Sum(s, f) >= 0
  {
    if s != [] { SumNonNegative(s[1..], f); }
  }

  lemma {:induction false} SumZero<T>(s: seq<T>, f: T -> int)
    requires forall x :: x in s ==> f(x) == 0
    ensures Sum(s, f) == 0
  {
    if s != [] { SumZero(s[1..], f); }
  }
}
