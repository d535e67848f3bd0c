/** Totals over a sequence, used to count threads by what they are doing. */
module Sums {

  function Sum<T>(f: T -> int, s: seq<T>): int {
    if s == [] then 0 else f(s[0]) + Sum(f, s[1..])
  }

  lemma {:induction false} SumUpdate<T>(f: T -> int, s: seq<T>, i: nat, x: T)
    requires i < |s|
    ensures Sum(f, s[i := x]) == Sum(f, s) - f(s[i]) + f(x)
  {
    if i == 0 {
      assert s[i := x][1..] == s[1..];
    } else {
      assert s[i := x][1..] == s[1..][i - 1 := x];
      SumUpdate(f, s[1..], i - 1, x);
    }
  }

  lemma {:induction false} SumWithin<T>(f: T -> int, s: seq<T>, lo: int, hi: int)
    requires forall i :: 0 <= i < |s| ==> lo <= f(s[i]) <= hi
    ensures lo * |s| <= Sum(f, s) <= hi * |s|
  {
    if s != [] {
      assert forall i :: 0 <= i < |s[1..]| ==> s[1..][i] == s[i + 1];
      SumWithin(f, s[1..], lo, hi);
      assert lo * |s| == lo + lo * |s[1..]| && hi * |s| == hi + hi * |s[1..]|;
    }
  }

  lemma {:induction false} SumWithinNat<T>(f: T -> int, s: seq<T>)
    requires forall j :: 0 <= j < |s| ==> 0 <= f(s[j])
    ensures 0 <= Sum(f, s)
  {
    if s != [] {
      assert forall i :: 0 <= i < |s[1..]| ==> s[1..][i] == s[i + 1];
      SumWithinNat(f, s[1..]);
    }
  }

  /** A member's share is at most the total. */
  lemma {:induction false} SumMember<T>(f: T -> int, s: seq<T>, i: nat)
    requires i < |s|
    requires forall j :: 0 <= j < |s| ==> 0 <= f(s[j])
    ensures 0 <= f(s[i]) <= Sum(f, s)
  {
    assert forall j :: 0 <= j < |s[1..]| ==> s[1..][j] == s[j + 1];
    SumWithinNat(f, s[1..]);
    if i > 0 {
      SumMember(f, s[1..], i - 1);
    }
  }

  /** Two counts that agree on every member agree in total; a smaller one is smaller. */
  lemma {:induction false} SumMonotone<T>(f: T -> int, g: T -> int, s: seq<T>)
    requires forall j :: 0 <= j < |s| ==> f(s[j]) <= g(s[j])
    ensures Sum(f, s) <= Sum(g, s)
  {
    if s != [] {
      assert forall i :: 0 <= i < |s[1..]| ==> s[1..][i] == s[i + 1];
      SumMonotone(f, g, s[1..]);
    }
  }

  /** With one member at zero and the others at most one, the total is below the length. */
  lemma {:induction false} SumBelow<T>(f: T -> int, s: seq<T>, t: nat)
    requires t < |s| && f(s[t]) == 0 && forall i :: 0 <= i < |s| ==> f(s[i]) <= 1
    ensures Sum(f, s) <= |s| - 1
  {
    assert forall i :: 0 <= i < |s[1..]| ==> s[1..][i] == s[i + 1];
    if t > 0 {
      SumBelow(f, s[1..], t - 1);
    } else {
      SumMonotone(f, _ => 1, s[1..]);
      SumWithin(_ => 1, s[1..], 1, 1);
    }
  }

  lemma {:induction false} SumSnoc<T>(f: T -> int, s: seq<T>, x: T)
    ensures Sum(f, s + [x]) == Sum(f, s) + f(x)
  {
    if s == [] {
      assert s + [x] == [x];
    } else {
      assert (s + [x])[1..] == s[1..] + [x];
      SumSnoc(f, s[1..], x);
    }
  }

  /** Totals of two sequences that weigh the same position by position. */
  lemma {:induction false} SumPointwise<T, U>(f: T -> int, s: seq<T>, g: U -> int, r: seq<U>)
    requires |s| == |r| && forall i :: 0 <= i < |s| ==> f(s[i]) == g(r[i])
    ensures Sum(f, s) == Sum(g, r)
  {
    if s != [] {
      assert forall i :: 0 <= i < |s[1..]| ==> s[1..][i] == s[i + 1] && r[1..][i] == r[i + 1];
      SumPointwise(f, s[1..], g, r[1..]);
    }
  }

  lemma {:induction false} SumConcat<T>(f: T -> int, a: seq<T>, b: seq<T>)
    ensures Sum(f, a + b) == Sum(f, a) + Sum(f, b)
  {
    if a == [] {
      assert a + b == b;
    } else {
      assert (a + b)[1..] == a[1..] + b;
      SumConcat(f, a[1..], b);
    }
  }

  lemma {:induction false} SumScale<T>(f: T -> int, c: int, s: seq<T>, g: T -> int)
    requires forall i :: 0 <= i < |s| ==> g(s[i]) == c * f(s[i])
    ensures Sum(g, s) == c * Sum(f, s)
  {
    if s != [] {
      assert forall i :: 0 <= i < |s[1..]| ==> s[1..][i] == s[i + 1];
      SumScale(f, c, s[1..], g);
    }
  }
}
