/** A fixed buffer written round and round, and the window of recent values it stands for. */
module SlidingWindow {
  import opened Decimal

  /** The last `n` values of a history, or all of it while it is shorter. */
  function Window<T>(h: seq<T>, n: nat): (w: seq<T>)
    ensures |w| == if |h| <= n then |h| else n
  {
    if |h| <= n then h else h[|h| - n..]
  }

  /** `buf`, whose next write goes to `index`, holds `w` in rotated order. */
  ghost predicate Holds<T>(buf: seq<T>, index: nat, full: bool, w: seq<T>) {
    index < |buf| && w == if full then buf[index..] + buf[..index] else buf[..index]
  }

  lemma WindowOfWindow<T>(h: seq<T>, n: nat, r: seq<T>)
    ensures Window(Window(h, n) + r, n) == Window(h + r, n)
  {
  }

  // ----- sums and the truncated average

  function Sum(s: seq<nat>): nat {
    if s == [] then 0 else Sum(s[..|s| - 1]) + s[|s| - 1]
  }

  lemma {:induction false} SumConcat(a: seq<nat>, b: seq<nat>)
    ensures Sum(a + b) == Sum(a) + Sum(b)
  {
    if b == [] {
      assert a + b == a;
    } else {
      SumConcat(a, b[..|b| - 1]);
      assert (a + b)[..|a + b| - 1] == a + b[..|b| - 1];
    }
  }

  lemma OneMore(c: nat, k: nat)
    ensures c * (k + 1) == c * k + c
  {
  }

  lemma {:induction false} SumBounds(s: seq<nat>, lo: nat, hi: nat)
    requires forall i :: 0 <= i < |s| ==> lo <= s[i] <= hi
    ensures lo * |s| <= Sum(s) <= hi * |s|
  {
    if s == [] {
    } else {
      var t := s[..|s| - 1];
      SumBounds(t, lo, hi);
      OneMore(lo, |t|);
      OneMore(hi, |t|);
    }
  }

  /** The sum is kept in 32 bits, the quotient is truncated, and the average of nothing is 0. */
  function Average(s: seq<nat>): nat {
    if s == [] then 0 else Sum(s) % TWO_32 / |s|
  }

  lemma RotationAverage(buf: seq<nat>, index: nat, w: seq<nat>)
    requires Holds(buf, index, true, w)
    ensures Average(buf) == Average(w)
  {
    SumConcat(buf[..index], buf[index..]);
    SumConcat(buf[index..], buf[..index]);
    assert buf == buf[..index] + buf[index..];
  }

  lemma QuotientBounds(x: int, k: nat, lo: int, hi: int)
    requires k > 0 && lo * k <= x <= hi * k
    ensures lo <= x / k <= hi
  {
    var q, r := x / k, x % k;
    assert x == q * k + r;
    if q > hi {
      Multiples(hi + 1, q, k);
    } else if q < lo {
      Multiples(q + 1, lo, k);
    }
  }

  lemma Multiples(a: int, b: int, k: nat)
    requires a <= b
    ensures a * k <= b * k && (a - 1) * k == a * k - k
  {
  }

  /** The 32-bit sum does not wrap for a window of percentages, so the average is the true floor of the mean. */
  lemma AverageIsExact(s: seq<nat>, lo: nat, hi: nat)
    requires s != [] && hi * |s| < TWO_32
    requires forall i :: 0 <= i < |s| ==> lo <= s[i] <= hi
    ensures Average(s) == Sum(s) / |s| && lo <= Average(s) <= hi
  {
    SumBounds(s, lo, hi);
    NoWrap(Sum(s), TWO_32);
    QuotientBounds(Sum(s), |s|, lo, hi);
  }

  lemma NoWrap(x: nat, word: nat)
    requires x < word
    ensures x % word == x
  {
  }

  lemma {:induction false} SumOfPairs(a: seq<nat>, b: seq<nat>, lo: nat, hi: nat)
    requires |a| == |b| && forall i :: 0 <= i < |a| ==> lo <= a[i] + b[i] <= hi
    ensures lo * |a| <= Sum(a) + Sum(b) <= hi * |a|
  {
    if a == [] {
    } else {
      var c, d := a[..|a| - 1], b[..|b| - 1];
      SumOfPairs(c, d, lo, hi);
      OneMore(lo, |c|);
      OneMore(hi, |c|);
    }
  }

  /** Two columns whose pairs add up to 99 or 100 have truncated averages that add up to 98..100. */
  lemma AveragesOfComplements(a: seq<nat>, b: seq<nat>)
    requires a != [] && |a| == |b| && 100 * |a| < TWO_32
    requires forall i :: 0 <= i < |a| ==> 99 <= a[i] + b[i] <= 100
    ensures 98 <= Average(a) + Average(b) <= 100
  {
    AverageIsExact(a, 0, 100);
    AverageIsExact(b, 0, 100);
    SumOfPairs(a, b, 99, 100);
    FloorsOfParts(Sum(a), Sum(b), |a|);
  }

  lemma FloorsOfParts(x: nat, y: nat, k: nat)
    requires k > 0 && 99 * k <= x + y <= 100 * k
    ensures 98 <= x / k + y / k <= 100
  {
    var p, q := x / k, y / k;
    assert x == p * k + x % k && y == q * k + y % k;
    BoundOfParts(p, q, x % k, y % k, k);
  }

  lemma BoundOfParts(p: nat, q: nat, r: nat, s: nat, k: nat)
    requires r < k && s < k && 99 * k <= p * k + r + (q * k + s) <= 100 * k
    ensures 98 <= p + q <= 100
  {
    var n := p + q;
    assert n * k == p * k + q * k;
    if n > 100 {
      Multiples(101, n, k);
    } else if n < 98 {
      Multiples(n, 97, k);
    }
  }
}
