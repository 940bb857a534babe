/** CPU utilisation from the jiffy counters of /proc/stat, in the 64-bit arithmetic of the sampler
    and in the 32-bit arithmetic of the on-demand reading. */
module Utilisation {
  import opened Decimal

  type u64 = x: int | 0 <= x < TWO_64

  datatype JiffyCounts = JiffyCounts(
    usr: u64, nic: u64, sys: u64, idle: u64, iowait: u64, irq: u64, softirq: u64, steal: u64,
    totalTime: u64, idleTime: u64, sysTime: u64, busyTime: u64)

  const ZERO := JiffyCounts(0, 0, 0, 0, 0, 0, 0, 0, 0, 0, 0, 0)

  function Wrap(x: int): u64 {
    x % TWO_64
  }

  // ----- reading /proc/stat

  function Pick(values: seq<u64>, i: nat, before: u64): u64 {
    if i < |values| then values[i] else before
  }

  /** A line of which sscanf matched `values`: the unmatched counters keep their old value,
      and with four or more matches the four derived times are computed. */
  function ScanLine(p: JiffyCounts, values: seq<u64>): JiffyCounts {
    var q := p.(usr := Pick(values, 0, p.usr), nic := Pick(values, 1, p.nic),
                sys := Pick(values, 2, p.sys), idle := Pick(values, 3, p.idle),
                iowait := Pick(values, 4, p.iowait), irq := Pick(values, 5, p.irq),
                softirq := Pick(values, 6, p.softirq), steal := Pick(values, 7, p.steal));
    if |values| < 4 then q
    else
      var total := Wrap(q.usr + q.nic + q.sys + q.idle + q.iowait + q.irq + q.softirq + q.steal);
      var idle := Wrap(q.idle + q.iowait);
      q.(totalTime := total, sysTime := Wrap(q.sys + q.irq + q.softirq), idleTime := idle,
         busyTime := Wrap(total - idle))
  }

  function ReadStat(p: JiffyCounts, lines: seq<seq<u64>>): JiffyCounts
    decreases |lines|
  {
    if lines == [] then p
    else if |lines[0]| >= 4 then ScanLine(p, lines[0])
    else ReadStat(ScanLine(p, lines[0]), lines[1..])
  }

  /** Reads until the first line that yields four counters. */
  method GetJifVal(p: JiffyCounts, lines: seq<seq<u64>>) returns (q: JiffyCounts)
    ensures q == ReadStat(p, lines)
  {
    q := p;
    var i := 0;
    while i < |lines|
      invariant i <= |lines| && ReadStat(q, lines[i..]) == ReadStat(p, lines)
    {
      q := ScanLine(q, lines[i]);
      assert lines[i..][0] == lines[i] && lines[i..][1..] == lines[i + 1..];
      if |lines[i]| >= 4 {
        return;
      }
      i := i + 1;
    }
    assert lines[i..] == [];
  }

  // ----- a sample

  datatype Sample = Sample(user: nat, system: nat, idle: nat, busy: nat)

  /** (later - earlier) * 100 / total in 64-bit unsigned arithmetic, stored in 32 bits. */
  function Percent64(earlier: u64, later: u64, total: u64): nat
    requires total > 0
  {
    Wrap(Wrap(later - earlier) * 100) / total % TWO_32
  }

  function TotalDiff(prev: JiffyCounts, cur: JiffyCounts): (d: u64)
    ensures d > 0
  {
    var d := Wrap(cur.totalTime - prev.totalTime);
    if d == 0 then 1 else d
  }

  function TakeSample(prev: JiffyCounts, cur: JiffyCounts): Sample {
    var t := TotalDiff(prev, cur);
    Sample(Percent64(prev.usr, cur.usr, t), Percent64(prev.sysTime, cur.sysTime, t),
           Percent64(prev.idleTime, cur.idleTime, t), Percent64(prev.busyTime, cur.busyTime, t))
  }

  // ----- what the counters guarantee

  /** The derived times are the true sums: nothing overflowed. */
  predicate Exact(c: JiffyCounts) {
    && c.totalTime == c.usr + c.nic + c.sys + c.idle + c.iowait + c.irq + c.softirq + c.steal
    && c.sysTime == c.sys + c.irq + c.softirq
    && c.idleTime == c.idle + c.iowait
    && c.busyTime == c.totalTime - c.idleTime
  }

  lemma ScanIsExact(p: JiffyCounts, values: seq<u64>)
    requires |values| >= 4
    requires var q := ScanLine(p, values);
             q.usr + q.nic + q.sys + q.idle + q.iowait + q.irq + q.softirq + q.steal < TWO_64
    ensures Exact(ScanLine(p, values))
  {
    var q := ScanLine(p, values);
    assert q.totalTime == q.usr + q.nic + q.sys + q.idle + q.iowait + q.irq + q.softirq + q.steal;
    assert q.idleTime == q.idle + q.iowait;
    assert q.sysTime == q.sys + q.irq + q.softirq;
  }

  /** Every counter is monotone, and a hundred times the elapsed jiffies fits 64 bits. */
  predicate Monotone(prev: JiffyCounts, cur: JiffyCounts) {
    && Exact(prev) && Exact(cur)
    && prev.usr <= cur.usr && prev.nic <= cur.nic && prev.sys <= cur.sys && prev.idle <= cur.idle
    && prev.iowait <= cur.iowait && prev.irq <= cur.irq && prev.softirq <= cur.softirq && prev.steal <= cur.steal
    && 100 * (cur.totalTime - prev.totalTime) < TWO_64
  }

  // ----- from the line to the counters

  /** The eight counters, in the order in which a line gives them. */
  function Counters(c: JiffyCounts): (s: seq<u64>)
    ensures |s| == 8
  {
    [c.usr, c.nic, c.sys, c.idle, c.iowait, c.irq, c.softirq, c.steal]
  }

  /** Counter `i` after a line: what the line gives, or the old value. */
  function Given(was: seq<u64>, line: seq<u64>, i: nat): u64
    requires i < |was|
  {
    if i < |line| then line[i] else was[i]
  }

  function GivenSum(was: seq<u64>, line: seq<u64>): nat
    requires |was| == 8
  {
    Given(was, line, 0) + Given(was, line, 1) + Given(was, line, 2) + Given(was, line, 3)
    + Given(was, line, 4) + Given(was, line, 5) + Given(was, line, 6) + Given(was, line, 7)
  }

  /** Lines that give fewer than four counters are read over: one that gives none changes nothing. */
  lemma {:induction false} LinesReadOver(p: JiffyCounts, skipped: seq<seq<u64>>, rest: seq<seq<u64>>)
    requires forall i :: 0 <= i < |skipped| ==> skipped[i] == []
    ensures ReadStat(p, skipped + rest) == ReadStat(p, rest)
  {
    if skipped == [] {
      assert skipped + rest == rest;
    } else {
      assert (skipped + rest)[0] == skipped[0] && (skipped + rest)[1..] == skipped[1..] + rest;
      assert ScanLine(p, []) == p;
      LinesReadOver(p, skipped[1..], rest);
    }
  }

  /** The first line with four counters or more decides, whatever follows: each counter is the one at its place in the
      line, those the line does not give keep their value, and the derived times are sums of places: system 2 + 5 + 6,
      idle 3 + 4, busy all the others. */
  lemma ReadingIsLine(p: JiffyCounts, skipped: seq<seq<u64>>, line: seq<u64>, rest: seq<seq<u64>>)
    requires (forall i :: 0 <= i < |skipped| ==> skipped[i] == []) && 4 <= |line| <= 8
    requires GivenSum(Counters(p), line) < TWO_64
    ensures var (q, was) := (ReadStat(p, skipped + [line] + rest), Counters(p));
            && (forall i :: 0 <= i < 8 ==> Counters(q)[i] == Given(was, line, i))
            && q.usr == line[0]
            && q.sysTime == line[2] + Given(was, line, 5) + Given(was, line, 6)
            && q.idleTime == line[3] + Given(was, line, 4)
            && q.busyTime == line[0] + line[1] + line[2]
                             + Given(was, line, 5) + Given(was, line, 6) + Given(was, line, 7)
            && q.totalTime == GivenSum(was, line)
  {
    assert skipped + [line] + rest == skipped + ([line] + rest);
    LinesReadOver(p, skipped, [line] + rest);
    assert ([line] + rest)[0] == line;
    LineIsScanned(p, line);
  }

  /** A line with fewer than four counters sets those and no derived time, and the reading goes on. */
  lemma PartialLine(p: JiffyCounts, line: seq<u64>, rest: seq<seq<u64>>)
    requires |line| < 4
    ensures var q := ScanLine(p, line);
            && ReadStat(p, [line] + rest) == ReadStat(q, rest)
            && q.usr == Given(Counters(p), line, 0) && q.nic == Given(Counters(p), line, 1)
            && q.sys == Given(Counters(p), line, 2)
            && p == q.(usr := p.usr, nic := p.nic, sys := p.sys)
    ensures ReadStat(p, []) == p
  {
    assert ([line] + rest)[0] == line && ([line] + rest)[1..] == rest;
  }

  lemma LineIsScanned(p: JiffyCounts, line: seq<u64>)
    requires 4 <= |line| <= 8 && GivenSum(Counters(p), line) < TWO_64
    ensures var (q, was) := (ScanLine(p, line), Counters(p));
            && Counters(q) == [Given(was, line, 0), Given(was, line, 1), Given(was, line, 2), Given(was, line, 3),
                               Given(was, line, 4), Given(was, line, 5), Given(was, line, 6), Given(was, line, 7)]
            && Exact(q)
  {
    ScanIsExact(p, line);
  }

  function Percent(part: nat, total: nat): nat
    requires total > 0
  {
    100 * part / total
  }

  /** Division facts about plain numbers, kept apart from the quotients they are used for. */
  lemma Quotient(x: nat, t: nat)
    requires t > 0
    ensures x / t * t + x % t == x && 0 <= x % t < t
  {
  }

  lemma Distribute(p: nat, q: nat, t: nat)
    ensures (p + q) * t == p * t + q * t
  {
  }

  lemma AtMostHundred(k: nat, t: nat)
    requires k * t <= 100 * t && t > 0
    ensures k <= 100
  {
    assert k >= 101 ==> k * t >= 101 * t;
  }

  lemma ThreeParts(p: nat, q: nat, r: nat, a: nat, b: nat, c: nat, t: nat)
    requires p * t <= 100 * a && q * t <= 100 * b && r * t <= 100 * c && a + b + c <= t && t > 0
    ensures p + q + r <= 100
  {
    Distribute(p, q, t);
    Distribute(p + q, r, t);
    AtMostHundred(p + q + r, t);
  }

  lemma TwoParts(p: nat, q: nat, r: nat, s: nat, a: nat, b: nat, t: nat)
    requires p * t + r == 100 * a && q * t + s == 100 * b && r < t && s < t && a + b == t
    ensures 99 <= p + q <= 100 && (p + q == 100 <==> r == 0)
  {
    var k := 100 - (p + q);
    Distribute(p, q, t);
    assert k * t == 100 * t - (p + q) * t;
    ZeroOrOne(k, t, r + s);
  }

  lemma ZeroOrOne(k: int, t: nat, z: nat)
    requires k * t == z < 2 * t
    ensures 0 <= k <= 1 && (k == 0 ==> z == 0) && (k == 1 ==> z == t)
  {
    assert k >= 2 ==> k * t >= 2 * t;
    assert k <= -1 ==> k * t <= 0 - t;
  }

  lemma PercentSum3(a: nat, b: nat, c: nat, total: nat)
    requires total > 0 && a + b + c <= total
    ensures Percent(a, total) + Percent(b, total) + Percent(c, total) <= 100
  {
    Quotient(100 * a, total);
    Quotient(100 * b, total);
    Quotient(100 * c, total);
    ThreeParts(Percent(a, total), Percent(b, total), Percent(c, total), a, b, c, total);
  }

  /** The two parts of a whole lose at most one percent to rounding, and none exactly when the percentage is whole. */
  lemma PercentComplement(a: nat, b: nat, total: nat)
    requires total > 0 && a + b == total
    ensures 99 <= Percent(a, total) + Percent(b, total) <= 100
    ensures Percent(a, total) + Percent(b, total) == 100 <==> 100 * a % total == 0
  {
    Quotient(100 * a, total);
    Quotient(100 * b, total);
    TwoParts(Percent(a, total), Percent(b, total), 100 * a % total, 100 * b % total, a, b, total);
  }

  /** With monotone counters no derived time goes back, and the shares of the elapsed jiffies add up. */
  lemma MonotoneTimes(prev: JiffyCounts, cur: JiffyCounts)
    requires Monotone(prev, cur)
    ensures var usr, sys := cur.usr - prev.usr, cur.sysTime - prev.sysTime;
            var idle, busy := cur.idleTime - prev.idleTime, cur.busyTime - prev.busyTime;
            && Grown(prev, cur)
            && usr + sys + idle <= busy + idle == cur.totalTime - prev.totalTime
  {
  }

  /** The true percentages of the elapsed jiffies. */
  function Shares(prev: JiffyCounts, cur: JiffyCounts): Sample
    requires cur.totalTime > prev.totalTime && Grown(prev, cur)
  {
    var t := cur.totalTime - prev.totalTime;
    Sample(Percent(cur.usr - prev.usr, t), Percent(cur.sysTime - prev.sysTime, t),
           Percent(cur.idleTime - prev.idleTime, t), Percent(cur.busyTime - prev.busyTime, t))
  }

  /** No derived time went back or grew by more than the elapsed jiffies. */
  predicate Grown(prev: JiffyCounts, cur: JiffyCounts) {
    var t := cur.totalTime - prev.totalTime;
    && 0 <= cur.usr - prev.usr <= t && 0 <= cur.sysTime - prev.sysTime <= t
    && 0 <= cur.idleTime - prev.idleTime <= t && 0 <= cur.busyTime - prev.busyTime <= t
  }

  /** With monotone counters no step of the sampling arithmetic wraps: each sample is a true percentage. */
  lemma SampleIsTrue(prev: JiffyCounts, cur: JiffyCounts)
    requires Monotone(prev, cur) && cur.totalTime > prev.totalTime
    ensures Grown(prev, cur) && TakeSample(prev, cur) == Shares(prev, cur)
  {
    MonotoneTimes(prev, cur);
    SampleOfGrown(prev, cur);
  }

  lemma SampleOfGrown(prev: JiffyCounts, cur: JiffyCounts)
    requires cur.totalTime > prev.totalTime && Grown(prev, cur) && 100 * (cur.totalTime - prev.totalTime) < TWO_64
    ensures TakeSample(prev, cur) == Shares(prev, cur)
  {
    var t := cur.totalTime - prev.totalTime;
    WrapIs(t);
    TruePercent(prev.usr, cur.usr, t);
    TruePercent(prev.sysTime, cur.sysTime, t);
    TruePercent(prev.idleTime, cur.idleTime, t);
    TruePercent(prev.busyTime, cur.busyTime, t);
  }

  predicate Sound(s: Sample) {
    s.user + s.system + s.idle <= 100 && s.busy <= 100
  }

  /** Every sample is in 0..100, user, system and idle together are at most 100, busy and idle together
      are 99 or 100 when time advanced, and all are zero when it did not. */
  lemma SampleIsSound(prev: JiffyCounts, cur: JiffyCounts)
    requires Monotone(prev, cur)
    ensures Sound(TakeSample(prev, cur))
    ensures var s := TakeSample(prev, cur);
            if cur.totalTime > prev.totalTime then 99 <= s.busy + s.idle <= 100 else s == Sample(0, 0, 0, 0)
  {
    MonotoneTimes(prev, cur);
    SoundOfGrown(prev, cur);
  }

  lemma SoundOfGrown(prev: JiffyCounts, cur: JiffyCounts)
    requires Grown(prev, cur) && 100 * (cur.totalTime - prev.totalTime) < TWO_64
    requires var idle := cur.idleTime - prev.idleTime;
             cur.usr - prev.usr + cur.sysTime - prev.sysTime + idle
             <= cur.busyTime - prev.busyTime + idle == cur.totalTime - prev.totalTime
    ensures Sound(TakeSample(prev, cur))
    ensures var s := TakeSample(prev, cur);
            if cur.totalTime > prev.totalTime then 99 <= s.busy + s.idle <= 100 else s == Sample(0, 0, 0, 0)
  {
    if cur.totalTime > prev.totalTime {
      SampleOfGrown(prev, cur);
      SharesAreSound(cur.usr - prev.usr, cur.sysTime - prev.sysTime, cur.idleTime - prev.idleTime,
                     cur.busyTime - prev.busyTime, cur.totalTime - prev.totalTime);
    } else {
      NoTimeNoLoad(prev, cur);
    }
  }

  lemma SharesAreSound(usr: nat, sys: nat, idle: nat, busy: nat, t: nat)
    requires t > 0 && usr + sys + idle <= busy + idle == t
    ensures Sound(Sample(Percent(usr, t), Percent(sys, t), Percent(idle, t), Percent(busy, t)))
    ensures 99 <= Percent(busy, t) + Percent(idle, t) <= 100
  {
    PercentSum3(usr, sys, idle, t);
    PercentComplement(busy, idle, t);
  }

  lemma NoTimeNoLoad(prev: JiffyCounts, cur: JiffyCounts)
    requires cur.totalTime == prev.totalTime && Grown(prev, cur)
    ensures TakeSample(prev, cur) == Sample(0, 0, 0, 0)
  {
    WrapIs(0);
    assert TotalDiff(prev, cur) == 1;
  }

  lemma TruePercent(earlier: u64, later: u64, total: u64)
    requires total > 0 && 0 <= later - earlier <= total && 100 * total < TWO_64
    ensures Percent64(earlier, later, total) == Percent(later - earlier, total)
  {
    var d := later - earlier;
    assert Wrap(Wrap(later - earlier) * 100) == 100 * d;
    PercentSum3(d, 0, 0, total);
    assert Percent(d, total) % TWO_32 == Percent(d, total);
  }

  /** What the two counter lines of successive readings say, without any stored time. */
  predicate LinesGrow(a: seq<u64>, b: seq<u64>) {
    && |a| == 8 && |b| == 8 && (forall i :: 0 <= i < 8 ==> a[i] <= b[i])
    && LineSum(b) < TWO_64 && 0 < LineSum(b) - LineSum(a) && 100 * (LineSum(b) - LineSum(a)) < TWO_64
  }

  function LineSum(a: seq<u64>): nat
    requires |a| == 8
  {
    At(a, 0) + At(a, 1) + At(a, 2) + At(a, 3) + At(a, 4) + At(a, 5) + At(a, 6) + At(a, 7)
  }

  /** The counter at place `i` of a line. */
  function At(a: seq<u64>, i: nat): nat
    requires i < |a|
  {
    a[i]
  }

  /** How much the counter at place `i` grew. */
  function Growth(a: seq<u64>, b: seq<u64>, i: nat): nat
    requires LinesGrow(a, b) && i < 8
  {
    At(b, i) - At(a, i)
  }

  /** The percentages of the time between two lines that their places took. */
  function LineShares(a: seq<u64>, b: seq<u64>): Sample
    requires LinesGrow(a, b)
  {
    var t := LineSum(b) - LineSum(a);
    var idle := Growth(a, b, 3) + Growth(a, b, 4);
    Sample(Percent(Growth(a, b, 0), t), Percent(Growth(a, b, 2) + Growth(a, b, 5) + Growth(a, b, 6), t),
           Percent(idle, t), Percent(t - idle, t))
  }

  /** The sample between two full lines: the percentages of the time between them that each place of the lines took. */
  lemma SampleOfLines(p: JiffyCounts, a: seq<u64>, b: seq<u64>)
    requires LinesGrow(a, b)
    ensures var q := ReadStat(p, [a]);
            TakeSample(q, ReadStat(q, [b])) == LineShares(a, b)
  {
    var q := ReadStat(p, [a]);
    var r := ReadStat(q, [b]);
    FullLine(p, a);
    FullLine(q, b);
    SampleOfFull(q, r, a, b);
  }

  predicate IsFull(q: JiffyCounts, a: seq<u64>)
    requires |a| == 8
  {
    && q.usr == At(a, 0) && q.sysTime == At(a, 2) + At(a, 5) + At(a, 6) && q.idleTime == At(a, 3) + At(a, 4)
    && q.totalTime == LineSum(a) && q.busyTime == LineSum(a) - At(a, 3) - At(a, 4)
  }

  lemma FullLine(p: JiffyCounts, a: seq<u64>)
    requires |a| == 8 && LineSum(a) < TWO_64
    ensures IsFull(ReadStat(p, [a]), a)
  {
    assert [] + [a] + [] == [a];
    ReadingIsLine(p, [], a, []);
  }

  lemma SampleOfFull(q: JiffyCounts, r: JiffyCounts, a: seq<u64>, b: seq<u64>)
    requires LinesGrow(a, b) && IsFull(q, a) && IsFull(r, b)
    ensures TakeSample(q, r) == LineShares(a, b)
  {
    SampleOfGrown(q, r);
  }

  // ----- the on-demand reading

  /** get_cpu_load: 32-bit unsigned arithmetic throughout. */
  function GetCpuLoad(prev: JiffyCounts, cur: JiffyCounts): nat {
    Load32(Wrap(cur.busyTime - prev.busyTime), Wrap(cur.totalTime - prev.totalTime))
  }

  function Load32(busy: u64, total: u64): nat {
    var d := total % TWO_32;
    100 * (busy % TWO_32) % TWO_32 / if d == 0 then 1 else d
  }

  /** While the elapsed jiffies fit 32 bits, the on-demand reading equals the sampler's formula exactly
      when a hundred times the busy jiffies does too. */
  lemma CpuLoadAgreesIff(prev: JiffyCounts, cur: JiffyCounts)
    requires Monotone(prev, cur) && cur.totalTime - prev.totalTime < TWO_32
    ensures GetCpuLoad(prev, cur) == TakeSample(prev, cur).busy
            <==> 100 * (cur.busyTime - prev.busyTime) < TWO_32
  {
    MonotoneTimes(prev, cur);
    LoadOfGrownAgreesIff(prev, cur);
  }

  lemma LoadOfGrownAgreesIff(prev: JiffyCounts, cur: JiffyCounts)
    requires Grown(prev, cur) && cur.totalTime - prev.totalTime < TWO_32
    ensures GetCpuLoad(prev, cur) == TakeSample(prev, cur).busy
            <==> 100 * (cur.busyTime - prev.busyTime) < TWO_32
  {
    var t, b := cur.totalTime - prev.totalTime, cur.busyTime - prev.busyTime;
    if t > 0 {
      SampleOfGrown(prev, cur);
      LoadOfGrown(prev, cur);
      NarrowQuotient(b, t);
    } else {
      NoTimeNoLoad(prev, cur);
      WrapIs(0);
    }
  }

  lemma LoadOfGrown(prev: JiffyCounts, cur: JiffyCounts)
    requires Grown(prev, cur) && 0 < cur.totalTime - prev.totalTime < TWO_32
    ensures GetCpuLoad(prev, cur) == 100 * (cur.busyTime - prev.busyTime) % TWO_32 / (cur.totalTime - prev.totalTime)
  {
    var t, b := cur.totalTime - prev.totalTime, cur.busyTime - prev.busyTime;
    WrapIs(t);
    WrapIs(b);
    NarrowLoad(b, t);
  }

  lemma NarrowLoad(b: nat, t: nat)
    requires 0 < t < TWO_32 && b <= t
    ensures Load32(b, t) == 100 * b % TWO_32 / t
  {
    Narrow(t);
    Narrow(b);
  }

  lemma WrapIs(x: nat)
    requires x < TWO_64
    ensures Wrap(x) == x
  {
  }

  lemma Narrow(y: nat)
    ensures y < TWO_32 ==> y % TWO_32 == y
    ensures y >= TWO_32 ==> y % TWO_32 <= y - TWO_32
  {
  }

  lemma NarrowQuotient(b: nat, t: nat)
    requires 0 < t < TWO_32
    ensures 100 * b % TWO_32 / t == Percent(b, t) <==> 100 * b < TWO_32
  {
    var y := 100 * b;
    Narrow(y);
    var x := y % TWO_32;
    if y >= TWO_32 {
      DivisionGap(x, y, t);
    }
  }

  lemma DivisionGap(x: nat, y: nat, t: nat)
    requires t > 0 && x + t <= y
    ensures x / t < y / t
  {
    Quotient(x, t);
    Quotient(y, t);
    LessGap(x / t, y / t, x % t, y % t, t);
  }

  lemma LessGap(p: nat, q: nat, r: nat, s: nat, t: nat)
    requires r < t && s < t && p * t + r + t <= q * t + s
    ensures p < q
  {
    assert (q - p) * t == q * t - p * t;
    assert q - p <= 0 ==> (q - p) * t <= 0;
  }
}
