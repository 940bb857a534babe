/** What holds of the CPU monitor over whole runs of polls and reloads. */
module CpuMonitorRuns {
  import opened Decimal
  import opened Hysteresis
  import opened SlidingWindow
  import opened Utilisation
  import opened CpuMonitors

  datatype Input = Sampled(s: Sample, riseClock: int, fallClock: int) | Reloaded(n: nat, th: Thresholds)

  function Next(m: Monitor, i: Input): (Monitor, seq<Action>) {
    match i
    case Sampled(s, rc, fc) => MonitorPoll(m, s, rc, fc)
    case Reloaded(n, th) => (MonitorReload(m, n, th), [])
  }

  function MonitorRun(m: Monitor, ins: seq<Input>): (Monitor, seq<Action>)
    decreases |ins|
  {
    if ins == [] then (m, [])
    else
      var (k, x) := Next(m, ins[0]);
      var (l, y) := MonitorRun(k, ins[1..]);
      (l, x + y)
  }

  // ----- the monitor is the alarm fed with averages

  function Averages(m: Monitor, ins: seq<Input>): (es: seq<Event>)
    decreases |ins|
  {
    if ins == [] then []
    else
      var k := Next(m, ins[0]).0;
      [match ins[0]
       case Sampled(_, rc, fc) => PollEvent(Average(Values(k.window, Busy)), rc, fc)
       case Reloaded(_, th) => ReloadEvent(th)] + Averages(k, ins[1..])
  }

  /** A run of the monitor is a run of the alarm on the window averages, so its actions alternate whenever the
      clock condition holds, however often the configuration is reloaded in between. */
  lemma {:induction false} MonitorDrivesAlarm(m: Monitor, ins: seq<Input>)
    ensures (MonitorRun(m, ins).0.alarm, MonitorRun(m, ins).1) == Run(m.alarm, Averages(m, ins))
    decreases |ins|
  {
    if ins == [] {
    } else {
      var k := Next(m, ins[0]).0;
      MonitorDrivesAlarm(k, ins[1..]);
      var es := Averages(m, ins);
      assert es[1..] == Averages(k, ins[1..]);
      assert Step(m.alarm, es[0]) == (k.alarm, Next(m, ins[0]).1);
    }
  }

  lemma MonitorAlternates(m: Monitor, ins: seq<Input>)
    requires Persisted(m.alarm) && GoodRun(m.alarm, Averages(m, ins))
    ensures var (k, acts) := MonitorRun(m, ins);
            && Persisted(k.alarm) && Alternates(Kinds(acts), PhaseOf(m.alarm), PhaseOf(k.alarm))
            && forall i :: 0 <= i < |acts| ==> Justified(acts[i])
  {
    MonitorDrivesAlarm(m, ins);
    RunRefinesAutomaton(m.alarm, Averages(m, ins));
    AlarmAlternates(m.alarm, Averages(m, ins));
  }

  // ----- the window over a run

  predicate Polls(ins: seq<Input>) {
    forall i :: 0 <= i < |ins| ==> ins[i].Sampled?
  }

  function Samples(ins: seq<Input>): (s: seq<Sample>)
    requires Polls(ins)
    ensures |s| == |ins|
  {
    seq(|ins|, i requires 0 <= i < |ins| => ins[i].s)
  }

  /** After any number of polls the window is exactly the last n samples of everything seen. */
  lemma {:induction false} WindowAfterPolls(m: Monitor, ins: seq<Input>)
    requires Polls(ins) && |m.window| <= m.n
    ensures var k := MonitorRun(m, ins).0; k.n == m.n && k.window == Window(m.window + Samples(ins), m.n)
    decreases |ins|
  {
    if ins == [] {
      assert m.window + Samples(ins) == m.window;
    } else {
      var k := Next(m, ins[0]).0;
      WindowAfterPolls(k, ins[1..]);
      SamplesSplit(ins);
      var h, r := m.window + [ins[0].s], Samples(ins[1..]);
      assert m.window + Samples(ins) == h + r;
      WindowOfWindow(h, m.n, r);
    }
  }

  lemma SamplesSplit(ins: seq<Input>)
    requires ins != [] && Polls(ins)
    ensures Samples(ins) == [ins[0].s] + Samples(ins[1..])
  {
  }

  lemma {:induction false} RunConcat(m: Monitor, a: seq<Input>, b: seq<Input>)
    ensures MonitorRun(m, a + b).0 == MonitorRun(MonitorRun(m, a).0, b).0
    decreases |a|
  {
    if a == [] {
      assert a + b == b;
    } else {
      assert (a + b)[1..] == a[1..] + b;
      RunConcat(Next(m, a[0]).0, a[1..], b);
    }
  }

  // ----- bounded response

  /** Clock readings do not decrease within a poll, strictly increase from poll to poll and start after `last`. */
  predicate ClockAdvances(last: int, ins: seq<Input>)
    decreases |ins|
  {
    ins == [] ||
    (&& ins[0].Sampled? && last < ins[0].riseClock <= ins[0].fallClock
     && ClockAdvances(ins[0].fallClock, ins[1..]))
  }

  predicate NotAfter(a: Alarm, last: int) {
    a.riseTime <= last && a.fallTime <= last
  }

  lemma {:induction false} LastPoll(m: Monitor, last: int, ins: seq<Input>)
    requires ins != [] && NotAfter(m.alarm, last) && ClockAdvances(last, ins)
    ensures var (a, z) := (MonitorRun(m, ins[..|ins| - 1]).0.alarm, ins[|ins| - 1]);
            && z.Sampled? && z.riseClock > a.riseTime && z.riseClock > a.fallTime && z.fallClock >= z.riseClock
    ensures MonitorRun(m, ins[..|ins| - 1]).0.alarm.th == m.alarm.th
    decreases |ins|
  {
    if |ins| == 1 {
      assert ins[..0] == [];
    } else {
      var k := Next(m, ins[0]).0;
      LastPoll(k, ins[0].fallClock, ins[1..]);
      assert ins[..|ins| - 1][1..] == ins[1..][..|ins| - 2];
      assert ins[|ins| - 1] == ins[1..][|ins| - 2];
    }
  }

  /** A whole window of polls with an advancing clock after `last`, every busy sample in lo..hi. */
  predicate FullWindow(m: Monitor, last: int, ins: seq<Input>, lo: nat, hi: nat) {
    && m.n >= 1 && |m.window| <= m.n && 100 * m.n < TWO_32 && hi <= 100
    && |ins| == m.n && NotAfter(m.alarm, last) && ClockAdvances(last, ins)
    && forall i :: 0 <= i < |ins| ==> ins[i].Sampled? && lo <= ins[i].s.busy <= hi
  }

  /** Whatever the buffers held, after n polls only those n samples are averaged. */
  lemma AverageOfFullWindow(m: Monitor, last: int, ins: seq<Input>, lo: nat, hi: nat)
    requires FullWindow(m, last, ins, lo, hi)
    ensures Polls(ins) && lo <= Average(Values(MonitorRun(m, ins).0.window, Busy)) <= hi
  {
    WindowAfterPolls(m, ins);
    WindowIsAll(m.window, Samples(ins), m.n);
    AverageOfSamples(Samples(ins), lo, hi);
  }

  lemma AverageOfSamples(w: seq<Sample>, lo: nat, hi: nat)
    requires w != [] && 100 * |w| < TWO_32 && hi <= 100
    requires forall i :: 0 <= i < |w| ==> lo <= w[i].busy <= hi
    ensures lo <= Average(Values(w, Busy)) <= hi
  {
    var v := Values(w, Busy);
    assert hi * |v| <= 100 * |v|;
    AverageIsExact(v, lo, hi);
  }

  lemma WindowIsAll(h: seq<Sample>, r: seq<Sample>, n: nat)
    requires |r| == n
    ensures Window(h + r, n) == r
  {
  }

  lemma LastStep(m: Monitor, ins: seq<Input>)
    requires ins != [] && Polls(ins)
    ensures var before := MonitorRun(m, ins[..|ins| - 1]).0;
            var z := ins[|ins| - 1];
            var k := MonitorRun(m, ins).0;
            k.alarm == Poll(before.alarm, Average(Values(k.window, Busy)), z.riseClock, z.fallClock).0
  {
    var z := ins[|ins| - 1];
    var before := MonitorRun(m, ins[..|ins| - 1]).0;
    assert ins == ins[..|ins| - 1] + [z];
    RunConcat(m, ins[..|ins| - 1], [z]);
    assert MonitorRun(before, [z]).0 == MonitorRun(Next(before, z).0, [z][1..]).0;
    assert [z][1..] == [];
  }

  /** n polls in a row above the rise threshold leave the monitor critical, from every state. */
  lemma CriticalWithinWindow(m: Monitor, last: int, ins: seq<Input>)
    requires FullWindow(m, last, ins, m.alarm.th.rise + 1, 100) && m.alarm.th.fall <= m.alarm.th.rise + 1
    ensures PhaseOf(MonitorRun(m, ins).0.alarm) == Critical
  {
    AverageOfFullWindow(m, last, ins, m.alarm.th.rise + 1, 100);
    LastStep(m, ins);
    LastPoll(m, last, ins);
  }

  /** n polls in a row below the fall threshold leave the monitor normal, from every state and for all thresholds: the
      fall test comes last, so nothing can undo it within the poll. */
  lemma NormalWithinWindow(m: Monitor, last: int, ins: seq<Input>)
    requires m.alarm.th.fall >= 1 && FullWindow(m, last, ins, 0, m.alarm.th.fall - 1)
    ensures PhaseOf(MonitorRun(m, ins).0.alarm) == Normal
  {
    AverageOfFullWindow(m, last, ins, 0, m.alarm.th.fall - 1);
    LastStep(m, ins);
    LastPoll(m, last, ins);
  }

  /** Every full window of hot samples ends critical. */
  ghost predicate AlwaysResponds(m: Monitor, last: int) {
    forall ins :: FullWindow(m, last, ins, m.alarm.th.rise + 1, 100) ==> PhaseOf(MonitorRun(m, ins).0.alarm) == Critical
  }

  function Constant(v: nat, clock: int, count: nat): (ins: seq<Input>)
    ensures |ins| == count && forall i :: 0 <= i < count ==> ins[i].Sampled? && ins[i].s.busy == v
    ensures ClockAdvances(clock, ins)
    decreases count
  {
    if count == 0 then [] else
      var rest := Constant(v, clock + 1, count - 1);
      var r := [Sampled(Sample(0, 0, 0, v), clock + 1, clock + 1)] + rest;
      assert r[1..] == rest;
      r
  }

  /** For thresholds in 0..100 the response to heat is guaranteed exactly when fall <= rise + 1: otherwise a
      utilisation between the two rises and falls again within the same poll. */
  lemma RespondsIff(m: Monitor, last: int)
    requires m.n >= 1 && |m.window| <= m.n && 100 * m.n < TWO_32 && NotAfter(m.alarm, last)
    requires m.alarm.th.rise <= 100 && m.alarm.th.fall <= 100
    ensures AlwaysResponds(m, last) <==> m.alarm.th.fall <= m.alarm.th.rise + 1
  {
    var v := m.alarm.th.rise + 1;
    if m.alarm.th.fall <= v {
      forall ins | FullWindow(m, last, ins, v, 100)
        ensures PhaseOf(MonitorRun(m, ins).0.alarm) == Critical
      {
        CriticalWithinWindow(m, last, ins);
      }
    } else {
      RisesAndFallsAtOnce(m, last, Constant(v, last, m.n));
    }
  }

  lemma RisesAndFallsAtOnce(m: Monitor, last: int, ins: seq<Input>)
    requires m.alarm.th.rise + 1 < m.alarm.th.fall
    requires FullWindow(m, last, ins, m.alarm.th.rise + 1, m.alarm.th.rise + 1)
    ensures PhaseOf(MonitorRun(m, ins).0.alarm) == Normal
  {
    AverageOfFullWindow(m, last, ins, m.alarm.th.rise + 1, m.alarm.th.rise + 1);
    LastStep(m, ins);
    LastPoll(m, last, ins);
  }

  // ----- busy and idle averages

  predicate MonotoneAt(readings: seq<JiffyCounts>, i: nat)
    requires i + 1 < |readings|
  {
    Monotone(readings[i], readings[i + 1])
  }

  /** The true percentage of column `c` between two successive readings, 0 when no time passed. */
  function ShareAt(readings: seq<JiffyCounts>, i: nat, c: Column): nat
    requires i + 1 < |readings| && MonotoneAt(readings, i)
  {
    var (prev, cur) := (readings[i], readings[i + 1]);
    MonotoneTimes(prev, cur);
    if cur.totalTime > prev.totalTime then Get(Shares(prev, cur), c) else 0
  }

  /** The samples that monotone readings give. */
  predicate SampledFrom(h: seq<Sample>, readings: seq<JiffyCounts>) {
    |readings| == |h| + 1 && forall i :: 0 <= i < |h| ==> MonotoneAt(readings, i) && h[i] == SampleAt(readings, i)
  }

  /** The true percentages of column `c` between all successive readings. */
  function AllShares(h: seq<Sample>, readings: seq<JiffyCounts>, c: Column): (v: seq<nat>)
    requires SampledFrom(h, readings)
    ensures |v| == |h|
  {
    seq<nat>(|h|, i requires 0 <= i < |h| => ShareAt(readings, i, c))
  }

  /** What a utilisation parameter reports after any polls since a load, with monotone counters and at most 300 samples:
      the floor of the mean of the last min(polls, n) true percentages. */
  lemma ReportIsTrueMean(m: Monitor, ins: seq<Input>, readings: seq<JiffyCounts>, c: Column)
    requires m.window == [] && 1 <= m.n <= 300 && ins != [] && Polls(ins) && SampledFrom(Samples(ins), readings)
    ensures var recent := Window(AllShares(Samples(ins), readings, c), m.n);
            && |recent| == (if |ins| < m.n then |ins| else m.n)
            && Average(Values(MonitorRun(m, ins).0.window, c)) == Sum(recent) / |recent| <= 100
  {
    var h := Samples(ins);
    WindowAfterPolls(m, ins);
    assert m.window + h == h;
    SharesAreSamples(h, readings, c);
    var v := AllShares(h, readings, c);
    WindowOfValues(h, m.n, c, v);
    AverageOfShares(Window(v, m.n));
  }

  /** Right after a load, before the first poll, every utilisation parameter reports 0. */
  lemma NothingToReport(m: Monitor, n: nat, th: Thresholds, c: Column)
    ensures Average(Values(MonitorReload(m, n, th).window, c)) == 0
  {
  }

  lemma AverageOfShares(w: seq<nat>)
    requires 0 < |w| <= 300 && forall i :: 0 <= i < |w| ==> w[i] <= 100
    ensures Average(w) == Sum(w) / |w| <= 100
  {
    AverageIsExact(w, 0, 100);
  }

  lemma WindowOfValues(h: seq<Sample>, n: nat, c: Column, v: seq<nat>)
    requires |v| == |h| && forall i :: 0 <= i < |h| ==> Get(h[i], c) == v[i]
    ensures Values(Window(h, n), c) == Window(v, n)
  {
  }

  lemma SharesAreSamples(h: seq<Sample>, readings: seq<JiffyCounts>, c: Column)
    requires SampledFrom(h, readings)
    ensures var v := AllShares(h, readings, c); forall i :: 0 <= i < |h| ==> Get(h[i], c) == v[i] <= 100
  {
    var v := AllShares(h, readings, c);
    forall i | 0 <= i < |h|
      ensures Get(h[i], c) == v[i] <= 100
    {
      assert MonotoneAt(readings, i) && h[i] == SampleAt(readings, i);
      SampleIsShare(readings, i, c);
    }
  }

  lemma SampleIsShare(readings: seq<JiffyCounts>, i: nat, c: Column)
    requires i + 1 < |readings| && MonotoneAt(readings, i)
    ensures Get(SampleAt(readings, i), c) == ShareAt(readings, i, c) <= 100
  {
    SampleIsSound(readings[i], readings[i + 1]);
    if readings[i + 1].totalTime > readings[i].totalTime {
      SampleIsTrue(readings[i], readings[i + 1]);
    }
  }

  function SampleAt(readings: seq<JiffyCounts>, i: nat): Sample
    requires i + 1 < |readings|
  {
    TakeSample(readings[i], readings[i + 1])
  }

  predicate AdvancedAt(readings: seq<JiffyCounts>, i: nat)
    requires i + 1 < |readings|
  {
    Monotone(readings[i], readings[i + 1]) && readings[i].totalTime < readings[i + 1].totalTime
  }

  /** CPUUtilization and IdleModeUtilization over a window in which time advanced on every poll add up to 98..100. */
  lemma BusyAndIdleAverages(readings: seq<JiffyCounts>, w: seq<Sample>)
    requires w != [] && |readings| == |w| + 1 && 100 * |w| < TWO_32
    requires forall i :: 0 <= i < |w| ==> AdvancedAt(readings, i)
    requires forall i :: 0 <= i < |w| ==> w[i] == SampleAt(readings, i)
    ensures 98 <= Average(Values(w, Busy)) + Average(Values(w, Idle)) <= 100
  {
    forall i | 0 <= i < |w|
      ensures 99 <= w[i].busy + w[i].idle <= 100
    {
      assert AdvancedAt(readings, i) && w[i] == SampleAt(readings, i);
      SampleIsSound(readings[i], readings[i + 1]);
    }
    ComplementaryColumns(w);
  }

  lemma ComplementaryColumns(w: seq<Sample>)
    requires w != [] && 100 * |w| < TWO_32
    requires forall i :: 0 <= i < |w| ==> 99 <= w[i].busy + w[i].idle <= 100
    ensures 98 <= Average(Values(w, Busy)) + Average(Values(w, Idle)) <= 100
  {
    AveragesOfComplements(Values(w, Busy), Values(w, Idle));
  }
}
