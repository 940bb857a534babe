/** The CPU monitor: a jiffy sampler that writes four ring buffers, averages one of them and drives the
    alarm. The reference keeps the window of samples itself and no buffer. */
module CpuMonitors {
  import opened Decimal
  import opened Configuration
  import opened Hysteresis
  import opened SlidingWindow
  import opened Utilisation

  datatype Column = User | System | Idle | Busy

  function Get(s: Sample, c: Column): nat {
    match c
    case User => s.user
    case System => s.system
    case Idle => s.idle
    case Busy => s.busy
  }

  function Values(w: seq<Sample>, c: Column): (v: seq<nat>)
    ensures |v| == |w|
  {
    seq(|w|, i requires 0 <= i < |w| => Get(w[i], c))
  }

  /** Where a buffer of `n` places keeps the sample taken `age` polls before the latest. */
  function Slot(index: nat, age: nat, n: nat): (slot: nat)
    requires index < n && age < n
    ensures slot < n
  {
    if age < index then index - 1 - age else index - 1 - age + n
  }

  /** A buffer of `n` places holds column `c` of the last min(|h|, n) samples of `h`, counting back from the index. */
  ghost predicate Ring(buf: seq<nat>, index: nat, n: nat, h: seq<Sample>, c: Column) {
    |buf| == n && index < n &&
    forall age {:trigger Slot(index, age, n)} :: 0 <= age < n && age < |h| ==>
      buf[Slot(index, age, n)] == Get(h[|h| - 1 - age], c)
  }

  /** The slot after `index`, round the buffer. */
  function NextSlot(index: nat, n: nat): nat {
    if index + 1 < n then index + 1 else 0
  }

  lemma NextIndex(index: nat, n: nat)
    requires index < n
    ensures (index + 1) % n == NextSlot(index, n)
  {
  }

  lemma StoreKeepsRing(buf: seq<nat>, index: nat, next: nat, n: nat, h: seq<Sample>, c: Column, x: Sample)
    requires Ring(buf, index, n, h, c) && next == NextSlot(index, n)
    ensures Ring(buf[index := Get(x, c)], next, n, h + [x], c)
  {
    forall age {:trigger Slot(next, age, n)} | 0 <= age < n && age < |h| + 1
      ensures buf[index := Get(x, c)][Slot(next, age, n)] == Get((h + [x])[|h| - age], c)
    {
      if age > 0 {
        assert Slot(next, age, n) == Slot(index, age - 1, n) != index;
      }
    }
  }

  /** Read from the index round to the index, a buffer is exactly the window. */
  lemma RingIsWindow(buf: seq<nat>, index: nat, full: bool, n: nat, h: seq<Sample>, c: Column)
    requires Ring(buf, index, n, h, c) && Cursor(index, full, n, |h|)
    ensures Holds(buf, index, full, Values(Window(h, n), c))
  {
    var v := Values(Window(h, n), c);
    var r := if full then buf[index..] + buf[..index] else buf[..index];
    assert |v| == |r|;
    forall j | 0 <= j < |r|
      ensures r[j] == v[j]
    {
      var age := |r| - 1 - j;
      assert r[j] == buf[Slot(index, age, n)];
      assert v[j] == Get(h[|h| - 1 - age], c);
    }
    assert r == v;
  }

  /** Where the next sample goes: the index counts the samples until the buffers are full. */
  predicate Cursor(index: nat, full: bool, n: nat, count: nat) {
    index < n && (full <==> count >= n) && (!full ==> index == count)
  }

  lemma CursorMoves(index: nat, full: bool, n: nat, count: nat)
    requires Cursor(index, full, n, count)
    ensures Cursor(NextSlot(index, n), full || index + 1 >= n, n, count + 1)
  {
  }

  /** The four buffers and the cursor they share. */
  ghost predicate Rings(
    u: seq<nat>, s: seq<nat>, i: seq<nat>, b: seq<nat>, index: nat, full: bool, n: nat, h: seq<Sample>)
  {
    && Cursor(index, full, n, |h|)
    && Ring(u, index, n, h, User) && Ring(s, index, n, h, System)
    && Ring(i, index, n, h, Idle) && Ring(b, index, n, h, Busy)
  }

  lemma StoreKeepsRings(
    u: seq<nat>, s: seq<nat>, i: seq<nat>, b: seq<nat>, index: nat, full: bool, n: nat, h: seq<Sample>, x: Sample)
    requires Rings(u, s, i, b, index, full, n, h)
    ensures Rings(u[index := x.user], s[index := x.system], i[index := x.idle], b[index := x.busy],
                  NextSlot(index, n), full || index + 1 >= n, n, h + [x])
  {
    var next := NextSlot(index, n);
    CursorMoves(index, full, n, |h|);
    StoreKeepsRing(u, index, next, n, h, User, x);
    StoreKeepsRing(s, index, next, n, h, System, x);
    StoreKeepsRing(i, index, next, n, h, Idle, x);
    StoreKeepsRing(b, index, next, n, h, Busy, x);
  }

  // ----- the reference monitor

  datatype Monitor = Monitor(n: nat, window: seq<Sample>, alarm: Alarm)

  function MonitorPoll(m: Monitor, s: Sample, riseClock: int, fallClock: int): (Monitor, seq<Action>) {
    var w := Window(m.window + [s], m.n);
    var (a, acts) := Poll(m.alarm, Average(Values(w, Busy)), riseClock, fallClock);
    (m.(window := w, alarm := a), acts)
  }

  /** The window of a poll is the window of the longer history. */
  lemma PollOnHistory(h: seq<Sample>, n: nat, a: Alarm, x: Sample, riseClock: int, fallClock: int)
    ensures var w := Window(h + [x], n);
            var (b, acts) := Poll(a, Average(Values(w, Busy)), riseClock, fallClock);
            MonitorPoll(Monitor(n, Window(h, n), a), x, riseClock, fallClock) == (Monitor(n, w, b), acts)
  {
    WindowOfWindow(h, n, [x]);
  }

  function MonitorReload(m: Monitor, n: nat, th: Thresholds): Monitor {
    Monitor(n, [], Reload(m.alarm, th))
  }

  // ----- the configuration

  /** What fill_global_cpu_info reads. */
  datatype Settings = Settings(enable: bool, pollInterval: nat, numSamples: nat, th: Thresholds)

  function LoadSettings(uci: Config): Settings {
    Settings(
      Flag(uci, "enable"), Unsigned(uci, "poll_interval", "5"), Unsigned(uci, "num_samples", "30"), LoadThresholds(uci))
  }

  /** The settings as the setters store them. */
  function Stored(uci: Config, st: Settings): Config {
    uci["enable" := Print(if st.enable then 1 else 0)]["poll_interval" := Print(st.pollInterval)]
       ["num_samples" := Print(st.numSamples)]["critical_rise_threshold" := Print(st.th.rise)]
       ["critical_fall_threshold" := Print(st.th.fall)]
  }

  /** The settings loaded are the settings stored, each from its own option. */
  lemma SettingsRoundTrip(uci: Config, st: Settings)
    requires st.pollInterval < TWO_32 && st.numSamples < TWO_32 && st.th.rise < TWO_32 && st.th.fall < TWO_32
    ensures LoadSettings(Stored(uci, st)) == st
  {
    var s := Stored(uci, st);
    StoredFlag(s, "enable", if st.enable then 1 else 0);
    StoredNumber(s, "poll_interval", "5", st.pollInterval);
    StoredNumber(s, "num_samples", "30", st.numSamples);
    StoredThresholds(s, st.th);
  }

  lemma DefaultSettings()
    ensures LoadSettings(map[]) == Settings(false, 5, 30, Thresholds(80, 60))
  {
    var uci: Config := map["enable" := "0", "poll_interval" := "5", "num_samples" := "30"];
    assert Print(0) == "0" && Print(5) == "5" && Print(30) == "30";
    StoredFlag(uci, "enable", 0);
    StoredNumber(uci, "poll_interval", "5", 5);
    StoredNumber(uci, "num_samples", "30", 30);
    DefaultThresholds();
  }

  // ----- the monitor as it is

  class CpuMonitor {
    var uci: Config
    var jiffy: JiffyCounts
    var settings: Settings
    var riseTime: int
    var fallTime: int
    var userSamples: array<nat>
    var systemSamples: array<nat>
    var idleSamples: array<nat>
    var busySamples: array<nat>
    var sampleIndex: nat
    var fullSamplesReached: bool
    var timer: int                // milliseconds to the next poll, -1 when none is set
    var actions: seq<Action>      // what the alarm did: a Rise also sends CPUCriticalState!
    ghost var history: seq<Sample> // every sample since the last load

    ghost function AlarmView(): Alarm
      reads this`settings, this`riseTime, this`fallTime, this`uci
    {
      Alarm(settings.th, riseTime, fallTime, RiseText(uci), FallText(uci))
    }

    ghost function View(): Monitor
      reads this`settings, this`riseTime, this`fallTime, this`uci, this`history
    {
      Monitor(settings.numSamples, Window(history, settings.numSamples), AlarmView())
    }

    ghost predicate Valid()
      reads this`userSamples, this`systemSamples, this`idleSamples, this`busySamples
      reads this`sampleIndex, this`fullSamplesReached, this`settings, this`history
      reads userSamples, systemSamples, idleSamples, busySamples
    {
      && userSamples != systemSamples && userSamples != idleSamples && userSamples != busySamples
      && systemSamples != idleSamples && systemSamples != busySamples && idleSamples != busySamples
      && userSamples.Length == systemSamples.Length == idleSamples.Length == busySamples.Length == settings.numSamples
      && Rings(userSamples[..], systemSamples[..], idleSamples[..], busySamples[..],
               sampleIndex, fullSamplesReached, settings.numSamples, history)
    }

    /** The daemon starts. */
    constructor (config: Config, lines: seq<seq<u64>>)
      requires LoadSettings(config).numSamples >= 1
      ensures Valid() && history == [] && actions == [] && uci == config && jiffy == ReadStat(ZERO, lines)
      ensures fresh(userSamples) && fresh(systemSamples) && fresh(idleSamples) && fresh(busySamples)
      ensures settings == LoadSettings(config) && Persisted(AlarmView())
      ensures timer == if settings.enable then Milliseconds(settings.pollInterval) else -1
    {
      var none := new nat[0];
      userSamples, systemSamples, idleSamples, busySamples := none, none, none, none;
      actions := [];
      new;
      Fill(config, LoadSettings(config), LoadTime(RiseText(config)), LoadTime(FallText(config)));
      jiffy := GetJifVal(ZERO, lines);
    }

    /** fill_global_cpu_info, and the start of the timer in sysmngr_cpu_init. */
    method Fill(config: Config, st: Settings, rise: int, fall: int)
      requires st.numSamples >= 1
      modifies this
      ensures Valid() && history == [] && actions == old(actions) && uci == config && settings == st
      ensures fresh(userSamples) && fresh(systemSamples) && fresh(idleSamples) && fresh(busySamples)
      ensures riseTime == rise && fallTime == fall
      ensures timer == if settings.enable then Milliseconds(settings.pollInterval) else -1
    {
      Allocate(st);
      uci, riseTime, fallTime := config, rise, fall;
      timer := if settings.enable then Milliseconds(settings.pollInterval) else -1;
    }

    /** Empty buffers for the configured number of samples. */
    method Allocate(st: Settings)
      requires st.numSamples >= 1
      modifies this`userSamples, this`systemSamples, this`idleSamples, this`busySamples
      modifies this`sampleIndex, this`fullSamplesReached, this`settings, this`history
      ensures Valid() && history == [] && settings == st
      ensures fresh(userSamples) && fresh(systemSamples) && fresh(idleSamples) && fresh(busySamples)
    {
      var n := st.numSamples;
      settings, sampleIndex, fullSamplesReached, history := st, 0, false, [];
      userSamples := new nat[n](_ => 0);
      systemSamples := new nat[n](_ => 0);
      idleSamples := new nat[n](_ => 0);
      busySamples := new nat[n](_ => 0);
    }

    /** The average over the samples taken so far, of any of the four buffers. */
    method CalculateAverageSamples(samples: array<nat>) returns (avg: nat)
      requires settings.numSamples >= 1 && samples.Length == settings.numSamples && sampleIndex < settings.numSamples
      ensures avg == Average(if fullSamplesReached then samples[..] else samples[..sampleIndex])
    {
      var count := if fullSamplesReached then settings.numSamples else sampleIndex;
      var sum := 0;
      for i := 0 to count
        invariant sum == Sum(samples[..i]) % TWO_32
      {
        assert samples[..i + 1][..i] == samples[..i];
        sum := (sum + samples[i]) % TWO_32;
      }
      assert samples[..settings.numSamples] == samples[..];
      avg := if count > 0 then sum / count else 0;
    }

    /** The value behind a utilisation parameter is the floor of the mean over the window. */
    method ReportedUtilisation(c: Column) returns (avg: nat)
      requires Valid()
      ensures avg == Average(Values(Window(history, settings.numSamples), c))
    {
      var ring := match c
        case User => userSamples
        case System => systemSamples
        case Idle => idleSamples
        case Busy => busySamples;
      avg := CalculateAverageSamples(ring);
      RingIsWindow(ring[..], sampleIndex, fullSamplesReached, settings.numSamples, history, c);
      if fullSamplesReached {
        RotationAverage(ring[..], sampleIndex, Values(Window(history, settings.numSamples), c));
      }
    }

    /** One poll. */
    method RunCpuMonitor(lines: seq<seq<u64>>, riseClock: int, fallClock: int)
      requires Valid()
      modifies this`jiffy, this`sampleIndex, this`fullSamplesReached, this`history, this`timer
      modifies this`riseTime, this`fallTime, this`uci, this`actions
      modifies userSamples, systemSamples, idleSamples, busySamples
      ensures Valid()
      ensures jiffy == ReadStat(old(jiffy), lines)
      ensures var x := TakeSample(old(jiffy), jiffy);
              var (m, acts) := MonitorPoll(old(View()), x, riseClock, fallClock);
              history == old(history) + [x] && View() == m && actions == old(actions) + acts
      ensures sampleIndex == NextSlot(old(sampleIndex), settings.numSamples)
      ensures timer == Milliseconds(settings.pollInterval)
      ensures OthersKept(old(uci), uci)
    {
      var x := Measure(lines);
      PollOnHistory(history, settings.numSamples, AlarmView(), x, riseClock, fallClock);
      Record(x, riseClock, fallClock);
      timer := Milliseconds(settings.pollInterval);
    }

    /** Reads the counters and computes the four samples since the last reading. */
    method Measure(lines: seq<seq<u64>>) returns (x: Sample)
      modifies this`jiffy
      ensures jiffy == ReadStat(old(jiffy), lines) && x == TakeSample(old(jiffy), jiffy)
    {
      var prev := jiffy;
      jiffy := GetJifVal(jiffy, lines);
      var total := TotalDiff(prev, jiffy);
      x := Sample(Percent64(prev.usr, jiffy.usr, total), Percent64(prev.sysTime, jiffy.sysTime, total),
                  Percent64(prev.idleTime, jiffy.idleTime, total), Percent64(prev.busyTime, jiffy.busyTime, total));
    }

    /** The part of a poll after the counters are read. */
    method Record(x: Sample, riseClock: int, fallClock: int)
      requires Valid()
      modifies this`sampleIndex, this`fullSamplesReached, this`history
      modifies userSamples, systemSamples, idleSamples, busySamples
      modifies this`riseTime, this`fallTime, this`uci, this`actions
      ensures Valid() && history == old(history) + [x]
      ensures var avg := Average(Values(Window(history, settings.numSamples), Busy));
              var (a, acts) := Poll(old(AlarmView()), avg, riseClock, fallClock);
              AlarmView() == a && actions == old(actions) + acts
      ensures sampleIndex == NextSlot(old(sampleIndex), settings.numSamples)
      ensures OthersKept(old(uci), uci)
    {
      StoreSample(x);
      Judge(riseClock, fallClock);
    }

    /** The alarm judges the average of the busy window. */
    method Judge(riseClock: int, fallClock: int)
      requires Valid()
      modifies this`riseTime, this`fallTime, this`uci, this`actions
      ensures var avg := Average(Values(Window(history, settings.numSamples), Busy));
              var (a, acts) := Poll(old(AlarmView()), avg, riseClock, fallClock);
              AlarmView() == a && actions == old(actions) + acts
      ensures OthersKept(old(uci), uci)
    {
      var avg := ReportedUtilisation(Busy);
      CheckAlarm(avg, riseClock, fallClock);
    }

    /** The rise test and then the fall test of one poll. */
    method CheckAlarm(avg: nat, riseClock: int, fallClock: int)
      modifies this`riseTime, this`fallTime, this`uci, this`actions
      ensures AlarmView() == Poll(old(AlarmView()), avg, riseClock, fallClock).0
      ensures actions == old(actions) + Poll(old(AlarmView()), avg, riseClock, fallClock).1
      ensures OthersKept(old(uci), uci)
    {
      if avg > settings.th.rise && fallTime >= riseTime {
        riseTime := riseClock;
        uci := uci["critical_rise_time" := Print(riseTime)];
        actions := actions + [Action(Rise, avg, settings.th.rise, riseTime)];
      }
      if avg < settings.th.fall && riseTime > fallTime {
        fallTime := fallClock;
        uci := uci["critical_fall_time" := Print(fallTime)];
        actions := actions + [Action(Fall, avg, settings.th.fall, fallTime)];
      }
    }

    /** The writes of one poll into the four buffers, and the move of the index. */
    method StoreSample(x: Sample)
      requires Valid()
      modifies this`sampleIndex, this`fullSamplesReached, this`history
      modifies userSamples, systemSamples, idleSamples, busySamples
      ensures Valid() && history == old(history) + [x]
      ensures sampleIndex == NextSlot(old(sampleIndex), settings.numSamples)
    {
      StoreKeepsRings(userSamples[..], systemSamples[..], idleSamples[..], busySamples[..],
                      sampleIndex, fullSamplesReached, settings.numSamples, history, x);
      WriteSlots(x);
      NextIndex(sampleIndex, settings.numSamples);
      if !fullSamplesReached {
        fullSamplesReached := sampleIndex + 1 >= settings.numSamples;
      }
      sampleIndex := (sampleIndex + 1) % settings.numSamples;
      history := history + [x];
    }

    method WriteSlots(x: Sample)
      requires userSamples != systemSamples && userSamples != idleSamples && userSamples != busySamples
      requires systemSamples != idleSamples && systemSamples != busySamples && idleSamples != busySamples
      requires sampleIndex < userSamples.Length == systemSamples.Length == idleSamples.Length == busySamples.Length
      modifies userSamples, systemSamples, idleSamples, busySamples
      ensures userSamples[..] == old(userSamples[..])[sampleIndex := x.user]
      ensures systemSamples[..] == old(systemSamples[..])[sampleIndex := x.system]
      ensures idleSamples[..] == old(idleSamples[..])[sampleIndex := x.idle]
      ensures busySamples[..] == old(busySamples[..])[sampleIndex := x.busy]
    {
      userSamples[sampleIndex] := x.user;
      systemSamples[sampleIndex] := x.system;
      idleSamples[sampleIndex] := x.idle;
      busySamples[sampleIndex] := x.busy;
    }

    /** 'sysmngr.reload': the buffers and the memory are dropped and the configuration is read again. */
    method ReloadConfig(config: Config, lines: seq<seq<u64>>)
      requires LoadSettings(config).numSamples >= 1 && SameTimes(config, uci)
      modifies this
      ensures Valid() && history == [] && actions == old(actions) && uci == config && jiffy == ReadStat(ZERO, lines)
      ensures fresh(userSamples) && fresh(systemSamples) && fresh(idleSamples) && fresh(busySamples)
      ensures settings == LoadSettings(config) && Persisted(AlarmView())
      ensures timer == if settings.enable then Milliseconds(settings.pollInterval) else -1
      ensures View() == MonitorReload(old(View()), LoadSettings(config).numSamples, LoadSettings(config).th)
    {
      Fill(config, LoadSettings(config), LoadTime(RiseText(config)), LoadTime(FallText(config)));
      jiffy := GetJifVal(ZERO, lines);
    }
  }
}
