/** The memory monitor: the same alarm as the CPU monitor's, fed with one reading per poll. */
module MemoryMonitors {
  import opened Decimal
  import opened Configuration
  import opened Hysteresis
  import opened Utilisation

  datatype MemInfo = MemInfo(total: u64, free: u64, buffers: u64, cached: u64, reclaimable: u64)
  datatype Reading = Unreadable | Read(info: MemInfo)

  /** calculate_memory_utilization: (total - reclaimable) * 100 / total in 64-bit unsigned arithmetic, and 0 when
      /proc/meminfo cannot be read. */
  function MemoryUtilisation(r: Reading): nat
    requires r.Read? ==> r.info.total > 0
  {
    match r
    case Unreadable => 0
    case Read(m) => Percent64(Wrap(m.free + m.buffers + m.cached + m.reclaimable), m.total, m.total)
  }

  /** With no more reclaimable than total memory, the utilisation is the true percentage in use, and reaches 100
      exactly when nothing is reclaimable. */
  lemma MemoryUtilisationIsSound(m: MemInfo)
    requires m.total > 0 && m.free + m.buffers + m.cached + m.reclaimable <= m.total && 100 * m.total < TWO_64
    ensures var spare := m.free + m.buffers + m.cached + m.reclaimable;
            && MemoryUtilisation(Read(m)) == Percent(m.total - spare, m.total) <= 100
            && (MemoryUtilisation(Read(m)) == 100 <==> spare == 0)
    ensures MemoryUtilisation(Unreadable) == 0
  {
    var spare := m.free + m.buffers + m.cached + m.reclaimable;
    assert Wrap(spare) == spare;
    TruePercent(spare, m.total, m.total);
    WholeOnly(m.total - spare, m.total);
  }

  lemma WholeOnly(part: nat, total: nat)
    requires total > 0 && part <= total
    ensures Percent(part, total) <= 100 && (Percent(part, total) == 100 <==> part == total)
  {
    Quotient(100 * part, total);
    Whole(Percent(part, total), 100 * part % total, part, total);
  }

  lemma Whole(p: nat, r: nat, a: nat, t: nat)
    requires p * t + r == 100 * a && r < t && a <= t
    ensures p <= 100 && (p == 100 <==> a == t)
  {
    assert p >= 101 ==> p * t >= 101 * t;
    assert p == 100 ==> p * t == 100 * t;
    assert p <= 99 ==> p * t <= 99 * t;
  }

  datatype MemorySettings = MemorySettings(enable: bool, pollingInterval: nat, th: Thresholds)

  function LoadMemorySettings(uci: Config): MemorySettings {
    MemorySettings(Flag(uci, "enable"), Unsigned(uci, "polling_interval", "60"), LoadThresholds(uci))
  }

  function StoredMemory(uci: Config, st: MemorySettings): Config {
    uci["enable" := Print(if st.enable then 1 else 0)]["polling_interval" := Print(st.pollingInterval)]
       ["critical_rise_threshold" := Print(st.th.rise)]["critical_fall_threshold" := Print(st.th.fall)]
  }

  /** The settings loaded are the settings stored, each from its own option. */
  lemma MemorySettingsRoundTrip(uci: Config, st: MemorySettings)
    requires st.pollingInterval < TWO_32 && st.th.rise < TWO_32 && st.th.fall < TWO_32
    ensures LoadMemorySettings(StoredMemory(uci, st)) == st
  {
    var s := StoredMemory(uci, st);
    StoredFlag(s, "enable", if st.enable then 1 else 0);
    StoredNumber(s, "polling_interval", "60", st.pollingInterval);
    StoredThresholds(s, st.th);
  }

  lemma DefaultMemorySettings()
    ensures LoadMemorySettings(map[]) == MemorySettings(false, 60, Thresholds(80, 60))
  {
    var uci: Config := map["enable" := "0", "polling_interval" := "60"];
    assert Print(0) == "0" && Print(60) == "60";
    StoredFlag(uci, "enable", 0);
    StoredNumber(uci, "polling_interval", "60", 60);
    DefaultThresholds();
  }

  class MemoryMonitor {
    var uci: Config
    var settings: MemorySettings
    var riseTime: int
    var fallTime: int
    var timer: int            // milliseconds to the next poll, -1 when none is set
    var actions: seq<Action>  // a Rise also sends MemoryCriticalState!

    ghost function AlarmView(): Alarm
      reads this
    {
      Alarm(settings.th, riseTime, fallTime, RiseText(uci), FallText(uci))
    }

    method RunMemoryMonitor(r: Reading, riseClock: int, fallClock: int)
      requires r.Read? ==> r.info.total > 0
      modifies this`riseTime, this`fallTime, this`uci, this`actions, this`timer
      ensures var (a, acts) := Poll(old(AlarmView()), MemoryUtilisation(r), riseClock, fallClock);
              AlarmView() == a && actions == old(actions) + acts
      ensures OthersKept(old(uci), uci) && timer == Milliseconds(settings.pollingInterval)
    {
      CheckAlarm(MemoryUtilisation(r), riseClock, fallClock);
      timer := Milliseconds(settings.pollingInterval);
    }

    method CheckAlarm(util: nat, riseClock: int, fallClock: int)
      modifies this`riseTime, this`fallTime, this`uci, this`actions
      ensures var (a, acts) := Poll(old(AlarmView()), util, riseClock, fallClock);
              AlarmView() == a && actions == old(actions) + acts
      ensures OthersKept(old(uci), uci)
    {
      if util > settings.th.rise && fallTime >= riseTime {
        riseTime := riseClock;
        uci := uci["critical_rise_time" := Print(riseTime)];
        actions := actions + [Action(Rise, util, settings.th.rise, riseTime)];
      }
      if util < settings.th.fall && riseTime > fallTime {
        fallTime := fallClock;
        uci := uci["critical_fall_time" := Print(fallTime)];
        actions := actions + [Action(Fall, util, settings.th.fall, fallTime)];
      }
    }

    method FillGlobalMemoryCtx(config: Config, st: MemorySettings, rise: int, fall: int)
      modifies this
      ensures uci == config && settings == st && riseTime == rise && fallTime == fall
      ensures timer == -1 && actions == old(actions)
    {
      uci, settings, riseTime, fallTime, timer := config, st, rise, fall, -1;
    }

    /** 'sysmngr.reload': the timer is cancelled, everything is read again, and an enabled monitor polls at once. */
    method ReloadConfig(config: Config, r: Reading, riseClock: int, fallClock: int)
      requires SameTimes(config, uci) && (r.Read? ==> r.info.total > 0)
      modifies this
      ensures settings == LoadMemorySettings(config) && OthersKept(config, uci)
      ensures var a := Reload(old(AlarmView()), settings.th);
              if settings.enable then
                var (b, acts) := Poll(a, MemoryUtilisation(r), riseClock, fallClock);
                AlarmView() == b && actions == old(actions) + acts && timer == Milliseconds(settings.pollingInterval)
              else AlarmView() == a && actions == old(actions) && timer == -1
    {
      FillGlobalMemoryCtx(config, LoadMemorySettings(config), LoadTime(RiseText(config)), LoadTime(FallText(config)));
      if settings.enable {
        RunMemoryMonitor(r, riseClock, fallClock);
      }
    }
  }
}
