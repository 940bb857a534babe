/** What holds of the reboot log over whole runs of boots, daemon restarts, init calls and operator commands. */
module RebootRuns {
  import opened Decimal
  import opened Texts
  import opened Reboots

  datatype Event =
    | PowerCycle                                       // /tmp and the daemon start afresh
    | Restart                                          // only the daemon starts afresh
    | InitCall(file: ResetFile, now: int, stamp: string)
    | ChangeMax(value: string)
    | ClearLog
    | RemoveOne(i: nat)
    | RemoteReboot                                     // the cause is left before the reboot call
    | RebootFailed                                     // and taken back after it

  function Registered(l: Log, e: Event): seq<Boot> {
    if e.InitCall? && Registers(l, e.file)
    then [Boot(Trigger(e.file), Reason(e.file), Entry(l, Trigger(e.file), Reason(e.file), e.now, e.stamp))] else []
  }

  function Next(l: Log, e: Event): Log {
    match e
    case PowerCycle => l.(lock := false, retries := 0, timer := false)
    case Restart => l.(retries := 0, timer := false)
    case InitCall(f, now, stamp) => Init(l, f, now, stamp)
    case ChangeMax(value) => SetMax(l, value)
    case ClearLog => l.(sections := [])
    case RemoveOne(i) => if i < |l.sections| then Remove(l, i) else l
    case RemoteReboot => SetCause(l, "RemoteReboot")
    case RebootFailed => SetCause(l, "")
  }

  /** The log after a run, and the boots registered in it. */
  function Run(l: Log, es: seq<Event>): (Log, seq<Boot>)
    decreases |es|
  {
    if es == [] then (l, [])
    else
      var (m, bs) := Run(Next(l, es[0]), es[1..]);
      (m, Registered(l, es[0]) + bs)
  }

  // ----- one registration per boot

  function Locked(l: Log): nat {
    if l.lock then 1 else 0
  }

  /** Registering and taking the lock are the same thing. */
  lemma StepRegistersOnce(l: Log, e: Event)
    requires !e.PowerCycle?
    ensures |Registered(l, e)| + Locked(l) == Locked(Next(l, e))
  {
  }

  predicate NoPowerCycle(es: seq<Event>) {
    forall i :: 0 <= i < |es| ==> !es[i].PowerCycle?
  }

  /** Between two power cycles at most one boot is registered, across any number of daemon restarts, and the lock file
      tells whether it was. */
  lemma {:induction false} RegisteredOncePerBoot(l: Log, es: seq<Event>)
    requires NoPowerCycle(es)
    ensures |Run(l, es).1| + Locked(l) == Locked(Run(l, es).0) <= 1
    decreases |es|
  {
    if es == [] {
    } else {
      StepRegistersOnce(l, es[0]);
      RegisteredOncePerBoot(Next(l, es[0]), es[1..]);
    }
  }

  /** An init call on a boot that is not registered yet, from the file and the retries alone: it registers and locks
      if and only if the file gives a reason or the fifteen retries are used up; otherwise it only counts a retry and
      sets the timer. */
  lemma InitLocksIff(l: Log, f: ResetFile, now: int, stamp: string)
    ensures var m := Init(l, f, now, stamp);
            && (l.lock ==> m == l)
            && (!l.lock ==> (m.lock <==> (f.File? && f.reason != "") || l.retries >= 15))
            && (!m.lock ==> m == l.(retries := l.retries + 1, timer := true))
            && (!l.lock && m.lock ==> m.retries == l.retries && m.timer == l.timer)
  {
  }

  predicate GivesReason(e: Event) {
    e.InitCall? && e.file.File? && e.file.reason != ""
  }

  /** One init call that finds a reason registers the boot, exactly once, whatever calls and restarts come before or
      after. */
  lemma {:induction false} ReasonRegisters(l: Log, es: seq<Event>, k: nat)
    requires NoPowerCycle(es) && k < |es| && GivesReason(es[k])
    ensures Run(l, es).0.lock && |Run(l, es).1| == if l.lock then 0 else 1
    decreases |es|
  {
    RegisteredOncePerBoot(l, es);
    var m := Next(l, es[0]);
    if k == 0 {
      InitLocksIff(l, es[0].file, es[0].now, es[0].stamp);
      RegisteredOncePerBoot(m, es[1..]);
    } else {
      ReasonRegisters(m, es[1..], k - 1);
    }
  }

  /** What a registered boot is, and what its section tells, from the file, the clock and the cause left behind. */
  lemma EntryTells(l: Log, e: Event)
    requires Registered(l, e) != []
    ensures var (b, f, o) := (Registered(l, e)[0], e.file, l.options);
            && |Registered(l, e)| == 1
            && b.trigger == (if f.File? then f.trigger else "") && b.reason == (if f.File? then f.reason else "")
            && (b.entry.Created? ==>
                  var s := b.entry.section;
                  && s.name == "reboot_" + Print(e.now) && s.timeStamp == e.stamp
                  && (s.firmwareUpdated <==> b.trigger == "upgrade")
                  && (b.trigger == "defaultreset" ==> s.cause == "FactoryReset" && s.reason == "FACTORY RESET")
                  && (b.trigger != "defaultreset" && "last_reboot_cause" !in o ==> s.cause == "LocalReboot")
                  && (b.trigger != "defaultreset" && "last_reboot_cause" in o && |o["last_reboot_cause"]| < 32 ==>
                        s.cause == o["last_reboot_cause"])
                  && (b.trigger == "upgrade" ==> s.reason == "FIRMWARE UPGRADE")
                  && (b.trigger !in {"", "upgrade", "defaultreset"} ==> s.reason == b.trigger)
                  && (b.trigger == "" && b.reason == "POR_RESET" ==> s.reason == "POWER ON RESET")
                  && (b.trigger == "" && b.reason !in {"", "POR_RESET"} ==> s.reason == b.reason)
                  && (b.trigger == b.reason == "" ==> s.reason == "Unknown"))
  {
  }

  /** The cap that a stored maximum stands for: none for 0, 32 for a negative one, the maximum itself otherwise, and
      three when it was never set. */
  lemma CapOfStored(o: Options, n: int)
    requires -TWO_31 <= n < TWO_31
    ensures Cap(o["max_reboot_entries" := Print(n)]) == if n == 0 then 0 else if n < 0 then 32 else n
    ensures "max_reboot_entries" !in o ==> Cap(o) == 3
  {
    IntRoundTrip(n);
    IntRoundTrip(3);
    assert Print(3) == "3";
  }

  function InitCalls(es: seq<Event>): nat {
    if es == [] then 0 else (if es[0].InitCall? then 1 else 0) + InitCalls(es[1..])
  }

  /** A daemon that keeps running registers its boot by the sixteenth init call, whether the reset reason ever
      appears or not. */
  lemma {:induction false} RegisteredWithinSixteenCalls(l: Log, es: seq<Event>)
    requires NoPowerCycle(es) && forall i :: 0 <= i < |es| ==> !es[i].Restart?
    requires InitCalls(es) + l.retries > REBOOT_MAX_RETRIES >= l.retries
    ensures Run(l, es).0.lock
    decreases |es|
  {
    if es == [] {
    } else {
      var m := Next(l, es[0]);
      if m.lock {
        RegisteredOncePerBoot(m, es[1..]);
      } else {
        RegisteredWithinSixteenCalls(m, es[1..]);
      }
    }
  }

  /** Once init was called, a daemon that keeps running has registered the boot or has its retry timer set, so the calls
      that this takes do come. */
  lemma {:induction false} RetryIsPending(l: Log, es: seq<Event>)
    requires NoPowerCycle(es) && forall i :: 0 <= i < |es| ==> !es[i].Restart?
    requires l.lock || l.timer || InitCalls(es) > 0
    ensures Run(l, es).0.lock || Run(l, es).0.timer
    decreases |es|
  {
    if es == [] {
    } else {
      RetryIsPending(Next(l, es[0]), es[1..]);
    }
  }

  // ----- the counters

  datatype Counts = Counts(boots: int, version: int, watchdog: int, cold: int, warm: int)

  function CountsOf(o: Options): Counts {
    Counts(Counter(o, "boot_count"), Counter(o, "curr_version_boot_count"), Counter(o, "watchdog_boot_count"),
           Counter(o, "cold_boot_count"), Counter(o, "warm_boot_count"))
  }

  function After(c: Counts, b: Boot): Counts {
    var reset := b.trigger == "defaultreset";
    Counts(if reset then 1 else c.boots + 1, if reset then 0 else c.version + 1,
           c.watchdog + (if Contains(b.reason, "watchdog") then 1 else 0),
           c.cold + (if b.reason == "POR_RESET" then 1 else 0), c.warm + (if b.reason == "POR_RESET" then 0 else 1))
  }

  function AfterAll(c: Counts, bs: seq<Boot>): Counts
    decreases |bs|
  {
    if bs == [] then c else AfterAll(After(c, bs[0]), bs[1..])
  }

  /** Room for `n` more boots in every 32-bit counter. */
  predicate Room(c: Counts, n: nat) {
    && n < TWO_31 && 0 <= c.boots < TWO_31 - n && c.version < TWO_31 - n && c.watchdog < TWO_31 - n
    && c.cold < TWO_31 - n && c.warm < TWO_31 - n
  }

  /** The counters with one of them set. */
  function With(c: Counts, name: string, value: int): Counts {
    if name == "boot_count" then c.(boots := value)
    else if name == "curr_version_boot_count" then c.(version := value)
    else if name == "watchdog_boot_count" then c.(watchdog := value)
    else if name == "cold_boot_count" then c.(cold := value)
    else if name == "warm_boot_count" then c.(warm := value)
    else c
  }

  lemma SetCounter(o: Options, name: string, text: string)
    ensures CountsOf(o[name := text]) == With(CountsOf(o), name, Int(Truncated(text, 16)))
  {
    SetOption(o, name, text, "boot_count");
    SetOption(o, name, text, "curr_version_boot_count");
    SetOption(o, name, text, "watchdog_boot_count");
    SetOption(o, name, text, "cold_boot_count");
    SetOption(o, name, text, "warm_boot_count");
  }

  /** A counter's successor, printed and read back through the 16-byte buffer, is the successor, and the other
      counters stay. */
  lemma CounterRoundTrip(o: Options, name: string)
    requires Counter(o, name) < TWO_31 - 1
    ensures CountsOf(Incremented(o, name)) == With(CountsOf(o), name, Counter(o, name) + 1)
  {
    var n := Counter(o, name) + 1;
    IntRoundTrip(n);
    SetCounter(o, name, Print(n));
  }

  lemma ResetTexts()
    ensures Int(Truncated("0", 16)) == 0 && Int(Truncated("1", 16)) == 1
  {
    IntRoundTrip(0);
    IntRoundTrip(1);
    assert Print(0) == "0" && Print(1) == "1";
  }

  lemma BootCounts(o: Options, reset: bool)
    requires Counter(o, "boot_count") < TWO_31 - 1 && Counter(o, "curr_version_boot_count") < TWO_31 - 1
    ensures var c := CountsOf(o);
            CountsOf(BootCounted(o, reset))
            == c.(boots := if reset then 1 else c.boots + 1, version := if reset then 0 else c.version + 1)
  {
    if reset {
      ResetTexts();
      SetCounter(o, "boot_count", "1");
      SetCounter(o["boot_count" := "1"], "curr_version_boot_count", "0");
    } else {
      CounterRoundTrip(o, "boot_count");
      var p := Incremented(o, "boot_count");
      assert Counter(p, "curr_version_boot_count") == CountsOf(p).version;
      CounterRoundTrip(p, "curr_version_boot_count");
    }
  }

  lemma WatchdogCounts(o: Options, dog: bool)
    requires Counter(o, "watchdog_boot_count") < TWO_31 - 1
    ensures var c := CountsOf(o);
            CountsOf(WatchdogCounted(o, dog)) == c.(watchdog := c.watchdog + (if dog then 1 else 0))
  {
    CounterRoundTrip(o, "watchdog_boot_count");
  }

  lemma KindCounts(o: Options, cold: bool)
    requires Counter(o, "cold_boot_count") < TWO_31 - 1 && Counter(o, "warm_boot_count") < TWO_31 - 1
    ensures var c := CountsOf(o);
            CountsOf(KindCounted(o, cold))
            == c.(cold := c.cold + (if cold then 1 else 0), warm := c.warm + (if cold then 0 else 1))
  {
    CounterRoundTrip(o, if cold then "cold_boot_count" else "warm_boot_count");
  }

  lemma CountersAre(o: Options)
    ensures Counter(o, "boot_count") == CountsOf(o).boots
    ensures Counter(o, "curr_version_boot_count") == CountsOf(o).version
    ensures Counter(o, "watchdog_boot_count") == CountsOf(o).watchdog
    ensures Counter(o, "cold_boot_count") == CountsOf(o).cold && Counter(o, "warm_boot_count") == CountsOf(o).warm
  {
  }

  lemma CountingCounts(o: Options, b: Boot)
    requires Room(CountsOf(o), 1)
    ensures CountsOf(Counted(o, b.trigger, b.reason)) == After(CountsOf(o), b)
  {
    ThreeParts(o, b, b.trigger == "defaultreset", Contains(b.reason, "watchdog"), b.reason == "POR_RESET");
  }

  lemma ThreeParts(o: Options, b: Boot, reset: bool, dog: bool, cold: bool)
    requires Room(CountsOf(o), 1)
    ensures var c := CountsOf(o);
            CountsOf(KindCounted(WatchdogCounted(BootCounted(o, reset), dog), cold))
            == Counts(if reset then 1 else c.boots + 1, if reset then 0 else c.version + 1,
                      c.watchdog + (if dog then 1 else 0),
                      c.cold + (if cold then 1 else 0), c.warm + (if cold then 0 else 1))
  {
    var p := BootCounted(o, reset);
    var q := WatchdogCounted(p, dog);
    CountersAre(o);
    CountersAre(p);
    CountersAre(q);
    BootCounts(o, reset);
    WatchdogCounts(p, dog);
    KindCounts(q, cold);
  }

  lemma PutKeepsCounts(o: Options, name: string, value: string)
    requires !IsCounter(name)
    ensures CountsOf(Put(o, name, value)) == CountsOf(o)
  {
    if value == "" {
      DropOption(o, name, "boot_count");
      DropOption(o, name, "curr_version_boot_count");
      DropOption(o, name, "watchdog_boot_count");
      DropOption(o, name, "cold_boot_count");
      DropOption(o, name, "warm_boot_count");
    } else {
      SetCounter(o, name, value);
    }
  }

  lemma DropOption(o: Options, name: string, other: string)
    requires other != name
    ensures Counter(o - {name}, other) == Counter(o, other)
  {
  }

  lemma OtherStepsKeepCounts(l: Log, e: Event)
    requires Registered(l, e) == []
    ensures CountsOf(Next(l, e).options) == CountsOf(l.options)
  {
    match e
    case ChangeMax(value) => PutKeepsCounts(l.options, "max_reboot_entries", value);
    case RemoteReboot => PutKeepsCounts(l.options, "last_reboot_cause", "RemoteReboot");
    case RebootFailed => PutKeepsCounts(l.options, "last_reboot_cause", "");
    case _ =>
  }

  lemma RegistrationCounts(l: Log, e: Event)
    requires Registered(l, e) != [] && Room(CountsOf(l.options), 1)
    ensures CountsOf(Next(l, e).options) == After(CountsOf(l.options), Registered(l, e)[0])
  {
    var b := Registered(l, e)[0];
    CountingCounts(l.options, b);
    PutKeepsCounts(Counted(l.options, b.trigger, b.reason), "last_reboot_cause", "");
  }

  /** Over any run the counters are the tally of the registered boots. */
  lemma {:induction false} CountersFollow(l: Log, es: seq<Event>)
    requires Room(CountsOf(l.options), |Run(l, es).1|)
    ensures CountsOf(Run(l, es).0.options) == AfterAll(CountsOf(l.options), Run(l, es).1)
    decreases |es|
  {
    if es == [] {
    } else {
      var r := Registered(l, es[0]);
      var m := Next(l, es[0]);
      var bs := Run(m, es[1..]).1;
      if r == [] {
        OtherStepsKeepCounts(l, es[0]);
        assert r + bs == bs;
      } else {
        RegistrationCounts(l, es[0]);
        assert (r + bs)[0] == r[0] && (r + bs)[1..] == bs;
      }
      CountersFollow(m, es[1..]);
    }
  }

  predicate Resets(bs: seq<Boot>) {
    exists i :: 0 <= i < |bs| && bs[i].trigger == "defaultreset"
  }

  lemma PowerOnIsNoWatchdog()
    ensures !Contains("POR_RESET", "watchdog")
  {
    var s := "POR_RESET";
    forall i | 0 <= i <= |s|
      ensures !("watchdog" <= s[i..])
    {
      assert i < |s| ==> s[i..][0] == s[i] != "watchdog"[0];
    }
  }

  /** The conservation laws of the tally. */
  lemma {:induction false} TallyLaws(c: Counts, bs: seq<Boot>)
    ensures var d := AfterAll(c, bs);
            && d.cold + d.warm == c.cold + c.warm + |bs|
            && 0 <= d.watchdog - c.watchdog <= d.warm - c.warm
            && d.boots - d.version == (if Resets(bs) then 1 else c.boots - c.version)
            && (!Resets(bs) ==> d.boots == c.boots + |bs|)
    decreases |bs|
  {
    if bs == [] {
    } else {
      PowerOnIsNoWatchdog();
      TallyLaws(After(c, bs[0]), bs[1..]);
      assert Resets(bs) <==> bs[0].trigger == "defaultreset" || Resets(bs[1..]) by {
        assert forall i :: 0 < i < |bs| ==> bs[i] == bs[1..][i - 1];
      }
    }
  }

  /** After a factory reset boot_count counts the boots since the last one, itself included. */
  lemma {:induction false} BootsSinceReset(c: Counts, bs: seq<Boot>, k: nat)
    requires k < |bs| && bs[k].trigger == "defaultreset" && forall i :: k < i < |bs| ==> bs[i].trigger != "defaultreset"
    ensures AfterAll(c, bs).boots == |bs| - k
    decreases |bs|
  {
    if k == 0 {
      assert !Resets(bs[1..]);
      TallyLaws(After(c, bs[0]), bs[1..]);
    } else {
      BootsSinceReset(After(c, bs[0]), bs[1..], k - 1);
    }
  }

  /** The stored counters obey the conservation laws over every run. */
  lemma BootCounterLaws(l: Log, es: seq<Event>)
    requires Room(CountsOf(l.options), |Run(l, es).1|)
    ensures var (m, bs) := Run(l, es);
            var (c, d) := (CountsOf(l.options), CountsOf(m.options));
            && d.cold + d.warm == c.cold + c.warm + |bs|
            && 0 <= d.watchdog - c.watchdog <= d.warm - c.warm
            && d.boots - d.version == (if Resets(bs) then 1 else c.boots - c.version)
            && (!Resets(bs) ==> d.boots == c.boots + |bs|)
            && (forall k :: 0 <= k < |bs| && bs[k].trigger == "defaultreset" && !Resets(bs[k + 1..]) ==>
                  d.boots == |bs| - k)
  {
    var (m, bs) := Run(l, es);
    var c := CountsOf(l.options);
    CountersFollow(l, es);
    TallyLaws(c, bs);
    forall k | 0 <= k < |bs| && bs[k].trigger == "defaultreset" && !Resets(bs[k + 1..])
      ensures AfterAll(c, bs).boots == |bs| - k
    {
      forall i | k < i < |bs|
        ensures bs[i].trigger != "defaultreset"
      {
        assert bs[i] == bs[k + 1..][i - k - 1];
      }
      BootsSinceReset(c, bs, k);
    }
  }

  // ----- the cause token

  predicate HasToken(o: Options) {
    "last_reboot_cause" in o && o["last_reboot_cause"] == "RemoteReboot"
  }

  function Tokens(es: seq<Event>): nat {
    if es == [] then 0 else (if es[0].RemoteReboot? then 1 else 0) + Tokens(es[1..])
  }

  function RemoteEntries(bs: seq<Boot>): nat {
    if bs == [] then 0
    else (if bs[0].entry.Created? && bs[0].entry.section.cause == "RemoteReboot" then 1 else 0) + RemoteEntries(bs[1..])
  }

  /** An entry says RemoteReboot exactly when the cause was left and the boot is no factory reset, and the cause
      survives a registered boot exactly when no entry used it. */
  lemma CauseIsRemoteIff(l: Log, e: Event)
    requires Registered(l, e) != []
    ensures var b := Registered(l, e)[0];
            var uses := b.entry.Created? && b.trigger != "defaultreset";
            && (b.entry.Created? ==> (b.entry.section.cause == "RemoteReboot" <==> uses && HasToken(l.options)))
            && (HasToken(Next(l, e).options) <==> HasToken(l.options) && !uses)
  {
    CountingKeepsOption(l.options, Trigger(e.file), Reason(e.file), "last_reboot_cause");
    assert "FactoryReset"[0] != "RemoteReboot"[0] && "LocalReboot"[0] != "RemoteReboot"[0];
  }

  lemma OneEntry(l: Log, e: Event)
    ensures RemoteEntries(Registered(l, e)) + (if HasToken(Next(l, e).options) then 1 else 0)
            <= (if e.RemoteReboot? then 1 else 0) + (if HasToken(l.options) then 1 else 0)
  {
    if Registered(l, e) != [] {
      CauseIsRemoteIff(l, e);
      assert Registered(l, e)[1..] == [];
    }
  }

  /** Entries with cause RemoteReboot never outnumber the times the cause was left: creating one consumes it. */
  lemma {:induction false} TokenIsConsumed(l: Log, es: seq<Event>)
    ensures var (m, bs) := Run(l, es);
            RemoteEntries(bs) + (if HasToken(m.options) then 1 else 0)
            <= Tokens(es) + (if HasToken(l.options) then 1 else 0)
    decreases |es|
  {
    if es == [] {
    } else {
      OneEntry(l, es[0]);
      TokenIsConsumed(Next(l, es[0]), es[1..]);
      var r, bs := Registered(l, es[0]), Run(Next(l, es[0]), es[1..]).1;
      assert r == [] ==> r + bs == bs;
      assert r != [] ==> (r + bs)[0] == r[0] && (r + bs)[1..] == bs && r[1..] == [];
    }
  }

  // ----- the history

  lemma {:induction false} PutSectionLength(s: seq<Section>, n: Section)
    ensures |PutSection(s, n)| <= |s| + 1
  {
    if s == [] {
    } else {
      PutSectionLength(s[1..], n);
    }
  }

  predicate FreshName(s: seq<Section>, name: string) {
    forall i :: 0 <= i < |s| ==> s[i].name != name
  }

  /** A history of `cap` places with room made for one more: the newest min(old, cap - 1) sections. */
  function NewestWithRoom(s: seq<Section>, cap: nat): seq<Section>
    requires cap > 0
  {
    if |s| < cap then s else s[|s| - (cap - 1)..]
  }

  lemma TrimmedIsNewest(s: seq<Section>, max: int)
    requires max != 0
    ensures Trimmed(s, max) == NewestWithRoom(s, Limit(max))
  {
  }

  /** A registered boot with room in the history keeps exactly the newest min(old, cap - 1) sections, in order, and
      adds its own; without room it changes nothing. */
  lemma RegisteredBootKeepsNewest(l: Log, e: Event)
    requires Registered(l, e) != [] && FreshName(l.sections, "reboot_" + Print(e.now))
    ensures var cap, entry := Cap(l.options), Registered(l, e)[0].entry;
            && (cap == 0 <==> entry.NoSection?)
            && Next(l, e).sections == if cap == 0 then l.sections else NewestWithRoom(l.sections, cap) + [entry.section]
  {
    var max := MaxEntries(l.options);
    var entry := Registered(l, e)[0].entry;
    if max != 0 {
      TrimmedIsNewest(l.sections, max);
      PutSectionFresh(NewestWithRoom(l.sections, Limit(max)), entry.section);
    }
  }

  /** The maximum that the next boot reads after `value` was stored: 15 characters of it, or 3 when it was empty. */
  function ReadBack(value: string): int {
    Int(Truncated(if value == "" then "3" else value, 16))
  }

  lemma StoredMax(l: Log, value: string)
    ensures MaxEntries(SetMax(l, value).options) == ReadBack(value)
  {
  }

  /** A cap change keeps exactly the newest sections that the written value allows. */
  lemma CapChangeKeepsNewest(l: Log, value: string)
    ensures var cap := CapOf(Int(value));
            SetMax(l, value).sections == if |l.sections| <= cap then l.sections else l.sections[|l.sections| - cap..]
  {
  }

  function Min(a: int, b: int): int {
    if a < b then a else b
  }

  predicate Within(l: Log) {
    |l.sections| <= Cap(l.options)
  }

  /** The sections that writing `value` leaves are no more than the next boot allows. */
  predicate FitsReadBack(l: Log, value: string) {
    Min(|l.sections|, CapOf(Int(value))) <= CapOf(ReadBack(value))
  }

  /** After a cap change the history is within the stored cap exactly when what the written value keeps fits the value
      that is read back. */
  lemma CapChangeIsWithinIff(l: Log, value: string)
    ensures Within(SetMax(l, value)) <==> FitsReadBack(l, value)
  {
    StoredMax(l, value);
    CapChangeKeepsNewest(l, value);
  }

  /** A value keeps every history within the stored cap exactly when it allows no more than its stored text does. */
  lemma ValueIsSafeIff(o: Options, value: string)
    ensures (forall s: seq<Section> :: Within(SetMax(Log(o, s, false, 0, false), value)))
            <==> CapOf(Int(value)) <= CapOf(ReadBack(value))
  {
    var n := CapOf(Int(value));
    var s := seq(n, _ => Section("", "", false, "", ""));
    CapChangeIsWithinIff(Log(o, s, false, 0, false), value);
    forall t: seq<Section> | n <= CapOf(ReadBack(value))
      ensures Within(SetMax(Log(o, t, false, 0, false), value))
    {
      CapChangeIsWithinIff(Log(o, t, false, 0, false), value);
    }
  }

  /** A text of one to fifteen characters is read back as it was written. */
  lemma ShortValueIsSafe(l: Log, value: string)
    requires 0 < |value| <= 15
    ensures ReadBack(value) == Int(value) && FitsReadBack(l, value)
  {
  }

  /** Thirty-two written in sixteen characters keeps up to 32 sections, and the next boot reads a maximum of three. */
  lemma LongMaximumExceedsCap(l: Log)
    requires |l.sections| == 10
    ensures var m := SetMax(l, "0000000000000032"); |m.sections| == 10 && Cap(m.options) == 3
  {
    var value := "0000000000000032";
    assert Print(3) == "3" && Print(32) == "32";
    assert value == Zeros(14) + Print(32) && Truncated(value, 16) == Zeros(14) + Print(3);
    PaddedNumber(14, 32);
    PaddedNumber(14, 3);
    CapChangeKeepsNewest(l, value);
    StoredMax(l, value);
  }

  lemma PaddedNumber(n: nat, i: nat)
    requires i < TWO_31
    ensures Int(Zeros(n) + Print(i)) == i
  {
    var t := Zeros(n) + Digits(i);
    LeadingZeros(n, Digits(i));
    LeadingDigitsAll(t);
    MagnitudeDigits(i);
    assert IsDigit(t[0]) by { assert t[0] == if n > 0 then '0' else Digits(i)[0]; }
    ReadUnsigned(t, i);
    Narrowed(i);
  }

  lemma ReadUnsigned(t: string, i: nat)
    requires t != [] && AllDigits(t) && IsDigit(t[0]) && i < TWO_31
    requires LeadingDigits(t) == t && Magnitude(t) == i
    ensures StrToL(t) == i
  {
    assert SkipBlanks(t) == t;
  }

  function Zeros(n: nat): (z: string)
    ensures |z| == n && forall i :: 0 <= i < n ==> z[i] == '0'
  {
    seq(n, _ => '0')
  }

  /** Leading zeros do not change what strtol reads. */
  lemma {:induction false} LeadingZeros(n: nat, s: string)
    requires AllDigits(s)
    ensures Magnitude(Zeros(n) + s) == Magnitude(s)
  {
    var t := Zeros(n) + s;
    if s == [] && n == 0 {
    } else if s == [] {
      assert t[..|t| - 1] == Zeros(n - 1) + s;
      LeadingZeros(n - 1, s);
    } else {
      assert t[..|t| - 1] == Zeros(n) + s[..|s| - 1];
      LeadingZeros(n, s[..|s| - 1]);
    }
  }

  /** One step keeps the history within the cap exactly when it is no cap change whose text is read back too small. */
  lemma StepIsWithinIff(l: Log, e: Event)
    requires Within(l)
    ensures Within(Next(l, e)) <==> (e.ChangeMax? ==> FitsReadBack(l, e.value))
  {
    if e.ChangeMax? {
      CapChangeIsWithinIff(l, e.value);
    } else if Registered(l, e) != [] {
      RegistrationMeetsCap(l, e);
    } else if e.RemoteReboot? || e.RebootFailed? {
      CauseKeepsCap(l.options, if e.RemoteReboot? then "RemoteReboot" else "");
    }
  }

  lemma CauseKeepsCap(o: Options, cause: string)
    ensures Cap(Put(o, "last_reboot_cause", cause)) == Cap(o)
  {
  }

  /** A boot with room in the history brings it within the cap, however long it was before. */
  lemma RegistrationMeetsCap(l: Log, e: Event)
    requires Registered(l, e) != [] && (Cap(l.options) > 0 || |l.sections| <= Cap(l.options))
    ensures |Next(l, e).sections| <= Cap(Next(l, e).options)
  {
    CountingKeeps(l.options, Trigger(e.file), Reason(e.file));
    var max, entry := MaxEntries(l.options), Registered(l, e)[0].entry;
    if max != 0 {
      TrimmedIsNewest(l.sections, max);
      PutSectionLength(Trimmed(l.sections, max), entry.section);
      CauseKeepsCap(Counted(l.options, Trigger(e.file), Reason(e.file)), "");
    }
  }

  /** Every cap change of a run meets the condition where it is made. */
  predicate CapsReadBack(l: Log, es: seq<Event>)
    decreases |es|
  {
    es == [] || ((es[0].ChangeMax? ==> FitsReadBack(l, es[0].value)) && CapsReadBack(Next(l, es[0]), es[1..]))
  }

  predicate AlwaysWithin(l: Log, es: seq<Event>)
    decreases |es|
  {
    Within(l) && (es == [] || AlwaysWithin(Next(l, es[0]), es[1..]))
  }

  /** From a history within the cap, over any run of operations, the history is within the cap after every step if and
      only if every cap change keeps no more sections than its stored text allows. */
  lemma {:induction false} HistoryIsBoundedIff(l: Log, es: seq<Event>)
    requires Within(l)
    ensures AlwaysWithin(l, es) <==> CapsReadBack(l, es)
    decreases |es|
  {
    if es == [] {
    } else {
      StepIsWithinIff(l, es[0]);
      if Within(Next(l, es[0])) {
        HistoryIsBoundedIff(Next(l, es[0]), es[1..]);
      }
    }
  }

  /** In particular at the end of a run. */
  lemma {:induction false} HistoryIsBounded(l: Log, es: seq<Event>)
    requires Within(l) && CapsReadBack(l, es)
    ensures Within(Run(l, es).0)
    decreases |es|
  {
    if es == [] {
    } else {
      StepIsWithinIff(l, es[0]);
      HistoryIsBounded(Next(l, es[0]), es[1..]);
    }
  }

  function CreatedIn(bs: seq<Boot>): seq<Section> {
    if bs == [] then []
    else (if bs[0].entry.Created? then [bs[0].entry.section] else []) + CreatedIn(bs[1..])
  }

  predicate IsSuffix(s: seq<Section>, t: seq<Section>) {
    |s| <= |t| && s == t[|t| - |s|..]
  }

  predicate FreshNames(l: Log, es: seq<Event>)
    decreases |es|
  {
    es == [] ||
    (&& (Registered(l, es[0]) != [] ==> FreshName(l.sections, "reboot_" + Print(es[0].now)))
     && FreshNames(Next(l, es[0]), es[1..]))
  }

  lemma RegistrationKeepsSuffix(l: Log, e: Event)
    requires Registered(l, e) != [] && FreshName(l.sections, "reboot_" + Print(e.now))
    ensures IsSuffix(Next(l, e).sections, l.sections + CreatedIn(Registered(l, e)))
  {
    var r := Registered(l, e);
    RegisteredBootKeepsNewest(l, e);
    assert r[1..] == [];
    assert CreatedIn(r) == if r[0].entry.Created? then [r[0].entry.section] else [];
    if r[0].entry.Created? {
      RoomForOne(l.sections, Cap(l.options), r[0].entry.section);
    } else {
      assert l.sections + [] == l.sections;
    }
  }

  lemma RoomForOne(s: seq<Section>, cap: nat, n: Section)
    requires cap > 0
    ensures IsSuffix(NewestWithRoom(s, cap) + [n], s + [n])
  {
  }

  lemma NewestIsSuffix(s: seq<Section>, max: int)
    ensures IsSuffix(Newest(s, max), s)
  {
  }

  lemma StepKeepsSuffix(l: Log, e: Event)
    requires !e.RemoveOne? && (Registered(l, e) != [] ==> FreshName(l.sections, "reboot_" + Print(e.now)))
    ensures IsSuffix(Next(l, e).sections, l.sections + CreatedIn(Registered(l, e)))
  {
    if Registered(l, e) != [] {
      RegistrationKeepsSuffix(l, e);
    } else {
      assert l.sections + [] == l.sections;
      if e.ChangeMax? {
        NewestIsSuffix(l.sections, Int(e.value));
      }
    }
  }

  /** Unless single entries are removed by hand, the history is always the newest part of everything ever created. */
  lemma {:induction false} HistoryIsNewest(l: Log, es: seq<Event>)
    requires FreshNames(l, es) && forall i :: 0 <= i < |es| ==> !es[i].RemoveOne?
    ensures IsSuffix(Run(l, es).0.sections, l.sections + CreatedIn(Run(l, es).1))
    decreases |es|
  {
    if es == [] {
      assert l.sections + [] == l.sections;
    } else {
      var m := Next(l, es[0]);
      StepKeepsSuffix(l, es[0]);
      HistoryIsNewest(m, es[1..]);
      assert Run(l, es) == (Run(m, es[1..]).0, Registered(l, es[0]) + Run(m, es[1..]).1);
      SuffixStep(l.sections, Registered(l, es[0]), m.sections, Run(m, es[1..]).1, Run(m, es[1..]).0.sections);
    }
  }

  lemma SuffixStep(s: seq<Section>, r: seq<Boot>, m: seq<Section>, bs: seq<Boot>, z: seq<Section>)
    requires IsSuffix(m, s + CreatedIn(r)) && IsSuffix(z, m + CreatedIn(bs))
    ensures IsSuffix(z, s + CreatedIn(r + bs))
  {
    CreatedConcat(r, bs);
    SuffixExtends(m, s + CreatedIn(r), CreatedIn(bs), z);
    assert s + CreatedIn(r + bs) == s + CreatedIn(r) + CreatedIn(bs);
  }

  lemma {:induction false} CreatedConcat(a: seq<Boot>, b: seq<Boot>)
    ensures CreatedIn(a + b) == CreatedIn(a) + CreatedIn(b)
  {
    if a == [] {
      assert a + b == b;
    } else {
      var s, t := a + b, a[1..];
      assert s[0] == a[0] && s[1..] == t + b;
      CreatedConcat(t, b);
      Associative(CreatedIn(a[..1]), CreatedIn(t), CreatedIn(b));
      CreatedCons(a);
      CreatedCons(s);
      assert s[..1] == a[..1];
    }
  }

  lemma CreatedCons(a: seq<Boot>)
    requires a != []
    ensures CreatedIn(a) == CreatedIn(a[..1]) + CreatedIn(a[1..])
  {
    assert a[..1][1..] == [];
  }

  lemma Associative(x: seq<Section>, y: seq<Section>, z: seq<Section>)
    ensures (x + y) + z == x + (y + z)
  {
  }

  lemma SuffixExtends(s: seq<Section>, t: seq<Section>, c: seq<Section>, z: seq<Section>)
    requires IsSuffix(s, t) && IsSuffix(z, s + c)
    ensures IsSuffix(z, t + c)
  {
    assert s + c == (t + c)[|t| - |s|..];
  }
}
