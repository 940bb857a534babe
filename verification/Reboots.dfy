/** The reboot log: boot counters kept as decimal text, a bounded history of reboot sections, the registration of
    one boot action per boot, and the cause left behind for the next boot. */
module Reboots {
  import opened Decimal
  import opened Texts

  const REBOOT_MAX_RETRIES := 15
  const REBOOT_MAX_ENTRIES := 32

  type Options = map<string, string>

  datatype Section = Section(name: string, timeStamp: string, firmwareUpdated: bool, cause: string, reason: string)

  /** The option section "reboots", the sections of type "reboot" in order, the lock file of this boot, and the retry
      count and timer of this daemon. */
  datatype Log = Log(options: Options, sections: seq<Section>, lock: bool, retries: nat, timer: bool)

  // ----- options

  /** An option read into a buffer of `size` bytes. */
  function Option(o: Options, name: string, fallback: string, size: nat): string
    requires size > 0
  {
    Truncated(if name in o then o[name] else fallback, size)
  }

  function Int(text: string): int {
    ToInt32(StrToL(text) % TWO_32)
  }

  function Counter(o: Options, name: string): int {
    Int(Option(o, name, "0", 16))
  }

  /** The next 32-bit value. */
  function Successor(n: int): int {
    ToInt32((n + 1) % TWO_32)
  }

  function Incremented(o: Options, name: string): Options {
    o[name := Print(Successor(Counter(o, name)))]
  }

  /** An empty value deletes the option. */
  function Put(o: Options, name: string, value: string): Options {
    if value == "" then o - {name} else o[name := value]
  }

  function MaxEntries(o: Options): int {
    Int(Option(o, "max_reboot_entries", "3", 16))
  }

  function Limit(max: int): nat {
    if max > 0 then max else REBOOT_MAX_ENTRIES
  }

  /** The number of sections a maximum allows. */
  function CapOf(max: int): nat {
    if max == 0 then 0 else Limit(max)
  }

  function Cap(o: Options): nat {
    CapOf(MaxEntries(o))
  }

  lemma IntRoundTrip(n: int)
    requires -TWO_31 <= n < TWO_31
    ensures Int(Truncated(Print(n), 16)) == n && ToInt32(n % TWO_32) == n
  {
    FitsFifteen(n);
    LongRoundTrip(n, TWO_64);
    Narrowed(n);
  }

  lemma Narrowed(n: int)
    requires -TWO_31 <= n < TWO_31
    ensures ToInt32(n % TWO_32) == n
  {
    ModuloWord(n, TWO_32);
  }

  lemma IncrementedCounter(o: Options, name: string)
    ensures Counter(o, name) < TWO_31 - 1 ==> Counter(Incremented(o, name), name) == Counter(o, name) + 1
    ensures forall other :: other != name ==> Counter(Incremented(o, name), other) == Counter(o, other)
  {
    var n := Counter(o, name) + 1;
    if n < TWO_31 {
      IntRoundTrip(n);
      SetOption(o, name, Print(n), name);
    }
  }

  lemma SetOption(o: Options, name: string, text: string, other: string)
    ensures Counter(o[name := text], other) == if other == name then Int(Truncated(text, 16)) else Counter(o, other)
  {
  }

  // ----- the reference

  function ReasonMessage(trigger: string, reason: string): string {
    if trigger == "defaultreset" then "FACTORY RESET"
    else if trigger == "upgrade" then "FIRMWARE UPGRADE"
    else if trigger != "" then trigger
    else if reason == "POR_RESET" then "POWER ON RESET"
    else if reason != "" then reason
    else "Unknown"
  }

  function BootCounted(o: Options, reset: bool): Options {
    if reset then o["boot_count" := "1"]["curr_version_boot_count" := "0"]
    else Incremented(Incremented(o, "boot_count"), "curr_version_boot_count")
  }

  function WatchdogCounted(o: Options, watchdog: bool): Options {
    if watchdog then Incremented(o, "watchdog_boot_count") else o
  }

  function KindCounted(o: Options, cold: bool): Options {
    Incremented(o, if cold then "cold_boot_count" else "warm_boot_count")
  }

  function Counted(o: Options, trigger: string, reason: string): Options {
    var booted := BootCounted(o, trigger == "defaultreset");
    KindCounted(WatchdogCounted(booted, Contains(reason, "watchdog")), reason == "POR_RESET")
  }

  /** delete_excess_reboot_sections removes one more than the excess, to make room. */
  function Trimmed(s: seq<Section>, max: int): seq<Section> {
    var excess := |s| - Limit(max);
    if excess < 0 then s else if excess + 1 >= |s| then [] else s[excess + 1..]
  }

  /** Setting a named section overwrites the one of that name or appends a new one. */
  function PutSection(s: seq<Section>, n: Section): seq<Section> {
    if s == [] then [n]
    else if s[0].name == n.name then [n] + s[1..]
    else [s[0]] + PutSection(s[1..], n)
  }

  lemma {:induction false} PutSectionFresh(s: seq<Section>, n: Section)
    requires forall i :: 0 <= i < |s| ==> s[i].name != n.name
    ensures PutSection(s, n) == s + [n]
  {
    if s == [] {
    } else {
      PutSectionFresh(s[1..], n);
      assert s + [n] == [s[0]] + (s[1..] + [n]);
    }
  }

  /** A section whose name is taken replaces the one that has it, in its place. */
  lemma {:induction false} PutSectionTaken(s: seq<Section>, n: Section, k: nat)
    requires k < |s| && s[k].name == n.name && forall i :: 0 <= i < k ==> s[i].name != n.name
    ensures PutSection(s, n) == s[k := n]
  {
    if k == 0 {
    } else {
      PutSectionTaken(s[1..], n, k - 1);
    }
  }

  function CauseOf(o: Options, trigger: string): string {
    if trigger == "defaultreset" then "FactoryReset" else Option(o, "last_reboot_cause", "LocalReboot", 32)
  }

  function SectionFor(o: Options, trigger: string, reason: string, now: int, stamp: string): Section {
    Section("reboot_" + Print(now), stamp, trigger == "upgrade", CauseOf(o, trigger), ReasonMessage(trigger, reason))
  }

  /** A registered boot, and the section created for it, if any. */
  datatype Created = NoSection | Created(section: Section)
  datatype Boot = Boot(trigger: string, reason: string, entry: Created)

  function Entry(l: Log, trigger: string, reason: string, now: int, stamp: string): Created {
    if MaxEntries(l.options) == 0 then NoSection else Created(SectionFor(l.options, trigger, reason, now, stamp))
  }

  function Register(l: Log, trigger: string, reason: string, now: int, stamp: string): Log {
    var o := Counted(l.options, trigger, reason);
    match Entry(l, trigger, reason, now, stamp)
    case NoSection => l.(options := o, lock := true)
    case Created(n) =>
      l.(options := if trigger == "defaultreset" then o else Put(o, "last_reboot_cause", ""),
         sections := PutSection(Trimmed(l.sections, MaxEntries(l.options)), n), lock := true)
  }

  /** What /var/reset_reason says; without it both texts are empty. */
  datatype ResetFile = Missing | File(trigger: string, reason: string)

  function Trigger(f: ResetFile): string {
    if f.File? then f.trigger else ""
  }

  function Reason(f: ResetFile): string {
    if f.File? then f.reason else ""
  }

  predicate Registers(l: Log, f: ResetFile) {
    !l.lock && (Reason(f) != "" || l.retries >= REBOOT_MAX_RETRIES)
  }

  function Init(l: Log, f: ResetFile, now: int, stamp: string): Log {
    if l.lock then l
    else if Registers(l, f) then Register(l, Trigger(f), Reason(f), now, stamp)
    else l.(retries := l.retries + 1, timer := true)
  }

  /** The newest sections a maximum allows. */
  function Newest(s: seq<Section>, max: int): seq<Section> {
    var excess := |s| - Limit(max);
    if max == 0 then [] else if excess > 0 then s[excess..] else s
  }

  function SetMax(l: Log, value: string): Log {
    l.(sections := Newest(l.sections, Int(value)), options := Put(l.options, "max_reboot_entries", value))
  }

  function Remove(l: Log, i: nat): Log
    requires i < |l.sections|
  {
    l.(sections := l.sections[..i] + l.sections[i + 1..])
  }

  function SetCause(l: Log, cause: string): Log {
    l.(options := Put(l.options, "last_reboot_cause", cause))
  }

  // ----- the code

  class RebootLog {
    var options: Options
    var sections: seq<Section>
    var lock: bool
    var retries: nat
    var timer: bool

    ghost function View(): Log
      reads this`options, this`sections, this`lock, this`retries, this`timer
    {
      Log(options, sections, lock, retries, timer)
    }

    /** Below the largest int the counter becomes its successor, and every other counter stays. */
    method IncrementOptionCounter(name: string)
      modifies this`options
      ensures options == Incremented(old(options), name)
      ensures Counter(old(options), name) < TWO_31 - 1 ==> Counter(options, name) == Counter(old(options), name) + 1
      ensures forall other :: other != name ==> Counter(options, other) == Counter(old(options), other)
    {
      IncrementedCounter(options, name);
      var counter := Successor(Counter(options, name));
      options := options[name := Print(counter)];
    }

    method DeleteExcessRebootSections(max: int)
      modifies this`sections
      ensures sections == Trimmed(old(sections), max)
    {
      var total := 0;
      for i := 0 to |sections|
        invariant total == i
      {
        total := total + 1;
      }
      var toRemove := total - (if max > 0 then max else REBOOT_MAX_ENTRIES);
      if toRemove < 0 {
        return;
      }
      var removed := 0;
      for i := 0 to total
        invariant removed == if i <= toRemove + 1 then i else toRemove + 1
        invariant removed <= |old(sections)| && sections == old(sections)[removed..]
      {
        if removed <= toRemove {
          sections := sections[1..];
          removed := removed + 1;
        }
      }
    }

    method WriteSection(n: Section)
      modifies this`sections
      ensures sections == PutSection(old(sections), n)
    {
      var i := 0;
      while i < |sections| && sections[i].name != n.name
        invariant i <= |sections| && forall j :: 0 <= j < i ==> sections[j].name != n.name
      {
        i := i + 1;
      }
      if i < |sections| {
        PutSectionTaken(sections, n, i);
        sections := sections[i := n];
      } else {
        PutSectionFresh(sections, n);
        sections := sections + [n];
      }
    }

    method CreateRebootSection(trigger: string, reason: string, now: int, stamp: string)
      modifies this`options, this`sections
      ensures sections == PutSection(old(sections), SectionFor(old(options), trigger, reason, now, stamp))
      ensures options == if trigger == "defaultreset" then old(options) else Put(old(options), "last_reboot_cause", "")
    {
      var cause := "FactoryReset";
      if trigger != "defaultreset" {
        cause := Option(options, "last_reboot_cause", "LocalReboot", 32);
        options := options - {"last_reboot_cause"};
      }
      WriteSection(Section("reboot_" + Print(now), stamp, trigger == "upgrade", cause, ReasonMessage(trigger, reason)));
    }

    /** The counters, in the order of the code. */
    method CountBoot(trigger: string, reason: string)
      modifies this`options
      ensures options == Counted(old(options), trigger, reason)
    {
      if trigger == "defaultreset" {
        options := options["boot_count" := "1"];
        options := options["curr_version_boot_count" := "0"];
      } else {
        IncrementOptionCounter("boot_count");
        IncrementOptionCounter("curr_version_boot_count");
      }
      if Contains(reason, "watchdog") {
        IncrementOptionCounter("watchdog_boot_count");
      }
      if reason == "POR_RESET" {
        IncrementOptionCounter("cold_boot_count");
      } else {
        IncrementOptionCounter("warm_boot_count");
      }
    }

    method RegisterBootAction(f: ResetFile, now: int, stamp: string)
      modifies this`options, this`sections, this`lock
      ensures View() == if old(lock) then old(View()) else Register(old(View()), Trigger(f), Reason(f), now, stamp)
    {
      if lock {
        return;
      }
      ghost var l := View();
      var trigger, reason := Trigger(f), Reason(f);
      RegisterIsCountThenRecord(View(), trigger, reason, now, stamp);
      CountBoot(trigger, reason);
      assert View() == l.(options := Counted(l.options, trigger, reason));
      RecordBoot(MaxEntries(options), trigger, reason, now, stamp);
      lock := true;
    }

    method RecordBoot(max: int, trigger: string, reason: string, now: int, stamp: string)
      modifies this`options, this`sections
      ensures View() == Recorded(old(View()), max, trigger, reason, now, stamp)
    {
      if max != 0 {
        DeleteExcessRebootSections(max);
        CreateRebootSection(trigger, reason, now, stamp);
      }
    }

    method RebootsInit(f: ResetFile, now: int, stamp: string)
      modifies this
      ensures View() == Init(old(View()), f, now, stamp)
    {
      if lock {
        return;
      }
      if Reason(f) != "" {
        RegisterBootAction(f, now, stamp);
        return;
      }
      if retries < REBOOT_MAX_RETRIES {
        retries := retries + 1;
        timer := true;
      } else {
        RegisterBootAction(f, now, stamp);
      }
    }

    method SetMaxRebootEntries(value: string)
      modifies this`options, this`sections
      ensures View() == SetMax(old(View()), value)
    {
      KeepNewest(Int(value));
      options := if value == "" then options - {"max_reboot_entries"} else options["max_reboot_entries" := value];
    }

    method KeepNewest(max: int)
      modifies this`sections
      ensures sections == Newest(old(sections), max)
    {
      if max == 0 {
        RemoveAllReboots();
      } else {
        var total := |sections|;
        var toDelete := total - (if max > 0 then max else REBOOT_MAX_ENTRIES);
        if toDelete > 0 {
          for i := 0 to total
            invariant var k := if i < toDelete then i else toDelete; k <= total && sections == old(sections)[k..]
          {
            if i < toDelete {
              sections := sections[1..];
            }
          }
        }
      }
    }

    method RemoveAllReboots()
      modifies this`sections
      ensures sections == []
    {
      while sections != []
        decreases |sections|
      {
        sections := sections[1..];
      }
    }

    method RemoveReboot(i: nat)
      requires i < |sections|
      modifies this`sections
      ensures View() == Remove(old(View()), i)
      ensures old(sections) == sections[..i] + [old(sections)[i]] + sections[i..]
    {
      sections := sections[..i] + sections[i + 1..];
    }

    /** _exec_reboot around the reboot call: "RemoteReboot" before it, and "" again when it failed. What is left is
        the cause that the next boot records, unless it is a factory reset. */
    method SetLastRebootCause(cause: string)
      modifies this`options
      ensures View() == SetCause(old(View()), cause)
      ensures forall trigger :: CauseOf(options, trigger) ==
                if trigger == "defaultreset" then "FactoryReset"
                else if cause == "" then "LocalReboot" else Truncated(cause, 32)
    {
      if cause == "" {
        options := options - {"last_reboot_cause"};
      } else {
        options := options["last_reboot_cause" := cause];
      }
    }
  }

  // ----- what counting leaves alone

  predicate IsCounter(name: string) {
    name in {"boot_count", "curr_version_boot_count", "watchdog_boot_count", "cold_boot_count", "warm_boot_count"}
  }

  /** Counting a boot changes neither the maximum nor the cause left for it. */
  lemma CountingKeeps(o: Options, trigger: string, reason: string)
    ensures var c := Counted(o, trigger, reason);
            MaxEntries(c) == MaxEntries(o) && CauseOf(c, trigger) == CauseOf(o, trigger)
            && ("last_reboot_cause" in c <==> "last_reboot_cause" in o)
  {
    var c := Counted(o, trigger, reason);
    var m, k := "max_reboot_entries", "last_reboot_cause";
    assert !IsCounter(m) && !IsCounter(k);
    CountingKeepsOption(o, trigger, reason, m);
    CountingKeepsOption(o, trigger, reason, k);
  }

  /** The log after the section of a boot has been created, when the maximum lets it. */
  function Recorded(l: Log, max: int, trigger: string, reason: string, now: int, stamp: string): Log {
    if max == 0 then l
    else
      l.(options := if trigger == "defaultreset" then l.options else Put(l.options, "last_reboot_cause", ""),
         sections := PutSection(Trimmed(l.sections, max), SectionFor(l.options, trigger, reason, now, stamp)))
  }

  /** What is recorded after counting is what was to be recorded before. */
  lemma RegisterIsCountThenRecord(l: Log, trigger: string, reason: string, now: int, stamp: string)
    ensures var o, max := Counted(l.options, trigger, reason), MaxEntries(l.options);
            && MaxEntries(o) == max
            && Register(l, trigger, reason, now, stamp)
               == Recorded(l.(options := o), max, trigger, reason, now, stamp).(lock := true)
  {
    CountingKeeps(l.options, trigger, reason);
  }

  lemma CountingKeepsOption(o: Options, trigger: string, reason: string, name: string)
    requires !IsCounter(name)
    ensures var c := Counted(o, trigger, reason); (name in c <==> name in o) && (name in o ==> c[name] == o[name])
  {
  }
}
