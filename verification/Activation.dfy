/** Activate() of a firmware image: which time windows are accepted, and the cron jobs made from them. */
module Activation {
  import opened Decimal

  const MAX_TIME_WINDOW := 5

  datatype WindowArg = WindowArg(start: string, end: string, mode: string, message: string, retries: string)

  const MODES := ["AnyTime", "Immediately", "WhenIdle", "ConfirmationNeeded"]

  /** Argument i of the call; what is missing reads as empty. */
  function Arg(args: seq<WindowArg>, i: nat): WindowArg {
    if i < |args| then args[i] else WindowArg("", "", "", "", "")
  }

  function Number(text: string): int {
    StrToL(text)
  }

  /** The data-model types of the arguments: unsignedInt, and int in lo..hi. */
  predicate UnsignedInt(text: string) {
    text != "" && AllDigits(text) && 0 <= Number(text) < TWO_32
  }

  predicate IntBetween(text: string, lo: int, hi: int) {
    && text != "" && (AllDigits(text) || (text[0] == '-' && |text| > 1 && AllDigits(text[1..])))
    && lo <= Number(text) <= hi
  }

  // ----- acceptance

  /** How many windows are given: those before the first without a start, at most five. */
  function WindowCount(args: seq<WindowArg>, i: nat := 0): (n: nat)
    requires i <= MAX_TIME_WINDOW
    ensures i <= n <= MAX_TIME_WINDOW
    ensures forall j :: i <= j < n ==> Arg(args, j).start != ""
    ensures n < MAX_TIME_WINDOW ==> Arg(args, n).start == ""
    decreases MAX_TIME_WINDOW - i
  {
    if i == MAX_TIME_WINDOW || Arg(args, i).start == "" then i else WindowCount(args, i + 1)
  }

  predicate WellFormed(w: WindowArg) {
    && w.end != "" && w.mode in MODES && UnsignedInt(w.start) && UnsignedInt(w.end)
    && (w.retries != "" ==> IntBetween(w.retries, -1, 10))
    && Number(w.start) <= Number(w.end)
  }

  /** A window is accepted after its predecessor: only neighbours are compared. */
  predicate AcceptedAfter(args: seq<WindowArg>, i: nat) {
    WellFormed(Arg(args, i)) && (i > 0 ==> Number(Arg(args, i - 1).end) <= Number(Arg(args, i).start))
  }

  predicate Accepted(args: seq<WindowArg>) {
    forall i :: 0 <= i < WindowCount(args) ==> AcceptedAfter(args, i)
  }

  /** The local arrays of the operation. */
  class Windows {
    const start: array<string>
    const end: array<string>
    const mode: array<string>
    const message: array<string>
    const retries: array<string>

    constructor ()
      ensures Shape() && fresh(start) && fresh(end) && fresh(mode) && fresh(message) && fresh(retries)
    {
      start := new string[MAX_TIME_WINDOW](_ => "");
      end := new string[MAX_TIME_WINDOW](_ => "");
      mode := new string[MAX_TIME_WINDOW](_ => "");
      message := new string[MAX_TIME_WINDOW](_ => "");
      retries := new string[MAX_TIME_WINDOW](_ => "");
    }

    ghost predicate Shape() {
      && start.Length == end.Length == mode.Length == message.Length == retries.Length == MAX_TIME_WINDOW
      && start != end && start != mode && start != message && start != retries && end != mode
      && end != message && end != retries && mode != message && mode != retries && message != retries
    }

    function At(i: nat): WindowArg
      requires Shape() && i < MAX_TIME_WINDOW
      reads start, end, mode, message, retries
    {
      WindowArg(start[i], end[i], mode[i], message[i], retries[i])
    }

    method Fetch(args: seq<WindowArg>, i: nat)
      requires Shape() && i < MAX_TIME_WINDOW
      modifies start, end, mode, message, retries
      ensures At(i) == Arg(args, i)
      ensures forall j :: 0 <= j < MAX_TIME_WINDOW && j != i ==> At(j) == old(At(j))
    {
      start[i] := Arg(args, i).start;
      end[i] := Arg(args, i).end;
      mode[i] := Arg(args, i).mode;
      message[i] := Arg(args, i).message;
      retries[i] := Arg(args, i).retries;
    }

    /** The validation loop. */
    method Accept(args: seq<WindowArg>) returns (valid: bool, last: int)
      requires Shape()
      modifies start, end, mode, message, retries
      ensures valid <==> Accepted(args)
      ensures valid ==> last == WindowCount(args) - 1
      ensures valid ==> forall i :: 0 <= i < MAX_TIME_WINDOW && i <= WindowCount(args) ==> At(i) == Arg(args, i)
    {
      last := -1;
      var i := 0;
      while i < MAX_TIME_WINDOW
        invariant i <= MAX_TIME_WINDOW && last == i - 1
        invariant WindowCount(args, i) == WindowCount(args)
        invariant forall j :: 0 <= j < i ==> At(j) == Arg(args, j) && AcceptedAfter(args, j)
      {
        Fetch(args, i);
        if At(i).start == "" {
          break;
        }
        var bad := CheckFetched(args, i);
        if bad {
          assert !AcceptedAfter(args, i);
          return false, last;
        }
        last := last + 1;
        i := i + 1;
      }
      return true, last;
    }

    /** The tests of one round: the window itself, and that it does not start before its predecessor's end. */
    method CheckFetched(args: seq<WindowArg>, i: nat) returns (bad: bool)
      requires Shape() && i < MAX_TIME_WINDOW
      requires At(i) == Arg(args, i) && (i > 0 ==> At(i - 1) == Arg(args, i - 1))
      ensures bad <==> !AcceptedAfter(args, i)
    {
      bad := CheckWindow(At(i));
      if !bad && i != 0 && Number(end[i - 1]) > Number(start[i]) {
        bad := true;
      }
    }

    method CheckWindow(w: WindowArg) returns (bad: bool)
      ensures bad <==> !WellFormed(w)
    {
      if w.end == "" || w.mode == "" {
        return true;
      }
      if !UnsignedInt(w.start) {
        return true;
      }
      if !UnsignedInt(w.end) {
        return true;
      }
      if w.retries != "" && !IntBetween(w.retries, -1, 10) {
        return true;
      }
      if w.mode !in MODES {
        return true;
      }
      return Number(w.start) > Number(w.end);
    }

    /** The scheduling loop: one job per window, each with its own reading of the clock. */
    method EmitJobs(clocks: seq<nat>, bankId: string, last: int, keepConfig: string) returns (jobs: seq<Job>)
      requires Shape() && |clocks| == MAX_TIME_WINDOW
      ensures |jobs| <= MAX_TIME_WINDOW && (|jobs| < MAX_TIME_WINDOW ==> At(|jobs|).start == "")
      ensures forall i :: 0 <= i < |jobs| ==>
                At(i).start != "" && jobs[i] == JobFor(At(i), clocks[i], bankId, i == last, keepConfig)
    {
      jobs := [];
      var i := 0;
      while i < MAX_TIME_WINDOW && start[i] != ""
        invariant i == |jobs| <= MAX_TIME_WINDOW
        invariant forall j :: 0 <= j < i ==>
                    At(j).start != "" && jobs[j] == JobFor(At(j), clocks[j], bankId, j == last, keepConfig)
      {
        var startT := if Number(start[i]) > 60 then Number(start[i]) else 60;
        var time := clocks[i] + startT;
        var duration := Number(end[i]) - Number(start[i]);
        jobs := jobs + [Job(time / 60, mode[i], bankId, duration, i == last, message[i], retries[i], keepConfig)];
        i := i + 1;
      }
    }
  }

  // ----- jobs

  /** A crontab line: the minute it runs at, counted from the epoch, and the arguments of the handler. */
  datatype Job = Job(
    minute: int, mode: string, bankId: string, duration: int, force: bool, message: string, retries: string,
    keepConfig: string)

  /** Seconds from now to the intended start: at least a minute. */
  function Delay(w: WindowArg): int {
    if Number(w.start) > 60 then Number(w.start) else 60
  }

  function JobFor(w: WindowArg, now: nat, bankId: string, force: bool, keepConfig: string): Job {
    Job((now + Delay(w)) / 60, w.mode, bankId, Number(w.end) - Number(w.start), force, w.message, w.retries, keepConfig)
  }

  function Begins(j: Job): int {
    60 * j.minute
  }

  function Ends(j: Job): int {
    60 * j.minute + j.duration
  }

  // ----- the operation

  datatype Code = Done | InvalidArgument | CommandFailure
  datatype Effects = Effects(jobs: seq<Job>, bootbankSet: bool, configCopied: bool, rebooting: bool)

  const NOTHING := Effects([], false, false, false)

  /** operate_DeviceInfoFirmwareImage_Activate; `opens`, `cron` and `sets` tell whether the crontab opens, cron
      restarts and the set_bootbank task starts. */
  method Activate(
    args: seq<WindowArg>, bankId: string, keepConfig: string, clocks: seq<nat>, opens: bool, cron: bool, sets: bool)
    returns (code: Code, e: Effects)
    requires |clocks| == MAX_TIME_WINDOW
    ensures code == InvalidArgument <==> !Accepted(args)
    ensures code == InvalidArgument || bankId == "" ==> code != Done && e == NOTHING
    ensures Accepted(args) && bankId != "" && WindowCount(args) == 0 ==>
              (code == Done <==> sets) && e == if sets then Effects([], true, keepConfig == "1", true) else NOTHING
    ensures Accepted(args) && bankId != "" && WindowCount(args) > 0 ==>
              (code == Done <==> opens && cron) && (!opens ==> e == NOTHING)
    ensures Accepted(args) && bankId != "" && WindowCount(args) > 0 && opens ==>
              e == NOTHING.(jobs := Schedule(args, clocks, bankId, keepConfig))
  {
    var w := new Windows();
    var valid, last := w.Accept(args);
    if !valid {
      return InvalidArgument, NOTHING;
    }
    if bankId == "" {
      return CommandFailure, NOTHING;
    }
    assert w.At(0) == Arg(args, 0);
    if w.start[0] != "" {
      if !opens {
        return CommandFailure, NOTHING;
      }
      var jobs := w.EmitJobs(clocks, bankId, last, keepConfig);
      forall i | 0 <= i < |jobs| && i <= WindowCount(args)
        ensures Arg(args, i).start != "" && jobs[i] == JobFor(Arg(args, i), clocks[i], bankId, i == last, keepConfig)
      {
        assert w.At(i) == Arg(args, i);
      }
      JobsAreSchedule(args, clocks, bankId, keepConfig, jobs);
      return if cron then Done else CommandFailure, NOTHING.(jobs := jobs);
    }
    if !sets {
      return CommandFailure, NOTHING;
    }
    return Done, Effects([], true, keepConfig == "1", true);
  }

  /** The jobs of accepted windows. */
  function Schedule(args: seq<WindowArg>, clocks: seq<nat>, bankId: string, keepConfig: string): (jobs: seq<Job>)
    requires |clocks| == MAX_TIME_WINDOW
    ensures |jobs| == WindowCount(args)
  {
    seq(WindowCount(args), i requires 0 <= i < WindowCount(args) =>
      JobFor(Arg(args, i), clocks[i], bankId, i == WindowCount(args) - 1, keepConfig))
  }

  lemma JobsAreSchedule(args: seq<WindowArg>, clocks: seq<nat>, bankId: string, keepConfig: string, jobs: seq<Job>)
    requires |clocks| == MAX_TIME_WINDOW && |jobs| <= MAX_TIME_WINDOW
    requires forall i :: 0 <= i < |jobs| && i <= WindowCount(args) ==>
               && Arg(args, i).start != ""
               && jobs[i] == JobFor(Arg(args, i), clocks[i], bankId, i == WindowCount(args) - 1, keepConfig)
    requires |jobs| < MAX_TIME_WINDOW && |jobs| <= WindowCount(args) ==> Arg(args, |jobs|).start == ""
    ensures jobs == Schedule(args, clocks, bankId, keepConfig)
  {
  }

  // ----- what the schedule guarantees

  /** Checks between neighbours order all windows. */
  lemma {:induction false} WindowsAreOrdered(args: seq<WindowArg>, i: nat, j: nat)
    requires Accepted(args) && i < j < WindowCount(args)
    ensures Number(Arg(args, i).end) <= Number(Arg(args, j).start)
    decreases j
  {
    FollowsNeighbour(args, j);
    if i == j - 1 {
    } else {
      WindowsAreOrdered(args, i, j - 1);
      FollowsNeighbour(args, j - 1);
    }
  }

  lemma FollowsNeighbour(args: seq<WindowArg>, j: nat)
    requires Accepted(args) && 0 < j < WindowCount(args)
    ensures Number(Arg(args, j - 1).end) <= Number(Arg(args, j).start) <= Number(Arg(args, j).end)
  {
    assert AcceptedAfter(args, j);
  }

  /** A job's minute is after the current one and at most 59 seconds before the intended start, which is the window's
      own start, or a minute from now when that is sooner. */
  lemma JobMinute(w: WindowArg, now: nat, bankId: string, force: bool, keepConfig: string)
    ensures var job := JobFor(w, now, bankId, force, keepConfig);
            && job.minute > now / 60
            && (Number(w.start) >= 60 ==> 0 <= now + Number(w.start) - 60 * job.minute <= 59)
            && (Number(w.start) < 60 ==> 0 <= now + 60 - 60 * job.minute <= 59)
  {
  }

  /** Every job of a schedule, from the arguments and the clock alone: its minute, its length, and everything that the
      handler is given; only the last one forces. */
  lemma ScheduledJob(args: seq<WindowArg>, clocks: seq<nat>, bankId: string, keepConfig: string, i: nat)
    requires |clocks| == MAX_TIME_WINDOW && i < WindowCount(args)
    ensures var (w, now, job) := (args[i], clocks[i], Schedule(args, clocks, bankId, keepConfig)[i]);
            var start := if StrToL(w.start) >= 60 then StrToL(w.start) else 60;
            && 0 <= now + start - 60 * job.minute <= 59 && job.minute > now / 60
            && job.duration == StrToL(w.end) - StrToL(w.start)
            && job.mode == w.mode && job.message == w.message && job.retries == w.retries
            && job.bankId == bankId && job.keepConfig == keepConfig
            && (job.force <==> i == |Schedule(args, clocks, bankId, keepConfig)| - 1)
  {
    assert Arg(args, i).start != "" && Arg(args, i) == args[i];
    JobMinute(args[i], clocks[i], bankId, i == WindowCount(args) - 1, keepConfig);
  }

  /** Every window is good on its own: times, mode and retries of the right kind, and an end not before the start. */
  predicate GoodWindow(w: WindowArg) {
    && w.start != "" && AllDigits(w.start) && 0 <= StrToL(w.start) < 0x1_0000_0000
    && w.end != "" && AllDigits(w.end) && 0 <= StrToL(w.end) < 0x1_0000_0000 && StrToL(w.start) <= StrToL(w.end)
    && (w.mode == "AnyTime" || w.mode == "Immediately" || w.mode == "WhenIdle" || w.mode == "ConfirmationNeeded")
    && (w.retries == "" || (IsNumeral(w.retries) && -1 <= StrToL(w.retries) <= 10))
  }

  predicate IsNumeral(text: string) {
    text != "" && (AllDigits(text) || (text[0] == '-' && text[1..] != "" && AllDigits(text[1..])))
  }

  /** The given windows are those before the first without a start, at most five. */
  predicate Given(args: seq<WindowArg>, i: nat) {
    i < |args| && i < 5 && forall j :: 0 <= j <= i ==> args[j].start != ""
  }

  /** A call is accepted if and only if every given window is good on its own and any two given windows are in order and
      do not overlap: comparing neighbours is enough. */
  lemma AcceptedIff(args: seq<WindowArg>)
    ensures Accepted(args) <==>
              && (forall i :: 0 <= i && Given(args, i) ==> GoodWindow(args[i]))
              && (forall i, j :: 0 <= i < j && Given(args, j) ==> StrToL(args[i].end) <= StrToL(args[j].start))
  {
    forall i: nat
      ensures Given(args, i) <==> i < WindowCount(args)
    {
      GivenIff(args, i);
    }
    forall i: nat | Given(args, i)
      ensures WellFormed(Arg(args, i)) <==> GoodWindow(args[i])
    {
    }
    if Accepted(args) {
      forall i, j | 0 <= i < j && Given(args, j)
        ensures StrToL(args[i].end) <= StrToL(args[j].start)
      {
        WindowsAreOrdered(args, i, j);
      }
      forall i | 0 <= i && Given(args, i)
        ensures GoodWindow(args[i])
      {
        assert AcceptedAfter(args, i);
      }
    }
  }

  lemma GivenIff(args: seq<WindowArg>, i: nat)
    ensures Given(args, i) <==> i < WindowCount(args)
  {
    var n := WindowCount(args);
    if i < n {
      assert forall j :: 0 <= j <= i ==> Arg(args, j).start != "";
    } else if n < MAX_TIME_WINDOW {
      assert Arg(args, n).start == "";
    }
  }

  predicate ClockForward(clocks: seq<nat>) {
    forall i, j :: 0 <= i < j < |clocks| ==> clocks[i] <= clocks[j]
  }

  /** How long the handler of window `a` may run into that of window `b`, in the worst alignment. */
  function WorstOverlap(a: WindowArg, b: WindowArg): int {
    Delay(a) - Number(a.start) + Number(a.end) - Delay(b) + (Delay(b) - Delay(a)) % 60
  }

  function Overlap(a: WindowArg, b: WindowArg, now: nat, later: nat): int {
    Ends(JobFor(a, now, "", false, "")) - Begins(JobFor(b, later, "", false, ""))
  }

  /** The worst overlap is an upper bound for every forward clock, and is reached. */
  lemma WorstOverlapIsExact(a: WindowArg, b: WindowArg)
    requires WellFormed(a) && WellFormed(b)
    ensures forall now: nat, later: nat :: now <= later ==> Overlap(a, b, now, later) <= WorstOverlap(a, b)
    ensures exists now: nat :: Overlap(a, b, now, now) == WorstOverlap(a, b)
  {
    forall now: nat, later: nat | now <= later
      ensures Overlap(a, b, now, later) <= WorstOverlap(a, b)
    {
      OverlapIsBounded(a, b, now, later);
    }
    var now := 59 * Delay(a);
    OverlapIs(a, b, now, now);
    OnTheMinute(Delay(a), Delay(b));
  }

  lemma OverlapIsBounded(a: WindowArg, b: WindowArg, now: nat, later: nat)
    requires now <= later
    ensures Overlap(a, b, now, later) <= WorstOverlap(a, b)
  {
    OverlapIs(a, b, now, later);
    Truncation(now + Delay(a), later + Delay(b), later - now, Delay(b) - Delay(a));
  }

  /** The overlap in seconds, with what each job's truncation to the minute takes away. */
  lemma OverlapIs(a: WindowArg, b: WindowArg, now: nat, later: nat)
    ensures var (p, q) := (now + Delay(a), later + Delay(b));
            Overlap(a, b, now, later) == Number(a.end) - Number(a.start) + p - q - p % 60 + q % 60
  {
    var p, q := now + Delay(a), later + Delay(b);
    assert p == 60 * (p / 60) + p % 60 && q == 60 * (q / 60) + q % 60;
  }

  lemma OnTheMinute(d: int, e: int)
    ensures (59 * d + d) % 60 == 0 && (59 * d + e) % 60 == (e - d) % 60
  {
    var k := (e - d) / 60;
    assert 59 * d + e == 60 * (d + k) + (e - d) % 60;
  }

  lemma Truncation(p: int, q: int, d: int, gap: int)
    requires q - p == d + gap && d >= 0
    ensures q % 60 - p % 60 <= d + gap % 60
  {
  }

  /** Two handlers overlap by less than a minute for every forward clock exactly when their worst overlap does;
      always when both windows start a minute or more from now, and never by two minutes. */
  lemma OverlapsBelowMinuteIff(args: seq<WindowArg>, i: nat, j: nat)
    requires Accepted(args) && i < j < WindowCount(args)
    ensures var (a, b) := (Arg(args, i), Arg(args, j));
            && ((forall now: nat, later: nat :: now <= later ==> Overlap(a, b, now, later) < 60)
                <==> WorstOverlap(a, b) < 60)
            && (Number(a.start) >= 60 ==> WorstOverlap(a, b) < 60)
            && WorstOverlap(a, b) < 120
  {
    var a, b := Arg(args, i), Arg(args, j);
    WindowsAreOrdered(args, i, j);
    assert AcceptedAfter(args, i) && AcceptedAfter(args, j);
    WorstOverlapIsExact(a, b);
    if WorstOverlap(a, b) >= 60 {
      var now: nat :| Overlap(a, b, now, now) == WorstOverlap(a, b);
      assert Overlap(a, b, now, now) >= 60;
    }
  }

  /** When no window starts within the first minute, any two scheduled handlers overlap by less than 60 seconds. */
  lemma ScheduleOverlap(args: seq<WindowArg>, clocks: seq<nat>, bankId: string, keepConfig: string, i: nat, j: nat)
    requires |clocks| == MAX_TIME_WINDOW && ClockForward(clocks) && Accepted(args) && i < j < WindowCount(args)
    requires Number(Arg(args, i).start) >= 60
    ensures var jobs := Schedule(args, clocks, bankId, keepConfig); Ends(jobs[i]) - Begins(jobs[j]) < 60
  {
    OverlapsBelowMinuteIff(args, i, j);
    assert Overlap(Arg(args, i), Arg(args, j), clocks[i], clocks[j]) < 60;
  }

  /** A window that starts at once is moved a minute and keeps its length, so it runs a full minute into the next. */
  lemma ClampedWindowOverlaps(a: WindowArg, b: WindowArg)
    requires a == WindowArg("0", "3600", "WhenIdle", "", "") && b == WindowArg("3600", "7200", "WhenIdle", "", "")
    ensures Accepted([a, b]) && Overlap(a, b, 0, 0) == 60
  {
    Numerals();
    TwoWindows(a, b);
    FullMinuteOverlap(a, b);
  }

  lemma FullMinuteOverlap(a: WindowArg, b: WindowArg)
    requires Number(a.start) == 0 && Number(a.end) == 3600 && Number(b.start) == 3600
    ensures Overlap(a, b, 0, 0) == 60
  {
    OverlapIs(a, b, 0, 0);
  }

  lemma TwoWindows(a: WindowArg, b: WindowArg)
    requires WellFormed(a) && WellFormed(b) && Number(a.end) <= Number(b.start)
    requires a.start != "" && b.start != ""
    ensures WindowCount([a, b]) == 2 && Accepted([a, b])
  {
    assert Arg([a, b], 2).start == "";
    assert WindowCount([a, b], 2) == 2;
    assert WindowCount([a, b], 1) == 2;
    assert AcceptedAfter([a, b], 0) && AcceptedAfter([a, b], 1);
  }

  lemma Numerals()
    ensures Number("0") == 0 && Number("3600") == 3600 && Number("7200") == 7200
    ensures WellFormed(WindowArg("0", "3600", "WhenIdle", "", ""))
    ensures WellFormed(WindowArg("3600", "7200", "WhenIdle", "", ""))
  {
    assert MODES[2] == "WhenIdle";
    LongRoundTrip(0, TWO_64);
    LongRoundTrip(3600, TWO_64);
    LongRoundTrip(7200, TWO_64);
    assert Digits(3) == "3" && Digits(36) == "36" && Digits(360) == "360" && Digits(3600) == "3600";
    assert Digits(7) == "7" && Digits(72) == "72" && Digits(720) == "720" && Digits(7200) == "7200";
    assert Digits(0) == "0";
  }
}
