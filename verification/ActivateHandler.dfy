/** The handler that each cron job runs: mode dispatch, the WhenIdle loop and the activation itself. */
module ActivateHandler {
  import opened Activation

  const RETRY_TIME := 300

  /** What the handler meets: the answer of the k-th idle check, how long it takes, and how long the sleep after it
      lasts, in seconds of a clock that never goes back. */
  datatype World = World(executable: bool, idle: nat -> bool, checkTime: nat -> nat, sleepTime: nat -> nat)

  ghost predicate SleepsFully(w: World) {
    forall k: nat :: w.sleepTime(k) >= RETRY_TIME
  }

  datatype Attempt = NoAttempt | Attempt(bankId: string, keepConfig: string)

  /** `checks` are the elapsed times, as the script measured them, at which the idle script was run. */
  datatype Outcome = Outcome(checks: seq<nat>, attempt: Attempt)

  // ----- the reference

  /** The checks of the loop from check `k` on, and whether the last one found the device idle. */
  ghost function LoopFrom(w: World, end: int, elapsed: nat, k: nat): (seq<nat>, bool)
    requires SleepsFully(w)
    decreases end - elapsed
  {
    if end <= elapsed then ([], false)
    else if w.idle(k) then ([elapsed], true)
    else if end <= elapsed + RETRY_TIME then ([elapsed], false)
    else
      var (rest, found) := LoopFrom(w, end, elapsed + w.checkTime(k) + w.sleepTime(k), k + 1);
      ([elapsed] + rest, found)
  }

  ghost function WhenIdle(w: World, bankId: string, end: int, force: bool, keepConfig: string): Outcome
    requires SleepsFully(w)
  {
    if !w.executable then Outcome([], Attempt(bankId, ""))
    else if w.idle(0) then Outcome([0], Attempt(bankId, ""))
    else
      var elapsed := w.checkTime(0) + if end > RETRY_TIME then w.sleepTime(0) else 0;
      var (rest, found) := LoopFrom(w, end, elapsed, 1);
      var atEnd := if force then Attempt(bankId, keepConfig) else NoAttempt;
      Outcome([0] + rest, if found then Attempt(bankId, "") else atEnd)
  }

  // ----- the script

  /** handle_whenidle_mode: an attempt ends the script, so it is returned at once. */
  method HandleWhenIdleMode(w: World, bankId: string, end: int, force: bool, keepConfig: string) returns (o: Outcome)
    requires SleepsFully(w)
    ensures o == WhenIdle(w, bankId, end, force, keepConfig)
    ensures AreTheChecks(w, end, o.checks)
  {
    ChecksAreMade(w, bankId, end, force, keepConfig);
    if !w.executable {
      return Outcome([], Attempt(bankId, ""));
    }
    var clock: nat := 0;
    var diff: nat := 0;
    var checks: seq<nat> := [0];
    clock := clock + w.checkTime(0);
    if w.idle(0) {
      return Outcome(checks, Attempt(bankId, ""));
    } else {
      if end > diff + RETRY_TIME {
        clock := clock + w.sleepTime(0);
      }
      diff := clock;
    }
    var k := 1;
    ghost var (all, found) := LoopFrom(w, end, diff, 1);
    while end > diff
      invariant diff == clock && k >= 1
      invariant var (rest, f) := LoopFrom(w, end, diff, k); [0] + all == checks + rest && f == found
      decreases end - diff
    {
      checks := checks + [diff];
      if w.idle(k) {
        return Outcome(checks, Attempt(bankId, ""));
      } else {
        clock := clock + w.checkTime(k);
        if end > diff + RETRY_TIME {
          clock := clock + w.sleepTime(k);
        } else {
          assert [0] + all == checks && !found;
          break;
        }
        diff := clock;
      }
      k := k + 1;
    }
    o := Outcome(checks, if force then Attempt(bankId, keepConfig) else NoAttempt);
  }

  /** `asked` is the bank that set_bootbank was called for. */
  datatype Exit = Exit(code: nat, asked: string, configCopied: bool, rebooted: bool)

  /** activate_and_reboot_device: the reboot is asked for only when everything before it succeeded, and the
      configuration is copied only on request. */
  method ActivateAndRebootDevice(bankId: string, keepConfig: string, setOk: bool, copyOk: bool) returns (e: Exit)
    ensures e.asked == bankId
    ensures e.rebooted <==> setOk && (keepConfig == "1" ==> copyOk)
    ensures e.code == 0 <==> e.rebooted
    ensures e.configCopied <==> setOk && keepConfig == "1" && copyOk
  {
    if !setOk {
      return Exit(1, bankId, false, false);
    }
    var copied := false;
    if keepConfig == "1" {
      if !copyOk {
        return Exit(1, bankId, false, false);
      }
      copied := true;
    }
    return Exit(0, bankId, copied, true);
  }

  /** The dispatch on the mode. An activation is attempted at once in the modes "Immediately" and "AnyTime", and in mode
      "WhenIdle" exactly when the idle script cannot be run, some check that begins in time would find the device idle,
      or force is set; the bank is always the job's, and the configuration is passed on exactly when no idle device was
      waited for or found. */
  method RunHandler(w: World, job: Job) returns (o: Outcome)
    requires SleepsFully(w)
    ensures o == Handled(w, job)
    ensures var atOnce := AtOnce(job.mode);
            var idle := !w.executable || exists k: nat :: InTime(w, job.duration, k) && w.idle(k);
            o.attempt == if atOnce then Attempt(job.bankId, job.keepConfig)
                         else if job.mode == "WhenIdle" && !idle && job.force then Attempt(job.bankId, job.keepConfig)
                         else if job.mode == "WhenIdle" && idle then Attempt(job.bankId, "") else NoAttempt
  {
    ActivatesWhenIdleIff(w, job.bankId, job.duration, job.force, job.keepConfig);
    if job.mode == "Immediately" || job.mode == "AnyTime" {
      return Outcome([], Attempt(job.bankId, job.keepConfig));
    } else if job.mode == "WhenIdle" {
      o := HandleWhenIdleMode(w, job.bankId, job.duration, job.force, job.keepConfig);
    } else {
      return Outcome([], NoAttempt);
    }
  }

  ghost function Handled(w: World, job: Job): Outcome
    requires SleepsFully(w)
  {
    if job.mode == "Immediately" || job.mode == "AnyTime" then Outcome([], Attempt(job.bankId, job.keepConfig))
    else if job.mode == "WhenIdle" then WhenIdle(w, job.bankId, job.duration, job.force, job.keepConfig)
    else Outcome([], NoAttempt)
  }

  // ----- the WhenIdle loop

  lemma {:induction false} LoopChecks(w: World, end: int, elapsed: nat, k: nat)
    requires SleepsFully(w)
    ensures var (checks, found) := LoopFrom(w, end, elapsed, k);
            && (forall i :: 0 <= i < |checks| ==> elapsed + RETRY_TIME * i <= checks[i] < end)
            && (forall j :: k <= j < k + |checks| ==> (w.idle(j) <==> found && j == k + |checks| - 1))
            && (found ==> checks != [])
    decreases end - elapsed
  {
    if end <= elapsed || w.idle(k) || end <= elapsed + RETRY_TIME {
    } else {
      var next := elapsed + w.checkTime(k) + w.sleepTime(k);
      LoopChecks(w, end, next, k + 1);
      var (rest, found) := LoopFrom(w, end, next, k + 1);
      var checks := [elapsed] + rest;
      forall i | 0 < i < |checks|
        ensures elapsed + RETRY_TIME * i <= checks[i] < end
      {
        assert checks[i] == rest[i - 1];
      }
    }
  }

  function CeilDiv(a: int, b: int): int
    requires b > 0
  {
    (a + b - 1) / b
  }

  /** Every check but the first starts before the window's end; there are at most max(2, ceil(end / 300)) of them, and
      one when the window has no length. */
  lemma ChecksAreBounded(w: World, bankId: string, end: int, force: bool, keepConfig: string)
    requires SleepsFully(w)
    ensures var o := WhenIdle(w, bankId, end, force, keepConfig);
            && (forall i :: 0 < i < |o.checks| ==> 0 <= o.checks[i] < end)
            && (end > 0 ==> |o.checks| <= 2 || |o.checks| <= CeilDiv(end, RETRY_TIME))
            && (end <= 0 ==> |o.checks| <= 1)
  {
    if w.executable && !w.idle(0) {
      var elapsed := w.checkTime(0) + if end > RETRY_TIME then w.sleepTime(0) else 0;
      LoopChecks(w, end, elapsed, 1);
      var (rest, found) := LoopFrom(w, end, elapsed, 1);
      if |rest| >= 2 {
        assert elapsed + RETRY_TIME * (|rest| - 1) <= rest[|rest| - 1] < end;
      }
    }
  }

  /** An activation is attempted exactly when the idle script cannot be run, or a check finds the device idle, or the
      force flag is set; the configuration is passed on only in the last case. */
  lemma AttemptIff(w: World, bankId: string, end: int, force: bool, keepConfig: string)
    requires SleepsFully(w)
    ensures var o := WhenIdle(w, bankId, end, force, keepConfig);
            var idleSeen := exists k :: 0 <= k < |o.checks| && w.idle(k);
            && (o.attempt.Attempt? <==> !w.executable || idleSeen || force)
            && (o.attempt == if !w.executable || idleSeen then Attempt(bankId, "")
                             else if force then Attempt(bankId, keepConfig) else NoAttempt)
            && (forall k :: 0 <= k < |o.checks| - 1 ==> !w.idle(k))
  {
    if w.executable && !w.idle(0) {
      var elapsed := w.checkTime(0) + if end > RETRY_TIME then w.sleepTime(0) else 0;
      LoopChecks(w, end, elapsed, 1);
      var (rest, found) := LoopFrom(w, end, elapsed, 1);
      var checks := [0] + rest;
      if found {
        assert w.idle(|checks| - 1);
      }
    }
  }

  // ----- which checks are made, from the clock alone

  /** The elapsed time at which check `k` begins, if it is made: each check follows the previous one's own time and the
      sleep after it, except that the first sleep is left out in a window that it would outlast. */
  function Elapsed(w: World, end: int, k: nat): nat {
    if k == 0 then 0
    else if k == 1 then w.checkTime(0) + if end > 300 then w.sleepTime(0) else 0
    else Elapsed(w, end, k - 1) + w.checkTime(k - 1) + w.sleepTime(k - 1)
  }

  /** Check `k` begins within the window; the first one always does. */
  predicate InTime(w: World, end: int, k: nat) {
    k == 0 || Elapsed(w, end, k) < end
  }

  /** No check before `k` found the device idle. */
  predicate BusyBefore(w: World, k: nat) {
    forall j :: 0 <= j < k ==> !w.idle(j)
  }

  /** The loop from check `k` on makes exactly the checks that begin in time while the device is busy. */
  lemma {:induction false} LoopMakes(w: World, end: int, k: nat, j: nat)
    requires SleepsFully(w) && k >= 1
    ensures var (checks, found) := LoopFrom(w, end, Elapsed(w, end, k), k);
            && (j < |checks| <==> Elapsed(w, end, k + j) < end && forall i :: k <= i < k + j ==> !w.idle(i))
            && (j < |checks| ==> checks[j] == Elapsed(w, end, k + j))
    decreases j
  {
    var now := Elapsed(w, end, k);
    ElapsedGrows(w, end, k, j);
    if end <= now || w.idle(k) {
    } else if j == 0 {
    } else {
      ElapsedGrows(w, end, k + 1, j - 1);
      LoopMakes(w, end, k + 1, j - 1);
      LoopStep(w, end, k);
      assert k + 1 + (j - 1) == k + j;
    }
  }

  /** One check that found the device busy: the loop goes on exactly while the next check begins in time. */
  lemma LoopStep(w: World, end: int, k: nat)
    requires SleepsFully(w) && k >= 1 && Elapsed(w, end, k) < end && !w.idle(k)
    ensures LoopFrom(w, end, Elapsed(w, end, k), k).0
            == [Elapsed(w, end, k)] + LoopFrom(w, end, Elapsed(w, end, k + 1), k + 1).0
  {
    assert Elapsed(w, end, k + 1) == Elapsed(w, end, k) + w.checkTime(k) + w.sleepTime(k);
  }

  lemma {:induction false} ElapsedGrows(w: World, end: int, k: nat, j: nat)
    requires SleepsFully(w) && k >= 1
    ensures Elapsed(w, end, k) + RETRY_TIME * j <= Elapsed(w, end, k + j)
  {
    if j == 0 {
    } else {
      ElapsedGrows(w, end, k, j - 1);
    }
  }

  /** Check `k` is made if and only if the idle script can be run, the check begins in time and no earlier check found
      the device idle; so the handler neither gives up early nor goes on too long. */
  lemma CheckIsMadeIff(w: World, bankId: string, end: int, force: bool, keepConfig: string, k: nat)
    requires SleepsFully(w)
    ensures var o := WhenIdle(w, bankId, end, force, keepConfig);
            && (k < |o.checks| <==> w.executable && InTime(w, end, k) && BusyBefore(w, k))
            && (k < |o.checks| ==> o.checks[k] == Elapsed(w, end, k))
  {
    if w.executable && k > 0 {
      if w.idle(0) {
        assert !BusyBefore(w, k);
      } else {
        LoopMakes(w, end, 1, k - 1);
        assert BusyBefore(w, k) <==> forall i :: 1 <= i < k ==> !w.idle(i);
      }
    }
  }

  /** `checks` are exactly the checks that begin in time while the device is busy, each at its time. */
  ghost predicate AreTheChecks(w: World, end: int, checks: seq<nat>) {
    && (forall k: nat :: k < |checks| <==> w.executable && InTime(w, end, k) && BusyBefore(w, k))
    && (forall k: nat :: k < |checks| ==> checks[k] == Elapsed(w, end, k))
  }

  lemma ChecksAreMade(w: World, bankId: string, end: int, force: bool, keepConfig: string)
    requires SleepsFully(w)
    ensures AreTheChecks(w, end, WhenIdle(w, bankId, end, force, keepConfig).checks)
  {
    forall k: nat
      ensures var o := WhenIdle(w, bankId, end, force, keepConfig);
              && (k < |o.checks| <==> w.executable && InTime(w, end, k) && BusyBefore(w, k))
              && (k < |o.checks| ==> o.checks[k] == Elapsed(w, end, k))
    {
      CheckIsMadeIff(w, bankId, end, force, keepConfig, k);
    }
  }

  /** The handler activates the bank for an idle device if and only if some check that begins in time would find it
      idle, or no check can be made; otherwise it activates it at the end, with the configuration flag, if and only if
      force is set. */
  lemma ActivatesWhenIdleIff(w: World, bankId: string, end: int, force: bool, keepConfig: string)
    requires SleepsFully(w)
    ensures var idle := !w.executable || exists k: nat :: InTime(w, end, k) && w.idle(k);
            WhenIdle(w, bankId, end, force, keepConfig).attempt
            == if idle then Attempt(bankId, "") else if force then Attempt(bankId, keepConfig) else NoAttempt
  {
    var o := WhenIdle(w, bankId, end, force, keepConfig);
    AttemptIff(w, bankId, end, force, keepConfig);
    if k: nat :| k < |o.checks| && w.idle(k) {
      CheckIsMadeIff(w, bankId, end, force, keepConfig, k);
    } else if w.executable && exists k: nat :: InTime(w, end, k) && w.idle(k) {
      var k: nat :| InTime(w, end, k) && w.idle(k);
      var first := FirstIdle(w, k);
      InTimeBefore(w, end, first, k);
      CheckIsMadeIff(w, bankId, end, force, keepConfig, first);
    }
  }

  lemma {:induction false} FirstIdle(w: World, k: nat) returns (first: nat)
    requires w.idle(k)
    ensures first <= k && w.idle(first) && BusyBefore(w, first)
  {
    if j :| 0 <= j < k && w.idle(j) {
      first := FirstIdle(w, j);
    } else {
      first := k;
    }
  }

  lemma InTimeBefore(w: World, end: int, j: nat, k: nat)
    requires SleepsFully(w) && j <= k && InTime(w, end, k)
    ensures InTime(w, end, j)
  {
    if j > 0 {
      ElapsedGrows(w, end, j, k - j);
    }
  }

  // ----- the whole schedule

  predicate AtOnce(mode: string) {
    mode == "Immediately" || mode == "AnyTime"
  }

  /** When no handler ever finds the device idle, a window activates exactly when its mode does not wait, or it is the
      last of the whole schedule and waits for an idle device; the bank and the configuration flag are as asked. */
  lemma NeverIdleAttempt(
    args: seq<WindowArg>, clocks: seq<nat>, bankId: string, keepConfig: string, i: nat, w: World)
    requires |clocks| == MAX_TIME_WINDOW && i < WindowCount(args)
    requires SleepsFully(w) && w.executable && forall k: nat :: !w.idle(k)
    ensures var mode := Arg(args, i).mode;
            Handled(w, Schedule(args, clocks, bankId, keepConfig)[i]).attempt
            == if AtOnce(mode) || (mode == "WhenIdle" && i == WindowCount(args) - 1) then Attempt(bankId, keepConfig)
               else NoAttempt
  {
    var job := Schedule(args, clocks, bankId, keepConfig)[i];
    AttemptIff(w, job.bankId, job.duration, job.force, job.keepConfig);
  }

  /** How many of the first `n` jobs attempt an activation. */
  ghost function Attempts(w: World, jobs: seq<Job>, n: nat): nat
    requires SleepsFully(w) && n <= |jobs|
  {
    if n == 0 then 0 else Attempts(w, jobs, n - 1) + if Handled(w, jobs[n - 1]).attempt.Attempt? then 1 else 0
  }

  /** How many of the first `n` windows do not wait. */
  function AtOnceWindows(args: seq<WindowArg>, n: nat): nat {
    if n == 0 then 0 else AtOnceWindows(args, n - 1) + if AtOnce(Arg(args, n - 1).mode) then 1 else 0
  }

  lemma {:induction false} WaitingAttemptsNothing(w: World, args: seq<WindowArg>, jobs: seq<Job>, n: nat)
    requires SleepsFully(w) && n <= |jobs|
    requires forall i :: 0 <= i < n ==> (Handled(w, jobs[i]).attempt.Attempt? <==> AtOnce(Arg(args, i).mode))
    ensures Attempts(w, jobs, n) == AtOnceWindows(args, n)
  {
    if n == 0 {
    } else {
      WaitingAttemptsNothing(w, args, jobs, n - 1);
    }
  }

  /** When no handler ever finds the device idle, a schedule makes one attempt for each window that does not wait, and
      one more when the last window waits for an idle device. */
  lemma NeverIdleAttempts(args: seq<WindowArg>, clocks: seq<nat>, bankId: string, keepConfig: string, w: World)
    requires |clocks| == MAX_TIME_WINDOW && WindowCount(args) > 0
    requires SleepsFully(w) && w.executable && forall k: nat :: !w.idle(k)
    ensures var n := WindowCount(args);
            Attempts(w, Schedule(args, clocks, bankId, keepConfig), n)
            == AtOnceWindows(args, n) + if Arg(args, n - 1).mode == "WhenIdle" then 1 else 0
  {
    var n, jobs := WindowCount(args), Schedule(args, clocks, bankId, keepConfig);
    forall i | 0 <= i < n - 1
      ensures Handled(w, jobs[i]).attempt.Attempt? <==> AtOnce(Arg(args, i).mode)
    {
      NeverIdleAttempt(args, clocks, bankId, keepConfig, i, w);
    }
    WaitingAttemptsNothing(w, args, jobs, n - 1);
    NeverIdleAttempt(args, clocks, bankId, keepConfig, n - 1, w);
  }

  /** When the device is never idle, a schedule of windows that all wait activates once if its last window has mode
      WhenIdle, and otherwise never. */
  lemma OnlyLastWindowForces(
    args: seq<WindowArg>, clocks: seq<nat>, bankId: string, keepConfig: string, w: World)
    requires |clocks| == MAX_TIME_WINDOW && WindowCount(args) > 0
    requires forall i :: 0 <= i < WindowCount(args) ==> !AtOnce(Arg(args, i).mode)
    requires SleepsFully(w) && w.executable && forall k: nat :: !w.idle(k)
    ensures Attempts(w, Schedule(args, clocks, bankId, keepConfig), WindowCount(args))
            == if Arg(args, WindowCount(args) - 1).mode == "WhenIdle" then 1 else 0
  {
    NeverIdleAttempts(args, clocks, bankId, keepConfig, w);
    NoneAtOnce(args, WindowCount(args));
  }

  lemma {:induction false} NoneAtOnce(args: seq<WindowArg>, n: nat)
    requires forall i :: 0 <= i < n ==> !AtOnce(Arg(args, i).mode)
    ensures AtOnceWindows(args, n) == 0
  {
    if n == 0 {
    } else {
      NoneAtOnce(args, n - 1);
    }
  }

  /** Every idle check in one window starts less than a minute into any later one, when each handler is timed from the
      minute of its job. */
  lemma ChecksStayInWindow(
    args: seq<WindowArg>, clocks: seq<nat>, bankId: string, keepConfig: string, i: nat, j: nat, w: World, c: nat)
    requires |clocks| == MAX_TIME_WINDOW && ClockForward(clocks) && Accepted(args) && i < j < WindowCount(args)
    requires Number(Arg(args, i).start) >= 60 && SleepsFully(w)
    requires var jobs := Schedule(args, clocks, bankId, keepConfig); c < |Handled(w, jobs[i]).checks|
    ensures var jobs := Schedule(args, clocks, bankId, keepConfig);
            Begins(jobs[i]) + Handled(w, jobs[i]).checks[c] < Begins(jobs[j]) + 60
  {
    assert AcceptedAfter(args, i);
    var jobs := Schedule(args, clocks, bankId, keepConfig);
    ScheduleOverlap(args, clocks, bankId, keepConfig, i, j);
    ChecksAreBounded(w, jobs[i].bankId, jobs[i].duration, jobs[i].force, jobs[i].keepConfig);
  }
}
