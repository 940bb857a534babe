/** The daemon together with what it cannot see: the real bank table, the scripts and the upgrades that go on after
    the upgrade script has returned. A run is any interleaving of the steps below. */
module FwBankSystem {
  import opened Decimal
  import opened FwBank

  /** `upgrades` counts the upgrades going on in the background. `dropped` records that a wanted refresh was given
      up (retries exhausted, no script, no fork) and that none has been started since. */
  datatype System = System(d: Daemon, flash: Dump, upgrades: nat, dropped: bool)

  datatype Step =
    | Request(kind: Kind, req: Requester, bankId: nat, ok: bool)
    | ScriptEnds(i: nat, out: Output, table: Dump)    // the script of task i ends, leaving `table`
    | Kill(i: nat)
    | Exit(i: nat, ok: bool)
    | RetryFires(fileExists: bool, ok: bool)
    | UpgradeProgress(table: Dump)
    | UpgradeCompletes(table: Dump, attrs: seq<Attr>, ok: bool)
    | Sysupgrade(attrs: seq<Attr>, ok: bool)          // an event that completes no upgrade
    | ListenLapses
    | Shutdown

  function Start(table: Dump, fileExists: bool, ok: bool): System {
    var d := Daemon(Absent, 0, 0, [], Listener(false, 0, 0), []);
    System(StartDump(d, fileExists && ok), table, 0, !(fileExists && ok))
  }

  predicate Enabled(s: System, x: Step) {
    match x
    case Request(kind, _, _, _) => kind != DumpTask
    case ScriptEnds(i, _, _) => i < |s.d.tasks| && s.d.tasks[i].pipe.Absent?
    case Kill(i) => i < |s.d.tasks| && s.d.tasks[i].killTimer > 0
    case Exit(i, _) => i < |s.d.tasks| && s.d.tasks[i].pipe.Present?
    case RetryFires(_, _) => s.d.retryTimer > 0
    case UpgradeProgress(_) => s.upgrades > 0
    case UpgradeCompletes(_, _, _) => s.upgrades > 0
    case Sysupgrade(_, _) => s.d.listener.registered
    case ListenLapses => s.d.listener.timer > 0
    case Shutdown => true
  }

  predicate Refreshes(d: Daemon, attrs: seq<Attr>) {
    d.listener.registered && Judge(attrs, Digits(d.listener.bankId)) == Refreshed
  }

  predicate HasDump(ts: seq<Task>) {
    exists i :: 0 <= i < |ts| && ts[i].kind == DumpTask
  }

  function AfterExit(s: System, i: nat, ok: bool): System
    requires i < |s.d.tasks| && s.d.tasks[i].pipe.Present?
  {
    var t := s.d.tasks[i];
    var fails := t.kind == DumpTask && !Validated(t.pipe.value);
    var givesUp := fails && s.d.retries >= MAX_RETRIES && !HasDump(Without(s.d.tasks, i));
    var starts := t.kind == SetBootbankTask && ReportsSwitch(t.pipe.value);
    s.(d := TaskFinish(s.d, i, ok), dropped := if starts then !ok else s.dropped || givesUp)
  }

  /** A step that is not enabled changes nothing. */
  function Next(s: System, x: Step): System {
    if !Enabled(s, x) then s
    else match x
      case Request(kind, req, bankId, ok) => s.(d := HandleRequest(s.d, kind, req, bankId, ok))
      case ScriptEnds(i, out, table) =>
        var t := s.d.tasks[i];
        System(s.d.(tasks := s.d.tasks[i := t.(pipe := Present(out))]), table,
               s.upgrades + (if t.kind == UpgradeTask && ReportsUpgrade(out) then 1 else 0), s.dropped)
      case Kill(i) => s.(d := TaskTimeout(s.d, i))
      case Exit(i, ok) => AfterExit(s, i, ok)
      case RetryFires(fileExists, ok) => s.(d := DumpTimer(s.d, fileExists, ok), dropped := !(fileExists && ok))
      case UpgradeProgress(table) => s.(flash := table)
      case UpgradeCompletes(table, attrs, ok) =>
        System(ReceiveSysupgrade(s.d, attrs, ok), table, s.upgrades - 1,
               if Refreshes(s.d, attrs) then !ok else s.dropped)
      case Sysupgrade(attrs, ok) =>
        s.(d := ReceiveSysupgrade(s.d, attrs, ok), dropped := if Refreshes(s.d, attrs) then !ok else s.dropped)
      case ListenLapses => s.(d := ListenTimeout(s.d))
      case Shutdown => s.(d := CleanDump(s.d))
  }

  function Run(s: System, xs: seq<Step>): System
    decreases |xs|
  {
    if xs == [] then s else Run(Next(s, xs[0]), xs[1..])
  }

  // ----- what the environment is assumed to do

  function StillReporting(ts: seq<Task>): nat {
    if ts == [] then 0
    else
      var t := ts[|ts| - 1];
      var reports := t.kind == UpgradeTask && t.pipe.Present? && ReportsUpgrade(t.pipe.value);
      StillReporting(ts[..|ts| - 1]) + if reports then 1 else 0
  }

  /** No listener lapses before its upgrade: every upgrade going on has a task still to report it, or a listener. */
  predicate Covered(s: System) {
    s.upgrades <= StillReporting(s.d.tasks) || s.d.listener.registered
  }

  /** A script reports a change exactly when it makes one, and a dump script prints the table. */
  predicate Truthful(s: System, x: Step) {
    x.ScriptEnds? && Enabled(s, x) ==>
      match s.d.tasks[x.i].kind
      case DumpTask => x.table == s.flash && (Validated(x.out) ==> x.out.banks == Present(s.flash))
      case SetBootbankTask => !ReportsSwitch(x.out) ==> x.table == s.flash
      case UpgradeTask => !ReportsUpgrade(x.out) ==> x.table == s.flash
  }

  /** Dump tasks exit in the order in which they were started. */
  predicate InOrder(s: System, x: Step) {
    x.Exit? && Enabled(s, x) && s.d.tasks[x.i].kind == DumpTask ==> !HasDump(s.d.tasks[..x.i])
  }

  /** The event that completes an upgrade is accepted by the listener. */
  predicate Accepted(s: System, x: Step) {
    x.UpgradeCompletes? && Enabled(s, x) ==> Refreshes(s.d, x.attrs)
  }

  /** One step of a daemon that keeps running, in a fair environment. */
  predicate FairStep(s: System, x: Step) {
    !x.Shutdown? && Truthful(s, x) && InOrder(s, x) && Accepted(s, x) && Covered(Next(s, x))
  }

  ghost predicate FairRun(s: System, xs: seq<Step>)
    decreases |xs|
  {
    xs == [] ||
    (FairStep(s, xs[0]) && FairRun(Next(s, xs[0]), xs[1..]))
  }

  // ----- which task will repair which staleness

  /** The dump of this task, if it becomes the cache, is right. */
  predicate Good(t: Task, flash: Dump) {
    t.pipe.Absent? || !Validated(t.pipe.value) || t.pipe.value.banks == Present(flash)
  }

  /** The dump task started last, if there is one, is good. */
  predicate GoodLast(ts: seq<Task>, flash: Dump) {
    ts == [] ||
    var t := ts[|ts| - 1];
    if t.kind == DumpTask then Good(t, flash) else GoodLast(ts[..|ts| - 1], flash)
  }

  predicate Settled(s: System) {
    if HasDump(s.d.tasks) then GoodLast(s.d.tasks, s.flash) else s.d.cache == Present(s.flash)
  }

  predicate SwitchPending(ts: seq<Task>) {
    exists i :: 0 <= i < |ts| && WillReportSwitch(ts[i])
  }

  predicate WillReportSwitch(t: Task) {
    t.kind == SetBootbankTask && t.pipe.Present? && ReportsSwitch(t.pipe.value)
  }

  predicate RepairDue(s: System) {
    s.d.retryTimer > 0 || s.dropped || s.upgrades > 0 || SwitchPending(s.d.tasks)
  }

  predicate Coherent(s: System) {
    RepairDue(s) || Settled(s)
  }

  lemma AppendTask(ts: seq<Task>, t: Task, flash: Dump)
    ensures GoodLast(ts + [t], flash) == if t.kind == DumpTask then Good(t, flash) else GoodLast(ts, flash)
    ensures HasDump(ts + [t]) <==> HasDump(ts) || t.kind == DumpTask
    ensures SwitchPending(ts) ==> SwitchPending(ts + [t])
  {
    var us := ts + [t];
    assert us[..|us| - 1] == ts;
    assert us[|ts|] == t && forall i :: 0 <= i < |ts| ==> us[i] == ts[i];
  }

  lemma {:induction false} UpdateTask(ts: seq<Task>, i: nat, u: Task, flash: Dump)
    requires i < |ts| && u.kind == ts[i].kind && (u.kind == DumpTask ==> Good(u, flash)) && GoodLast(ts, flash)
    ensures GoodLast(ts[i := u], flash)
  {
    var us := ts[i := u];
    if i == |ts| - 1 {
      assert us[..|us| - 1] == ts[..|ts| - 1];
    } else if ts[|ts| - 1].kind == DumpTask {
    } else {
      assert us[..|us| - 1] == ts[..|ts| - 1][i := u];
      UpdateTask(ts[..|ts| - 1], i, u, flash);
    }
  }

  /** Removing a task other than the last dump leaves the last dump. */
  lemma {:induction false} RemoveTask(ts: seq<Task>, i: nat, flash: Dump)
    requires i < |ts| && (ts[i].kind == DumpTask ==> !HasDump(ts[..i]))
    ensures ts[i].kind != DumpTask || HasDump(Without(ts, i)) ==> GoodLast(Without(ts, i), flash) == GoodLast(ts, flash)
    ensures ts[i].kind == DumpTask && !HasDump(Without(ts, i)) ==> GoodLast(ts, flash) == Good(ts[i], flash)
  {
    var us := Without(ts, i);
    var z := ts[|ts| - 1];
    if i == |ts| - 1 {
      assert us == ts[..i];
    } else {
      assert us[|us| - 1] == z && us[..|us| - 1] == Without(ts[..|ts| - 1], i);
      if z.kind == DumpTask {
        assert HasDump(us);
      } else {
        assert ts[..|ts| - 1][..i] == ts[..i];
        RemoveTask(ts[..|ts| - 1], i, flash);
        assert HasDump(us) ==> HasDump(us[..|us| - 1]);
      }
    }
  }

  lemma RemoveKeepsOthers(ts: seq<Task>, i: nat)
    requires i < |ts|
    ensures ts[i].kind != DumpTask ==> (HasDump(Without(ts, i)) <==> HasDump(ts))
    ensures SwitchPending(ts) && !WillReportSwitch(ts[i]) ==> SwitchPending(Without(ts, i))
  {
    var us := Without(ts, i);
    forall j | 0 <= j < |ts| && j != i ensures ts[j] in us {
      assert ts[j] == us[if j < i then j else j - 1];
    }
    assert forall k :: 0 <= k < |us| ==> us[k] == ts[if k < i then k else k + 1];
  }

  // ----- the invariant

  lemma StartIsCoherent(table: Dump, fileExists: bool, ok: bool)
    ensures Coherent(Start(table, fileExists, ok)) && Covered(Start(table, fileExists, ok))
  {
    var d := Daemon(Absent, 0, 0, [], Listener(false, 0, 0), []);
    FreshDumpSettles(System(d, table, 0, false));
  }

  lemma FreshDumpSettles(s: System)
    ensures Settled(s.(d := StartDump(s.d, true)))
  {
    AppendTask(s.d.tasks, Task(DumpTask, Internal, 0, DUMP_TIMEOUT, Absent), s.flash);
  }

  lemma ScriptKeepsCoherent(s: System, x: Step)
    requires Coherent(s) && x.ScriptEnds? && Enabled(s, x) && Truthful(s, x)
    ensures Coherent(Next(s, x))
  {
    var t := s.d.tasks[x.i];
    var u := t.(pipe := Present(x.out));
    var us := s.d.tasks[x.i := u];
    assert us[x.i] == u && forall j :: 0 <= j < |us| && j != x.i ==> us[j] == s.d.tasks[j];
    if SwitchPending(s.d.tasks) {
      var j :| 0 <= j < |us| && WillReportSwitch(s.d.tasks[j]);
      assert us[j] == s.d.tasks[j];
    } else if x.table == s.flash && Settled(s) && HasDump(s.d.tasks) {
      UpdateTask(s.d.tasks, x.i, u, s.flash);
    }
  }

  lemma KillKeepsCoherent(s: System, x: Step)
    requires Coherent(s) && x.Kill? && Enabled(s, x)
    ensures Coherent(Next(s, x))
  {
    var ts := s.d.tasks;
    var us := Next(s, x).d.tasks;
    assert forall j :: 0 <= j < |us| && j != x.i ==> us[j] == ts[j];
    assert us[x.i].kind == ts[x.i].kind;
    if SwitchPending(ts) {
      var j :| 0 <= j < |us| && WillReportSwitch(ts[j]);
      assert us[j].pipe == ts[j].pipe && us[j].kind == ts[j].kind;
    } else if Settled(s) && HasDump(ts) {
      KillKeepsGood(ts, x.i, us[x.i], s.flash);
    }
  }

  lemma {:induction false} KillKeepsGood(ts: seq<Task>, i: nat, u: Task, flash: Dump)
    requires i < |ts| && u.kind == ts[i].kind && GoodLast(ts, flash)
    requires Good(ts[i], flash) ==> Good(u, flash)
    ensures GoodLast(ts[i := u], flash)
  {
    var us := ts[i := u];
    if i == |ts| - 1 {
      assert us[..|us| - 1] == ts[..|ts| - 1];
    } else if ts[|ts| - 1].kind == DumpTask {
    } else {
      assert us[..|us| - 1] == ts[..|ts| - 1][i := u];
      KillKeepsGood(ts[..|ts| - 1], i, u, flash);
    }
  }

  lemma ExitKeepsCoherent(s: System, x: Step)
    requires Coherent(s) && x.Exit? && Enabled(s, x) && InOrder(s, x)
    ensures Coherent(Next(s, x))
  {
    var t := s.d.tasks[x.i];
    RemoveKeepsOthers(s.d.tasks, x.i);
    RemoveTask(s.d.tasks, x.i, s.flash);
    if t.kind == SetBootbankTask && ReportsSwitch(t.pipe.value) && x.ok {
      var e := s.d.(tasks := Without(s.d.tasks, x.i));
      FreshDumpSettles(s.(d := e));
    }
  }

  lemma RequestKeepsCoherent(s: System, x: Step)
    requires Coherent(s) && x.Request? && Enabled(s, x)
    ensures Coherent(Next(s, x))
  {
    if x.ok {
      AppendTask(s.d.tasks, Task(x.kind, x.req, x.bankId, Timeout(x.kind), Absent), s.flash);
    }
  }

  lemma RetryKeepsCoherent(s: System, x: Step)
    requires x.RetryFires? && Enabled(s, x)
    ensures Coherent(Next(s, x))
  {
    FreshDumpSettles(s.(d := s.d.(retryTimer := 0)));
  }

  lemma EventKeepsCoherent(s: System, x: Step)
    requires Coherent(s) && (x.UpgradeCompletes? || x.Sysupgrade?) && Enabled(s, x) && Accepted(s, x)
    ensures Coherent(Next(s, x))
  {
    FreshDumpSettles(s.(d := ListenTimeout(s.d), flash := if x.UpgradeCompletes? then x.table else s.flash));
  }

  /** The other steps touch neither the tasks nor the cache, and change the table only while an upgrade is going on. */
  lemma OtherStepKeepsCoherent(s: System, x: Step)
    requires Coherent(s) && (x.UpgradeProgress? || x.ListenLapses?)
    ensures Coherent(Next(s, x))
  {
  }

  /** Every step of a fair run keeps a repair due, or the cache right, or a task in flight that will make it right. */
  lemma StepKeepsCoherent(s: System, x: Step)
    requires Coherent(s) && FairStep(s, x)
    ensures Coherent(Next(s, x))
  {
    if Enabled(s, x) {
      match x
      case Request(_, _, _, _) => RequestKeepsCoherent(s, x);
      case ScriptEnds(_, _, _) => ScriptKeepsCoherent(s, x);
      case Kill(_) => KillKeepsCoherent(s, x);
      case Exit(_, _) => ExitKeepsCoherent(s, x);
      case RetryFires(_, _) => RetryKeepsCoherent(s, x);
      case UpgradeCompletes(_, _, _) => EventKeepsCoherent(s, x);
      case Sysupgrade(_, _) => EventKeepsCoherent(s, x);
      case _ => OtherStepKeepsCoherent(s, x);
    }
  }

  // ----- coherence of the cache

  /** No task in flight, no armed retry and no pending listener. */
  predicate Quiescent(s: System) {
    s.d.tasks == [] && s.d.retryTimer == 0 && !s.d.listener.registered
  }

  lemma {:induction false} FairRunIsCoherent(s: System, xs: seq<Step>)
    requires Coherent(s) && Covered(s) && FairRun(s, xs)
    ensures Coherent(Run(s, xs)) && Covered(Run(s, xs))
    decreases |xs|
  {
    if xs == [] {
    } else {
      StepKeepsCoherent(s, xs[0]);
      FairRunIsCoherent(Next(s, xs[0]), xs[1..]);
    }
  }

  /** Every attempt to start a dump succeeds. */
  predicate Starts(x: Step) {
    match x
    case Exit(_, ok) => ok
    case RetryFires(fileExists, ok) => fileExists && ok
    case UpgradeCompletes(_, _, ok) => ok
    case Sysupgrade(_, ok) => ok
    case _ => true
  }

  lemma {:induction false} DroppedMeansExhausted(s: System, xs: seq<Step>)
    requires (s.dropped ==> s.d.retries >= MAX_RETRIES) && forall i :: 0 <= i < |xs| ==> Starts(xs[i])
    ensures Run(s, xs).dropped ==> Run(s, xs).d.retries >= MAX_RETRIES
    decreases |xs|
  {
    if xs == [] {
    } else {
      assert Starts(xs[0]);
      DroppedMeansExhausted(Next(s, xs[0]), xs[1..]);
    }
  }

  /** Whatever was dropped before, a refresh that is started is not dropped any more: the exception lasts no longer. */
  lemma StartedRefreshIsNotDropped(s: System, x: Step)
    requires Enabled(s, x) && Starts(x)
    ensures x.RetryFires? ==> !Next(s, x).dropped
    ensures x.Exit? && WillReportSwitch(s.d.tasks[x.i]) ==> !Next(s, x).dropped
    ensures (x.UpgradeCompletes? || x.Sysupgrade?) && Announced(s, x.attrs) ==> !Next(s, x).dropped
  {
    if (x.UpgradeCompletes? || x.Sysupgrade?) && Announced(s, x.attrs) {
      JudgeIs(x.attrs, Digits(s.d.listener.bankId));
      OnlyOneStops(x.attrs, Digits(s.d.listener.bankId));
    }
  }

  /** A listener is registered and waits for this event. */
  ghost predicate Announced(s: System, attrs: seq<Attr>) {
    s.d.listener.registered && Announces(attrs, Digits(s.d.listener.bankId))
  }

  /** Cache coherence over every fair interleaving: in every quiescent state the cached dump is the real bank table,
      unless a wanted refresh was dropped and none was started since. */
  lemma CacheIsCoherent(table: Dump, fileExists: bool, ok: bool, xs: seq<Step>)
    requires FairRun(Start(table, fileExists, ok), xs)
    ensures var s := Run(Start(table, fileExists, ok), xs);
            Quiescent(s) && !s.dropped ==> s.d.cache == Present(s.flash)
  {
    StartIsCoherent(table, fileExists, ok);
    FairRunIsCoherent(Start(table, fileExists, ok), xs);
  }

  /** With a script and working forks, only exhausted retries excuse a stale cache. */
  lemma CacheIsCoherentUntilExhausted(table: Dump, xs: seq<Step>)
    requires FairRun(Start(table, true, true), xs) && forall i :: 0 <= i < |xs| ==> Starts(xs[i])
    ensures var s := Run(Start(table, true, true), xs);
            Quiescent(s) && s.d.retries < MAX_RETRIES ==> s.d.cache == Present(s.flash)
  {
    CacheIsCoherent(table, true, true, xs);
    DroppedMeansExhausted(Start(table, true, true), xs);
  }

  /** At rest with `table` in flash and in the cache. */
  predicate UpToDate(s: System, table: Dump) {
    Quiescent(s) && s.upgrades == 0 && !s.dropped && s.flash == table && s.d.cache == Present(table)
  }

  /** From an upgrade script that has just reported, its exit, the event that completes it, and the dump started by
      the event bring the new table into the cache. */
  lemma ReportedUpgradeFillsCache(s0: System, bankId: nat, after: Dump) returns (ys: seq<Step>)
    requires ValidDump(after) && |s0.d.tasks| == 1 && s0.upgrades == 1 && s0.d.retryTimer == 0 && !s0.dropped
    requires var t := s0.d.tasks[0];
             t.kind == UpgradeTask && t.bankId == bankId && t.pipe == Present(Json(Absent, Absent, Present("ok")))
    ensures FairRun(s0, ys) && UpToDate(Run(s0, ys), after)
  {
    var c := Json(Present(after), Absent, Absent);
    var attrs := [BankIdAttr(Digits(bankId)), StatusAttr("Available")];
    var dump := Task(DumpTask, Internal, 0, DUMP_TIMEOUT, Absent);
    var x1, x2, x3, x4 := Exit(0, true), UpgradeCompletes(after, attrs, true), ScriptEnds(0, c, after), Exit(0, true);
    var s1 := Next(s0, x1);
    assert s1.d.tasks == [] && s1.d.listener == Listener(true, LISTEN_TIMEOUT, bankId);
    RefreshedIff(attrs, Digits(bankId));
    assert attrs[1] == StatusAttr("Available") && !Stops(attrs[0], Digits(bankId));
    var s2 := Next(s1, x2);
    assert s2.d.tasks == [dump] && s2.upgrades == 0;
    var s3 := Next(s2, x3);
    assert s3.d.tasks == [dump.(pipe := Present(c))];
    var s4 := Next(s3, x4);
    assert s4.d.tasks == [] && FairRun(s4, []) && Run(s4, []) == s4;
    ys := FairCons(s3, x4, []);
    ys := FairCons(s2, x3, ys);
    ys := FairCons(s1, x2, ys);
    ys := FairCons(s0, x1, ys);
  }

  /** Fair runs do what they are for: a dump, a requested upgrade that completes in the background, its event and the
      dump it starts take the cache from the old table to the new one. */
  lemma UpgradeFillsCache(before: Dump, after: Dump, id: nat, bankId: nat)
    requires ValidDump(before) && ValidDump(after)
    ensures exists xs :: FairRun(Start(before, true, true), xs) && UpToDate(Run(Start(before, true, true), xs), after)
  {
    var s0 := Start(before, true, true);
    var a, b := Json(Present(before), Absent, Absent), Json(Absent, Absent, Present("ok"));
    var x1, x2 := ScriptEnds(0, a, before), Exit(0, true);
    var x3, x4 := Request(UpgradeTask, From(id), bankId, true), ScriptEnds(0, b, before);
    var s1 := Next(s0, x1);
    assert s1.d.tasks == [Task(DumpTask, Internal, 0, DUMP_TIMEOUT, Present(a))];
    var s2 := Next(s1, x2);
    assert s2.d.tasks == [] && s2.d.cache == Present(before);
    var s3 := Next(s2, x3);
    var t := Task(UpgradeTask, From(id), bankId, COMMAND_TIMEOUT, Absent);
    assert s3.d.tasks == [t];
    var s4 := Next(s3, x4);
    var u := t.(pipe := Present(b));
    assert s4.d.tasks == [u] && s4.upgrades == 1;
    assert [u][..0] == [] && StillReporting([u]) == 1;
    var ys := ReportedUpgradeFillsCache(s4, bankId, after);
    ys := FairCons(s3, x4, ys);
    ys := FairCons(s2, x3, ys);
    ys := FairCons(s1, x2, ys);
    ys := FairCons(s0, x1, ys);
  }

  lemma FairCons(s: System, x: Step, xs: seq<Step>) returns (ys: seq<Step>)
    requires FairStep(s, x) && FairRun(Next(s, x), xs)
    ensures FairRun(s, ys) && Run(s, ys) == Run(Next(s, x), xs) && ys == [x] + xs
  {
    ys := [x] + xs;
    assert ys[1..] == xs;
  }

  // ----- listening

  /** Any number of events that are not for the listener leave the daemon listening, exactly as it was. */
  lemma {:induction false} ListensThrough(s: System, xs: seq<Step>)
    requires s.d.listener.registered
    requires forall i :: 0 <= i < |xs| ==> xs[i].Sysupgrade? && IsElsewhere(xs[i].attrs, Digits(s.d.listener.bankId))
    ensures Run(s, xs) == s
    decreases |xs|
  {
    if xs == [] {
    } else {
      assert xs[0].Sysupgrade? && IsElsewhere(xs[0].attrs, Digits(s.d.listener.bankId));
      EventEffect(s.d, xs[0].attrs, xs[0].ok);
      JudgeIs(xs[0].attrs, Digits(s.d.listener.bankId));
      assert Next(s, xs[0]) == s;
      ListensThrough(s, xs[1..]);
    }
  }

  /** After them, the event that announces the upgrade is still accepted: it closes the listener and starts a dump. */
  lemma LaterAvailableIsAccepted(s: System, xs: seq<Step>, attrs: seq<Attr>, table: Dump)
    requires s.d.listener.registered && s.upgrades > 0 && Announces(attrs, Digits(s.d.listener.bankId))
    requires forall i :: 0 <= i < |xs| ==> xs[i].Sysupgrade? && IsElsewhere(xs[i].attrs, Digits(s.d.listener.bankId))
    ensures var t := Next(Run(s, xs), UpgradeCompletes(table, attrs, true));
            && !t.d.listener.registered && t.flash == table
            && t.d.tasks == s.d.tasks + [Task(DumpTask, Internal, 0, 120, Absent)]
  {
    ListensThrough(s, xs);
    EventEffect(s.d, attrs, true);
    JudgeIs(attrs, Digits(s.d.listener.bankId));
  }

  // ----- the exception

  predicate AllStart(xs: seq<Step>) {
    forall i :: 0 <= i < |xs| ==> Starts(xs[i])
  }

  /** One dump is in flight, and nothing else is pending. */
  predicate Dumping(s: System) {
    && s.d.tasks == [Task(DumpTask, Internal, 0, DUMP_TIMEOUT, Absent)]
    && s.d.retryTimer == 0 && !s.d.listener.registered && s.upgrades == 0 && s.d.retries <= MAX_RETRIES
  }

  /** At rest after a refresh was given up, with `cached` in the cache and `table` in flash. */
  predicate Exhausted(s: System, cached: Maybe<Dump>, table: Dump) {
    Quiescent(s) && s.dropped && s.d.retries == MAX_RETRIES && s.d.cache == cached && s.flash == table
  }

  /** A dump script that keeps printing garbage uses up the retries and changes nothing else. */
  lemma {:induction false} GarbageExhausts(s0: System) returns (ys: seq<Step>)
    requires Dumping(s0)
    ensures FairRun(s0, ys) && AllStart(ys) && Exhausted(Run(s0, ys), s0.d.cache, s0.flash)
    decreases MAX_RETRIES - s0.d.retries
  {
    var x1, x2, x3 := ScriptEnds(0, Garbage, s0.flash), Exit(0, true), RetryFires(true, true);
    var s1 := Next(s0, x1);
    assert s1.d.tasks == [s0.d.tasks[0].(pipe := Present(Garbage))];
    var s2 := Next(s1, x2);
    assert Without(s1.d.tasks, 0) == [] && s2.d.tasks == [];
    if s0.d.retries == MAX_RETRIES {
      assert Run(s2, []) == s2;
      ys := [];
    } else {
      ys := GarbageExhausts(Next(s2, x3));
      ys := FairCons(s2, x3, ys);
    }
    ys := FairCons(s1, x2, ys);
    ys := FairCons(s0, x1, ys);
  }

  /** The exception is real: after a switch, eleven dumps that print garbage leave a fair daemon at rest with the old
      table, although every dump could be started. */
  lemma StaleWhenExhausted(before: Dump, after: Dump)
    requires ValidDump(before)
    ensures exists xs :: FairRun(Start(before, true, true), xs) && AllStart(xs)
                         && Exhausted(Run(Start(before, true, true), xs), Present(before), after)
  {
    var s0 := Start(before, true, true);
    var a := Json(Present(before), Absent, Absent);
    var x1, x2 := ScriptEnds(0, a, before), Exit(0, true);
    var s1 := Next(s0, x1);
    assert s1.d.tasks == [Task(DumpTask, Internal, 0, DUMP_TIMEOUT, Present(a))];
    var s2 := Next(s1, x2);
    assert s2.d.tasks == [];
    var ys := SwitchExhausts(s2, after);
    ys := FairCons(s1, x2, ys);
    ys := FairCons(s0, x1, ys);
  }

  /** A switch made at rest, whose refresh never gets a dump. */
  lemma SwitchExhausts(s2: System, after: Dump) returns (ys: seq<Step>)
    requires Quiescent(s2) && s2.upgrades == 0 && s2.d.retries <= MAX_RETRIES
    ensures FairRun(s2, ys) && AllStart(ys) && Exhausted(Run(s2, ys), s2.d.cache, after)
  {
    var x3 := Request(SetBootbankTask, Internal, 2, true);
    var x4, x5 := ScriptEnds(0, Json(Absent, Present(true), Absent), after), Exit(0, true);
    var s3 := Next(s2, x3);
    SwitchRequested(s2);
    var s4 := Next(s3, x4);
    SwitchReported(s3, after);
    SwitchExits(s4);
    ys := GarbageExhausts(Next(s4, x5));
    ys := FairCons(s4, x5, ys);
    ys := FairCons(s3, x4, ys);
    ys := FairCons(s2, x3, ys);
  }

  /** A set_bootbank task is in flight, and nothing else is pending. */
  predicate SwitchInFlight(s: System, pipe: Maybe<Output>) {
    && s.d.tasks == [Task(SetBootbankTask, Internal, 2, COMMAND_TIMEOUT, pipe)]
    && s.d.retryTimer == 0 && !s.d.listener.registered && s.upgrades == 0 && s.d.retries <= MAX_RETRIES
  }

  lemma SwitchRequested(s: System)
    requires Quiescent(s) && s.upgrades == 0 && s.d.retries <= MAX_RETRIES
    ensures var x := Request(SetBootbankTask, Internal, 2, true);
            var n := Next(s, x);
            FairStep(s, x) && SwitchInFlight(n, Absent) && n.d.cache == s.d.cache
  {
  }

  lemma SwitchReported(s: System, after: Dump)
    requires SwitchInFlight(s, Absent)
    ensures var out := Json(Absent, Present(true), Absent);
            var x := ScriptEnds(0, out, after);
            var n := Next(s, x);
            FairStep(s, x) && SwitchInFlight(n, Present(out)) && n.d.cache == s.d.cache && n.flash == after
  {
    var out := Json(Absent, Present(true), Absent);
    assert Next(s, ScriptEnds(0, out, after)).d.tasks == [s.d.tasks[0].(pipe := Present(out))];
  }

  lemma SwitchExits(s: System)
    requires SwitchInFlight(s, Present(Json(Absent, Present(true), Absent)))
    ensures var n := Next(s, Exit(0, true));
            FairStep(s, Exit(0, true)) && Dumping(n) && n.d.cache == s.d.cache && n.flash == s.flash
  {
    assert Without(s.d.tasks, 0) == [];
  }

  /** The order assumption is needed: two dumps that exit in the other order leave the older one in the cache. */
  lemma OutOfOrderIsStale(before: Dump, after: Dump)
    requires ValidDump(before) && ValidDump(after)
    ensures var xs := [ScriptEnds(0, Json(Present(before), Absent, Absent), before),
                       Request(SetBootbankTask, Internal, 2, true),
                       ScriptEnds(1, Json(Absent, Present(true), Absent), after), Exit(1, true),
                       ScriptEnds(1, Json(Present(after), Absent, Absent), after), Exit(1, true), Exit(0, true)];
            var s := Run(Start(before, true, true), xs);
            Quiescent(s) && !s.dropped && s.flash == after && s.d.cache == Present(before)
  {
    var s0 := Start(before, true, true);
    var a, c := Json(Present(before), Absent, Absent), Json(Present(after), Absent, Absent);
    var b := Json(Absent, Present(true), Absent);
    var x1, x2 := ScriptEnds(0, a, before), Request(SetBootbankTask, Internal, 2, true);
    var x3, x4 := ScriptEnds(1, b, after), Exit(1, true);
    var x5, x6, x7 := ScriptEnds(1, c, after), Exit(1, true), Exit(0, true);
    SwitchDuringDump(s0, before, after);
    SecondDumpExitsFirst(Next(Next(Next(Next(s0, x1), x2), x3), x4), before, after);
    RunSeven(s0, x1, x2, x3, x4, x5, x6, x7);
  }

  /** A switch made while a dump waits to exit starts a second dump behind it. */
  lemma SwitchDuringDump(s0: System, before: Dump, after: Dump)
    requires s0 == Start(before, true, true)
    ensures var s1 := Next(s0, ScriptEnds(0, Json(Present(before), Absent, Absent), before));
            var s2 := Next(s1, Request(SetBootbankTask, Internal, 2, true));
            var s3 := Next(s2, ScriptEnds(1, Json(Absent, Present(true), Absent), after));
            TwoDumps(Next(s3, Exit(1, true)), before, after)
  {
    var b := Json(Absent, Present(true), Absent);
    var d1 := Task(DumpTask, Internal, 0, DUMP_TIMEOUT, Present(Json(Present(before), Absent, Absent)));
    var t := Task(SetBootbankTask, Internal, 2, COMMAND_TIMEOUT, Absent);
    var s1 := Next(s0, ScriptEnds(0, Json(Present(before), Absent, Absent), before));
    assert s1.d.tasks == [d1];
    var s2 := Next(s1, Request(SetBootbankTask, Internal, 2, true));
    assert s2.d.tasks == [d1, t];
    var s3 := Next(s2, ScriptEnds(1, b, after));
    assert s3.d.tasks == [d1, t.(pipe := Present(b))];
  }

  /** The dump of the old table waits to exit, the dump of the new one runs, and nothing else is pending. */
  predicate TwoDumps(s: System, before: Dump, after: Dump) {
    && |s.d.tasks| == 2 && s.d.tasks[0].kind == DumpTask && s.d.tasks[1].kind == DumpTask
    && s.d.tasks[0].pipe == Present(Json(Present(before), Absent, Absent)) && s.d.tasks[1].pipe.Absent?
    && s.flash == after && !s.dropped && s.d.retryTimer == 0 && !s.d.listener.registered
  }

  lemma SecondDumpExitsFirst(s4: System, before: Dump, after: Dump)
    requires ValidDump(before) && ValidDump(after) && TwoDumps(s4, before, after)
    ensures var s5 := Next(s4, ScriptEnds(1, Json(Present(after), Absent, Absent), after));
            var s := Next(Next(s5, Exit(1, true)), Exit(0, true));
            Quiescent(s) && !s.dropped && s.flash == after && s.d.cache == Present(before)
  {
    var c := Json(Present(after), Absent, Absent);
    var d1, d2 := s4.d.tasks[0], s4.d.tasks[1];
    var s5 := Next(s4, ScriptEnds(1, c, after));
    assert s5.d.tasks == [d1, d2.(pipe := Present(c))];
    var s6 := Next(s5, Exit(1, true));
    assert s6.d.tasks == [d1];
    var s7 := Next(s6, Exit(0, true));
    assert s7.d.tasks == [];
  }

  lemma RunSeven(s: System, a: Step, b: Step, c: Step, d: Step, e: Step, f: Step, g: Step)
    ensures Run(s, [a, b, c, d, e, f, g]) == Next(Next(Next(Next(Next(Next(Next(s, a), b), c), d), e), f), g)
  {
    RunCons(s, a, [b, c, d, e, f, g]);
    var s1 := Next(s, a);
    RunCons(s1, b, [c, d, e, f, g]);
    var s2 := Next(s1, b);
    RunCons(s2, c, [d, e, f, g]);
    var s3 := Next(s2, c);
    RunCons(s3, d, [e, f, g]);
    var s4 := Next(s3, d);
    RunCons(s4, e, [f, g]);
    var s5 := Next(s4, e);
    RunCons(s5, f, [g]);
    RunCons(Next(s5, f), g, []);
  }

  lemma RunCons(s: System, x: Step, xs: seq<Step>)
    ensures Run(s, [x] + xs) == Run(Next(s, x), xs)
  {
    assert ([x] + xs)[1..] == xs;
  }
}
