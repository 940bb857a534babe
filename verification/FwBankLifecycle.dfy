/** What holds of the firmware-bank daemon whatever the scripts do: the cache is always safe to read, every deferred
    request is completed exactly once, the listener and its timer agree, and without new requests it comes to rest. */
module FwBankLifecycle {
  import opened FwBank
  import opened FwBankSystem

  // ----- the cache is safe to read

  predicate SafeCache(d: Daemon) {
    (d.cache.Present? ==> ValidDump(d.cache.value)) && d.retries <= MAX_RETRIES
  }

  /** Only a dump task that printed a valid dump replaces the cache, by that dump, and only the end of the daemon
      empties it. */
  lemma CacheOnlyReplaced(s: System, x: Step)
    ensures Next(s, x).d.cache != s.d.cache && !x.Shutdown? ==>
              x.Exit? && Enabled(s, x) && s.d.tasks[x.i].kind == DumpTask
              && Validated(s.d.tasks[x.i].pipe.value) && Next(s, x).d.cache == s.d.tasks[x.i].pipe.value.banks
    ensures s.d.cache.Present? ==> (Next(s, x).d.cache.Present? <==> !x.Shutdown?)
    ensures SafeCache(s.d) ==> SafeCache(Next(s, x).d)
  {
  }

  /** In every run, whatever the scripts print, the cache is empty or a valid dump, at most ten retries are made, and
      a cache once filled stays filled until the daemon ends. */
  lemma {:induction false} CacheIsSafe(s: System, xs: seq<Step>)
    requires SafeCache(s.d)
    ensures SafeCache(Run(s, xs).d)
    ensures s.d.cache.Present? && (forall i :: 0 <= i < |xs| ==> !xs[i].Shutdown?) ==> Run(s, xs).d.cache.Present?
    decreases |xs|
  {
    if xs == [] {
    } else {
      CacheOnlyReplaced(s, xs[0]);
      CacheIsSafe(Next(s, xs[0]), xs[1..]);
    }
  }

  // ----- the listener

  predicate ListenerTimed(d: Daemon) {
    d.listener.registered <==> d.listener.timer > 0
  }

  /** In every run the handler is registered exactly while its timeout is pending. */
  lemma {:induction false} ListenerIffTimer(s: System, xs: seq<Step>)
    requires ListenerTimed(s.d)
    ensures ListenerTimed(Run(s, xs).d)
    decreases |xs|
  {
    if xs == [] {
    } else {
      ListenerIffTimer(Next(s, xs[0]), xs[1..]);
    }
  }

  // ----- requests

  /** What was sent about request `id`, in order. */
  function Words(log: seq<Message>, id: nat): seq<Word> {
    if log == [] then []
    else Words(log[..|log| - 1], id) + (if log[|log| - 1].to == From(id) then [log[|log| - 1].what] else [])
  }

  lemma {:induction false} WordsConcat(a: seq<Message>, b: seq<Message>, id: nat)
    ensures Words(a + b, id) == Words(a, id) + Words(b, id)
  {
    if b == [] {
      assert a + b == a;
    } else {
      assert (a + b)[..|a + b| - 1] == a + b[..|b| - 1];
      WordsConcat(a, b[..|b| - 1], id);
    }
  }

  /** How many tasks in flight serve request `id`. */
  function Serving(ts: seq<Task>, id: nat): nat {
    if ts == [] then 0 else Serving(ts[..|ts| - 1], id) + (if ts[|ts| - 1].req == From(id) then 1 else 0)
  }

  lemma {:induction false} ServingConcat(a: seq<Task>, b: seq<Task>, id: nat)
    ensures Serving(a + b, id) == Serving(a, id) + Serving(b, id)
  {
    if b == [] {
      assert a + b == a;
    } else {
      assert (a + b)[..|a + b| - 1] == a + b[..|b| - 1];
      ServingConcat(a, b[..|b| - 1], id);
    }
  }

  lemma {:induction false} ServingWithout(ts: seq<Task>, i: nat, id: nat)
    requires i < |ts|
    ensures Serving(ts, id) == Serving(Without(ts, i), id) + (if ts[i].req == From(id) then 1 else 0)
  {
    var us, rest := Without(ts, i), ts[..|ts| - 1];
    if i == |ts| - 1 {
      assert us == rest;
    } else {
      assert us[|us| - 1] == ts[|ts| - 1] && us[..|us| - 1] == Without(rest, i);
      ServingWithout(rest, i, id);
    }
  }

  lemma ServingUpdate(ts: seq<Task>, i: nat, t: Task, id: nat)
    requires i < |ts| && t.req == ts[i].req
    ensures Serving(ts[i := t], id) == Serving(ts, id)
  {
    ServingWithout(ts, i, id);
    ServingWithout(ts[i := t], i, id);
    assert Without(ts[i := t], i) == Without(ts, i);
  }

  /** The life of a request: unknown, refused at once, waiting for its task, or completed once after at most one
      reply. */
  predicate Life(words: seq<Word>, serving: nat) {
    || (words == [] && serving == 0)
    || (words == [Replied] && serving == 0)
    || (words == [Deferred] && serving == 1)
    || (words == [Deferred, Completed] && serving == 0)
    || (words == [Deferred, Replied, Completed] && serving == 0)
  }

  predicate Lives(d: Daemon, id: nat) {
    Life(Words(d.sent, id), Serving(d.tasks, id))
  }

  /** A new request has an id that was never used. */
  predicate FreshId(s: System, x: Step) {
    x.Request? && x.req.From? ==> Words(s.d.sent, x.req.id) == []
  }

  lemma OneMessage(req: Requester, w: Word, id: nat)
    ensures Words(Tell(req, w), id) == if req == From(id) then [w] else []
  {
    var log := Tell(req, w);
    if log != [] {
      assert log[..0] == [];
    }
  }

  lemma OneTask(t: Task, id: nat)
    ensures Serving([t], id) == if t.req == From(id) then 1 else 0
  {
    assert [t][..0] == [];
  }

  lemma ForkTells(d: Daemon, kind: Kind, req: Requester, bankId: nat, ok: bool, id: nat)
    ensures var e := TaskFork(d, kind, req, bankId, ok);
            && Words(e.sent, id) == Words(d.sent, id) + (if ok && req == From(id) then [Deferred] else [])
            && Serving(e.tasks, id) == Serving(d.tasks, id) + (if ok && req == From(id) then 1 else 0)
  {
    var t := Task(kind, req, bankId, Timeout(kind), Absent);
    WordsConcat(d.sent, Tell(req, Deferred), id);
    OneMessage(req, Deferred, id);
    ServingConcat(d.tasks, [t], id);
    OneTask(t, id);
  }

  lemma Answered(d: Daemon, req: Requester, id: nat)
    ensures Words(d.sent + Reply(req), id) == Words(d.sent, id) + (if req == From(id) then [Replied] else [])
  {
    WordsConcat(d.sent, Reply(req), id);
    assert Reply(req)[..0] == [];
  }

  lemma Told(d: Daemon, req: Requester, w: Word, id: nat)
    ensures Words(d.sent + Tell(req, w), id) == Words(d.sent, id) + (if req == From(id) then [w] else [])
  {
    WordsConcat(d.sent, Tell(req, w), id);
    OneMessage(req, w, id);
  }

  /** The reply about `id` that the exit of task `t` sends: one exactly when its output is JSON, and none for a dump. */
  function Answer(t: Task, id: nat): seq<Word>
    requires t.pipe.Present?
  {
    if t.req == From(id) && t.kind != DumpTask && t.pipe.value.Json? then [Replied] else []
  }

  predicate Answers(d: Daemon, e: Daemon, words: seq<Word>, id: nat) {
    Serving(e.tasks, id) == Serving(d.tasks, id) && Words(e.sent, id) == Words(d.sent, id) + words
  }

  lemma SwitchTells(d: Daemon, t: Task, ok: bool, id: nat)
    requires t.pipe.Present? && t.kind == SetBootbankTask
    ensures Answers(d, SetBootbankFinish(d, t.req, t.pipe.value, ok), Answer(t, id), id)
  {
    var out := t.pipe.value;
    if out.Json? {
      var e := d.(sent := d.sent + Reply(t.req));
      Answered(d, t.req, id);
      if ReportsSwitch(out) {
        ForkTells(e, DumpTask, Internal, 0, ok, id);
        assert SetBootbankFinish(d, t.req, out, ok) == StartDump(e, ok);
      } else {
        assert SetBootbankFinish(d, t.req, out, ok) == e;
      }
    }
  }

  lemma UpgradeTells(d: Daemon, t: Task, id: nat)
    requires t.pipe.Present? && t.kind == UpgradeTask
    ensures Answers(d, UpgradeFinish(d, t.req, t.bankId, t.pipe.value), Answer(t, id), id)
  {
    if t.pipe.value.Json? {
      var e := UpgradeFinish(d, t.req, t.bankId, t.pipe.value);
      assert e.tasks == d.tasks && e.sent == d.sent + Reply(t.req);
      Answered(d, t.req, id);
    }
  }

  lemma FinishTells(d: Daemon, t: Task, ok: bool, id: nat)
    requires t.pipe.Present?
    ensures Answers(d, Finish(d, t, ok), Answer(t, id), id)
  {
    match t.kind
    case DumpTask =>
    case SetBootbankTask => SwitchTells(d, t, ok, id);
    case UpgradeTask => UpgradeTells(d, t, id);
  }

  /** The exit of a task tells its request, and no other, at most one reply and then the completion; the reply comes
      exactly when the output is JSON. */
  lemma ExitTells(d: Daemon, i: nat, ok: bool, id: nat)
    requires i < |d.tasks| && d.tasks[i].pipe.Present?
    ensures var (t, e) := (d.tasks[i], TaskFinish(d, i, ok));
            var mine := t.req == From(id);
            && Serving(e.tasks, id) == Serving(d.tasks, id) - (if mine then 1 else 0)
            && Words(e.sent, id) == Words(d.sent, id) + Answer(t, id) + (if mine then [Completed] else [])
  {
    var t := d.tasks[i];
    var e := d.(tasks := Without(d.tasks, i));
    ServingWithout(d.tasks, i, id);
    FinishTells(e, t, ok, id);
    Told(Finish(e, t, ok), t.req, Completed, id);
  }

  lemma ReceiveTells(d: Daemon, attrs: seq<Attr>, ok: bool, id: nat)
    ensures var e := ReceiveSysupgrade(d, attrs, ok);
            Serving(e.tasks, id) == Serving(d.tasks, id) && Words(e.sent, id) == Words(d.sent, id)
  {
    ForkTells(ListenTimeout(d), DumpTask, Internal, 0, ok, id);
  }

  lemma RequestTells(d: Daemon, kind: Kind, req: Requester, bankId: nat, ok: bool, id: nat)
    requires Lives(d, id) && (req == From(id) ==> Words(d.sent, id) == [])
    ensures Lives(HandleRequest(d, kind, req, bankId, ok), id)
  {
    ForkTells(d, kind, req, bankId, true, id);
    Told(d, req, Replied, id);
  }

  lemma ExitKeepsLife(d: Daemon, i: nat, ok: bool, id: nat)
    requires i < |d.tasks| && d.tasks[i].pipe.Present? && Lives(d, id)
    ensures Lives(TaskFinish(d, i, ok), id)
  {
    ExitTells(d, i, ok, id);
    if d.tasks[i].req == From(id) {
      ServingWithout(d.tasks, i, id);
      LifeEnds(Words(d.sent, id), Serving(d.tasks, id), Answer(d.tasks[i], id));
    } else {
      assert Words(d.sent, id) + [] + [] == Words(d.sent, id);
    }
  }

  lemma LifeEnds(words: seq<Word>, serving: nat, answer: seq<Word>)
    requires Life(words, serving) && serving > 0 && (answer == [] || answer == [Replied])
    ensures Life(words + answer + [Completed], serving - 1)
  {
    assert words == [Deferred];
    if answer == [] {
      assert words + answer + [Completed] == [Deferred, Completed];
    } else {
      assert words + answer + [Completed] == [Deferred, Replied, Completed];
    }
  }

  /** Each step moves each request along its life. */
  lemma StepKeepsLife(s: System, x: Step, id: nat)
    requires Lives(s.d, id) && FreshId(s, x)
    ensures Lives(Next(s, x).d, id)
  {
    if Enabled(s, x) {
      match x
      case Request(kind, req, bankId, ok) => RequestTells(s.d, kind, req, bankId, ok, id);
      case ScriptEnds(i, out, table) => ServingUpdate(s.d.tasks, i, s.d.tasks[i].(pipe := Present(out)), id);
      case Kill(i) => ServingUpdate(s.d.tasks, i, Next(s, x).d.tasks[i], id);
      case Exit(i, ok) => ExitKeepsLife(s.d, i, ok, id);
      case RetryFires(fileExists, ok) => ForkTells(s.d.(retryTimer := 0), DumpTask, Internal, 0, fileExists && ok, id);
      case UpgradeProgress(table) =>
      case UpgradeCompletes(table, attrs, ok) => ReceiveTells(s.d, attrs, ok, id);
      case Sysupgrade(attrs, ok) => ReceiveTells(s.d, attrs, ok, id);
      case ListenLapses =>
      case Shutdown =>
    }
  }

  /** A task that is killed before its script has printed anything completes its request without a reply, leaves the
      cache and the listener alone, touches no other task, and is tried again when it was a dump with retries left. */
  lemma KilledTaskOnlyCompletes(s: System, i: nat, ok: bool)
    requires Enabled(s, Kill(i)) && s.d.tasks[i].pipe.Absent?
    ensures var t, k := s.d.tasks[i], Next(s, Kill(i));
            var e := Next(k, Exit(i, ok)).d;
            && Enabled(k, Exit(i, ok))
            && e.sent == s.d.sent + Tell(t.req, Completed) && e.tasks == Without(s.d.tasks, i)
            && e.cache == s.d.cache && e.listener == s.d.listener
            && (e.retries == s.d.retries + 1 <==> t.kind == DumpTask && s.d.retries < MAX_RETRIES)
            && e.retryTimer == if e.retries > s.d.retries then RETRY_DELAY else s.d.retryTimer
  {
    assert Without(TaskTimeout(s.d, i).tasks, i) == Without(s.d.tasks, i);
  }

  predicate FreshIds(s: System, xs: seq<Step>)
    decreases |xs|
  {
    xs == [] || (FreshId(s, xs[0]) && FreshIds(Next(s, xs[0]), xs[1..]))
  }

  lemma {:induction false} RunKeepsLife(s: System, xs: seq<Step>, id: nat)
    requires Lives(s.d, id) && FreshIds(s, xs)
    ensures Lives(Run(s, xs).d, id)
    decreases |xs|
  {
    if xs == [] {
    } else {
      StepKeepsLife(s, xs[0], id);
      RunKeepsLife(Next(s, xs[0]), xs[1..], id);
    }
  }

  lemma {:induction false} NobodyServes(ts: seq<Task>, id: nat)
    requires forall i :: 0 <= i < |ts| ==> ts[i].req == Internal
    ensures Serving(ts, id) == 0
  {
    if ts == [] {
    } else {
      NobodyServes(ts[..|ts| - 1], id);
    }
  }

  /** In every run from the start a request is deferred at most once, replied to at most once and completed at most
      once, in that order, and completed exactly once when it was deferred and no task is left, whether its script
      ended, printed garbage or was killed. */
  lemma RequestsCompleteOnce(table: Dump, fileExists: bool, ok: bool, xs: seq<Step>, id: nat)
    requires FreshIds(Start(table, fileExists, ok), xs)
    ensures CompletedOnce(Run(Start(table, fileExists, ok), xs).d, id)
  {
    var s := Start(table, fileExists, ok);
    NobodyServes(s.d.tasks, id);
    assert s.d.sent == [];
    LivesOn(s, xs, id);
  }

  /** Request `id` is somewhere in its life, and at its end when it was deferred and no task is left. */
  predicate CompletedOnce(d: Daemon, id: nat) {
    && Lives(d, id)
    && (d.tasks == [] && Deferred in Words(d.sent, id) ==>
          Words(d.sent, id) == [Deferred, Completed] || Words(d.sent, id) == [Deferred, Replied, Completed])
  }

  lemma LivesOn(s: System, xs: seq<Step>, id: nat)
    requires Lives(s.d, id) && FreshIds(s, xs)
    ensures CompletedOnce(Run(s, xs).d, id)
  {
    RunKeepsLife(s, xs, id);
    var d := Run(s, xs).d;
    if d.tasks == [] && Deferred in Words(d.sent, id) {
      LifeAtRest(Words(d.sent, id), Serving(d.tasks, id));
    }
  }

  lemma LifeAtRest(words: seq<Word>, serving: nat)
    requires Life(words, serving) && serving == 0 && Deferred in words
    ensures words == [Deferred, Completed] || words == [Deferred, Replied, Completed]
  {
  }

  // ----- coming to rest

  /** What a task can still cause: its script's end, its kill timeout, its exit, and what its exit may start. */
  function TaskWeight(t: Task): nat {
    var own := 1 + (if t.pipe.Absent? then 1 else 0) + (if t.killTimer > 0 then 1 else 0);
    match t.kind
    case DumpTask => own
    case SetBootbankTask => own + 3
    case UpgradeTask => own + 4 + (if t.pipe.Absent? then 1 else 0)
  }

  function Weight(ts: seq<Task>): nat {
    if ts == [] then 0 else Weight(ts[..|ts| - 1]) + TaskWeight(ts[|ts| - 1])
  }

  function Measure(s: System): nat {
    Weight(s.d.tasks) + s.upgrades
    + 4 * (if s.d.retries < MAX_RETRIES then MAX_RETRIES - s.d.retries else 0)
    + (if s.d.retryTimer > 0 then 4 else 0) + (if s.d.listener.registered then 4 else 0)
  }

  lemma {:induction false} WeightConcat(a: seq<Task>, b: seq<Task>)
    ensures Weight(a + b) == Weight(a) + Weight(b)
  {
    if b == [] {
      assert a + b == a;
    } else {
      assert (a + b)[..|a + b| - 1] == a + b[..|b| - 1];
      WeightConcat(a, b[..|b| - 1]);
    }
  }

  lemma WeightOne(t: Task)
    ensures Weight([t]) == TaskWeight(t)
  {
    assert [t][..0] == [];
  }

  lemma {:induction false} WeightWithout(ts: seq<Task>, i: nat)
    requires i < |ts|
    ensures Weight(ts) == Weight(Without(ts, i)) + TaskWeight(ts[i])
  {
    var us, rest := Without(ts, i), ts[..|ts| - 1];
    if i == |ts| - 1 {
      assert us == rest;
    } else {
      assert us[|us| - 1] == ts[|ts| - 1] && us[..|us| - 1] == Without(rest, i);
      WeightWithout(rest, i);
    }
  }

  lemma WeightUpdate(ts: seq<Task>, i: nat, t: Task)
    requires i < |ts|
    ensures Weight(ts[i := t]) == Weight(ts) - TaskWeight(ts[i]) + TaskWeight(t)
  {
    WeightWithout(ts, i);
    WeightWithout(ts[i := t], i);
    assert Without(ts[i := t], i) == Without(ts, i);
  }

  lemma WeightOfDump(d: Daemon, ok: bool)
    ensures Weight(StartDump(d, ok).tasks) == Weight(d.tasks) + if ok then 3 else 0
  {
    var t := Task(DumpTask, Internal, 0, DUMP_TIMEOUT, Absent);
    WeightConcat(d.tasks, [t]);
    WeightOne(t);
  }

  /** Steps that no new request, no end of the daemon, and no upgrade still changing the table brings about; an event
      the listener ignores changes nothing and is left out. */
  predicate Spontaneous(s: System, x: Step) {
    && Enabled(s, x) && !x.Request? && !x.UpgradeProgress? && !x.Shutdown?
    && (x.Sysupgrade? ==> Next(s, x).d.listener != s.d.listener)
  }

  lemma FinishWeighs(s: System, t: Task, ok: bool)
    requires t.pipe.Present?
    ensures Measure(s.(d := Finish(s.d, t, ok))) < Measure(s) + TaskWeight(t)
  {
    var e := Finish(s.d, t, ok);
    match t.kind
    case DumpTask =>
      assert e.tasks == s.d.tasks && e.listener == s.d.listener;
    case SetBootbankTask =>
      WeightOfDump(s.d.(sent := s.d.sent + Reply(t.req)), ok);
      assert e.retries == s.d.retries && e.retryTimer == s.d.retryTimer && e.listener == s.d.listener;
    case UpgradeTask =>
      assert e.tasks == s.d.tasks && e.retries == s.d.retries && e.retryTimer == s.d.retryTimer;
  }

  lemma ExitDecreases(s: System, i: nat, ok: bool)
    requires i < |s.d.tasks| && s.d.tasks[i].pipe.Present?
    ensures Measure(AfterExit(s, i, ok)) < Measure(s)
  {
    var t := s.d.tasks[i];
    WeightWithout(s.d.tasks, i);
    FinishWeighs(s.(d := s.d.(tasks := Without(s.d.tasks, i))), t, ok);
  }

  lemma ReceiveDecreases(s: System, attrs: seq<Attr>, ok: bool)
    ensures var t := s.(d := ReceiveSysupgrade(s.d, attrs, ok));
            && Measure(t) <= Measure(s)
            && (t.d.listener != s.d.listener && s.d.listener.registered ==> Measure(t) < Measure(s))
  {
    WeightOfDump(ListenTimeout(s.d), ok);
  }

  lemma ScriptDecreases(s: System, x: Step)
    requires x.ScriptEnds? && Enabled(s, x)
    ensures Measure(Next(s, x)) < Measure(s)
  {
    WeightUpdate(s.d.tasks, x.i, s.d.tasks[x.i].(pipe := Present(x.out)));
  }

  lemma KillDecreases(s: System, x: Step)
    requires x.Kill? && Enabled(s, x)
    ensures Measure(Next(s, x)) < Measure(s)
  {
    WeightUpdate(s.d.tasks, x.i, TaskTimeout(s.d, x.i).tasks[x.i]);
  }

  lemma SpontaneousStepDecreases(s: System, x: Step)
    requires Spontaneous(s, x) && ListenerTimed(s.d)
    ensures Measure(Next(s, x)) < Measure(s)
  {
    match x
    case ScriptEnds(i, out, table) => ScriptDecreases(s, x);
    case Kill(i) => KillDecreases(s, x);
    case Exit(i, ok) => ExitDecreases(s, i, ok);
    case RetryFires(fileExists, ok) => WeightOfDump(s.d.(retryTimer := 0), fileExists && ok);
    case UpgradeCompletes(table, attrs, ok) => ReceiveDecreases(s, attrs, ok);
    case Sysupgrade(attrs, ok) => ReceiveDecreases(s, attrs, ok);
    case ListenLapses =>
  }

  ghost predicate SpontaneousRun(s: System, xs: seq<Step>)
    decreases |xs|
  {
    xs == [] || (Spontaneous(s, xs[0]) && SpontaneousRun(Next(s, xs[0]), xs[1..]))
  }

  /** Without new requests there are at most Measure(s) further steps, even when every script fails for ever. */
  lemma {:induction false} ComesToRest(s: System, xs: seq<Step>)
    requires SpontaneousRun(s, xs) && ListenerTimed(s.d)
    ensures |xs| <= Measure(s) - Measure(Run(s, xs))
    decreases |xs|
  {
    if xs == [] {
    } else {
      SpontaneousStepDecreases(s, xs[0]);
      ComesToRest(Next(s, xs[0]), xs[1..]);
    }
  }

  /** No step is left exactly in the quiescent states with no upgrade in the background. */
  lemma AtRestIff(s: System)
    requires ListenerTimed(s.d)
    ensures (forall x :: !Spontaneous(s, x)) <==> Quiescent(s) && s.upgrades == 0
  {
    if s.d.tasks != [] {
      if s.d.tasks[0].pipe.Present? {
        assert Spontaneous(s, Exit(0, true));
      } else {
        assert Spontaneous(s, ScriptEnds(0, Garbage, s.flash));
      }
    } else if s.d.retryTimer > 0 {
      assert Spontaneous(s, RetryFires(true, true));
    } else if s.d.listener.registered {
      assert Spontaneous(s, ListenLapses);
    } else if s.upgrades > 0 {
      assert Spontaneous(s, UpgradeCompletes(s.flash, [], true));
    }
  }
}
