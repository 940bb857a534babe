/** The alarm that the CPU and the memory monitor share. The code stores no phase: it compares
    the time of the last rise with the time of the last fall, and keeps both as decimal text so
    that a reload can restore them. The reference is a two-state automaton with no clock. */
module Hysteresis {
  import opened Decimal

  datatype Thresholds = Thresholds(rise: nat, fall: nat)
  datatype Kind = Rise | Fall
  datatype Action = Action(kind: Kind, utilisation: nat, threshold: nat, at: int)

  /** The times in memory, and the texts stored for them. */
  datatype Alarm = Alarm(th: Thresholds, riseTime: int, fallTime: int, riseText: string, fallText: string)

  const LOAD_BUFFER := 16

  // ----- what the code does

  function AfterRise(a: Alarm, util: nat, clock: int): Alarm {
    if util > a.th.rise && a.fallTime >= a.riseTime
    then a.(riseTime := clock, riseText := Print(clock)) else a
  }

  function AfterFall(a: Alarm, util: nat, clock: int): Alarm {
    if util < a.th.fall && a.riseTime > a.fallTime
    then a.(fallTime := clock, fallText := Print(clock)) else a
  }

  /** One poll: the rise test, then the fall test on what the rise test left. Each reads the clock itself. */
  function Poll(a: Alarm, util: nat, riseClock: int, fallClock: int): (Alarm, seq<Action>) {
    var b := AfterRise(a, util, riseClock);
    var c := AfterFall(b, util, fallClock);
    var up := if util > a.th.rise && a.fallTime >= a.riseTime then [Action(Rise, util, a.th.rise, riseClock)] else [];
    var down := if util < b.th.fall && b.riseTime > b.fallTime then [Action(Fall, util, b.th.fall, fallClock)] else [];
    (c, up + down)
  }

  function LoadTime(text: string): int {
    StrToL(Truncated(text, LOAD_BUFFER))
  }

  /** A reload forgets the memory and reads thresholds and both times from the configuration again. */
  function Reload(a: Alarm, th: Thresholds): Alarm {
    Alarm(th, LoadTime(a.riseText), LoadTime(a.fallText), a.riseText, a.fallText)
  }

  // ----- the reference automaton

  datatype Phase = Normal | Critical

  function PhaseOf(a: Alarm): Phase {
    if a.riseTime > a.fallTime then Critical else Normal
  }

  function Automaton(p: Phase, th: Thresholds, util: nat): (Phase, seq<Kind>) {
    var rises := p == Normal && util > th.rise;
    var falls := (rises || p == Critical) && util < th.fall;
    (if falls then Normal else if rises then Critical else p,
     (if rises then [Rise] else []) + (if falls then [Fall] else []))
  }

  function Kinds(acts: seq<Action>): (k: seq<Kind>)
    ensures |k| == |acts|
  {
    seq(|acts|, i requires 0 <= i < |acts| => acts[i].kind)
  }

  lemma KindsOfConcat(x: seq<Action>, y: seq<Action>)
    ensures Kinds(x + y) == Kinds(x) + Kinds(y)
  {
  }

  // ----- one poll

  /** The clock at a rise is past the stored fall, and the clock at a fall is not before the stored rise. */
  predicate ClockGood(a: Alarm, util: nat, riseClock: int, fallClock: int) {
    var b := AfterRise(a, util, riseClock);
    && (util > a.th.rise && a.fallTime >= a.riseTime ==> riseClock > a.fallTime)
    && (util < b.th.fall && b.riseTime > b.fallTime ==> fallClock >= b.riseTime)
  }

  /** The clock condition is exactly what makes a poll agree with the automaton. */
  lemma PollRefinesIff(a: Alarm, util: nat, riseClock: int, fallClock: int)
    ensures var (b, acts) := Poll(a, util, riseClock, fallClock);
            (PhaseOf(b), Kinds(acts)) == Automaton(PhaseOf(a), a.th, util)
            <==> ClockGood(a, util, riseClock, fallClock)
  {
    var (b, acts) := Poll(a, util, riseClock, fallClock);
    var (p, ks) := Automaton(PhaseOf(a), a.th, util);
    var mid := AfterRise(a, util, riseClock);
    if util > a.th.rise && a.fallTime >= a.riseTime {
      assert Kinds(acts)[0] == Rise && ks[0] == Rise;
      if riseClock > a.fallTime && util < a.th.fall {
        assert Kinds(acts) == [Rise, Fall] == ks;
      } else if util < a.th.fall {
        assert |acts| == 1 && |ks| == 2;
      } else {
        assert Kinds(acts) == [Rise] == ks;
      }
    } else if util < a.th.fall && a.riseTime > a.fallTime {
      assert Kinds(acts) == [Fall] == ks;
    } else {
      assert Kinds(acts) == [] == ks;
    }
  }

  predicate Announces(acts: seq<Action>, kind: Kind) {
    exists i :: 0 <= i < |acts| && acts[i].kind == kind
  }

  /** What a poll writes: a time and its text exactly with the action that announces them, at the clock of its test. */
  lemma PollEffect(a: Alarm, util: nat, riseClock: int, fallClock: int)
    ensures var (b, acts) := Poll(a, util, riseClock, fallClock);
            && b.th == a.th
            && (forall i :: 0 <= i < |acts| ==>
                  acts[i] == if acts[i].kind == Rise then Action(Rise, util, a.th.rise, riseClock)
                             else Action(Fall, util, a.th.fall, fallClock))
            && (if Announces(acts, Rise) then b.riseTime == riseClock && b.riseText == Print(riseClock)
                else b.riseTime == a.riseTime && b.riseText == a.riseText)
            && (if Announces(acts, Fall) then b.fallTime == fallClock && b.fallText == Print(fallClock)
                else b.fallTime == a.fallTime && b.fallText == a.fallText)
  {
    var mid := AfterRise(a, util, riseClock);
    var acts := Poll(a, util, riseClock, fallClock).1;
    if util > a.th.rise && a.fallTime >= a.riseTime {
      assert acts[0].kind == Rise;
    }
    if util < a.th.fall && mid.riseTime > mid.fallTime {
      assert acts[|acts| - 1].kind == Fall;
    }
  }

  // ----- reload

  /** The stored texts read back as the values in memory. */
  predicate Persisted(a: Alarm) {
    LoadTime(a.riseText) == a.riseTime && LoadTime(a.fallText) == a.fallTime
  }

  /** Clock readings whose text the load buffer can hold. */
  predicate Storable(clock: int) {
    -100_000_000_000_000 < clock < 1_000_000_000_000_000
  }

  /** A clock value survives being stored and loaded exactly when its text fits the buffer. */
  lemma StoredTimeSurvivesIff(clock: int)
    requires -TWO_63 <= clock < TWO_63
    ensures LoadTime(Print(clock)) == clock <==> Storable(clock)
  {
    TruncatedRoundTrip(clock, LOAD_BUFFER);
    FitsFifteen(clock);
  }

  lemma PollKeepsPersisted(a: Alarm, util: nat, riseClock: int, fallClock: int)
    requires Persisted(a) && Storable(riseClock) && Storable(fallClock)
    ensures Persisted(Poll(a, util, riseClock, fallClock).0)
  {
    StoredTimeSurvivesIff(riseClock);
    StoredTimeSurvivesIff(fallClock);
  }

  // ----- whole runs

  datatype Event = PollEvent(util: nat, riseClock: int, fallClock: int) | ReloadEvent(th: Thresholds)

  function Step(a: Alarm, e: Event): (Alarm, seq<Action>) {
    match e
    case PollEvent(util, rc, fc) => Poll(a, util, rc, fc)
    case ReloadEvent(th) => (Reload(a, th), [])
  }

  function Run(a: Alarm, es: seq<Event>): (Alarm, seq<Action>)
    decreases |es|
  {
    if es == [] then (a, [])
    else
      var (b, x) := Step(a, es[0]);
      var (c, y) := Run(b, es[1..]);
      (c, x + y)
  }

  /** The automaton has no text, no clock and no times: a reload only changes its thresholds. */
  function AutomatonRun(p: Phase, th: Thresholds, es: seq<Event>): (Phase, seq<Kind>)
    decreases |es|
  {
    if es == [] then (p, [])
    else match es[0]
      case PollEvent(util, _, _) =>
        var (q, x) := Automaton(p, th, util);
        var (r, y) := AutomatonRun(q, th, es[1..]);
        (r, x + y)
      case ReloadEvent(th') => AutomatonRun(p, th', es[1..])
  }

  ghost predicate GoodRun(a: Alarm, es: seq<Event>)
    decreases |es|
  {
    es == [] ||
    (&& (es[0].PollEvent? ==>
           && ClockGood(a, es[0].util, es[0].riseClock, es[0].fallClock)
           && Storable(es[0].riseClock) && Storable(es[0].fallClock))
     && GoodRun(Step(a, es[0]).0, es[1..]))
  }

  /** Every run of polls and reloads takes exactly the actions of the automaton and ends in its phase. */
  lemma {:induction false} RunRefinesAutomaton(a: Alarm, es: seq<Event>)
    requires Persisted(a) && GoodRun(a, es)
    ensures var (b, acts) := Run(a, es);
            && Persisted(b)
            && (PhaseOf(b), Kinds(acts)) == AutomatonRun(PhaseOf(a), a.th, es)
    decreases |es|
  {
    if es == [] {
    } else {
      var (b, x) := Step(a, es[0]);
      if es[0].PollEvent? {
        PollRefinesIff(a, es[0].util, es[0].riseClock, es[0].fallClock);
        PollKeepsPersisted(a, es[0].util, es[0].riseClock, es[0].fallClock);
      }
      RunRefinesAutomaton(b, es[1..]);
      KindsOfConcat(x, Run(b, es[1..]).1);
      assert es[0].ReloadEvent? ==> x + Run(b, es[1..]).1 == Run(b, es[1..]).1;
    }
  }

  /** The run takes the actions of the automaton and ends in its phase. */
  ghost predicate Agrees(a: Alarm, es: seq<Event>) {
    var (b, acts) := Run(a, es);
    (PhaseOf(b), Kinds(acts)) == AutomatonRun(PhaseOf(a), a.th, es)
  }

  predicate StorableClocks(es: seq<Event>) {
    forall i :: 0 <= i < |es| && es[i].PollEvent? ==> Storable(es[i].riseClock) && Storable(es[i].fallClock)
  }

  predicate StepGood(a: Alarm, e: Event) {
    e.PollEvent? ==> ClockGood(a, e.util, e.riseClock, e.fallClock)
  }

  /** After a first step, the rest of a run decides whether the automaton is followed, if the step followed it. */
  lemma StepThenRest(a: Alarm, es: seq<Event>)
    requires es != [] && Persisted(a) && StorableClocks(es)
    ensures Persisted(Step(a, es[0]).0)
    ensures StepGood(a, es[0]) ==> (Agrees(a, es) <==> Agrees(Step(a, es[0]).0, es[1..]))
  {
    var e := es[0];
    var (b, x) := Step(a, e);
    var y := Run(b, es[1..]).1;
    KindsOfConcat(x, y);
    match e
    case PollEvent(util, rc, fc) =>
      PollRefinesIff(a, util, rc, fc);
      PollKeepsPersisted(a, util, rc, fc);
      SamePrefix(Kinds(x), Kinds(y), AutomatonRun(PhaseOf(b), b.th, es[1..]).1);
    case ReloadEvent(th) =>
      assert x + y == y;
  }

  lemma SamePrefix(x: seq<Kind>, y: seq<Kind>, z: seq<Kind>)
    ensures x + y == x + z <==> y == z
  {
    assert (x + y)[|x|..] == y && (x + z)[|x|..] == z;
  }

  lemma OneStepAgreesIff(a: Alarm, e: Event)
    requires Persisted(a)
    ensures Agrees(a, [e]) <==> StepGood(a, e)
  {
    var (b, x) := Step(a, e);
    assert [e][1..] == [];
    assert Run(a, [e]) == (b, x + []) && x + [] == x;
    match e
    case PollEvent(util, rc, fc) =>
      PollRefinesIff(a, util, rc, fc);
      var (q, ks) := Automaton(PhaseOf(a), a.th, util);
      assert AutomatonRun(PhaseOf(a), a.th, [e]) == (q, ks + []) && ks + [] == ks;
    case ReloadEvent(th) =>
      assert AutomatonRun(PhaseOf(a), a.th, [e]) == AutomatonRun(PhaseOf(a), th, []);
  }

  /** With clock values that can be stored, every prefix of a run of polls and reloads follows the automaton if and only
      if every poll meets the clock condition. */
  lemma {:induction false} RunRefinesIff(a: Alarm, es: seq<Event>)
    requires Persisted(a) && StorableClocks(es)
    ensures (forall k :: 0 <= k <= |es| ==> Agrees(a, es[..k])) <==> GoodRun(a, es)
    decreases |es|
  {
    if es == [] {
      assert Agrees(a, es[..0]);
    } else {
      StepThenRest(a, es);
      OneStepAgreesIff(a, es[0]);
      assert es[..1] == [es[0]];
      RunRefinesIff(Step(a, es[0]).0, es[1..]);
      if StepGood(a, es[0]) {
        PrefixesAfterStep(a, es);
      }
    }
  }

  lemma PrefixesAfterStep(a: Alarm, es: seq<Event>)
    requires es != [] && Persisted(a) && StorableClocks(es) && StepGood(a, es[0])
    ensures (forall k :: 0 <= k <= |es| ==> Agrees(a, es[..k]))
            <==> (forall k :: 0 <= k <= |es| - 1 ==> Agrees(Step(a, es[0]).0, es[1..][..k]))
  {
    var b := Step(a, es[0]).0;
    assert Agrees(a, es[..0]);
    forall k | 0 < k <= |es|
      ensures Agrees(a, es[..k]) <==> Agrees(b, es[1..][..k - 1])
    {
      StepThenRest(a, es[..k]);
      assert es[..k][1..] == es[1..][..k - 1];
    }
    PrefixesShift(a, b, es);
  }

  lemma PrefixesShift(a: Alarm, b: Alarm, es: seq<Event>)
    requires es != [] && Agrees(a, es[..0])
    requires forall k :: 0 < k <= |es| ==> (Agrees(a, es[..k]) <==> Agrees(b, es[1..][..k - 1]))
    ensures (forall k :: 0 <= k <= |es| ==> Agrees(a, es[..k]))
            <==> (forall k :: 0 <= k <= |es| - 1 ==> Agrees(b, es[1..][..k]))
  {
    if forall k :: 0 <= k <= |es| ==> Agrees(a, es[..k]) {
      forall k | 0 <= k <= |es| - 1
        ensures Agrees(b, es[1..][..k])
      {
        assert Agrees(a, es[..k + 1]);
      }
    }
  }

  /** Every action leaves the phase reached so far, so rise and fall alternate; `p` is where they start and `q` where
      they lead. */
  predicate Alternates(ks: seq<Kind>, p: Phase, q: Phase) {
    if ks == [] then p == q
    else if p == Normal then ks[0] == Rise && Alternates(ks[1..], Critical, q)
    else ks[0] == Fall && Alternates(ks[1..], Normal, q)
  }

  lemma {:induction false} AlternatesConcat(x: seq<Kind>, y: seq<Kind>, p: Phase, q: Phase, r: Phase)
    requires Alternates(x, p, q) && Alternates(y, q, r)
    ensures Alternates(x + y, p, r)
  {
    if x == [] {
      assert x + y == y;
    } else {
      assert (x + y)[1..] == x[1..] + y;
      AlternatesConcat(x[1..], y, if p == Normal then Critical else Normal, q, r);
    }
  }

  lemma {:induction false} AutomatonAlternates(p: Phase, th: Thresholds, es: seq<Event>)
    ensures var (q, ks) := AutomatonRun(p, th, es); Alternates(ks, p, q)
    decreases |es|
  {
    if es == [] {
    } else {
      match es[0]
      case PollEvent(util, _, _) =>
        var (q, x) := Automaton(p, th, util);
        assert Alternates(x, p, q);
        AutomatonAlternates(q, th, es[1..]);
        var (r, y) := AutomatonRun(q, th, es[1..]);
        AlternatesConcat(x, y, p, q, r);
      case ReloadEvent(th') => AutomatonAlternates(p, th', es[1..]);
    }
  }

  predicate Justified(x: Action) {
    match x.kind
    case Rise => x.utilisation > x.threshold
    case Fall => x.utilisation < x.threshold
  }

  lemma {:induction false} ActionsJustified(a: Alarm, es: seq<Event>)
    ensures forall i :: 0 <= i < |Run(a, es).1| ==> Justified(Run(a, es).1[i])
    decreases |es|
  {
    if es == [] {
    } else {
      ActionsJustified(Step(a, es[0]).0, es[1..]);
    }
  }

  /** In every good run the alarm's actions alternate strictly across any number of reloads, and every
      action is on the right side of the threshold in force. */
  lemma AlarmAlternates(a: Alarm, es: seq<Event>)
    requires Persisted(a) && GoodRun(a, es)
    ensures var (b, acts) := Run(a, es);
            && Alternates(Kinds(acts), PhaseOf(a), PhaseOf(b))
            && forall i :: 0 <= i < |acts| ==> Justified(acts[i])
  {
    RunRefinesAutomaton(a, es);
    AutomatonAlternates(PhaseOf(a), a.th, es);
    ActionsJustified(a, es);
  }

  // ----- an advancing clock meets the clock condition

  /** Readings never decrease within a poll, strictly increase from poll to poll, start after `last`, and can be
      stored. */
  predicate Advancing(last: int, es: seq<Event>)
    decreases |es|
  {
    es == [] ||
    match es[0]
    case PollEvent(_, rc, fc) => last < rc <= fc && Storable(rc) && Storable(fc) && Advancing(fc, es[1..])
    case ReloadEvent(_) => Advancing(last, es[1..])
  }

  lemma {:induction false} AdvancingIsGood(a: Alarm, last: int, es: seq<Event>)
    requires Persisted(a) && a.riseTime <= last && a.fallTime <= last && Advancing(last, es)
    ensures GoodRun(a, es)
    decreases |es|
  {
    if es == [] {
    } else {
      match es[0]
      case PollEvent(util, rc, fc) =>
        PollKeepsPersisted(a, util, rc, fc);
        AdvancingIsGood(Poll(a, util, rc, fc).0, fc, es[1..]);
      case ReloadEvent(th) =>
        AdvancingIsGood(Reload(a, th), last, es[1..]);
    }
  }

  /** A clock set back behind the stored fall time breaks alternation: the same rise is announced twice. */
  lemma ClockSetBackRisesTwice()
    ensures var a := Alarm(Thresholds(80, 60), 0, 500, Print(0), Print(500));
            Kinds(Run(a, [PollEvent(90, 100, 100), PollEvent(90, 105, 105)]).1) == [Rise, Rise]
  {
    var a := Alarm(Thresholds(80, 60), 0, 500, Print(0), Print(500));
    var e1, e2 := PollEvent(90, 100, 100), PollEvent(90, 105, 105);
    var (b, x) := Step(a, e1);
    var (c, y) := Step(b, e2);
    assert [e1, e2][1..] == [e2];
    assert [e2][1..] == [];
    assert Run(c, []) == (c, []);
    assert Run(b, [e2]) == (c, y + []);
    assert Run(a, [e1, e2]) == (c, x + (y + []));
    assert x == [Action(Rise, 90, 80, 100)] && y == [Action(Rise, 90, 80, 105)];
  }
}
