/** The firmware-bank part of the daemon: forked tasks with kill timeouts, their finish callbacks, the cached bank
    dump with its bounded retry, and the sysupgrade listener. The reference is one function per callback on a
    value; the class has the same callbacks on fields. */
module FwBank {
  import opened Decimal
  import opened BankId

  const MAX_RETRIES := 10
  const RETRY_DELAY := 3
  const DUMP_TIMEOUT := 120
  const COMMAND_TIMEOUT := 10
  const LISTEN_TIMEOUT := 120

  datatype Maybe<T> = Absent | Present(value: T)

  // ----- the bank table

  /** One element of the "bank" array, with the eight fields of the policy. */
  datatype BankEntry =
    | Unparsable
    | Entry(name: Maybe<string>, id: Maybe<u32>, active: Maybe<bool>, boot: Maybe<bool>, upgrade: Maybe<bool>,
            fwver: Maybe<string>, swver: Maybe<string>, status: Maybe<string>)

  type Dump = seq<BankEntry>

  predicate Complete(e: BankEntry) {
    e.Entry? && e.name.Present? && e.id.Present? && e.active.Present? && e.boot.Present? && e.upgrade.Present?
    && e.fwver.Present? && e.swver.Present? && e.status.Present?
  }

  /** A dump is accepted when one bank has all eight fields. */
  predicate ValidDump(d: Dump) {
    exists i :: 0 <= i < |d| && Complete(d[i])
  }

  // ----- what a script prints

  datatype Output =
    | ReadError
    | Garbage  // nothing, or no JSON
    | Json(banks: Maybe<Dump>, success: Maybe<bool>, result: Maybe<string>)

  predicate Validated(out: Output) {
    out.Json? && out.banks.Present? && ValidDump(out.banks.value)
  }

  predicate ReportsSwitch(out: Output) {
    out.Json? && out.success == Present(true)
  }

  predicate ReportsUpgrade(out: Output) {
    out.Json? && out.result == Present("ok")
  }

  // ----- the daemon

  datatype Kind = DumpTask | SetBootbankTask | UpgradeTask
  datatype Requester = Internal | From(id: nat)

  /** A forked task; `pipe` is what its script has printed once it has ended. */
  datatype Task = Task(kind: Kind, req: Requester, bankId: nat, killTimer: nat, pipe: Maybe<Output>)

  datatype Listener = Listener(registered: bool, timer: nat, bankId: nat)
  datatype Word = Deferred | Replied | Completed
  datatype Message = Message(what: Word, to: Requester)

  /** Timers are the seconds they were set to, 0 when they are not pending. */
  datatype Daemon = Daemon(
    cache: Maybe<Dump>, retries: nat, retryTimer: nat, tasks: seq<Task>, listener: Listener, sent: seq<Message>)

  function Tell(req: Requester, what: Word): seq<Message> {
    if req.From? then [Message(what, req)] else []
  }

  /** The reply of a finish callback also goes out, to nobody, when the daemon itself started it: the callback is
      given the address of a request record that is part of its own, which is never null. */
  function Reply(req: Requester): seq<Message> {
    [Message(Replied, req)]
  }

  function Timeout(kind: Kind): nat {
    if kind == DumpTask then DUMP_TIMEOUT else COMMAND_TIMEOUT
  }

  /** sysmngr_task_fork; `ok` tells whether the pipe and the fork succeed. */
  function TaskFork(d: Daemon, kind: Kind, req: Requester, bankId: nat, ok: bool): Daemon {
    if !ok then d
    else d.(tasks := d.tasks + [Task(kind, req, bankId, Timeout(kind), Absent)],
            sent := d.sent + Tell(req, Deferred))
  }

  function StartDump(d: Daemon, ok: bool): Daemon {
    TaskFork(d, DumpTask, Internal, 0, ok)
  }

  function Retry(d: Daemon): Daemon {
    if d.retries < MAX_RETRIES then d.(retries := d.retries + 1, retryTimer := RETRY_DELAY) else d
  }

  function DumpFinish(d: Daemon, out: Output): Daemon {
    if Validated(out) then d.(cache := out.banks) else Retry(d)
  }

  function SetBootbankFinish(d: Daemon, req: Requester, out: Output, ok: bool): Daemon {
    if !out.Json? then d
    else
      var e := d.(sent := d.sent + Reply(req));
      if ReportsSwitch(out) then StartDump(e, ok) else e
  }

  function UpgradeFinish(d: Daemon, req: Requester, bankId: nat, out: Output): Daemon {
    if !out.Json? then d
    else
      var e := d.(sent := d.sent + Reply(req));
      if ReportsUpgrade(out) then e.(listener := Listener(true, LISTEN_TIMEOUT, bankId)) else e
  }

  function Without<T>(s: seq<T>, i: nat): seq<T>
    requires i < |s|
  {
    s[..i] + s[i + 1..]
  }

  /** The finish callback of a task that has been taken off the list. */
  function Finish(d: Daemon, t: Task, ok: bool): Daemon
    requires t.pipe.Present?
  {
    match t.kind
    case DumpTask => DumpFinish(d, t.pipe.value)
    case SetBootbankTask => SetBootbankFinish(d, t.req, t.pipe.value, ok)
    case UpgradeTask => UpgradeFinish(d, t.req, t.bankId, t.pipe.value)
  }

  /** _sysmngr_task_finish_callback for task `i`, whose script has ended. */
  function TaskFinish(d: Daemon, i: nat, ok: bool): Daemon
    requires i < |d.tasks| && d.tasks[i].pipe.Present?
  {
    var t := d.tasks[i];
    var e := Finish(d.(tasks := Without(d.tasks, i)), t, ok);
    e.(sent := e.sent + Tell(t.req, Completed))
  }

  /** timeout_callback: the script is killed and what it printed stays in the pipe. */
  function TaskTimeout(d: Daemon, i: nat): Daemon
    requires i < |d.tasks|
  {
    var t := d.tasks[i];
    d.(tasks := d.tasks[i := t.(killTimer := 0, pipe := if t.pipe.Absent? then Present(Garbage) else t.pipe)])
  }

  /** The set_bootbank and upgrade requests: a request whose task cannot start is answered at once. */
  function HandleRequest(d: Daemon, kind: Kind, req: Requester, bankId: nat, ok: bool): Daemon {
    if ok then TaskFork(d, kind, req, bankId, true) else d.(sent := d.sent + Tell(req, Replied))
  }

  /** fwbank_dump_timer: without the script nothing is started. */
  function DumpTimer(d: Daemon, fileExists: bool, ok: bool): Daemon {
    StartDump(d.(retryTimer := 0), fileExists && ok)
  }

  /** sysmngr_clean_fwbank_dump, when the daemon ends. */
  function CleanDump(d: Daemon): Daemon {
    d.(cache := Absent)
  }

  // ----- the listener

  datatype Attr = BankIdAttr(value: string) | StatusAttr(value: string) | OtherAttr
  datatype Verdict = Ignored | Refreshed | Finished

  /** What the attributes of a sysupgrade event mean to a listener for the bank printed as `own`. */
  function Judge(attrs: seq<Attr>, own: string): Verdict {
    if attrs == [] then Finished
    else match attrs[0]
      case BankIdAttr(v) => if v != own then Ignored else Judge(attrs[1..], own)
      case StatusAttr(v) =>
        if v == "Downloading" then Ignored else if v == "Available" then Refreshed else Judge(attrs[1..], own)
      case OtherAttr => Judge(attrs[1..], own)
  }

  function ReceiveSysupgrade(d: Daemon, attrs: seq<Attr>, ok: bool): Daemon {
    var closed := d.(listener := d.listener.(registered := false, timer := 0));
    if !d.listener.registered then d
    else match Judge(attrs, Digits(d.listener.bankId))
      case Ignored => d
      case Finished => closed
      case Refreshed => StartDump(closed, ok)
  }

  function ListenTimeout(d: Daemon): Daemon {
    d.(listener := d.listener.(registered := false, timer := 0))
  }

  predicate Stops(a: Attr, own: string) {
    match a
    case BankIdAttr(v) => v != own
    case StatusAttr(v) => v == "Downloading" || v == "Available"
    case OtherAttr => false
  }

  predicate NoneStops(attrs: seq<Attr>, own: string) {
    forall i :: 0 <= i < |attrs| ==> !Stops(attrs[i], own)
  }

  /** Attribute `j` says Available, and no attribute before it stops the visit. */
  predicate ReachesAvailable(attrs: seq<Attr>, own: string, j: int) {
    0 <= j < |attrs| && attrs[j] == StatusAttr("Available") && forall i :: 0 <= i < j ==> !Stops(attrs[i], own)
  }

  /** An event refreshes the cache exactly when its first attribute that stops the visit says Available: nothing
      after that attribute is looked at. */
  lemma {:induction false} RefreshedIff(attrs: seq<Attr>, own: string)
    ensures Judge(attrs, own) == Refreshed <==> exists j :: ReachesAvailable(attrs, own, j)
    ensures Judge(attrs, own) == Finished <==> NoneStops(attrs, own)
  {
    if attrs == [] {
    } else if Stops(attrs[0], own) {
      assert ReachesAvailable(attrs, own, 0) <==> attrs[0] == StatusAttr("Available");
    } else {
      var rest := attrs[1..];
      RefreshedIff(rest, own);
      assert forall i :: 0 <= i < |rest| ==> rest[i] == attrs[i + 1];
      assert forall i :: 0 < i < |attrs| ==> attrs[i] == rest[i - 1];
      assert NoneStops(attrs, own) <==> NoneStops(rest, own);
      if j :| ReachesAvailable(rest, own, j) {
        assert ReachesAvailable(attrs, own, j + 1);
      }
      if j :| ReachesAvailable(attrs, own, j) {
        assert ReachesAvailable(rest, own, j - 1);
      }
    }
  }

  /** With every Available preceded by a bank id, only an event for the listener's own bank refreshes the cache. */
  lemma BankFirstIsChecked(attrs: seq<Attr>, own: string)
    requires forall j :: 0 <= j < |attrs| && attrs[j] == StatusAttr("Available") ==>
               exists i :: 0 <= i < j && attrs[i].BankIdAttr?
    requires Judge(attrs, own) == Refreshed
    ensures BankIdAttr(own) in attrs
  {
    RefreshedIff(attrs, own);
    var j :| ReachesAvailable(attrs, own, j);
    var i :| 0 <= i < j && attrs[i].BankIdAttr?;
    assert !Stops(attrs[i], own);
  }

  predicate IsForeign(a: Attr, own: string) {
    a.BankIdAttr? && a.value != own
  }

  predicate IsStatus(a: Attr, status: string) {
    a.StatusAttr? && a.value == status
  }

  /** The first attribute that is a foreign bank id, "Downloading" or "Available" is attribute `j`. */
  predicate FirstToStop(attrs: seq<Attr>, own: string, j: int) {
    && 0 <= j < |attrs|
    && (IsForeign(attrs[j], own) || IsStatus(attrs[j], "Downloading") || IsStatus(attrs[j], "Available"))
    && forall i :: 0 <= i < j ==>
         !IsForeign(attrs[i], own) && !IsStatus(attrs[i], "Downloading") && !IsStatus(attrs[i], "Available")
  }

  /** The event announces the upgrade that the listener waits for. */
  ghost predicate Announces(attrs: seq<Attr>, own: string) {
    exists j :: FirstToStop(attrs, own, j) && IsStatus(attrs[j], "Available")
  }

  /** The event is not for the listener: it is about another bank, or about a download still going on. */
  ghost predicate IsElsewhere(attrs: seq<Attr>, own: string) {
    exists j :: FirstToStop(attrs, own, j) && !IsStatus(attrs[j], "Available")
  }

  lemma OnlyOneStops(attrs: seq<Attr>, own: string)
    ensures !(Announces(attrs, own) && IsElsewhere(attrs, own))
  {
    forall j, k | FirstToStop(attrs, own, j) && FirstToStop(attrs, own, k)
      ensures j == k
    {
    }
  }

  lemma {:induction false} JudgeIs(attrs: seq<Attr>, own: string)
    ensures Judge(attrs, own)
            == if IsElsewhere(attrs, own) then Ignored else if Announces(attrs, own) then Refreshed else Finished
  {
    if attrs == [] {
    } else if Stops(attrs[0], own) {
      assert FirstToStop(attrs, own, 0);
      assert forall j :: FirstToStop(attrs, own, j) ==> j == 0;
    } else {
      var rest := attrs[1..];
      JudgeIs(rest, own);
      forall j: int
        ensures FirstToStop(attrs, own, j + 1) <==> FirstToStop(rest, own, j)
      {
        if FirstToStop(attrs, own, j + 1) {
          assert forall i :: 0 <= i < j ==> rest[i] == attrs[i + 1];
        }
        if FirstToStop(rest, own, j) {
          assert forall i :: 0 < i < j + 1 ==> attrs[i] == rest[i - 1];
        }
      }
      FirstsShift(attrs, rest, own);
    }
  }

  lemma FirstsShift(attrs: seq<Attr>, rest: seq<Attr>, own: string)
    requires attrs != [] && rest == attrs[1..] && !Stops(attrs[0], own)
    requires forall j: int :: FirstToStop(attrs, own, j + 1) <==> FirstToStop(rest, own, j)
    ensures (Announces(attrs, own) <==> Announces(rest, own)) && (IsElsewhere(attrs, own) <==> IsElsewhere(rest, own))
  {
    forall j | FirstToStop(attrs, own, j)
      ensures FirstToStop(rest, own, j - 1) && rest[j - 1] == attrs[j]
    {
      assert FirstToStop(attrs, own, j - 1 + 1);
    }
    forall j | FirstToStop(rest, own, j)
      ensures FirstToStop(attrs, own, j + 1) && attrs[j + 1] == rest[j]
    {
    }
  }

  /** What an event does to a registered listener, from its attributes alone: one that is not for it leaves everything
      as it was, and only such a one; any other closes it, and exactly one that announces its upgrade starts a dump. */
  lemma EventEffect(d: Daemon, attrs: seq<Attr>, ok: bool)
    requires d.listener.registered
    ensures var e, own := ReceiveSysupgrade(d, attrs, ok), Digits(d.listener.bankId);
            && (e == d <==> IsElsewhere(attrs, own))
            && (!IsElsewhere(attrs, own) ==>
                  e == d.(listener := Listener(false, 0, d.listener.bankId),
                          tasks := if ok && Announces(attrs, own)
                                   then d.tasks + [Task(DumpTask, Internal, 0, 120, Absent)] else d.tasks))
  {
    JudgeIs(attrs, Digits(d.listener.bankId));
    assert d.sent + Tell(Internal, Deferred) == d.sent;
  }

  // ----- what the other callbacks do, from what they are given

  lemma CompleteNeedsEveryField(e: BankEntry)
    requires Complete(e)
    ensures !Complete(e.(name := Absent)) && !Complete(e.(id := Absent)) && !Complete(e.(active := Absent))
    ensures !Complete(e.(boot := Absent)) && !Complete(e.(upgrade := Absent)) && !Complete(e.(fwver := Absent))
    ensures !Complete(e.(swver := Absent)) && !Complete(e.(status := Absent))
  {
  }

  /** The whole effect of an exit, by what was started and what was printed: which field changes, which messages go
      out, whether a dump is started, and nothing else. */
  lemma ExitEffect(d: Daemon, i: nat, ok: bool)
    requires i < |d.tasks| && d.tasks[i].pipe.Present?
    ensures var (t, e) := (d.tasks[i], TaskFinish(d, i, ok));
            var out := t.pipe.value;
            var dumped := t.kind == DumpTask && out.Json? && out.banks.Present?
                          && exists k :: 0 <= k < |out.banks.value| && Complete(out.banks.value[k]);
            var failed := t.kind == DumpTask && !dumped && d.retries < 10;
            var switched := t.kind == SetBootbankTask && out.Json? && out.success == Present(true);
            var upgrading := t.kind == UpgradeTask && out.Json? && out.result == Present("ok");
            && e.cache == (if dumped then out.banks else d.cache)
            && e.retries == (if failed then d.retries + 1 else d.retries)
            && e.retryTimer == (if failed then 3 else d.retryTimer)
            && e.listener == (if upgrading then Listener(true, 120, t.bankId) else d.listener)
            && e.tasks == d.tasks[..i] + d.tasks[i + 1..]
                          + (if switched && ok then [Task(DumpTask, Internal, 0, 120, Absent)] else [])
            && e.sent == d.sent + (if t.kind != DumpTask && out.Json? then [Message(Replied, t.req)] else [])
                         + (if t.req.From? then [Message(Completed, t.req)] else [])
  {
    var t := d.tasks[i];
    assert d.sent + [] == d.sent;
    match t.kind
    case DumpTask =>
      DumpExitEffect(d, i, ok);
    case SetBootbankTask =>
      var e := d.(tasks := Without(d.tasks, i), sent := d.sent + Reply(t.req));
      assert e.sent + Tell(Internal, Deferred) == e.sent;
      assert e.tasks + [] == e.tasks;
    case UpgradeTask =>
      assert Without(d.tasks, i) + [] == Without(d.tasks, i);
  }

  lemma DumpExitEffect(d: Daemon, i: nat, ok: bool)
    requires i < |d.tasks| && d.tasks[i].pipe.Present? && d.tasks[i].kind == DumpTask
    ensures var (t, e) := (d.tasks[i], TaskFinish(d, i, ok));
            var out := t.pipe.value;
            var dumped := out.Json? && out.banks.Present?
                          && exists k :: 0 <= k < |out.banks.value| && Complete(out.banks.value[k]);
            var failed := !dumped && d.retries < 10;
            && e.cache == (if dumped then out.banks else d.cache)
            && e.retries == (if failed then d.retries + 1 else d.retries)
            && e.retryTimer == (if failed then 3 else d.retryTimer)
            && e.listener == d.listener && e.tasks == d.tasks[..i] + d.tasks[i + 1..] + []
            && e.sent == d.sent + [] + (if t.req.From? then [Message(Completed, t.req)] else [])
  {
    assert d.sent + [] == d.sent;
  }

  /** A request that starts its task is deferred and not yet answered; any other is answered and leaves nothing. */
  lemma RequestEffect(d: Daemon, kind: Kind, id: nat, bankId: nat, ok: bool)
    requires kind != DumpTask
    ensures HandleRequest(d, kind, From(id), bankId, ok)
            == if ok then d.(tasks := d.tasks + [Task(kind, From(id), bankId, 10, Absent)],
                             sent := d.sent + [Message(Deferred, From(id))])
               else d.(sent := d.sent + [Message(Replied, From(id))])
  {
  }

  /** A fired retry is not pending any more, and starts a dump exactly when there is a script and it can be started. */
  lemma RetryEffect(d: Daemon, fileExists: bool, ok: bool)
    ensures DumpTimer(d, fileExists, ok)
            == d.(retryTimer := 0,
                  tasks := if fileExists && ok then d.tasks + [Task(DumpTask, Internal, 0, 120, Absent)] else d.tasks)
  {
    assert d.sent + Tell(Internal, Deferred) == d.sent;
  }

  /** A kill keeps what a script has already printed. */
  lemma KillKeepsOutput(d: Daemon, i: nat)
    requires i < |d.tasks| && d.tasks[i].pipe.Present?
    ensures TaskTimeout(d, i) == d.(tasks := d.tasks[i := d.tasks[i].(killTimer := 0)])
  {
  }

  /** In the other order an event for any bank passes. */
  lemma StatusFirstIsNotChecked(own: string, other: string)
    ensures Judge([StatusAttr("Available"), BankIdAttr(other)], own) == Refreshed
  {
  }

  // ----- the code

  class FwBankDaemon {
    var cache: Maybe<Dump>
    var retries: nat
    var retryTimer: nat
    var tasks: seq<Task>
    var listener: Listener
    var sent: seq<Message>

    ghost function View(): Daemon
      reads this`cache, this`retries, this`retryTimer, this`tasks, this`listener, this`sent
    {
      Daemon(cache, retries, retryTimer, tasks, listener, sent)
    }

    method Fork(kind: Kind, req: Requester, bankId: nat, ok: bool) returns (res: int)
      modifies this`tasks, this`sent
      ensures View() == TaskFork(old(View()), kind, req, bankId, ok) && (res == 0 <==> ok)
    {
      if !ok {
        return -1;
      }
      tasks := tasks + [Task(kind, req, bankId, Timeout(kind), Absent)];
      if req.From? {
        sent := sent + [Message(Deferred, req)];
      }
      return 0;
    }

    method ValidateGlobalFwbankDump(out: Output) returns (valid: bool)
      ensures valid <==> Validated(out)
    {
      if !out.Json? || out.banks.Absent? {
        return false;
      }
      var d := out.banks.value;
      for i := 0 to |d|
        invariant forall j :: 0 <= j < i ==> !Complete(d[j])
      {
        if Complete(d[i]) {
          return true;
        }
      }
      return false;
    }

    method DumpFinishCallback(out: Output)
      modifies this`cache, this`retries, this`retryTimer
      ensures View() == DumpFinish(old(View()), out)
    {
      var valid := ValidateGlobalFwbankDump(out);
      if valid {
        cache := Absent;
        cache := Present(out.banks.value);
        return;
      }
      if retries < MAX_RETRIES {
        retries := retries + 1;
        retryTimer := RETRY_DELAY;
      }
    }

    method SetBootbankFinishCallback(req: Requester, out: Output, ok: bool)
      modifies this`tasks, this`sent
      ensures View() == SetBootbankFinish(old(View()), req, out, ok)
    {
      if !out.Json? {
        return;
      }
      sent := sent + [Message(Replied, req)];
      if out.success == Present(true) {
        var _ := Fork(DumpTask, Internal, 0, ok);
      }
    }

    method UpgradeFinishCallback(req: Requester, bankId: nat, out: Output)
      modifies this`listener, this`sent
      ensures View() == UpgradeFinish(old(View()), req, bankId, out)
    {
      if !out.Json? {
        return;
      }
      sent := sent + [Message(Replied, req)];
      if out.result == Present("ok") {
        WaitForSysupgradeEvent(bankId);
      }
    }

    method WaitForSysupgradeEvent(bankId: nat)
      modifies this`listener
      ensures listener == Listener(true, LISTEN_TIMEOUT, bankId)
    {
      listener := listener.(bankId := bankId);
      listener := listener.(registered := true);
      listener := listener.(timer := LISTEN_TIMEOUT);
    }

    /** A task has exited. */
    method TaskFinishCallback(i: nat, ok: bool)
      requires i < |tasks| && tasks[i].pipe.Present?
      modifies this
      ensures View() == TaskFinish(old(View()), i, ok)
    {
      var t := tasks[i];
      tasks := tasks[..i] + tasks[i + 1..];
      match t.kind {
        case DumpTask => DumpFinishCallback(t.pipe.value);
        case SetBootbankTask => SetBootbankFinishCallback(t.req, t.pipe.value, ok);
        case UpgradeTask => UpgradeFinishCallback(t.req, t.bankId, t.pipe.value);
      }
      if t.req.From? {
        sent := sent + [Message(Completed, t.req)];
      }
    }

    method TimeoutCallback(i: nat)
      requires i < |tasks| && tasks[i].killTimer > 0
      modifies this`tasks
      ensures View() == TaskTimeout(old(View()), i)
      ensures tasks[i].killTimer == 0 && tasks[i].pipe.Present? && Without(tasks, i) == Without(old(tasks), i)
    {
      tasks := tasks[i := tasks[i].(killTimer := 0)];
      if tasks[i].pipe.Absent? {
        tasks := tasks[i := tasks[i].(pipe := Present(Garbage))];
      }
    }

    method RequestHandler(kind: Kind, req: Requester, bankId: nat, ok: bool)
      modifies this`tasks, this`sent
      ensures View() == HandleRequest(old(View()), kind, req, bankId, ok)
    {
      var res := Fork(kind, req, bankId, ok);
      if res != 0 && req.From? {
        sent := sent + [Message(Replied, req)];
      }
    }

    method DumpTimerCallback(fileExists: bool, ok: bool)
      modifies this`tasks, this`sent, this`retryTimer
      ensures View() == DumpTimer(old(View()), fileExists, ok)
    {
      retryTimer := 0;
      if !fileExists {
        return;
      }
      var _ := Fork(DumpTask, Internal, 0, ok);
    }

    method ReceiveSysupgradeCallback(attrs: seq<Attr>, ok: bool)
      requires listener.registered
      modifies this`tasks, this`sent, this`listener
      ensures View() == ReceiveSysupgrade(old(View()), attrs, ok)
    {
      var own := Digits(listener.bankId);
      var i := 0;
      while i < |attrs|
        invariant i <= |attrs| && Judge(attrs[i..], own) == Judge(attrs, own)
        invariant unchanged(this)
      {
        assert attrs[i..][0] == attrs[i] && attrs[i..][1..] == attrs[i + 1..];
        if attrs[i].BankIdAttr? {
          if attrs[i].value != own {
            return;
          }
        }
        if attrs[i].StatusAttr? {
          if attrs[i].value == "Downloading" {
            return;
          }
          if attrs[i].value == "Available" {
            var _ := Fork(DumpTask, Internal, 0, ok);
            break;
          }
        }
        i := i + 1;
      }
      listener := listener.(timer := 0);
      listener := listener.(registered := false);
    }

    method ListenTimeoutCallback()
      requires listener.timer > 0
      modifies this`listener
      ensures View() == ListenTimeout(old(View()))
    {
      listener := listener.(timer := 0);
      listener := listener.(registered := false);
    }

    method CleanFwbankDump()
      modifies this`cache
      ensures View() == CleanDump(old(View()))
    {
      cache := Absent;
    }
  }
}
