/** The process list and the events that announce how many instances it has. Subscribers see only the
    differences, by object path. */
module ProcessTable {
  import opened Decimal

  datatype ProcessEntry = ProcessEntry(
    pid: string, command: string, state: string, size: string, priority: string, cputime: string)

  /** What one entry of /proc turns out to be. */
  datatype Dirent = Unusable | Process(entry: ProcessEntry) | OutOfMemory
  datatype Snapshot = NoProc | Listing(entries: seq<Dirent>)

  datatype Event = AddObj(paths: seq<string>) | DelObj(paths: seq<string>)

  function Path(n: int): string {
    "Device.DeviceInfo.ProcessStatus.Process." + Print(n)
  }

  lemma PathInjective(m: int, n: int)
    requires Path(m) == Path(n)
    ensures m == n
  {
    assert Path(m)[|"Device.DeviceInfo.ProcessStatus.Process."|..] == Print(m);
    assert Path(n)[|"Device.DeviceInfo.ProcessStatus.Process."|..] == Print(n);
    PrintInjective(m, n);
  }

  // ----- the reference

  datatype Table = Table(list: seq<ProcessEntry>, num: nat)

  /** The usable processes up to the first allocation failure. */
  function Collected(entries: seq<Dirent>): seq<ProcessEntry> {
    if entries == [] || entries[0].OutOfMemory? then []
    else (if entries[0].Process? then [entries[0].entry] else []) + Collected(entries[1..])
  }

  predicate Completes(s: Snapshot) {
    s.Listing? && forall i :: 0 <= i < |s.entries| ==> !s.entries[i].OutOfMemory?
  }

  /** `count` paths, upwards or downwards from `from`. */
  function Range(from: int, up: bool, count: nat): (r: seq<string>)
    ensures |r| == count
  {
    seq(count, i => Path(Nth(from, up, i)))
  }

  function Nth(from: int, up: bool, i: int): int {
    if up then from + i else from - i
  }

  function Announce(num: nat, diff: int): seq<Event> {
    if num == 0 then []
    else if diff > 0 then [AddObj(Range(num + 1, true, diff))]
    else [DelObj(Range(num, false, 0 - diff))]
  }

  /** What subscribers are told when the count goes from `num` to `count`. */
  function Told(num: nat, count: nat): seq<Event> {
    if count == num then [] else Announce(num, count - num)
  }

  /** One refresh: a refresh that does not complete leaves the count, and a list cut short. */
  function Refresh(t: Table, s: Snapshot): (Table, seq<Event>) {
    if !Completes(s) then (Table(if s.Listing? then Collected(s.entries) else [], t.num), [])
    else
      var list := Collected(s.entries);
      (Table(list, |list|), Told(t.num, |list|))
  }

  /** What each directory entry adds to the list: a process adds its entry at the end, any other entry nothing, and
      nothing after the first failed allocation counts. */
  lemma {:induction false} CollectedGrows(a: seq<Dirent>, d: Dirent, b: seq<Dirent>)
    requires forall i :: 0 <= i < |a| ==> !a[i].OutOfMemory?
    ensures Collected([]) == []
    ensures Collected(a + [d]) == Collected(a) + if d.Process? then [d.entry] else []
    ensures d.OutOfMemory? ==> Collected(a + [d] + b) == Collected(a)
  {
    if a == [] {
      assert a + [d] == [d] && [d] + b == a + [d] + b;
    } else {
      var s, t := a + [d], a + [d] + b;
      assert s[0] == a[0] && s[1..] == a[1..] + [d];
      assert t[0] == a[0] && t[1..] == a[1..] + [d] + b;
      CollectedGrows(a[1..], d, b);
    }
  }

  /** What a refresh leaves in the list and in the count, from the snapshot alone. */
  lemma RefreshEffect(t: Table, s: Snapshot)
    ensures var (u, evs) := Refresh(t, s);
            && (s.NoProc? ==> u == Table([], t.num) && evs == [])
            && (s.Listing? ==> u.list == Collected(s.entries))
            && (s.Listing? && Completes(s) ==> u.num == |u.list|)
            && (s.Listing? && !Completes(s) ==> u.num == t.num && evs == [])
  {
  }

  // ----- the code

  class ProcessContext {
    var list: seq<ProcessEntry>
    var processNum: nat
    var refreshInterval: int
    var timer: int          // milliseconds to the next refresh, -1 when none is set
    var sent: seq<Event>

    ghost function View(): Table
      reads this
    {
      Table(list, processNum)
    }

    method BroadcastAddDelEvent(diff: int)
      modifies this`sent
      ensures sent == old(sent) + Announce(processNum, diff)
    {
      if processNum == 0 {
        return;
      }
      var paths := [];
      var count := if diff > 0 then diff else -diff;
      for i := 0 to count
        invariant paths == Range(if diff > 0 then processNum + 1 else processNum, diff > 0, i)
      {
        paths := paths + [Path(if diff > 0 then processNum + i + 1 else processNum - i)];
      }
      sent := sent + [if diff > 0 then AddObj(paths) else DelObj(paths)];
    }

    method InitProcessList(s: Snapshot)
      requires list == []
      modifies this`list, this`processNum, this`sent
      ensures var (t, evs) := Refresh(old(View()), s); View() == t && sent == old(sent) + evs
    {
      if s.NoProc? {
        return;
      }
      var complete := ReadEntries(s.entries);
      if !complete {
        return;
      }
      var diff := |list| - processNum;
      if diff != 0 {
        BroadcastAddDelEvent(diff);
        processNum := |list|;
      }
    }

    method ReadEntries(entries: seq<Dirent>) returns (complete: bool)
      requires list == []
      modifies this`list
      ensures list == Collected(entries) && complete == Completes(Listing(entries))
    {
      var i := 0;
      while i < |entries|
        invariant i <= |entries| && list + Collected(entries[i..]) == Collected(entries)
        invariant forall j :: 0 <= j < i ==> !entries[j].OutOfMemory?
      {
        assert entries[i..][0] == entries[i] && entries[i..][1..] == entries[i + 1..];
        if entries[i].OutOfMemory? {
          assert Collected(entries[i..]) == [];
          return false;
        }
        if entries[i].Process? {
          list := list + [entries[i].entry];
        }
        i := i + 1;
      }
      return true;
    }

    method FreeProcessList()
      modifies this`list
      ensures list == []
    {
      while list != []
        decreases |list|
      {
        list := list[1..];
      }
    }

    method RunRefreshProcessList(s: Snapshot)
      modifies this`list, this`processNum, this`sent, this`timer
      ensures var (t, evs) := Refresh(old(View()), s); View() == t && sent == old(sent) + evs
      ensures timer == if refreshInterval > 0 then refreshInterval * 1000 else old(timer)
    {
      FreeProcessList();
      InitProcessList(s);
      if refreshInterval > 0 {
        timer := refreshInterval * 1000;
      }
    }
  }

  // ----- what a subscriber knows

  function Elements(paths: seq<string>): set<string> {
    set p | p in paths
  }

  function Apply(known: set<string>, evs: seq<Event>): set<string>
    decreases |evs|
  {
    if evs == [] then known
    else match evs[0]
      case AddObj(ps) => Apply(known + Elements(ps), evs[1..])
      case DelObj(ps) => Apply(known - Elements(ps), evs[1..])
  }

  function Instances(n: nat): set<string> {
    set i | 1 <= i <= n :: Path(i)
  }

  lemma InRange(from: int, up: bool, count: nat, p: string)
    ensures p in Elements(Range(from, up, count)) <==> exists j :: 0 <= j < count && p == Path(Nth(from, up, j))
  {
    var r := Range(from, up, count);
    if p in r {
      var j :| 0 <= j < count && r[j] == p;
      assert p == Path(Nth(from, up, j));
    }
    if j :| 0 <= j < count && p == Path(Nth(from, up, j)) {
      assert r[j] == p;
    }
  }

  lemma InAdded(n: nat, k: nat, p: string)
    ensures p in Elements(Range(n + 1, true, k)) <==> exists i :: n < i <= n + k && p == Path(i)
  {
    InRange(n + 1, true, k, p);
    if i :| n < i <= n + k && p == Path(i) {
      assert p == Path(Nth(n + 1, true, i - n - 1));
    }
  }

  lemma InRemoved(n: nat, k: nat, p: string)
    ensures p in Elements(Range(n, false, k)) <==> exists i :: n - k < i <= n && p == Path(i)
  {
    InRange(n, false, k, p);
    if i :| n - k < i <= n && p == Path(i) {
      assert p == Path(Nth(n, false, n - i));
    }
  }

  lemma InstancesUp(n: nat, k: nat)
    ensures Instances(n) + Elements(Range(n + 1, true, k)) == Instances(n + k)
  {
    var added := Elements(Range(n + 1, true, k));
    forall p
      ensures p in Instances(n + k) <==> p in Instances(n) || p in added
    {
      InAdded(n, k, p);
    }
  }

  lemma InstancesDown(n: nat, k: nat)
    requires k <= n
    ensures Instances(n) - Elements(Range(n, false, k)) == Instances(n - k)
  {
    var removed := Elements(Range(n, false, k));
    forall p | p in Instances(n)
      ensures p in removed <==> p !in Instances(n - k)
    {
      InRemoved(n, k, p);
      if p in removed && p in Instances(n - k) {
        var i :| n - k < i <= n && p == Path(i);
        var h :| 1 <= h <= n - k && p == Path(h);
        PathInjective(h, i);
      }
    }
  }

  lemma ApplyOne(known: set<string>, e: Event)
    ensures Apply(known, [e]) == if e.AddObj? then known + Elements(e.paths) else known - Elements(e.paths)
  {
    assert [e][1..] == [];
  }

  /** From a count that is not zero, the announced range is exactly the difference. */
  lemma AnnouncementIsRight(num: nat, count: nat)
    requires 0 < num != count
    ensures Apply(Instances(num), Announce(num, count - num)) == Instances(count)
  {
    if count > num {
      AppliedUp(num, count - num);
    } else {
      AppliedDown(num, num - count);
    }
  }

  lemma AppliedUp(n: nat, k: nat)
    ensures Apply(Instances(n), [AddObj(Range(n + 1, true, k))]) == Instances(n + k)
  {
    ApplyOne(Instances(n), AddObj(Range(n + 1, true, k)));
    InstancesUp(n, k);
  }

  lemma AppliedDown(n: nat, k: nat)
    requires k <= n
    ensures Apply(Instances(n), [DelObj(Range(n, false, k))]) == Instances(n - k)
  {
    ApplyOne(Instances(n), DelObj(Range(n, false, k)));
    InstancesDown(n, k);
  }

  lemma NoneOrSome(count: nat)
    ensures Instances(0) == {} && (Instances(count) == {} <==> count == 0)
  {
    assert count > 0 ==> Path(1) in Instances(count);
  }

  /** A subscriber that knows the right instances still does after a refresh exactly when the count was not zero
      or stays zero: from zero the announcement is suppressed. */
  lemma RefreshKeepsSubscriberIff(t: Table, s: Snapshot)
    ensures var (u, evs) := Refresh(t, s);
            Apply(Instances(t.num), evs) == Instances(u.num) <==> t.num > 0 || u.num == 0
    ensures Completes(s) ==> |Refresh(t, s).0.list| == Refresh(t, s).0.num
  {
    var (u, evs) := Refresh(t, s);
    assert evs == Told(t.num, u.num);
    ToldIsRightIff(t.num, u.num);
  }

  lemma ToldIsRightIff(num: nat, count: nat)
    ensures Apply(Instances(num), Told(num, count)) == Instances(count) <==> num > 0 || count == 0
  {
    if num == count {
    } else if num == 0 {
      NoneOrSome(count);
      assert Told(num, count) == [];
    } else {
      AnnouncementIsRight(num, count);
    }
  }

  // ----- whole runs

  datatype Subscriber = Waiting | Subscribed(known: set<string>)

  /** The first non-empty list is delivered whole; from then on only events arrive. */
  function Follow(sub: Subscriber, u: Table, evs: seq<Event>): Subscriber {
    match sub
    case Waiting => if u.num > 0 then Subscribed(Instances(u.num)) else Waiting
    case Subscribed(known) => Subscribed(Apply(known, evs))
  }

  function RunFrom(t: Table, sub: Subscriber, snaps: seq<Snapshot>): (Table, Subscriber)
    decreases |snaps|
  {
    if snaps == [] then (t, sub)
    else
      var (u, evs) := Refresh(t, snaps[0]);
      RunFrom(u, Follow(sub, u, evs), snaps[1..])
  }

  predicate InSync(t: Table, sub: Subscriber) {
    match sub
    case Waiting => t.num == 0
    case Subscribed(known) => known == Instances(t.num)
  }

  predicate AlwaysInSync(t: Table, sub: Subscriber, snaps: seq<Snapshot>)
    decreases |snaps|
  {
    InSync(t, sub) &&
    (snaps == [] ||
     var (u, evs) := Refresh(t, snaps[0]);
     AlwaysInSync(u, Follow(sub, u, evs), snaps[1..]))
  }

  /** No refresh finds processes after one, seen by the subscriber, that found none. */
  predicate NeverRevives(t: Table, subscribed: bool, snaps: seq<Snapshot>)
    decreases |snaps|
  {
    snaps == [] ||
    var u := Refresh(t, snaps[0]).0;
    (subscribed && t.num == 0 ==> u.num == 0) && NeverRevives(u, subscribed || u.num > 0, snaps[1..])
  }

  /** A subscriber is right after every refresh of a run exactly when the process count never rises from zero again. */
  lemma {:induction false} InSyncIff(t: Table, sub: Subscriber, snaps: seq<Snapshot>)
    requires InSync(t, sub)
    ensures AlwaysInSync(t, sub, snaps) <==> NeverRevives(t, sub.Subscribed?, snaps)
    decreases |snaps|
  {
    if snaps == [] {
    } else {
      var (u, evs) := Refresh(t, snaps[0]);
      var next := Follow(sub, u, evs);
      RefreshKeepsSubscriberIff(t, snaps[0]);
      if InSync(u, next) {
        InSyncIff(u, next, snaps[1..]);
      }
    }
  }

  /** Every snapshot that completes lists at least one process. */
  predicate NonEmpty(snaps: seq<Snapshot>) {
    forall i :: 0 <= i < |snaps| && Completes(snaps[i]) ==> Collected(snaps[i].entries) != []
  }

  /** With non-empty snapshots a subscriber of a started daemon always knows exactly the instances 1..process_num,
      and after a refresh that completes, exactly 1..list length, whatever failed before. */
  lemma {:induction false} SubscriberFollows(t: Table, sub: Subscriber, snaps: seq<Snapshot>)
    requires NonEmpty(snaps) && InSync(t, sub) && (sub.Subscribed? ==> t.num > 0)
    ensures var (u, last) := RunFrom(t, sub, snaps);
            && InSync(u, last) && (last.Subscribed? ==> u.num > 0)
            && (snaps != [] && Completes(snaps[|snaps| - 1]) ==> last == Subscribed(Instances(|u.list|)))
    decreases |snaps|
  {
    if snaps == [] {
    } else {
      var (u, evs) := Refresh(t, snaps[0]);
      RefreshKeepsSubscriberIff(t, snaps[0]);
      SubscriberFollows(u, Follow(sub, u, evs), snaps[1..]);
      if |snaps| == 1 {
        assert snaps[1..] == [];
      } else {
        assert snaps[|snaps| - 1] == snaps[1..][|snaps| - 2];
      }
    }
  }
}
