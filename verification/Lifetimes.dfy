/**
 Lifetimes of processes that share a PID (drakrun/analyzer/postprocessing/process_tree.py):
 they do not overlap, so an event belongs to at most one process.
 */
module Lifetimes {
  import opened Common
  import opened Identity
  import opened ProcessTree

  /** The event id by which an entry starts or ends a lifetime. Processes found running start at 0. */
  function LifetimeEvent(e: Entry): Option<int> {
    match e
    case CreateProcess(succeeded, _, _, evtid, _, _, _) => if succeeded then Some(evtid) else None
    case CleanAddressSpace(_, evtid, _) => Some(evtid)
    case _ => None
  }

  /** The last event id of a log so far; 0 before the first. */
  function LastEvent(entries: seq<Entry>): int {
    if entries == [] then 0
    else
      var k := |entries| - 1;
      if LifetimeEvent(entries[k]).Some? then LifetimeEvent(entries[k]).value else LastEvent(entries[..k])
  }

  /** Processes found running come before all others, and event ids grow from 1 on. */
  predicate Chronological(entries: seq<Entry>) {
    entries == [] ||
    var k := |entries| - 1;
    && Chronological(entries[..k])
    && (entries[k].Running? ==> LastEvent(entries[..k]) == 0)
    && (LifetimeEvent(entries[k]).Some? ==> LastEvent(entries[..k]) < LifetimeEvent(entries[k]).value)
  }

  ghost predicate SamePid(t: Tree, i: int, j: int)
    requires 0 <= i < |t| && 0 <= j < |t|
  {
    t[i].info.pid == t[j].info.pid
  }

  /** Of two processes with the same PID the earlier one has ended, and ended before the later one began. */
  ghost predicate OneAfterTheOther(t: Tree) {
    forall i, j :: 0 <= i < j < |t| && SamePid(t, i, j) ==>
      !IsOpen(t[i].info) && t[i].info.evtidTo.value < t[j].info.evtidFrom
  }

  /** What is known about single lifetimes after the event last; all of them begin at 0 as long as last is 0. */
  ghost predicate Bounded(t: Tree, last: int) {
    forall i :: 0 <= i < |t| ==>
      && (t[i].info.tsTo.Some? <==> t[i].info.evtidTo.Some?)
      && 0 <= t[i].info.evtidFrom <= last
      && (last == 0 ==> t[i].info.evtidFrom == 0 && (t[i].info.evtidTo.Some? ==> t[i].info.evtidTo.value < 0))
      && (t[i].info.evtidTo.Some? ==> t[i].info.evtidTo.value != 0 && t[i].info.evtidTo.value <= last)
      && (t[i].info.evtidTo.Some? && t[i].info.evtidFrom > 0 ==> t[i].info.evtidFrom <= t[i].info.evtidTo.value)
  }

  /** Rewriting fields that are not about lifetimes changes nothing here. */
  lemma SameLifetimes(t: Tree, u: Tree, last: int)
    requires OneAfterTheOther(t) && Bounded(t, last) && |u| == |t|
    requires forall i :: 0 <= i < |t| ==>
               && u[i].info.pid == t[i].info.pid
               && u[i].info.evtidFrom == t[i].info.evtidFrom && u[i].info.evtidTo == t[i].info.evtidTo
               && u[i].info.tsTo == t[i].info.tsTo
    ensures OneAfterTheOther(u) && Bounded(u, last)
  {
    forall i, j | 0 <= i < j < |u| && SamePid(u, i, j)
      ensures !IsOpen(u[i].info) && u[i].info.evtidTo.value < u[j].info.evtidFrom
    {
      assert SamePid(t, i, j);
    }
  }

  /** A process that is created at event 1 ends its predecessor at event 0, which reads as no end. */
  predicate TakesOver(t: Tree, pid: int, evtid: int) {
    evtid == 1 && GetProcess(t, pid).Some? && t[GetProcess(t, pid).value].info.tsTo == None
  }

  predicate NextEvent(last: int, evtid: int, next: int) {
    (evtid == 0 && last == next == 0) || 0 <= last < evtid == next
  }

  lemma AddProcessLifetimes(t: Tree, pid: int, ppid: int, evtid: int, ts: real, name: string, parent: Option<nat>,
                            args: seq<string>, last: int, next: int)
    requires OneAfterTheOther(t) && Bounded(t, last) && (parent.Some? ==> parent.value < |t|)
    requires NextEvent(last, evtid, next) && !TakesOver(t, pid, evtid)
    ensures var r := AddProcess(t, pid, ppid, evtid, ts, name, parent, args); OneAfterTheOther(r) && Bounded(r, next)
  {
    var r := AddProcess(t, pid, ppid, evtid, ts, name, parent, args);
    var retired := Retire(t, pid, evtid, ts);
    var grown := retired + [Node(r[|t|].info, parent, [])];
    RetireBounded(t, pid, evtid, ts, last, next);
    RetiredApart(t, pid, evtid, ts, last);
    forall i | 0 <= i < |t| && t[i].info.pid == pid
      ensures !IsOpen(retired[i].info) && retired[i].info.evtidTo.value < evtid
    {
      RetiredBefore(t, pid, evtid, ts, last, i);
    }
    OneMore(retired, grown[|t|]);
    SameLifetimes(grown, r, next);
  }

  /** A new process keeps lifetimes apart exactly when it does not take over at event 1. */
  lemma AddProcessApartExactly(t: Tree, pid: int, ppid: int, evtid: int, ts: real, name: string, parent: Option<nat>,
                               args: seq<string>, last: int)
    requires OneAfterTheOther(t) && Bounded(t, last) && (parent.Some? ==> parent.value < |t|)
    requires NextEvent(last, evtid, evtid)
    ensures OneAfterTheOther(AddProcess(t, pid, ppid, evtid, ts, name, parent, args)) <==> !TakesOver(t, pid, evtid)
  {
    var r := AddProcess(t, pid, ppid, evtid, ts, name, parent, args);
    if TakesOver(t, pid, evtid) {
      OverlapBegins(t, pid, ppid, evtid, ts, name, parent, args);
      assert SamePid(r, GetProcess(t, pid).value, |t|);
    } else {
      AddProcessLifetimes(t, pid, ppid, evtid, ts, name, parent, args, last, evtid);
    }
  }

  lemma OneMore(t: Tree, n: Node)
    requires OneAfterTheOther(t)
    requires forall i :: 0 <= i < |t| && t[i].info.pid == n.info.pid ==>
               !IsOpen(t[i].info) && t[i].info.evtidTo.value < n.info.evtidFrom
    ensures OneAfterTheOther(t + [n])
  {
    forall i, j | 0 <= i < j < |t + [n]| && SamePid(t + [n], i, j)
      ensures !IsOpen((t + [n])[i].info) && (t + [n])[i].info.evtidTo.value < (t + [n])[j].info.evtidFrom
    {
      if j < |t| {
        assert SamePid(t, i, j);
      }
    }
  }

  lemma RetiredApart(t: Tree, pid: int, evtid: int, ts: real, last: int)
    requires OneAfterTheOther(t) && Bounded(t, last)
    requires NextEvent(last, evtid, evtid) && !TakesOver(t, pid, evtid)
    ensures OneAfterTheOther(Retire(t, pid, evtid, ts))
  {
    var r := Retire(t, pid, evtid, ts);
    forall i, j | 0 <= i < j < |r| && SamePid(r, i, j)
      ensures !IsOpen(r[i].info) && r[i].info.evtidTo.value < r[j].info.evtidFrom
    {
      assert SamePid(t, i, j);
    }
  }

  lemma RetireBounded(t: Tree, pid: int, evtid: int, ts: real, last: int, next: int)
    requires Bounded(t, last)
    requires NextEvent(last, evtid, next) && !TakesOver(t, pid, evtid)
    ensures Bounded(Retire(t, pid, evtid, ts), next)
  {
  }

  /** After retiring, every process with the PID has ended before the new one begins. */
  lemma RetiredBefore(t: Tree, pid: int, evtid: int, ts: real, last: int, i: nat)
    requires OneAfterTheOther(t) && Bounded(t, last) && i < |t| && t[i].info.pid == pid
    requires NextEvent(last, evtid, evtid) && !TakesOver(t, pid, evtid)
    ensures var r := Retire(t, pid, evtid, ts); !IsOpen(r[i].info) && r[i].info.evtidTo.value < evtid
  {
    var newest := GetProcess(t, pid).value;
    if i < newest {
      assert SamePid(t, i, newest);
    }
  }

  lemma ExitLifetimes(t: Tree, pid: int, evtid: int, ts: real, last: int)
    requires OneAfterTheOther(t) && Bounded(t, last) && 0 <= last < evtid
    ensures OneAfterTheOther(Exit(t, pid, evtid, ts)) && Bounded(Exit(t, pid, evtid, ts), evtid)
  {
    var r := Exit(t, pid, evtid, ts);
    forall i, j | 0 <= i < j < |r| && SamePid(r, i, j)
      ensures !IsOpen(r[i].info) && r[i].info.evtidTo.value < r[j].info.evtidFrom
    {
      assert SamePid(t, i, j);
    }
  }

  // ---------- Logs ----------

  lemma StepLifetimes(t: Tree, e: Entry, last: int, next: int)
    requires WellFormed(t) && OneAfterTheOther(t) && Bounded(t, last) && last >= 0
    requires Step(t, e).Ok?
    requires e.Running? ==> last == 0
    requires next == if LifetimeEvent(e).Some? then LifetimeEvent(e).value else last
    requires LifetimeEvent(e).Some? ==> last < next
    requires e.CreateProcess? && e.succeeded ==> !TakesOver(t, e.newPid, e.evtid)
    ensures OneAfterTheOther(Step(t, e).value) && Bounded(Step(t, e).value, next)
  {
    match e
    case Running(pid, ppid, name) =>
      AddProcessLifetimes(t, pid, ppid, 0, 0.0, name, GetProcess(t, ppid), [], last, next);
    case CreateProcess(succeeded, newPid, creator, evtid, ts, image, args) =>
      if succeeded {
        AddProcessLifetimes(t, newPid, creator, evtid, ts, image, GetProcess(t, creator), args, last, next);
      }
    case CleanAddressSpace(pid, evtid, ts) => ExitLifetimes(t, pid, evtid, ts, last);
    case _ => NeutralStep(t, e, last);
  }

  lemma NeutralStep(t: Tree, e: Entry, last: int)
    requires WellFormed(t) && OneAfterTheOther(t) && Bounded(t, last)
    requires Step(t, e).Ok? && (e.Terminate? || e.OtherMethod? || e.Irrelevant?)
    ensures OneAfterTheOther(Step(t, e).value) && Bounded(Step(t, e).value, last)
  {
    var r := Step(t, e).value;
    forall i: nat | i < |t| ensures Kept(t, e, i, t[i], r[i]) {
      StepKeepsIdentity(t, e, i);
    }
    SameLifetimes(t, r, last);
  }

  // ---------- Lookup by event ----------

  /** At most one process with a PID covers an event. */
  ghost predicate Unambiguous(t: Tree) {
    forall i, j, evtid :: 0 <= i < j < |t| && t[i].info.pid == t[j].info.pid && Covers(t[i].info, evtid) ==>
      !Covers(t[j].info, evtid)
  }

  lemma DisjointIsUnambiguous(t: Tree)
    requires OneAfterTheOther(t)
    ensures Unambiguous(t)
  {
    forall i, j, evtid | 0 <= i < j < |t| && t[i].info.pid == t[j].info.pid && Covers(t[i].info, evtid)
      ensures !Covers(t[j].info, evtid)
    {
      assert SamePid(t, i, j);
    }
  }

  /** The lookup finds exactly the process that covers the event, and None when no process does. */
  lemma LookupExact(t: Tree, pid: int, evtid: int, i: nat)
    requires Unambiguous(t) && i < |t|
    ensures GetProcessForEvtid(t, pid, evtid) == Some(i) <==> t[i].info.pid == pid && Covers(t[i].info, evtid)
  {
  }

  // ---------- A process created at event 1 ----------

  /** Entry j finds a process running whose PID is given out anew at event 1, by entry k. */
  predicate Takeover(entries: seq<Entry>, j: nat, k: nat)
    requires j < k < |entries|
  {
    && entries[j].Running?
    && entries[k].CreateProcess? && entries[k].succeeded && entries[k].evtid == 1
    && entries[k].newPid == entries[j].pid
  }

  ghost predicate HasTakeover(entries: seq<Entry>) {
    exists j: nat, k: nat :: j < k < |entries| && Takeover(entries, j, k)
  }

  /** Two processes of a PID that both cover event 1, the earlier one without an end. */
  ghost predicate Overlap(t: Tree, i: nat, j: nat) {
    && i < j < |t| && SamePid(t, i, j)
    && t[i].info.tsTo.Some? && t[i].info.evtidTo == Some(0) && t[i].info.evtidFrom <= 1
    && Covers(t[j].info, 1)
  }

  lemma OverlapIsAmbiguous(t: Tree, i: nat, j: nat)
    requires Overlap(t, i, j)
    ensures !OneAfterTheOther(t) && !Unambiguous(t)
  {
    assert Covers(t[i].info, 1);
  }

  lemma OverlapBegins(t: Tree, pid: int, ppid: int, evtid: int, ts: real, name: string, parent: Option<nat>,
                      args: seq<string>)
    requires TakesOver(t, pid, evtid) && (parent.Some? ==> parent.value < |t|)
    ensures var i, r := GetProcess(t, pid).value, AddProcess(t, pid, ppid, evtid, ts, name, parent, args);
            && SamePid(r, i, |t|) && r[i].info == t[i].info.(evtidTo := Some(0), tsTo := Some(ts))
            && r[|t|].info.evtidFrom == 1 && r[|t|].info.evtidTo == None
  {
  }

  /** Later events change at most the end of the later process. */
  lemma OverlapStays(t: Tree, e: Entry, i: nat, j: nat)
    requires ParentsExist(t) && Overlap(t, i, j) && Step(t, e).Ok?
    requires !e.Running? && (LifetimeEvent(e).Some? ==> LifetimeEvent(e).value > 1)
    ensures Overlap(Step(t, e).value, i, j)
  {
    match e
    case CreateProcess(succeeded, pid, creator, evtid, ts, image, args) =>
      if succeeded {
        AddProcessChanges(t, pid, creator, evtid, ts, image, GetProcess(t, creator), args, i);
        AddProcessChanges(t, pid, creator, evtid, ts, image, GetProcess(t, creator), args, j);
      }
    case OtherMethod(pid, ppid) =>
      RebindMoves(t, pid, ppid, i);
      RebindMoves(t, pid, ppid, j);
    case _ =>
  }

  /** Before event 1 the last process of a PID is open, and there is one exactly when one was found running. */
  ghost predicate OnlyRunning(t: Tree, entries: seq<Entry>, pid: int) {
    && (GetProcess(t, pid).Some? <==> Found(entries, pid))
    && (GetProcess(t, pid).Some? ==> t[GetProcess(t, pid).value].info.tsTo == None)
  }

  ghost predicate Found(entries: seq<Entry>, pid: int) {
    exists j: nat :: j < |entries| && entries[j].Running? && entries[j].pid == pid
  }

  lemma FoundSnoc(entries: seq<Entry>, pid: int)
    requires entries != []
    ensures var k := |entries| - 1;
            Found(entries, pid) <==> Found(entries[..k], pid) || (entries[k].Running? && entries[k].pid == pid)
  {
    var k := |entries| - 1;
    if j: nat :| j < |entries| && entries[j].Running? && entries[j].pid == pid {
      assert j < k ==> entries[..k][j] == entries[j];
    }
    if j: nat :| j < k && entries[..k][j].Running? && entries[..k][j].pid == pid {
      assert entries[j] == entries[..k][j];
    }
  }

  lemma {:induction false} BeforeEventOne(entries: seq<Entry>, pid: int)
    requires Chronological(entries) && Replay(entries).Ok? && LastEvent(entries) == 0
    ensures OnlyRunning(Replay(entries).value, entries, pid)
  {
    if entries != [] {
      var k := |entries| - 1;
      LastEventGrows(entries[..k]);
      BeforeEventOne(entries[..k], pid);
      FoundSnoc(entries, pid);
      LastOf(Replay(entries[..k]).value, entries[k], pid);
    }
  }

  lemma {:induction false} LastEventGrows(entries: seq<Entry>)
    requires Chronological(entries)
    ensures LastEvent(entries) >= 0
  {
    if entries != [] { LastEventGrows(entries[..|entries| - 1]); }
  }

  /** Entries without an event add a process that is open, and end none of another PID. */
  lemma LastOf(t: Tree, e: Entry, pid: int)
    requires ParentsExist(t) && Step(t, e).Ok? && LifetimeEvent(e).None?
    ensures var r := Step(t, e).value;
            if e.Running? && e.pid == pid then GetProcess(r, pid) == Some(|t|) && r[|t|].info.tsTo == None
            else GetProcess(r, pid) == GetProcess(t, pid)
                 && (GetProcess(t, pid).Some? ==>
                       r[GetProcess(t, pid).value].info.tsTo == t[GetProcess(t, pid).value].info.tsTo)
  {
    var r := Step(t, e).value;
    forall i: nat | i < |t| ensures Kept(t, e, i, t[i], r[i]) {
      StepKeepsIdentity(t, e, i);
    }
    LastIn(t, r, pid);
  }

  lemma {:induction false} LastIn(t: Tree, r: Tree, pid: int)
    requires |t| <= |r| <= |t| + 1 && forall i :: 0 <= i < |t| ==> r[i].info.pid == t[i].info.pid
    ensures GetProcess(r, pid) == if |r| > |t| && r[|t|].info.pid == pid then Some(|t|) else GetProcess(t, pid)
  {
  }

  // ---------- Whole logs ----------

  lemma TakeoverSnoc(entries: seq<Entry>)
    requires entries != []
    ensures var k := |entries| - 1;
            HasTakeover(entries) <==> HasTakeover(entries[..k]) || exists j: nat :: j < k && Takeover(entries, j, k)
  {
    var k := |entries| - 1;
    if j: nat, n: nat :| j < n < |entries| && Takeover(entries, j, n) {
      assert n < k ==> Takeover(entries[..k], j, n);
    }
    if j: nat, n: nat :| j < n < k && Takeover(entries[..k], j, n) {
      assert Takeover(entries, j, n);
    }
  }

  /** After a chronological log lifetimes are apart, or two overlap for good. */
  ghost predicate Settled(entries: seq<Entry>)
    requires Replay(entries).Ok?
  {
    var t, last := Replay(entries).value, LastEvent(entries);
    && last >= 0
    && (!HasTakeover(entries) ==> OneAfterTheOther(t) && Bounded(t, last))
    && (HasTakeover(entries) ==> last >= 1 && exists i: nat, j: nat :: Overlap(t, i, j))
  }

  lemma {:induction false} AlwaysSettled(entries: seq<Entry>)
    requires Chronological(entries) && Replay(entries).Ok?
    ensures Settled(entries)
  {
    if entries != [] {
      var k := |entries| - 1;
      AlwaysSettled(entries[..k]);
      TakeoverSnoc(entries);
      var t, e := Replay(entries[..k]).value, entries[k];
      if HasTakeover(entries[..k]) {
        var i: nat, j: nat :| Overlap(t, i, j);
        OverlapStays(t, e, i, j);
      } else {
        TakeoverNow(entries);
        if e.CreateProcess? && e.succeeded && TakesOver(t, e.newPid, e.evtid) {
          OverlapBegins(t, e.newPid, e.creator, e.evtid, e.ts, e.image, GetProcess(t, e.creator), e.args);
          assert Overlap(Step(t, e).value, GetProcess(t, e.newPid).value, |t|);
        } else {
          StepLifetimes(t, e, LastEvent(entries[..k]), LastEvent(entries));
        }
      }
    }
  }

  /** The last entry takes over a PID exactly when a running process was found with it. */
  lemma TakeoverNow(entries: seq<Entry>)
    requires entries != [] && Chronological(entries) && Replay(entries).Ok?
    ensures var k := |entries| - 1;
            (exists j: nat :: j < k && Takeover(entries, j, k))
            <==> entries[k].CreateProcess? && entries[k].succeeded
                 && TakesOver(Replay(entries[..k]).value, entries[k].newPid, entries[k].evtid)
  {
    var k := |entries| - 1;
    var e := entries[k];
    if e.CreateProcess? && e.succeeded && e.evtid == 1 {
      LastEventGrows(entries[..k]);
      BeforeEventOne(entries[..k], e.newPid);
      if Found(entries[..k], e.newPid) {
        var j: nat :| j < k && entries[..k][j].Running? && entries[..k][j].pid == e.newPid;
        assert Takeover(entries, j, k);
      }
      if j: nat :| j < k && Takeover(entries, j, k) {
        assert entries[..k][j] == entries[j];
        assert Found(entries[..k], e.newPid);
      }
    }
  }

  /**
   At every prefix of a chronological log: processes that share a PID live one after the
   other, only the last of them may still be open, and at most one of them covers an event,
   exactly when no process created at event 1 was given the PID of one found running.
   */
  lemma LifetimesApartExactly(entries: seq<Entry>)
    requires Chronological(entries) && Replay(entries).Ok?
    ensures OneAfterTheOther(Replay(entries).value) <==> !HasTakeover(entries)
    ensures Unambiguous(Replay(entries).value) <==> !HasTakeover(entries)
  {
    AlwaysSettled(entries);
    var t := Replay(entries).value;
    if HasTakeover(entries) {
      var i: nat, j: nat :| Overlap(t, i, j);
      OverlapIsAmbiguous(t, i, j);
    } else {
      DisjointIsUnambiguous(t);
    }
  }

  /** In such a log every event finds the one process of its PID that was alive, or none. */
  lemma EventsFindTheirProcess(entries: seq<Entry>, pid: int, evtid: int, i: nat)
    requires Chronological(entries) && !HasTakeover(entries) && Replay(entries).Ok? && i < |Replay(entries).value|
    ensures GetProcessForEvtid(Replay(entries).value, pid, evtid) == Some(i)
            <==> Replay(entries).value[i].info.pid == pid && Covers(Replay(entries).value[i].info, evtid)
  {
    LifetimesApartExactly(entries);
    LookupExact(Replay(entries).value, pid, evtid, i);
  }

  /**
   An example: a process that replaces another one at event 1 retires it at
   event 0, which reads as no end at all. Both then cover every later event.
   */
  lemma EventOneLeavesBothOpen(pid: int, later: int)
    requires later >= 1
    ensures var log := [Running(pid, 0, "first"), CreateProcess(true, pid, 0, 1, 1.0, "second", [])];
            && Replay(log).Ok?
            && !Unambiguous(Replay(log).value)
            && GetProcessForEvtid(Replay(log).value, pid, later) == Some(0)
            && Covers(Replay(log).value[1].info, later)
  {
    var first := Running(pid, 0, "first");
    var log := [first, CreateProcess(true, pid, 0, 1, 1.0, "second", [])];
    assert log[..1] == [first] && [first][..0] == [];
    assert Replay([]) == Ok([]);
    assert Replay([first]) == Step([], first);
    var t1 := Step([], first).value;
    assert t1 == [Node(ProcessInfo(0, pid, 0, "first", [], 0.0, None, 0, None, None, None, None), None, [])];
    assert Replay(log) == Step(t1, log[1]);
    assert GetProcess(t1, pid) == Some(0);
    var t2 := Step(t1, log[1]).value;
    assert t2[0].info.pid == t2[1].info.pid && Covers(t2[0].info, later) && Covers(t2[1].info, later);
    LookupFirst(Step(t1, log[1]).value, pid, later);
  }

  lemma LookupFirst(t: Tree, pid: int, evtid: int)
    requires t != [] && t[0].info.pid == pid && Covers(t[0].info, evtid)
    ensures GetProcessForEvtid(t, pid, evtid) == Some(0)
  {
  }
}
