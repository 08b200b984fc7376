/**
 What the log says of every process (drakrun/analyzer/postprocessing/process_tree.py): which
 entry it began with, when it ended, and so at which events it was alive.
 */
module Biography {
  import opened Common
  import opened Identity
  import opened Lifetimes
  import opened ProcessTree

  // ---------- The entries of one process ----------

  predicate Begins(e: Entry) {
    e.Running? || (e.CreateProcess? && e.succeeded)
  }

  function PidOf(e: Entry): int
    requires Begins(e)
  {
    if e.Running? then e.pid else e.newPid
  }

  function EventOf(e: Entry): int
    requires Begins(e)
  {
    if e.Running? then 0 else e.evtid
  }

  function TimeOf(e: Entry): real
    requires Begins(e)
  {
    if e.Running? then 0.0 else e.ts
  }

  /** The entries with which processes begin, in the order of the log. */
  function Births(entries: seq<Entry>): (r: seq<nat>)
    ensures Increasing(r) && forall b: nat :: b in r <==> b < |entries| && Begins(entries[b])
    ensures forall i :: 0 <= i < |r| ==> r[i] < |entries| && Begins(entries[r[i]])
  {
    if entries == [] then []
    else
      var k := |entries| - 1;
      var before := Births(entries[..k]);
      assert forall b: nat :: b < k ==> entries[..k][b] == entries[b];
      if Begins(entries[k]) then before + [k] else before
  }

  /** Entry n begins a later process with the PID of the one that entry b begins. */
  predicate Succeeds(entries: seq<Entry>, b: nat, n: nat) {
    && b < n < |entries| && Begins(entries[b]) && Begins(entries[n])
    && PidOf(entries[n]) == PidOf(entries[b])
  }

  /** Entry x is an exit of the process that entry b begins: no later one has its PID yet. */
  ghost predicate ExitAt(entries: seq<Entry>, b: nat, x: nat) {
    && b < x < |entries| && Begins(entries[b])
    && entries[x].CleanAddressSpace? && entries[x].exitPid == PidOf(entries[b])
    && forall n :: b < n < x ==> !Succeeds(entries, b, n)
  }

  ghost predicate NoExit(entries: seq<Entry>, b: nat) {
    forall x: nat :: !ExitAt(entries, b, x)
  }

  ghost predicate LastExit(entries: seq<Entry>, b: nat, x: nat) {
    ExitAt(entries, b, x) && forall y: nat :: x < y ==> !ExitAt(entries, b, y)
  }

  ghost predicate NoSuccessor(entries: seq<Entry>, b: nat) {
    forall n: nat :: !Succeeds(entries, b, n)
  }

  ghost predicate NextOf(entries: seq<Entry>, b: nat, n: nat) {
    Succeeds(entries, b, n) && forall m: nat :: m < n ==> !Succeeds(entries, b, m)
  }

  // ---------- What becomes of it ----------

  /** How process number i is entered. */
  predicate BornAs(e: Entry, i: nat, info: ProcessInfo) {
    info.seqid == i &&
    match e
    case Running(pid, ppid, name) =>
      info.pid == pid && info.procname == name && info.args == [] && info.tsFrom == 0.0 && info.evtidFrom == 0
    case CreateProcess(succeeded, newPid, creator, evtid, ts, image, args) =>
      succeeded && info.pid == newPid && info.procname == image && info.args == args && info.tsFrom == ts
      && info.evtidFrom == evtid
    case _ => false
  }

  /**
   How it ended: with its last exit; without one, just before the next process with its PID
   began; and without either, not yet.
   */
  ghost predicate EndedAs(entries: seq<Entry>, b: nat, info: ProcessInfo) {
    && (forall x: nat :: LastExit(entries, b, x) ==>
          info.tsTo == Some(entries[x].ts) && info.evtidTo == Some(entries[x].evtid))
    && (NoExit(entries, b) ==>
          && (forall n: nat :: NextOf(entries, b, n) ==>
                info.tsTo == Some(TimeOf(entries[n])) && info.evtidTo == Some(EventOf(entries[n]) - 1))
          && (NoSuccessor(entries, b) ==> info.tsTo == None && info.evtidTo == None))
  }

  ghost predicate Told(entries: seq<Entry>, t: Tree) {
    && |Births(entries)| == |t|
    && forall i: nat :: i < |t| ==> ToldOf(entries, i, t[i].info)
  }

  ghost predicate ToldOf(entries: seq<Entry>, i: nat, info: ProcessInfo)
    requires i < |Births(entries)|
  {
    BornAs(entries[Births(entries)[i]], i, info) && EndedAs(entries, Births(entries)[i], info)
  }

  // ---------- One more entry ----------

  /** The same entries, seen in a shorter log. */
  lemma Before(entries: seq<Entry>, k: nat, b: nat)
    requires k <= |entries|
    ensures forall n: nat :: n < k ==> (Succeeds(entries[..k], b, n) <==> Succeeds(entries, b, n))
    ensures forall x: nat :: x < k ==> (ExitAt(entries[..k], b, x) <==> ExitAt(entries, b, x))
  {
    forall n: nat | n < k ensures Succeeds(entries[..k], b, n) <==> Succeeds(entries, b, n) {
    }
    forall x: nat | x < k ensures ExitAt(entries[..k], b, x) <==> ExitAt(entries, b, x) {
      if ExitAt(entries[..k], b, x) {
        forall n | b < n < x ensures !Succeeds(entries, b, n) {
          assert !Succeeds(entries[..k], b, n);
        }
      }
      if ExitAt(entries, b, x) {
        forall n | b < n < x ensures !Succeeds(entries[..k], b, n) {
          assert !Succeeds(entries, b, n);
        }
      }
    }
  }

  /** An entry that is neither an exit nor the next process leaves the end of a process as it was. */
  lemma StillEnded(entries: seq<Entry>, b: nat, info: ProcessInfo)
    requires entries != [] && EndedAs(entries[..|entries| - 1], b, info) && !ExitAt(entries, b, |entries| - 1)
    requires Succeeds(entries, b, |entries| - 1) && NoExit(entries[..|entries| - 1], b) ==>
               !NoSuccessor(entries[..|entries| - 1], b)
    ensures EndedAs(entries, b, info)
  {
    var k := |entries| - 1;
    var before := entries[..k];
    Before(entries, k, b);
    forall x: nat | LastExit(entries, b, x) ensures LastExit(before, b, x) {
    }
    if NoExit(entries, b) {
      assert forall x: nat :: x < k ==> !ExitAt(entries, b, x);
      assert NoExit(before, b);
      forall n: nat | NextOf(entries, b, n) ensures NextOf(before, b, n) {
      }
      if NoSuccessor(entries, b) {
        assert forall m: nat :: m < k ==> !Succeeds(entries, b, m);
        assert NoSuccessor(before, b);
      }
    }
  }

  lemma ExitsNow(entries: seq<Entry>, b: nat, info: ProcessInfo)
    requires entries != [] && ExitAt(entries, b, |entries| - 1)
    requires info.tsTo == Some(entries[|entries| - 1].ts) && info.evtidTo == Some(entries[|entries| - 1].evtid)
    ensures EndedAs(entries, b, info)
  {
  }

  lemma ReplacedNow(entries: seq<Entry>, b: nat, info: ProcessInfo)
    requires entries != [] && Succeeds(entries, b, |entries| - 1)
    requires NoExit(entries[..|entries| - 1], b) && NoSuccessor(entries[..|entries| - 1], b)
    requires var e := entries[|entries| - 1]; info.tsTo == Some(TimeOf(e)) && info.evtidTo == Some(EventOf(e) - 1)
    ensures EndedAs(entries, b, info)
  {
    var k := |entries| - 1;
    Before(entries, k, b);
    forall x: nat ensures !ExitAt(entries, b, x) {
      assert !ExitAt(entries[..k], b, x);
    }
    forall n: nat | NextOf(entries, b, n) ensures n == k {
      assert !Succeeds(entries[..k], b, n);
    }
  }

  /** A log has a last exit of a process if it has one at all. */
  lemma {:induction false} SomeLastExit(entries: seq<Entry>, b: nat, x: nat) returns (last: nat)
    requires ExitAt(entries, b, x)
    ensures LastExit(entries, b, last) && x <= last
    decreases |entries| - x
  {
    if y: nat :| x < y && ExitAt(entries, b, y) {
      last := SomeLastExit(entries, b, y);
    } else {
      last := x;
    }
  }

  lemma {:induction false} SomeNext(entries: seq<Entry>, b: nat, n: nat) returns (next: nat)
    requires Succeeds(entries, b, n)
    ensures NextOf(entries, b, next) && next <= n
    decreases n
  {
    if m: nat :| m < n && Succeeds(entries, b, m) {
      next := SomeNext(entries, b, m);
    } else {
      next := n;
    }
  }

  lemma PidTold(entries: seq<Entry>, t: Tree, i: nat)
    requires Told(entries, t) && i < |t|
    ensures t[i].info.pid == PidOf(entries[Births(entries)[i]])
  {
    assert ToldOf(entries, i, t[i].info);
  }

  /** The number of the process that an entry begins. */
  lemma NumberOf(entries: seq<Entry>, n: nat) returns (j: nat)
    requires n < |entries| && Begins(entries[n])
    ensures j < |Births(entries)| && Births(entries)[j] == n
  {
    assert n in Births(entries);
    j :| 0 <= j < |Births(entries)| && Births(entries)[j] == n;
  }

  lemma {:induction false} LaterNumber(s: seq<nat>, i: nat, j: nat)
    requires Increasing(s) && i < |s| && j < |s| && s[i] < s[j]
    ensures i < j
  {
  }

  lemma SuccessorTold(entries: seq<Entry>, t: Tree, i: nat, n: nat) returns (j: nat)
    requires Told(entries, t) && i < |t| && Succeeds(entries, Births(entries)[i], n)
    ensures i < j < |t| && t[j].info.pid == t[i].info.pid
  {
    j := NumberOf(entries, n);
    LaterNumber(Births(entries), i, j);
    PidTold(entries, t, i);
    PidTold(entries, t, j);
  }

  lemma LaterSucceeds(entries: seq<Entry>, t: Tree, i: nat, j: nat)
    requires Told(entries, t) && i < j < |t| && t[j].info.pid == t[i].info.pid
    ensures Succeeds(entries, Births(entries)[i], Births(entries)[j])
  {
    PidTold(entries, t, i);
    PidTold(entries, t, j);
  }

  lemma LastHasNoSuccessor(entries: seq<Entry>, t: Tree, i: nat)
    requires Told(entries, t) && i < |t| && GetProcess(t, t[i].info.pid) == Some(i)
    ensures NoSuccessor(entries, Births(entries)[i])
  {
    if n: nat :| Succeeds(entries, Births(entries)[i], n) {
      var j := SuccessorTold(entries, t, i, n);
    }
  }

  lemma LastWith(t: Tree, i: nat) returns (j: nat)
    requires i < |t|
    ensures i <= j < |t| && GetProcess(t, t[i].info.pid) == Some(j) && t[j].info.pid == t[i].info.pid
  {
    j := GetProcess(t, t[i].info.pid).value;
  }

  lemma NoSuccessorIsLast(entries: seq<Entry>, t: Tree, i: nat)
    requires Told(entries, t) && i < |t| && NoSuccessor(entries, Births(entries)[i])
    ensures GetProcess(t, t[i].info.pid) == Some(i)
  {
    var last := LastWith(t, i);
    if last != i {
      LaterSucceeds(entries, t, i, last);
    }
  }

  /** The last process with a PID is the one behind which no other with it began. */
  lemma LastBorn(entries: seq<Entry>, t: Tree, pid: int, i: nat)
    requires Told(entries, t) && i < |t|
    ensures GetProcess(t, pid) == Some(i) <==> t[i].info.pid == pid && NoSuccessor(entries, Births(entries)[i])
  {
    if t[i].info.pid == pid {
      if GetProcess(t, pid) == Some(i) {
        LastHasNoSuccessor(entries, t, i);
      } else if NoSuccessor(entries, Births(entries)[i]) {
        NoSuccessorIsLast(entries, t, i);
      }
    }
  }

  /** The last process of a PID has no end exactly as long as it has no exit. */
  lemma OpenExactly(entries: seq<Entry>, b: nat, info: ProcessInfo)
    requires EndedAs(entries, b, info) && NoSuccessor(entries, b)
    ensures info.tsTo == None <==> NoExit(entries, b)
  {
    if x: nat :| ExitAt(entries, b, x) {
      var last := SomeLastExit(entries, b, x);
    }
  }

  // ---------- The whole log ----------

  /** When process i ends, behind one more entry. */
  function NewEnd(t: Tree, e: Entry, i: nat): (Option<real>, Option<int>)
    requires i < |t|
  {
    if e.CleanAddressSpace? && GetProcess(t, e.exitPid) == Some(i) then (Some(e.ts), Some(e.evtid))
    else if Begins(e) && GetProcess(t, PidOf(e)) == Some(i) && t[i].info.tsTo == None then
      (Some(TimeOf(e)), Some(EventOf(e) - 1))
    else EndOf(t[i].info)
  }

  lemma EndChanges(t: Tree, e: Entry, i: nat)
    requires ParentsExist(t) && i < |t| && Step(t, e).Ok?
    ensures i < |Step(t, e).value| && EndOf(Step(t, e).value[i].info) == NewEnd(t, e, i)
  {
    StepKeepsIdentity(t, e, i);
    if Begins(e) && GetProcess(t, PidOf(e)) == Some(i) && t[i].info.tsTo == None {
      ReplacedTold(t, e, i);
    }
  }

  /** What the last entry makes of process i. */
  lemma EndTold(entries: seq<Entry>, t: Tree, i: nat, info: ProcessInfo)
    requires entries != [] && Told(entries[..|entries| - 1], t) && i < |t|
    requires EndOf(info) == NewEnd(t, entries[|entries| - 1], i)
    ensures EndedAs(entries, Births(entries[..|entries| - 1])[i], info)
  {
    var k := |entries| - 1;
    var before, e := entries[..k], entries[k];
    var b := Births(before)[i];
    PidTold(before, t, i);
    LastBorn(before, t, t[i].info.pid, i);
    assert ToldOf(before, i, t[i].info);
    if e.CleanAddressSpace? && GetProcess(t, e.exitPid) == Some(i) {
      ExitTold(entries, b);
      ExitsNow(entries, b, info);
    } else if Begins(e) && GetProcess(t, PidOf(e)) == Some(i) && t[i].info.tsTo == None {
      OpenExactly(before, b, t[i].info);
      ReplacedNow(entries, b, info);
    } else {
      NotEndedNow(entries, t, i);
      StillEnded(entries, b, t[i].info);
      SameEnd(entries, b, t[i].info, info);
    }
  }

  lemma SameEnd(entries: seq<Entry>, b: nat, info: ProcessInfo, other: ProcessInfo)
    requires EndedAs(entries, b, info) && EndOf(other) == EndOf(info)
    ensures EndedAs(entries, b, other)
  {
  }

  lemma ExitTold(entries: seq<Entry>, b: nat)
    requires entries != [] && b < |entries| - 1 && Begins(entries[b]) && NoSuccessor(entries[..|entries| - 1], b)
    requires entries[|entries| - 1].CleanAddressSpace? && entries[|entries| - 1].exitPid == PidOf(entries[b])
    ensures ExitAt(entries, b, |entries| - 1)
  {
    Before(entries, |entries| - 1, b);
    forall n | b < n < |entries| - 1 ensures !Succeeds(entries, b, n) {
      assert !Succeeds(entries[..|entries| - 1], b, n);
    }
  }

  lemma ReplacedTold(t: Tree, e: Entry, i: nat)
    requires ParentsExist(t) && Begins(e) && GetProcess(t, PidOf(e)) == Some(i) && t[i].info.tsTo == None
    ensures Step(t, e).Ok? && i < |Step(t, e).value|
    ensures var r := Step(t, e).value[i].info; r.tsTo == Some(TimeOf(e)) && r.evtidTo == Some(EventOf(e) - 1)
  {
    match e
    case Running(pid, ppid, name) => AddProcessChanges(t, pid, ppid, 0, 0.0, name, GetProcess(t, ppid), [], i);
    case CreateProcess(_, newPid, creator, evtid, ts, image, args) =>
      AddProcessChanges(t, newPid, creator, evtid, ts, image, GetProcess(t, creator), args, i);
  }

  lemma NotEndedNow(entries: seq<Entry>, t: Tree, i: nat)
    requires entries != [] && Told(entries[..|entries| - 1], t) && i < |t|
    requires var e := entries[|entries| - 1];
             && !(e.CleanAddressSpace? && GetProcess(t, e.exitPid) == Some(i))
             && !(Begins(e) && GetProcess(t, PidOf(e)) == Some(i) && t[i].info.tsTo == None)
    ensures var before, b := entries[..|entries| - 1], Births(entries[..|entries| - 1])[i];
            && !ExitAt(entries, b, |entries| - 1)
            && (Succeeds(entries, b, |entries| - 1) && NoExit(before, b) ==> !NoSuccessor(before, b))
  {
    var k := |entries| - 1;
    var before, e := entries[..k], entries[k];
    var b := Births(before)[i];
    assert entries[b] == before[b];
    PidTold(before, t, i);
    Before(entries, k, b);
    LastBorn(before, t, t[i].info.pid, i);
    assert ToldOf(before, i, t[i].info);
    if NoSuccessor(before, b) {
      OpenExactly(before, b, t[i].info);
    } else if n: nat :| Succeeds(before, b, n) {
      assert Succeeds(entries, b, n);
    }
  }

  lemma JustBorn(entries: seq<Entry>, t: Tree)
    requires entries != [] && WellFormed(t) && Begins(entries[|entries| - 1])
    ensures var r := Step(t, entries[|entries| - 1]);
            && r.Ok? && |r.value| == |t| + 1
            && BornAs(entries[|entries| - 1], |t|, r.value[|t|].info)
            && EndedAs(entries, |entries| - 1, r.value[|t|].info)
  {
  }

  lemma OldTold(entries: seq<Entry>, t: Tree, i: nat)
    requires entries != [] && Told(entries[..|entries| - 1], t) && ParentsExist(t) && i < |t|
    requires Step(t, entries[|entries| - 1]).Ok?
    ensures i < |Births(entries)| && i < |Step(t, entries[|entries| - 1]).value|
    ensures ToldOf(entries, i, Step(t, entries[|entries| - 1]).value[i].info)
  {
    var k := |entries| - 1;
    var before, e := entries[..k], entries[k];
    assert Births(entries)[i] == Births(before)[i];
    assert ToldOf(before, i, t[i].info);
    StepKeepsIdentity(t, e, i);
    EndChanges(t, e, i);
    EndTold(entries, t, i, Step(t, e).value[i].info);
  }

  lemma NewTold(entries: seq<Entry>, t: Tree)
    requires entries != [] && |Births(entries[..|entries| - 1])| == |t| && WellFormed(t)
    requires Begins(entries[|entries| - 1])
    ensures var r := Step(t, entries[|entries| - 1]);
            && |Births(entries)| == |t| + 1 && r.Ok? && |r.value| == |t| + 1
            && ToldOf(entries, |t|, r.value[|t|].info)
  {
    JustBorn(entries, t);
    assert Births(entries)[|t|] == |entries| - 1;
  }

  lemma AllTold(entries: seq<Entry>, r: Tree)
    requires |Births(entries)| == |r|
    requires forall i: nat :: i < |r| ==> ToldOf(entries, i, r[i].info)
    ensures Told(entries, r)
  {
  }

  lemma StepTold(entries: seq<Entry>, t: Tree)
    requires entries != [] && Told(entries[..|entries| - 1], t) && WellFormed(t)
    requires Step(t, entries[|entries| - 1]).Ok?
    ensures Told(entries, Step(t, entries[|entries| - 1]).value)
  {
    var r := Step(t, entries[|entries| - 1]).value;
    AsManyBorn(entries, t);
    forall i: nat | i < |r| ensures ToldOf(entries, i, r[i].info) {
      if i < |t| { OldTold(entries, t, i); } else { NewTold(entries, t); }
    }
    AllTold(entries, r);
  }

  lemma AsManyBorn(entries: seq<Entry>, t: Tree)
    requires entries != [] && |Births(entries[..|entries| - 1])| == |t| && WellFormed(t)
    requires Step(t, entries[|entries| - 1]).Ok?
    ensures |Births(entries)| == |Step(t, entries[|entries| - 1]).value|
    ensures |Births(entries)| == |t| + (if Begins(entries[|entries| - 1]) then 1 else 0)
  {
    if Begins(entries[|entries| - 1]) {
      NewTold(entries, t);
    } else {
      NoneBorn(t, entries[|entries| - 1]);
    }
  }

  lemma NoneBorn(t: Tree, e: Entry)
    requires ParentsExist(t) && !Begins(e) && Step(t, e).Ok?
    ensures |Step(t, e).value| == |t|
  {
  }

  /** Of every log that is read without failure, the tree tells of each process what the log says of it. */
  lemma {:induction false} ReplayTold(entries: seq<Entry>)
    requires Replay(entries).Ok?
    ensures Told(entries, Replay(entries).value)
  {
    if entries != [] {
      ReplayTold(entries[..|entries| - 1]);
      StepTold(entries, Replay(entries[..|entries| - 1]).value);
    }
  }

  // ---------- When a process was alive ----------

  /**
   The process had begun by the event, none of its exits lies before it but the last one, if
   there is any, and no later process with its PID had begun yet.
   */
  ghost predicate Alive(entries: seq<Entry>, b: nat, evtid: int)
    requires b < |entries| && Begins(entries[b])
  {
    && EventOf(entries[b]) <= evtid
    && (NoExit(entries, b) || exists x: nat :: ExitAt(entries, b, x) && evtid <= entries[x].evtid)
    && forall n: nat :: Succeeds(entries, b, n) ==> evtid < EventOf(entries[n])
  }

  lemma {:induction false} EarlierLog(entries: seq<Entry>, k: nat)
    requires Chronological(entries) && k <= |entries|
    ensures Chronological(entries[..k])
  {
    if k == |entries| {
      assert entries[..k] == entries;
    } else {
      var n := |entries| - 1;
      assert entries[..n][..k] == entries[..k];
      EarlierLog(entries[..n], k);
    }
  }

  lemma {:induction false} LastEventCounts(entries: seq<Entry>, a: nat)
    requires Chronological(entries) && a < |entries| && LifetimeEvent(entries[a]).Some?
    ensures 1 <= LifetimeEvent(entries[a]).value <= LastEvent(entries)
  {
    var k := |entries| - 1;
    LastEventGrows(entries[..k]);
    if a < k {
      LastEventCounts(entries[..k], a);
    }
  }

  /** Events of lifetimes come in the order of their ids, behind the processes found running. */
  lemma IdsGrow(entries: seq<Entry>, a: nat, b: nat)
    requires Chronological(entries) && a < b < |entries| && LifetimeEvent(entries[a]).Some?
    ensures !entries[b].Running?
    ensures LifetimeEvent(entries[b]).Some? ==> LifetimeEvent(entries[a]).value < LifetimeEvent(entries[b]).value
  {
    EarlierLog(entries, b + 1);
    EarlierLog(entries, b);
    assert entries[..b + 1][..b] == entries[..b];
    assert entries[..b][a] == entries[a];
    LastEventCounts(entries[..b], a);
  }

  lemma BirthsGrow(entries: seq<Entry>, a: nat, b: nat)
    requires Chronological(entries) && a < b < |entries| && Begins(entries[a]) && Begins(entries[b])
    ensures 0 <= EventOf(entries[a]) <= EventOf(entries[b])
  {
    LastEventGrows(entries);
    if entries[a].CreateProcess? {
      IdsGrow(entries, a, b);
      LastEventCounts(entries, a);
    } else if entries[b].CreateProcess? {
      LastEventCounts(entries, b);
    }
  }

  /** An exited process: what follows its last exit comes later. */
  lemma CoversExited(entries: seq<Entry>, b: nat, info: ProcessInfo, evtid: int, x: nat)
    requires Chronological(entries) && LastExit(entries, b, x)
    requires info.evtidFrom == EventOf(entries[b]) && EndedAs(entries, b, info)
    ensures Covers(info, evtid) <==> Alive(entries, b, evtid)
  {
    LastEventCounts(entries, x);
    forall n: nat | Succeeds(entries, b, n) ensures entries[x].evtid < EventOf(entries[n]) {
      assert n < x ==> !Succeeds(entries, b, n);
      IdsGrow(entries, x, n);
    }
    forall y: nat | ExitAt(entries, b, y) ensures entries[y].evtid <= entries[x].evtid {
      if y < x { IdsGrow(entries, y, x); }
    }
  }

  lemma NotTakenOver(entries: seq<Entry>, b: nat, n: nat)
    requires !HasTakeover(entries) && Succeeds(entries, b, n) && entries[b].Running?
    ensures EventOf(entries[n]) != 1
  {
    assert !Takeover(entries, b, n);
  }

  /** A process without an exit counts as alive until the next one with its PID begins. */
  lemma CoversReplaced(entries: seq<Entry>, b: nat, info: ProcessInfo, evtid: int, n: nat)
    requires Chronological(entries) && !HasTakeover(entries) && NoExit(entries, b) && NextOf(entries, b, n)
    requires info.evtidFrom == EventOf(entries[b]) && EndedAs(entries, b, info)
    ensures Covers(info, evtid) <==> Alive(entries, b, evtid)
  {
    BirthsGrow(entries, b, n);
    forall m: nat | Succeeds(entries, b, m) ensures EventOf(entries[n]) <= EventOf(entries[m]) {
      assert n <= m;
      if n < m { BirthsGrow(entries, n, m); }
    }
    if entries[b].CreateProcess? {
      LastEventCounts(entries, b);
      IdsGrow(entries, b, n);
    } else {
      NotTakenOver(entries, b, n);
    }
  }

  /**
   Of a chronological log in which no PID is taken over at event 1: a process covers an event
   exactly when it was alive at it, by the entries of the log.
   */
  lemma CoversExactly(entries: seq<Entry>, i: nat, evtid: int)
    requires Chronological(entries) && !HasTakeover(entries) && Replay(entries).Ok? && i < |Replay(entries).value|
    ensures i < |Births(entries)|
    ensures Covers(Replay(entries).value[i].info, evtid) <==> Alive(entries, Births(entries)[i], evtid)
  {
    ReplayTold(entries);
    var info, b := Replay(entries).value[i].info, Births(entries)[i];
    assert ToldOf(entries, i, info);
    if x: nat :| ExitAt(entries, b, x) {
      var last := SomeLastExit(entries, b, x);
      CoversExited(entries, b, info, evtid, last);
    } else if n: nat :| Succeeds(entries, b, n) {
      var next := SomeNext(entries, b, n);
      CoversReplaced(entries, b, info, evtid, next);
    }
  }

  /** The lookup by event finds exactly the process of the PID that was alive. */
  lemma LookupFindsAlive(entries: seq<Entry>, pid: int, evtid: int, i: nat)
    requires Chronological(entries) && !HasTakeover(entries) && Replay(entries).Ok? && i < |Replay(entries).value|
    ensures i < |Births(entries)|
    ensures GetProcessForEvtid(Replay(entries).value, pid, evtid) == Some(i)
            <==> PidOf(entries[Births(entries)[i]]) == pid && Alive(entries, Births(entries)[i], evtid)
  {
    ReplayTold(entries);
    PidTold(entries, Replay(entries).value, i);
    EventsFindTheirProcess(entries, pid, evtid, i);
    CoversExactly(entries, i, evtid);
  }

  /** Behind an exit the last process of its PID covers what it did up to the exit, and ends at its time. */
  lemma ExitExactly(t: Tree, pid: int, evtid: int, ts: real, e: int)
    requires ParentsExist(t) && GetProcess(t, pid).Some? && evtid > 0
    ensures var i, r := GetProcess(t, pid).value, Step(t, CleanAddressSpace(pid, evtid, ts));
            && r.Ok? && |r.value| == |t| && r.value[i].info.tsTo == Some(ts)
            && (Covers(r.value[i].info, e) <==> t[i].info.evtidFrom <= e <= evtid)
  {
    EndChanges(t, CleanAddressSpace(pid, evtid, ts), GetProcess(t, pid).value);
    StepKeepsIdentity(t, CleanAddressSpace(pid, evtid, ts), GetProcess(t, pid).value);
  }

  // ---------- Links and exit codes ----------

  function PpidOf(e: Entry): int
    requires Begins(e)
  {
    if e.Running? then e.ppid else e.creator
  }

  /** A new process comes last, with nothing known of its end. */
  lemma BornLast(t: Tree, e: Entry)
    requires WellFormed(t) && Begins(e)
    ensures var r := Step(t, e);
            && r.Ok? && |r.value| == |t| + 1
            && BornAs(e, |t|, r.value[|t|].info) && r.value[|t|].info.ppid == PpidOf(e)
            && EndOf(r.value[|t|].info) == (None, None) && ExitOf(r.value[|t|].info) == (None, None, None)
            && r.value[|t|].parent == GetProcess(t, PpidOf(e)) && r.value[|t|].children == []
  {
  }

  lemma AddedBelow(t: Tree, pid: int, ppid: int, evtid: int, ts: real, name: string, parent: Option<nat>,
                   args: seq<string>, i: nat)
    requires i < |t| && (parent.Some? ==> parent.value < |t|)
    ensures var r := AddProcess(t, pid, ppid, evtid, ts, name, parent, args);
            && r[i].parent == t[i].parent
            && r[i].children == if parent == Some(i) then t[i].children + [|t|] else t[i].children
  {
    var retired := Retire(t, pid, evtid, ts);
    assert retired[i].parent == t[i].parent && retired[i].children == t[i].children;
  }

  /** It is listed last below its creator, and otherwise all links stay. */
  lemma BornBelow(t: Tree, e: Entry, i: nat)
    requires WellFormed(t) && Begins(e) && i < |t|
    ensures var r := Step(t, e);
            && r.Ok? && |r.value| == |t| + 1 && r.value[i].parent == t[i].parent
            && r.value[i].children ==
                 if GetProcess(t, PpidOf(e)) == Some(i) then t[i].children + [|t|] else t[i].children
  {
    match e
    case Running(pid, ppid, name) => AddedBelow(t, pid, ppid, 0, 0.0, name, GetProcess(t, ppid), [], i);
    case CreateProcess(_, newPid, creator, evtid, ts, image, args) =>
      AddedBelow(t, newPid, creator, evtid, ts, image, GetProcess(t, creator), args, i);
  }

  /**
   A termination sets the exit code of the process it names, or of the caller if it names none;
   only then nobody counts as its killer. It fails for an unknown killer.
   */
  lemma KillExactly(t: Tree, exitPid: int, caller: int, status: int, statusStr: string, i: nat)
    requires WellFormed(t) && i < |t|
    ensures var r := Step(t, Terminate(exitPid, caller, status, statusStr));
            var named := GetProcess(t, if exitPid == 0 then caller else exitPid);
            && (r.Err? <==> exitPid != 0 && named.Some? && GetProcess(t, caller).None?)
            && (r.Ok? ==>
                  && |r.value| == |t|
                  && r.value[i] == if named != Some(i) then t[i]
                                   else t[i].(info := Killed(t, i, exitPid, caller, status, statusStr)))
  {
  }

  function Killed(t: Tree, i: nat, exitPid: int, caller: int, status: int, statusStr: string): ProcessInfo
    requires i < |t|
  {
    t[i].info.(exitCode := Some(status), exitCodeStr := Some(statusStr),
               killedBy := if exitPid == 0 then t[i].info.killedBy else GetProcess(t, caller))
  }

  /** The list without the one place of x. */
  ghost predicate Omits(s: seq<nat>, x: nat, r: seq<nat>) {
    exists j :: 0 <= j < |s| && s[j] == x && r == s[..j] + s[j + 1..]
  }

  lemma {:induction false} RemovedAt(s: seq<nat>, x: nat) returns (j: nat)
    requires x in s
    ensures j < |s| && s[j] == x && Remove(s, x) == s[..j] + s[j + 1..]
  {
    if s[0] == x {
      j := 0;
    } else {
      var rest := s[1..];
      assert s == [s[0]] + rest;
      var k := RemovedAt(rest, x);
      j := k + 1;
      assert s[..j] == [s[0]] + rest[..k] && s[j + 1..] == rest[k + 1..];
      assert [s[0]] + (rest[..k] + rest[k + 1..]) == s[..j] + s[j + 1..];
    }
  }

  lemma RemoveOmits(s: seq<nat>, x: nat)
    requires x in s
    ensures Omits(s, x, Remove(s, x))
  {
    var j := RemovedAt(s, x);
  }

  /** Whose children change how when process p moves below q. */
  ghost predicate ChildrenMoved(t: Tree, p: nat, q: nat, i: nat, children: seq<nat>)
    requires p < |t| && i < |t|
  {
    var mine := t[i].children;
    if t[p].parent == Some(i) then
      exists left :: Omits(mine, p, left) && children == if i == q then left + [p] else left
    else children == if i == q then mine + [p] else mine
  }

  lemma MovedChildren(t: Tree, p: nat, q: nat, i: nat)
    requires WellFormed(t) && p < |t| && q < |t| && i < |t|
    ensures ChildrenMoved(t, p, q, i, ChangeParent(t, p, q)[i].children)
  {
    if t[p].parent == Some(i) {
      RemoveOmits(t[i].children, p);
    }
  }

  /**
   An entry of another method moves the last process with its PID exactly if that has not
   ended, is said to have another PPID, and a process with the named PPID is known; it is then
   listed last below that one, whose PPID it takes, and no longer below its old parent.
   */
  lemma MovesExactly(t: Tree, pid: int, ppid: int, i: nat)
    requires WellFormed(t) && GetProcess(t, pid).Some? && i < |t|
    ensures var p, q, r := GetProcess(t, pid).value, GetProcess(t, ppid), Step(t, OtherMethod(pid, ppid));
            && r.Ok? && |r.value| == |t|
            && if t[p].info.tsTo == None && t[p].info.ppid != ppid && q.Some? then
                 && r.value[i].parent == (if i == p then q else t[i].parent)
                 && r.value[i].info == (if i == p then t[i].info.(ppid := t[q.value].info.ppid) else t[i].info)
                 && ChildrenMoved(t, p, q.value, i, r.value[i].children)
               else r.value == t
  {
    var move := Rebinding(t, pid, ppid);
    if move.Some? {
      RebindMoves(t, pid, ppid, i);
      MovedChildren(t, move.value.0, move.value.1, i);
    }
  }
}
