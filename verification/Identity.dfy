/**
 What no later entry changes (drakrun/analyzer/postprocessing/process_tree.py): a process
 keeps its number, so that the index and the reports can refer to it, and who it was.
 */
module Identity {
  import opened Common
  import opened ProcessTree

  predicate SameIdentity(a: ProcessInfo, b: ProcessInfo) {
    && a.seqid == b.seqid && a.pid == b.pid && a.procname == b.procname && a.args == b.args
    && a.tsFrom == b.tsFrom && a.evtidFrom == b.evtidFrom
  }

  /** The end of a process is set by its exit or by a new process with its PID. */
  predicate MayEnd(t: Tree, e: Entry, i: nat)
    requires i < |t|
  {
    match e
    case Running(pid, _, _) => GetProcess(t, pid) == Some(i) && t[i].info.tsTo == None
    case CreateProcess(succeeded, pid, _, _, _, _, _) =>
      succeeded && GetProcess(t, pid) == Some(i) && t[i].info.tsTo == None
    case CleanAddressSpace(pid, _, _) => GetProcess(t, pid) == Some(i)
    case _ => false
  }

  /** Only the last process with the named PID gets an exit code. */
  predicate MayBeKilled(t: Tree, e: Entry, i: nat)
    requires i < |t|
  {
    e.Terminate? && GetProcess(t, if e.exitPid == 0 then e.caller else e.exitPid) == Some(i)
  }

  predicate MayMove(t: Tree, e: Entry, i: nat)
    requires i < |t|
  {
    e.OtherMethod? && Rebinding(t, e.pid, e.ppid).Some? && Rebinding(t, e.pid, e.ppid).value.0 == i
  }

  function EndOf(info: ProcessInfo): (Option<real>, Option<int>) {
    (info.tsTo, info.evtidTo)
  }

  function ExitOf(info: ProcessInfo): (Option<int>, Option<string>, Option<nat>) {
    (info.exitCode, info.exitCodeStr, info.killedBy)
  }

  /** What one entry may change of process i. */
  ghost predicate Kept(t: Tree, e: Entry, i: nat, before: Node, after: Node)
    requires i < |t|
  {
    && SameIdentity(before.info, after.info)
    && (EndOf(before.info) != EndOf(after.info) ==> MayEnd(t, e, i))
    && (ExitOf(before.info) != ExitOf(after.info) ==> MayBeKilled(t, e, i))
    && ((before.parent, before.info.ppid) != (after.parent, after.info.ppid) ==> MayMove(t, e, i))
  }

  lemma StepKeepsIdentity(t: Tree, e: Entry, i: nat)
    requires ParentsExist(t) && Step(t, e).Ok? && i < |t|
    ensures |t| <= |Step(t, e).value| && Kept(t, e, i, t[i], Step(t, e).value[i])
  {
    match e
    case Running(pid, ppid, name) => AddProcessChanges(t, pid, ppid, 0, 0.0, name, GetProcess(t, ppid), [], i);
    case CreateProcess(succeeded, newPid, creator, evtid, ts, image, args) =>
      if succeeded { AddProcessChanges(t, newPid, creator, evtid, ts, image, GetProcess(t, creator), args, i); }
    case OtherMethod(pid, ppid) => RebindMoves(t, pid, ppid, i);
    case _ =>
  }

  /** A new process ends at most the last one with its PID, just before itself, and changes nothing else of any. */
  lemma AddProcessChanges(t: Tree, pid: int, ppid: int, evtid: int, ts: real, name: string, parent: Option<nat>,
                          args: seq<string>, i: nat)
    requires i < |t| && (parent.Some? ==> parent.value < |t|)
    ensures var r := AddProcess(t, pid, ppid, evtid, ts, name, parent, args);
            && r[i].parent == t[i].parent
            && r[i].info == if GetProcess(t, pid) == Some(i) && t[i].info.tsTo == None
                            then t[i].info.(evtidTo := Some(evtid - 1), tsTo := Some(ts)) else t[i].info
  {
  }

  /**
   A rebound process is listed below the new parent and takes over its PPID, not its PID; no
   other process changes.
   */
  lemma RebindMoves(t: Tree, pid: int, ppid: int, i: nat)
    requires ParentsExist(t) && Rebind(t, pid, ppid).Ok? && i < |t|
    ensures var r, move := Rebind(t, pid, ppid).value, Rebinding(t, pid, ppid);
            if move.Some? && move.value.0 == i
            then r[i].parent == Some(move.value.1) && r[i].info == t[i].info.(ppid := t[move.value.1].info.ppid)
            else r[i].parent == t[i].parent && r[i].info == t[i].info
  {
  }

  /** A process of some moment is the same process, under the same number, ever after. */
  lemma {:induction false} NumbersAreStable(entries: seq<Entry>, k: nat, i: nat)
    requires k <= |entries| && Replay(entries).Ok?
    ensures Replay(entries[..k]).Ok? && |Replay(entries[..k]).value| <= |Replay(entries).value|
    ensures i < |Replay(entries[..k]).value| ==>
              SameIdentity(Replay(entries[..k]).value[i].info, Replay(entries).value[i].info)
  {
    if k == |entries| {
      assert entries[..k] == entries;
    } else {
      var n := |entries| - 1;
      assert entries[..n][..k] == entries[..k];
      NumbersAreStable(entries[..n], k, i);
      var t := Replay(entries[..n]).value;
      if i < |t| {
        StepKeepsIdentity(t, entries[n], i);
      } else {
        StepGrows(t, entries[n]);
      }
    }
  }

  lemma StepGrows(t: Tree, e: Entry)
    requires ParentsExist(t) && Step(t, e).Ok?
    ensures |t| <= |Step(t, e).value|
  {
  }
}
