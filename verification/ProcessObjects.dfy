/**
 The process objects of drakrun/analyzer/postprocessing/process_tree.py: processes that
 point at their parent and their children, updated in place. The ghost field tree is the
 value they stand for; every method changes it as ProcessTree says.
 */
module ProcessObjects {
  import opened Common
  import opened ProcessTree

  class Process {
    const seqid: nat
    var info: ProcessInfo
    var parent: Process?
    var children: seq<Process>

    constructor (info: ProcessInfo, parent: Process?)
      ensures this.seqid == info.seqid && this.info == info && this.parent == parent && this.children == []
    {
      this.seqid := info.seqid;
      this.info := info;
      this.parent := parent;
      this.children := [];
    }
  }

  ghost function Seqids(ps: seq<Process>): seq<nat> {
    seq(|ps|, i requires 0 <= i < |ps| => ps[i].seqid)
  }

  ghost function NodeOf(p: Process): Node
    reads p
  {
    Node(p.info, if p.parent == null then None else Some(p.parent.seqid), Seqids(p.children))
  }

  lemma {:induction false} RemoveSeqid(ps: seq<Process>, p: Process)
    requires forall c :: c in ps && c.seqid == p.seqid ==> c == p
    ensures Seqids(Remove(ps, p)) == Remove(Seqids(ps), p.seqid)
    ensures forall c :: c in Remove(ps, p) ==> c in ps
  {
    if ps != [] {
      assert Seqids(ps)[1..] == Seqids(ps[1..]);
      RemoveSeqid(ps[1..], p);
    }
  }

  class ProcessTreeObject {
    var processes: seq<Process>
    ghost var tree: Tree      // what the objects stand for

    /** The object is the one listed under its number. */
    ghost predicate Lists(p: Process)
      reads this
    {
      p.seqid < |processes| && processes[p.seqid] == p
    }

    /** Every process lies at its number, and all links stay within the list. */
    ghost predicate Valid()
      reads this, processes
    {
      && |tree| == |processes|
      && (forall i :: 0 <= i < |processes| ==>
            processes[i].seqid == i && processes[i].info.seqid == i && tree[i] == NodeOf(processes[i]))
      && (forall i :: 0 <= i < |processes| && processes[i].parent != null ==> Lists(processes[i].parent))
      && (forall i, c {:trigger c in processes[i].children} ::
            0 <= i < |processes| && c in processes[i].children ==> Lists(c))
    }

    constructor ()
      ensures Valid() && tree == [] && processes == []
    {
      processes, tree := [], [];
    }

    /** The last process that was added with this PID. */
    method GetProcess(pid: int) returns (r: Process?)
      requires Valid()
      ensures r == null <==> ProcessTree.GetProcess(tree, pid).None?
      ensures r != null ==> Lists(r) && ProcessTree.GetProcess(tree, pid) == Some(r.seqid)
    {
      var i := |processes|;
      while i > 0
        invariant 0 <= i <= |processes|
        invariant forall j :: i <= j < |processes| ==> processes[j].info.pid != pid
      {
        i := i - 1;
        if processes[i].info.pid == pid {
          assert tree[i] == NodeOf(processes[i]);
          return processes[i];
        }
      }
      r := null;
    }

    /** The first process with this PID whose lifetime covers the event. */
    method GetProcessForEvtid(pid: int, evtid: int) returns (r: Process?)
      requires Valid()
      ensures r == null <==> ProcessTree.GetProcessForEvtid(tree, pid, evtid).None?
      ensures r != null ==> Lists(r) && ProcessTree.GetProcessForEvtid(tree, pid, evtid) == Some(r.seqid)
    {
      for i := 0 to |processes|
        invariant forall j :: 0 <= j < i ==> !(processes[j].info.pid == pid && Covers(processes[j].info, evtid))
      {
        var p := processes[i];
        if p.info.pid == pid {
          if evtid >= p.info.evtidFrom && (IsOpen(p.info) || evtid <= p.info.evtidTo.value) {
            assert tree[i] == NodeOf(processes[i]);
            return p;
          }
        }
      }
      r := null;
    }

    // Each assignment to a field changes one node of the view.

    method SetInfo(p: Process, info: ProcessInfo)
      requires Valid() && Lists(p) && info.seqid == p.seqid
      modifies p`info, this`tree
      ensures Valid() && tree == old(tree)[p.seqid := old(tree)[p.seqid].(info := info)]
    {
      p.info := info;
      tree := tree[p.seqid := tree[p.seqid].(info := info)];
    }

    method SetChildren(p: Process, children: seq<Process>)
      requires Valid() && Lists(p) && forall c :: c in children ==> Lists(c)
      modifies p`children, this`tree
      ensures Valid() && tree == old(tree)[p.seqid := old(tree)[p.seqid].(children := Seqids(children))]
    {
      p.children := children;
      tree := tree[p.seqid := tree[p.seqid].(children := Seqids(children))];
    }

    method AddAsChild(p: Process, child: Process)
      requires Valid() && Lists(p) && Lists(child)
      modifies p`children, this`tree
      ensures Valid() && tree == AddChild(old(tree), Some(p.seqid), child.seqid)
    {
      assert Seqids(p.children + [child]) == Seqids(p.children) + [child.seqid];
      assert forall c :: c in p.children ==> Lists(c);
      p.children := p.children + [child];
      tree := AddChild(tree, Some(p.seqid), child.seqid);
    }

    method SetParent(p: Process, q: Process)
      requires Valid() && Lists(p) && Lists(q)
      modifies p`parent, this`tree
      ensures Valid() && tree == old(tree)[p.seqid := old(tree)[p.seqid].(parent := Some(q.seqid))]
    {
      p.parent := q;
      tree := tree[p.seqid := tree[p.seqid].(parent := Some(q.seqid))];
    }

    method Append(p: Process)
      requires Valid() && p.seqid == p.info.seqid == |processes| && p.children == []
      requires p.parent != null ==> Lists(p.parent)
      modifies this
      ensures Valid() && processes == old(processes) + [p] && tree == old(tree) + [NodeOf(p)]
    {
      processes := processes + [p];
      tree := tree + [NodeOf(p)];
    }

    /** A process that has the PID of a new one and no exit yet is given an exit. */
    method RetireExisting(pid: int, evtidFrom: int, tsFrom: real)
      requires Valid()
      modifies this`tree, processes
      ensures Valid() && processes == old(processes) && tree == Retire(old(tree), pid, evtidFrom, tsFrom)
    {
      var existing := GetProcess(pid);
      if existing != null && existing.info.tsTo == None {
        SetInfo(existing, existing.info.(evtidTo := Some(evtidFrom - 1), tsTo := Some(tsFrom)));
      }
    }

    method AddProcess(pid: int, ppid: int, evtidFrom: int, tsFrom: real, procname: string,
                      parent: Process?, args: seq<string>)
      returns (process: Process)
      requires Valid() && (parent != null ==> Lists(parent))
      modifies this, processes
      ensures Valid() && processes == old(processes) + [process] && fresh(process)
      ensures tree == ProcessTree.AddProcess(old(tree), pid, ppid, evtidFrom, tsFrom, procname,
                                               if parent == null then None else Some(parent.seqid), args)
    {
      process := new Process(
        ProcessInfo(|processes|, pid, ppid, procname, args, tsFrom, None, evtidFrom, None, None, None, None), parent);
      RetireExisting(pid, evtidFrom, tsFrom);
      Append(process);
      if parent != null {
        AddAsChild(parent, process);
      }
    }

    /** Takes a process out of its parent's list of children. */
    method LeaveParent(p: Process)
      requires Valid() && Lists(p)
      modifies this`tree, processes
      ensures Valid() && processes == old(processes) && tree == Detach(old(tree), p.seqid)
    {
      if p.parent != null {
        assert forall c :: c in p.parent.children ==> Lists(c);
        RemoveSeqid(p.parent.children, p);
        SetChildren(p.parent, Remove(p.parent.children, p));
      }
    }

    /** Process.change_parent. */
    method ChangeParent(p: Process, newParent: Process)
      requires Valid() && Lists(p) && Lists(newParent)
      modifies this`tree, processes
      ensures Valid() && processes == old(processes)
      ensures tree == ProcessTree.ChangeParent(old(tree), p.seqid, newParent.seqid)
    {
      LeaveParent(p);
      AdoptChild(p, newParent);
    }

    method AdoptChild(p: Process, newParent: Process)
      requires Valid() && Lists(p) && Lists(newParent)
      modifies this`tree, processes
      ensures Valid() && processes == old(processes)
      ensures var u := AddChild(old(tree), Some(newParent.seqid), p.seqid);
              tree == u[p.seqid := u[p.seqid].(parent := Some(newParent.seqid),
                                                 info := u[p.seqid].info.(ppid := u[newParent.seqid].info.ppid))]
    {
      AddAsChild(newParent, p);
      SetParent(p, newParent);
      SetInfo(p, p.info.(ppid := newParent.info.ppid));
    }

    // ---------- Handlers of log entries ----------

    method ParseRunningProcessEntry(pid: int, ppid: int, procname: string)
      requires Valid()
      modifies this, processes
      ensures Valid() && fresh(set p | p in processes && p !in old(processes))
      ensures tree == ProcessTree.AddProcess(old(tree), pid, ppid, 0, 0.0, procname,
                                               ProcessTree.GetProcess(old(tree), ppid), [])
    {
      var parent := GetProcess(ppid);
      var _ := AddProcess(pid, ppid, 0, 0.0, procname, parent, []);
    }

    method ParseCreateProcessEntry(succeeded: bool, newPid: int, creator: int, evtid: int, ts: real,
                                   image: string, args: seq<string>)
      requires Valid()
      modifies this, processes
      ensures Valid() && fresh(set p | p in processes && p !in old(processes))
      ensures tree == if succeeded
                        then ProcessTree.AddProcess(old(tree), newPid, creator, evtid, ts, image,
                                                    ProcessTree.GetProcess(old(tree), creator), args)
                        else old(tree)
    {
      if !succeeded {
        return;
      }
      var parent := GetProcess(creator);
      var _ := AddProcess(newPid, creator, evtid, ts, image, parent, args);
    }

    method ParseCleanAddressSpaceEntry(exitPid: int, evtid: int, ts: real)
      requires Valid()
      modifies this`tree, processes
      ensures Valid() && processes == old(processes)
      ensures tree == Exit(old(tree), exitPid, evtid, ts)
    {
      var p := GetProcess(exitPid);
      if p == null {
        return;
      }
      SetInfo(p, p.info.(tsTo := Some(ts), evtidTo := Some(evtid)));
    }

    method RecordExit(p: Process, status: int, statusStr: string, killedBy: Option<nat>)
      requires Valid() && Lists(p)
      modifies this`tree, processes
      ensures Valid() && processes == old(processes)
      ensures var t, i := old(tree), p.seqid;
              tree == t[i := t[i].(info := t[i].info.(killedBy := killedBy, exitCode := Some(status),
                                                        exitCodeStr := Some(statusStr)))]
    {
      SetInfo(p, p.info.(killedBy := killedBy, exitCode := Some(status), exitCodeStr := Some(statusStr)));
    }

    /** The exception of an unknown killer leaves the tree as it was. */
    method ParseTerminateEntry(exitPid: int, caller: int, status: int, statusStr: string)
      returns (failure: Option<Failure>)
      requires Valid()
      modifies this`tree, processes
      ensures Valid() && processes == old(processes)
      ensures Kill(old(tree), exitPid, caller, status, statusStr)
              == if failure.Some? then Err(failure.value) else Ok(tree)
      ensures failure.Some? ==> tree == old(tree)
    {
      var pid, killerPid := exitPid, Some(caller);
      if exitPid == 0 {
        pid, killerPid := caller, None;
      }
      var p := GetProcess(pid);
      if p == null {
        return None;
      }
      var killedBy := p.info.killedBy;
      if killerPid.Some? {
        var killer := GetProcess(killerPid.value);
        if killer == null {
          return Some(UnknownProcess(killerPid.value));
        }
        killedBy := Some(killer.seqid);
      }
      RecordExit(p, status, statusStr, killedBy);
      failure := None;
    }

    /** Any other method: its process may have moved below another parent. */
    method ParseOtherEntry(pid: int, ppid: int) returns (failure: Option<Failure>)
      requires Valid()
      modifies this`tree, processes
      ensures Valid() && processes == old(processes)
      ensures Rebind(old(tree), pid, ppid) == if failure.Some? then Err(failure.value) else Ok(tree)
    {
      var process := GetProcess(pid);
      if process == null {
        return Some(UnknownProcess(pid));
      }
      FollowParent(process, ppid);
      failure := None;
    }

    method FollowParent(process: Process, ppid: int)
      requires Valid() && Lists(process)
      requires ProcessTree.GetProcess(tree, process.info.pid) == Some(process.seqid)
      modifies this`tree, processes
      ensures Valid() && processes == old(processes)
      ensures var move := Rebinding(old(tree), old(process.info.pid), ppid);
              tree == if move.Some? then ProcessTree.ChangeParent(old(tree), move.value.0, move.value.1) else old(tree)
    {
      if process.info.tsTo == None && process.info.ppid != ppid {
        var newParent := GetProcess(ppid);
        if newParent != null {
          ChangeParent(process, newParent);
        }
      }
    }

    method Parse(e: Entry) returns (failure: Option<Failure>)
      requires Valid()
      modifies this, processes
      ensures Valid() && fresh(set p | p in processes && p !in old(processes))
      ensures Step(old(tree), e) == if failure.Some? then Err(failure.value) else Ok(tree)
    {
      failure := None;
      match e
      case Running(pid, ppid, name) => ParseRunningProcessEntry(pid, ppid, name);
      case CreateProcess(succeeded, newPid, creator, evtid, ts, image, args) =>
        ParseCreateProcessEntry(succeeded, newPid, creator, evtid, ts, image, args);
      case CleanAddressSpace(pid, evtid, ts) => ParseCleanAddressSpaceEntry(pid, evtid, ts);
      case Terminate(exitPid, caller, status, statusStr) =>
        failure := ParseTerminateEntry(exitPid, caller, status, statusStr);
      case OtherMethod(pid, ppid) => failure := ParseOtherEntry(pid, ppid);
      case Irrelevant =>
    }
  }

  /** tree_from_log: the objects stand for the tree the log describes, or the exception is the log's first. */
  method ReadTree(lines: seq<Line>) returns (pstree: ProcessTreeObject, failure: Option<Failure>)
    ensures pstree.Valid() && (failure == None ==> WellFormed(pstree.tree))
    ensures TreeFromLog(lines) == if failure.Some? then Err(failure.value) else Ok(pstree.tree)
  {
    pstree := new ProcessTreeObject();
    failure := None;
    var prevLine: Option<string> := None;
    for i := 0 to |lines|
      invariant pstree.Valid() && fresh(pstree) && fresh(set p | p in pstree.processes)
      invariant failure == None && TreeAfter(lines, i) == Ok(pstree.tree)
      invariant prevLine == if i == 0 then None else Some(lines[i - 1].text)
    {
      failure := ReadLine(pstree, lines, i, prevLine);
      prevLine := Some(lines[i].text);
      if failure.Some? {
        FailureSticks(lines, i + 1, |lines|);
        return;
      }
    }
  }

  /** One line of the loop; prevLine is the text of the line before. */
  method ReadLine(pstree: ProcessTreeObject, lines: seq<Line>, i: nat, prevLine: Option<string>)
    returns (failure: Option<Failure>)
    requires i < |lines| && pstree.Valid() && TreeAfter(lines, i) == Ok(pstree.tree)
    requires prevLine == if i == 0 then None else Some(lines[i - 1].text)
    modifies pstree, pstree.processes
    ensures pstree.Valid() && fresh(set p | p in pstree.processes && p !in old(pstree.processes))
    ensures TreeAfter(lines, i + 1) == if failure.Some? then Err(failure.value) else Ok(pstree.tree)
  {
    failure := None;
    AfterLine(lines, i, pstree.tree);
    if Some(lines[i].text) == prevLine || lines[i].entry.None? {
      return;
    }
    failure := pstree.Parse(lines[i].entry.value);
  }

  lemma AfterLine(lines: seq<Line>, i: nat, t: Tree)
    requires i < |lines| && TreeAfter(lines, i) == Ok(t)
    ensures TreeAfter(lines, i + 1) ==
              if (i > 0 && lines[i - 1].text == lines[i].text) || lines[i].entry.None? then Ok(t)
              else Step(t, lines[i].entry.value)
  {
  }
}
