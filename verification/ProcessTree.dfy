/**
 The process tree of an analysis (drakrun/analyzer/postprocessing/process_tree.py) as a
 value: what the tree is after each entry of the procmon log. The objects that carry it are
 in ProcessObjects.
 */
module ProcessTree {
  import opened Common

  /** The fields of a process that as_dict prints. */
  datatype ProcessInfo = ProcessInfo(
    seqid: nat, pid: int, ppid: int, procname: string, args: seq<string>,
    tsFrom: real, tsTo: Option<real>, evtidFrom: int, evtidTo: Option<int>,
    exitCode: Option<int>, exitCodeStr: Option<string>, killedBy: Option<nat>)

  /** A process; its parent and its children are named by their places in the tree's list. */
  datatype Node = Node(info: ProcessInfo, parent: Option<nat>, children: seq<nat>)

  type Tree = seq<Node>

  datatype Entry =
    | Running(pid: int, ppid: int, procname: string)
    | CreateProcess(succeeded: bool, newPid: int, creator: int, evtid: int, ts: real, image: string, args: seq<string>)
    | CleanAddressSpace(exitPid: int, evtid: int, ts: real)
    | Terminate(exitPid: int, caller: int, exitStatus: int, exitStatusStr: string)
    | OtherMethod(pid: int, ppid: int)
    | Irrelevant

  /** A line of the log; None stands for a line that is not JSON. */
  datatype Line = Line(text: string, entry: Option<Entry>)

  /** The exceptions tree_from_log passes on. */
  datatype Failure = UnknownProcess(pid: int)

  // ---------- Lookups ----------

  /** The last process that was added with this PID. */
  function GetProcess(t: Tree, pid: int): (r: Option<nat>)
    ensures r.Some? ==> r.value < |t| && t[r.value].info.pid == pid
    ensures r.Some? ==> forall i :: r.value < i < |t| ==> t[i].info.pid != pid
    ensures r.None? ==> forall i :: 0 <= i < |t| ==> t[i].info.pid != pid
  {
    if t == [] then None
    else if t[|t| - 1].info.pid == pid then Some(|t| - 1)
    else GetProcess(t[..|t| - 1], pid)
  }

  /** An exit event id of 0 reads as no exit event. */
  predicate IsOpen(info: ProcessInfo) {
    info.evtidTo == None || info.evtidTo == Some(0)
  }

  predicate Covers(info: ProcessInfo, evtid: int) {
    info.evtidFrom <= evtid && (IsOpen(info) || evtid <= info.evtidTo.value)
  }

  /** The first process with this PID whose lifetime covers the event. */
  function GetProcessForEvtid(t: Tree, pid: int, evtid: int): (r: Option<nat>)
    ensures r.Some? ==> r.value < |t| && t[r.value].info.pid == pid && Covers(t[r.value].info, evtid)
    ensures var bound := if r.Some? then r.value else |t|;
            forall i :: 0 <= i < bound ==> !(t[i].info.pid == pid && Covers(t[i].info, evtid))
  {
    if t == [] then None
    else
      var k := |t| - 1;
      var earlier := GetProcessForEvtid(t[..k], pid, evtid);
      if earlier.Some? then earlier
      else if t[k].info.pid == pid && Covers(t[k].info, evtid) then Some(k)
      else None
  }

  // ---------- Changes ----------

  function Remove<T(==)>(s: seq<T>, x: T): seq<T> {
    if s == [] then []
    else if s[0] == x then s[1..]
    else [s[0]] + Remove(s[1..], x)
  }

  /** An older process that has the PID of a new one and no exit yet is taken to have ended just before. */
  function Retire(t: Tree, pid: int, evtidFrom: int, tsFrom: real): (r: Tree)
    ensures |r| == |t|
  {
    var existing := GetProcess(t, pid);
    if existing.Some? && t[existing.value].info.tsTo == None then
      var i := existing.value;
      t[i := t[i].(info := t[i].info.(evtidTo := Some(evtidFrom - 1), tsTo := Some(tsFrom)))]
    else t
  }

  function AddChild(t: Tree, parent: Option<nat>, child: nat): Tree
    requires parent.Some? ==> parent.value < |t|
  {
    if parent.Some? then
      var q := parent.value;
      t[q := t[q].(children := t[q].children + [child])]
    else t
  }

  function AddProcess(t: Tree, pid: int, ppid: int, evtidFrom: int, tsFrom: real, procname: string,
                      parent: Option<nat>, args: seq<string>): (r: Tree)
    requires parent.Some? ==> parent.value < |t|
    ensures |r| == |t| + 1
  {
    var info := ProcessInfo(|t|, pid, ppid, procname, args, tsFrom, None, evtidFrom, None, None, None, None);
    AddChild(Retire(t, pid, evtidFrom, tsFrom) + [Node(info, parent, [])], parent, |t|)
  }

  function Detach(t: Tree, p: nat): (r: Tree)
    requires p < |t| && (t[p].parent.Some? ==> t[p].parent.value < |t|)
    ensures |r| == |t|
  {
    if t[p].parent.Some? then
      var o := t[p].parent.value;
      t[o := t[o].(children := Remove(t[o].children, p))]
    else t
  }

  /** Moves process p below q. The new PPID is the parent's PPID, not its PID. */
  function ChangeParent(t: Tree, p: nat, q: nat): (r: Tree)
    requires p < |t| && q < |t| && (t[p].parent.Some? ==> t[p].parent.value < |t|)
    ensures |r| == |t|
  {
    var u := AddChild(Detach(t, p), Some(q), p);
    u[p := u[p].(parent := Some(q), info := u[p].info.(ppid := u[q].info.ppid))]
  }

  function Exit(t: Tree, pid: int, evtid: int, ts: real): (r: Tree)
    ensures |r| == |t|
  {
    match GetProcess(t, pid)
    case None => t
    case Some(i) => t[i := t[i].(info := t[i].info.(tsTo := Some(ts), evtidTo := Some(evtid)))]
  }

  function Kill(t: Tree, exitPid: int, caller: int, status: int, statusStr: string): (r: Result<Tree, Failure>)
    ensures r.Ok? ==> |r.value| == |t|
  {
    var pid := if exitPid == 0 then caller else exitPid;
    match GetProcess(t, pid)
    case None => Ok(t)
    case Some(i) =>
      var ended := t[i].info.(exitCode := Some(status), exitCodeStr := Some(statusStr));
      if exitPid == 0 then Ok(t[i := t[i].(info := ended)])
      else
        match GetProcess(t, caller)
        case None => Err(UnknownProcess(caller))
        case Some(k) => Ok(t[i := t[i].(info := ended.(killedBy := Some(k)))])
  }

  /** The process an entry of another method moves, and below which one. */
  function Rebinding(t: Tree, pid: int, ppid: int): (r: Option<(nat, nat)>)
    ensures r.Some? ==> r.value.0 < |t| && r.value.1 < |t|
  {
    match GetProcess(t, pid)
    case None => None
    case Some(p) =>
      if t[p].info.tsTo == None && t[p].info.ppid != ppid && GetProcess(t, ppid).Some?
      then Some((p, GetProcess(t, ppid).value))
      else None
  }

  /** Parents are processes of the tree. */
  ghost predicate ParentsExist(t: Tree) {
    forall p :: 0 <= p < |t| && t[p].parent.Some? ==> t[p].parent.value < |t|
  }

  function Rebind(t: Tree, pid: int, ppid: int): (r: Result<Tree, Failure>)
    requires ParentsExist(t)
    ensures r.Ok? ==> |r.value| == |t|
  {
    var move := Rebinding(t, pid, ppid);
    if GetProcess(t, pid).None? then Err(UnknownProcess(pid))
    else if move.Some? then Ok(ChangeParent(t, move.value.0, move.value.1))
    else Ok(t)
  }

  function Step(t: Tree, e: Entry): (r: Result<Tree, Failure>)
    requires ParentsExist(t)
  {
    match e
    case Running(pid, ppid, name) => Ok(AddProcess(t, pid, ppid, 0, 0.0, name, GetProcess(t, ppid), []))
    case CreateProcess(succeeded, newPid, creator, evtid, ts, image, args) =>
      if succeeded then Ok(AddProcess(t, newPid, creator, evtid, ts, image, GetProcess(t, creator), args)) else Ok(t)
    case CleanAddressSpace(pid, evtid, ts) => Ok(Exit(t, pid, evtid, ts))
    case Terminate(exitPid, caller, status, statusStr) => Kill(t, exitPid, caller, status, statusStr)
    case OtherMethod(pid, ppid) => Rebind(t, pid, ppid)
    case Irrelevant => Ok(t)
  }

  // ---------- Structure ----------

  ghost predicate Numbered(t: Tree) {
    forall i :: 0 <= i < |t| ==> t[i].info.seqid == i
  }

  ghost predicate ListedOnce(t: Tree) {
    forall q :: 0 <= q < |t| ==> Distinct(t[q].children)
  }

  /** Whoever is listed as a child has the lister as its parent. */
  ghost predicate ChildrenHaveParent(t: Tree) {
    forall q: nat, c: nat {:trigger c in t[q].children} ::
      q < |t| && c in t[q].children ==> c < |t| && t[c].parent == Some(q)
  }

  /** Whoever has a parent is listed there, the process numbered but excepted. */
  ghost predicate ParentsHaveChild(t: Tree, but: int) {
    forall p :: 0 <= p < |t| && p != but && t[p].parent.Some? ==>
      t[p].parent.value < |t| && p in t[t[p].parent.value].children
  }

  /** Numbers are places, parents and children name each other, and no child is listed twice. */
  ghost predicate WellFormed(t: Tree) {
    Numbered(t) && ListedOnce(t) && ChildrenHaveParent(t) && ParentsHaveChild(t, -1)
  }

  /** Well formed, but for process c: it is listed nowhere, whatever its parent. */
  ghost predicate WellFormedWithout(t: Tree, c: nat) {
    && Numbered(t) && ListedOnce(t) && ChildrenHaveParent(t) && ParentsHaveChild(t, c)
    && forall q :: 0 <= q < |t| ==> c !in t[q].children
  }

  lemma {:induction false} RemoveOnce<T>(s: seq<T>, x: T)
    requires Distinct(s)
    ensures Distinct(Remove(s, x))
    ensures forall y :: y in Remove(s, x) <==> y in s && y != x
  {
    if s != [] {
      assert s == [s[0]] + s[1..];
      assert Distinct(s[1..]) && s[0] !in s[1..];
      if s[0] != x {
        RemoveOnce(s[1..], x);
        assert s[0] !in Remove(s[1..], x);
      }
    }
  }

  /** Only the links count: rewriting other fields keeps a well-formed tree well formed. */
  lemma SameLinks(t: Tree, u: Tree)
    requires WellFormed(t) && |u| == |t|
    requires forall i :: 0 <= i < |t| ==>
               u[i].parent == t[i].parent && u[i].children == t[i].children && u[i].info.seqid == t[i].info.seqid
    ensures WellFormed(u)
  {
    forall q: nat, c: nat | q < |u| && c in u[q].children ensures c < |u| && u[c].parent == Some(q) {
      assert c in t[q].children;
    }
  }

  /** Listing the one missing process below its parent completes the links. */
  lemma LinkIn(t: Tree, c: nat, q: nat, r: Tree)
    requires WellFormedWithout(t, c) && c < |t| == |r| && q < |t|
    requires forall i :: 0 <= i < |t| ==>
               && r[i].parent == (if i == c then Some(q) else t[i].parent)
               && r[i].children == (if i == q then t[i].children + [c] else t[i].children)
               && r[i].info.seqid == t[i].info.seqid
    ensures WellFormed(r)
  {
    forall o: nat, x: nat | o < |r| && x in r[o].children ensures x < |r| && r[x].parent == Some(o) {
      assert x == c || x in t[o].children;
    }
    forall o | 0 <= o < |r| ensures Distinct(r[o].children) {
      assert Distinct(t[o].children) && c !in t[o].children;
    }
  }

  lemma AppendKeeps(t: Tree, node: Node)
    requires WellFormed(t) && node.info.seqid == |t| && node.children == []
    ensures WellFormedWithout(t + [node], |t|)
    ensures node.parent == None ==> WellFormed(t + [node])
  {
    var r := t + [node];
    forall q: nat, c: nat | q < |r| && c in r[q].children ensures c < |t| && r[c].parent == Some(q) {
      assert c in t[q].children;
    }
    forall c: nat | c < |t| && r[c].parent.Some?
      ensures r[c].parent.value < |r| && c in r[r[c].parent.value].children
    {
      assert t[c].parent == r[c].parent;
    }
  }

  lemma AddProcessKeeps(t: Tree, pid: int, ppid: int, evtidFrom: int, tsFrom: real, procname: string,
                        parent: Option<nat>, args: seq<string>)
    requires WellFormed(t) && (parent.Some? ==> parent.value < |t|)
    ensures WellFormed(AddProcess(t, pid, ppid, evtidFrom, tsFrom, procname, parent, args))
  {
    var before := Retire(t, pid, evtidFrom, tsFrom);
    SameLinks(t, before);
    var r := AddProcess(t, pid, ppid, evtidFrom, tsFrom, procname, parent, args);
    var node := Node(r[|t|].info, parent, []);
    AppendKeeps(before, node);
    if parent.Some? {
      LinkIn(before + [node], |t|, parent.value, r);
    }
  }

  lemma DetachLeaves(t: Tree, p: nat)
    requires WellFormed(t) && p < |t|
    ensures WellFormedWithout(Detach(t, p), p)
    ensures forall i :: 0 <= i < |t| ==> Detach(t, p)[i].parent == t[i].parent
  {
    var d := Detach(t, p);
    if t[p].parent.Some? {
      RemoveOnce(t[t[p].parent.value].children, p);
    }
    forall q: nat, c: nat | q < |d| && c in d[q].children ensures c != p && c < |d| && d[c].parent == Some(q) {
      assert c in t[q].children;
    }
    forall c: nat | c < |d| && c != p && d[c].parent.Some?
      ensures d[c].parent.value < |d| && c in d[d[c].parent.value].children
    {
      assert c in t[t[c].parent.value].children;
    }
  }

  lemma ChangeParentKeeps(t: Tree, p: nat, q: nat)
    requires WellFormed(t) && p < |t| && q < |t|
    ensures WellFormed(ChangeParent(t, p, q))
    ensures forall i :: 0 <= i < |t| ==> ChangeParent(t, p, q)[i].parent == if i == p then Some(q) else t[i].parent
  {
    DetachLeaves(t, p);
    LinkIn(Detach(t, p), p, q, ChangeParent(t, p, q));
  }

  /** Every entry keeps the links of the tree consistent. */
  lemma StepKeepsWellFormed(t: Tree, e: Entry)
    requires WellFormed(t)
    ensures Step(t, e).Ok? ==> WellFormed(Step(t, e).value)
  {
    match e
    case Running(pid, ppid, name) => AddProcessKeeps(t, pid, ppid, 0, 0.0, name, GetProcess(t, ppid), []);
    case CreateProcess(_, newPid, creator, evtid, ts, image, args) =>
      AddProcessKeeps(t, newPid, creator, evtid, ts, image, GetProcess(t, creator), args);
    case CleanAddressSpace(pid, evtid, ts) => SameLinks(t, Exit(t, pid, evtid, ts));
    case Terminate(exitPid, caller, status, statusStr) =>
      var r := Kill(t, exitPid, caller, status, statusStr);
      if r.Ok? { SameLinks(t, r.value); }
    case OtherMethod(pid, ppid) =>
      var move := Rebinding(t, pid, ppid);
      if move.Some? { ChangeParentKeeps(t, move.value.0, move.value.1); }
    case Irrelevant =>
  }

  // ---------- The whole log ----------

  /** A line that equals the one before it is a duplicate written by mistake. */
  function Deduplicated(lines: seq<Line>): seq<Line> {
    if lines == [] then []
    else
      var k := |lines| - 1;
      if k > 0 && lines[k - 1].text == lines[k].text then Deduplicated(lines[..k])
      else Deduplicated(lines[..k]) + [lines[k]]
  }

  /** The entries of the lines that are not duplicates and parse. */
  function Entries(lines: seq<Line>): seq<Entry> {
    if lines == [] then []
    else
      var k := |lines| - 1;
      Entries(lines[..k]) + (if lines[k].entry.Some? then [lines[k].entry.value] else [])
  }

  function Replay(entries: seq<Entry>): (r: Result<Tree, Failure>)
    ensures r.Ok? ==> WellFormed(r.value)
  {
    if entries == [] then Ok([])
    else
      var k := |entries| - 1;
      match Replay(entries[..k])
      case Err(e) => Err(e)
      case Ok(t) =>
        StepKeepsWellFormed(t, entries[k]);
        Step(t, entries[k])
  }

  /** What line k, in front of which the tree is t, makes of it. */
  function LineStep(t: Tree, lines: seq<Line>, k: nat): Result<Tree, Failure>
    requires k < |lines| && ParentsExist(t)
  {
    if (k > 0 && lines[k - 1].text == lines[k].text) || lines[k].entry.None? then Ok(t)
    else Step(t, lines[k].entry.value)
  }

  function TreeAfter(lines: seq<Line>, k: nat): (r: Result<Tree, Failure>)
    requires k <= |lines|
    ensures r.Ok? ==> WellFormed(r.value)
  {
    if k == 0 then Ok([])
    else
      match TreeAfter(lines, k - 1)
      case Err(e) => Err(e)
      case Ok(t) =>
        if lines[k - 1].entry.Some? then
          StepKeepsWellFormed(t, lines[k - 1].entry.value);
          LineStep(t, lines, k - 1)
        else LineStep(t, lines, k - 1)
  }

  /** The tree a log describes. */
  function TreeFromLog(lines: seq<Line>): Result<Tree, Failure> {
    TreeAfter(lines, |lines|)
  }

  lemma ReplaySnoc(entries: seq<Entry>, e: Entry)
    ensures Replay(entries + [e]) ==
              if Replay(entries).Err? then Replay(entries) else Step(Replay(entries).value, e)
  {
    assert (entries + [e])[..|entries|] == entries;
  }

  lemma EntriesSnoc(lines: seq<Line>, line: Line)
    ensures Entries(lines + [line]) == Entries(lines) + (if line.entry.Some? then [line.entry.value] else [])
  {
    assert (lines + [line])[..|lines|] == lines;
  }

  lemma {:induction false} TreeAfterIsReplay(lines: seq<Line>, k: nat)
    requires k <= |lines|
    ensures TreeAfter(lines, k) == Replay(Entries(Deduplicated(lines[..k])))
  {
    if k > 0 {
      TreeAfterIsReplay(lines, k - 1);
      assert lines[..k][..k - 1] == lines[..k - 1];
      var d := Deduplicated(lines[..k - 1]);
      if !(k > 1 && lines[k - 2].text == lines[k - 1].text) {
        EntriesSnoc(d, lines[k - 1]);
        if lines[k - 1].entry.Some? {
          ReplaySnoc(Entries(d), lines[k - 1].entry.value);
        } else {
          assert Entries(d) + [] == Entries(d);
        }
      }
    }
  }

  /** Duplicates and lines that do not parse do not matter; the others are applied one by one. */
  lemma TreeFromLogReplays(lines: seq<Line>)
    ensures TreeFromLog(lines) == Replay(Entries(Deduplicated(lines)))
  {
    TreeAfterIsReplay(lines, |lines|);
    assert lines[..|lines|] == lines;
  }

  lemma {:induction false} FailureSticks(lines: seq<Line>, k: nat, n: nat)
    requires k <= n <= |lines| && TreeAfter(lines, k).Err?
    ensures TreeAfter(lines, n) == TreeAfter(lines, k)
  {
    if k < n { FailureSticks(lines, k, n - 1); }
  }

  /** The lines that count: those that differ from the line in front of them, and parse. */
  predicate Counts(lines: seq<Line>, i: nat)
    requires i < |lines|
  {
    (i > 0 ==> lines[i - 1].text != lines[i].text) && lines[i].entry.Some?
  }

  /** es are the entries of the lines that count among the first k, in their order. */
  ghost predicate EntriesAt(lines: seq<Line>, k: nat, es: seq<Entry>, at: seq<nat>)
    requires k <= |lines|
  {
    && |at| == |es| && Increasing(at)
    && (forall j :: 0 <= j < |at| ==> at[j] < k && lines[at[j]].entry == Some(es[j]))
    && forall i: nat :: i in at <==> i < k && Counts(lines, i)
  }

  lemma EntriesAtNext(lines: seq<Line>, k: nat, es: seq<Entry>, at: seq<nat>)
    requires k < |lines| && EntriesAt(lines, k, es, at)
    ensures if Counts(lines, k) then EntriesAt(lines, k + 1, es + [lines[k].entry.value], at + [k])
            else EntriesAt(lines, k + 1, es, at)
  {
    if Counts(lines, k) {
      IncreasingSnoc(at, k);
    }
  }

  lemma KeptNext(lines: seq<Line>, k: nat)
    requires k < |lines|
    ensures Entries(Deduplicated(lines[..k + 1])) ==
            Entries(Deduplicated(lines[..k])) + (if Counts(lines, k) then [lines[k].entry.value] else [])
  {
    assert lines[..k + 1][..k] == lines[..k];
    var d := Deduplicated(lines[..k]);
    if k == 0 || lines[k - 1].text != lines[k].text {
      EntriesSnoc(d, lines[k]);
    }
  }

  /** The entries that the first k lines give, to be applied in order. */
  function Applied(lines: seq<Line>, k: nat): seq<Entry>
    requires k <= |lines|
  {
    Entries(Deduplicated(lines[..k]))
  }

  lemma KeptStep(lines: seq<Line>, k: nat, at: seq<nat>) returns (next: seq<nat>)
    requires k < |lines| && EntriesAt(lines, k, Applied(lines, k), at)
    ensures EntriesAt(lines, k + 1, Applied(lines, k + 1), next)
  {
    var es := Applied(lines, k);
    next := if Counts(lines, k) then at + [k] else at;
    EntriesAtNext(lines, k, es, at);
    KeptNext(lines, k);
    assert es + [] == es;
  }

  lemma KeptNone(lines: seq<Line>)
    ensures EntriesAt(lines, 0, Applied(lines, 0), [])
  {
    assert Applied(lines, 0) == [];
  }

  /** Which lines make the tree: the entries applied are those of exactly the lines that count. */
  lemma {:induction false} KeptExactly(lines: seq<Line>, k: nat) returns (at: seq<nat>)
    requires k <= |lines|
    ensures EntriesAt(lines, k, Applied(lines, k), at)
  {
    if k == 0 {
      at := [];
      KeptNone(lines);
    } else {
      at := KeptExactly(lines, k - 1);
      at := KeptStep(lines, k - 1, at);
    }
  }
}
