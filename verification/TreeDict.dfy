/**
 Ancestry in the process tree, the dictionaries as_dict prints and tree_from_dict reads back
 (drakrun/analyzer/postprocessing/process_tree.py).
 */
module TreeDict {
  import opened Common
  import opened ProcessTree
  import Identity
  import Sorting

  // ---------- Ancestry ----------

  /** From a process without a parent down to some process, parent by parent. The empty path leads nowhere yet. */
  ghost predicate RootPath(t: Tree, path: seq<nat>) {
    path != [] ==>
      var k := |path| - 1;
      && path[k] < |t|
      && t[path[k]].parent == (if k == 0 then None else Some(path[k - 1]))
      && RootPath(t, path[..k])
  }

  ghost predicate LeadsTo(t: Tree, path: seq<nat>, i: nat) {
    RootPath(t, path) && path != [] && path[|path| - 1] == i
  }

  ghost predicate Rooted(t: Tree, i: nat) {
    exists path :: LeadsTo(t, path, i)
  }

  /** Every process hangs below a process without a parent: no process is its own ancestor. */
  ghost predicate Forest(t: Tree) {
    forall i: nat :: i < |t| ==> Rooted(t, i)
  }

  /** a is q or an ancestor of q. */
  ghost predicate AtOrAbove(t: Tree, a: nat, q: nat) {
    exists path :: LeadsTo(t, path, q) && a in path
  }

  lemma {:induction false} PathPrefix(t: Tree, path: seq<nat>, n: nat)
    requires RootPath(t, path) && n <= |path|
    ensures RootPath(t, path[..n])
    ensures n > 0 ==> LeadsTo(t, path[..n], path[n - 1])
    decreases |path|
  {
    if n < |path| {
      PathPrefix(t, path[..|path| - 1], n);
      assert path[..|path| - 1][..n] == path[..n];
    } else {
      assert path[..n] == path;
    }
  }

  lemma {:induction false} PathUnique(t: Tree, p: seq<nat>, q: seq<nat>, i: nat)
    requires LeadsTo(t, p, i) && LeadsTo(t, q, i)
    ensures p == q
    decreases |p|
  {
    if |p| > 1 {
      PathUnique(t, p[..|p| - 1], q[..|q| - 1], p[|p| - 2]);
    }
    assert p == p[..|p| - 1] + [i] && q == q[..|q| - 1] + [i];
  }

  lemma PathDistinct(t: Tree, path: seq<nat>)
    requires RootPath(t, path)
    ensures Distinct(path) && |path| <= |t|
  {
    forall i | 0 <= i < |path| ensures path[i] < |t| {
      PathPrefix(t, path, i + 1);
    }
    forall i, j | 0 <= i < j < |path| ensures path[i] != path[j] {
      NoRepetition(t, path, i, j);
    }
    DistinctBound(path, |t|);
  }

  lemma NoRepetition(t: Tree, path: seq<nat>, i: nat, j: nat)
    requires RootPath(t, path) && i < j < |path|
    ensures path[i] != path[j]
  {
    PathPrefix(t, path, i + 1);
    PathPrefix(t, path, j + 1);
    if path[i] == path[j] {
      PathUnique(t, path[..i + 1], path[..j + 1], path[i]);
    }
  }

  ghost predicate EarlierParents(t: Tree) {
    forall i :: 0 <= i < |t| && t[i].parent.Some? ==> t[i].parent.value < i
  }

  /** Parents that come earlier in the list rule out cycles. */
  lemma EarlierParentsMakeForest(t: Tree)
    requires EarlierParents(t)
    ensures Forest(t)
  {
    forall i: nat | i < |t| ensures Rooted(t, i) {
      var path := PathFromRoot(t, i);
    }
  }

  lemma {:induction false} PathFromRoot(t: Tree, i: nat) returns (path: seq<nat>)
    requires i < |t| && EarlierParents(t)
    ensures LeadsTo(t, path, i)
  {
    path := [i];
    if t[i].parent.Some? {
      var above := PathFromRoot(t, t[i].parent.value);
      path := above + [i];
      assert path[..|path| - 1] == above;
    }
  }

  /** r is t with the parent of p changed to q. */
  ghost predicate Moved(t: Tree, p: nat, q: nat, r: Tree) {
    && p < |t| && q < |t| == |r|
    && forall i :: 0 <= i < |t| ==> r[i].parent == if i == p then Some(q) else t[i].parent
  }

  /**
   Moving p below q keeps the forest exactly when q is not p and does not lie below p.
   Nothing in the code checks this.
   */
  lemma ChangeParentKeepsForest(t: Tree, p: nat, q: nat)
    requires WellFormed(t) && Forest(t) && p < |t| && q < |t|
    ensures Forest(ChangeParent(t, p, q)) <==> !AtOrAbove(t, p, q)
  {
    ChangeParentKeeps(t, p, q);
    var r := ChangeParent(t, p, q);
    if AtOrAbove(t, p, q) {
      MovedBelowItself(t, p, q, r);
    } else {
      assert Rooted(t, q);
      var above :| LeadsTo(t, above, q);
      UnmovedPath(t, p, q, r, above);
      forall i: nat | i < |r| ensures Rooted(r, i) {
        assert Rooted(t, i);
        var path :| LeadsTo(t, path, i);
        MovedPath(t, p, q, r, above, path, i);
      }
    }
  }

  lemma MovedPath(t: Tree, p: nat, q: nat, r: Tree, above: seq<nat>, path: seq<nat>, i: nat)
    requires Moved(t, p, q, r) && LeadsTo(r, above, q) && LeadsTo(t, path, i)
    ensures Rooted(r, i)
  {
    if p in path {
      var k :| 0 <= k < |path| && path[k] == p;
      PathDistinct(t, path);
      Graft(t, p, q, r, above, path, k);
      assert LeadsTo(r, above + path[k..], i);
    } else {
      UnmovedPath(t, p, q, r, path);
      assert LeadsTo(r, path, i);
    }
  }

  lemma {:induction false} UnmovedPath(t: Tree, p: nat, q: nat, r: Tree, path: seq<nat>)
    requires Moved(t, p, q, r) && RootPath(t, path) && p !in path
    ensures RootPath(r, path)
    decreases |path|
  {
    if path != [] {
      UnmovedPath(t, p, q, r, path[..|path| - 1]);
    }
  }

  /** What hung below p still does, and p now hangs below q. */
  lemma {:induction false} Graft(t: Tree, p: nat, q: nat, r: Tree, above: seq<nat>, path: seq<nat>, k: nat)
    requires Moved(t, p, q, r) && LeadsTo(r, above, q)
    requires RootPath(t, path) && Distinct(path) && k < |path| && path[k] == p
    ensures RootPath(r, above + path[k..])
    decreases |path|
  {
    var n := |path| - 1;
    var rest := path[..n];
    if k < n {
      assert rest[k] == p;
      Graft(t, p, q, r, above, rest, k);
    }
    assert above + path[k..] == (above + rest[k..]) + [path[n]];
    assert (above + path[k..])[..|above| + n - k] == above + rest[k..];
    assert k == n ==> above + rest[k..] == above;
  }

  lemma MovedBelowItself(t: Tree, p: nat, q: nat, r: Tree)
    requires Moved(t, p, q, r) && AtOrAbove(t, p, q)
    ensures !Forest(r)
  {
    if Forest(r) {
      var before :| LeadsTo(t, before, q) && p in before;
      assert Rooted(r, q);
      var path :| LeadsTo(r, path, q);
      StillAbove(t, p, q, r, before, path, q);
      var j :| 0 <= j < |path| && path[j] == p;
      PathPrefix(r, path, j + 1);
      PathDistinct(r, path);
    }
  }

  lemma {:induction false} StillAbove(t: Tree, p: nat, q: nat, r: Tree, before: seq<nat>, path: seq<nat>, i: nat)
    requires Moved(t, p, q, r) && LeadsTo(t, before, i) && LeadsTo(r, path, i) && p in before
    ensures p in path
    decreases |before|
  {
    if i != p {
      var n := |before| - 1;
      assert before == before[..n] + [i];
      StillAbove(t, p, q, r, before[..n], path[..|path| - 1], before[n - 1]);
      assert path == path[..|path| - 1] + [i];
    }
  }

  lemma {:induction false} GrownPath(t: Tree, r: Tree, path: seq<nat>)
    requires RootPath(t, path) && |t| <= |r|
    requires forall i :: 0 <= i < |t| ==> r[i].parent == t[i].parent
    ensures RootPath(r, path)
    decreases |path|
  {
    if path != [] { GrownPath(t, r, path[..|path| - 1]); }
  }

  lemma GrownForest(t: Tree, r: Tree)
    requires WellFormed(t) && Forest(t) && |t| <= |r| <= |t| + 1
    requires forall i :: 0 <= i < |t| ==> r[i].parent == t[i].parent
    requires |r| > |t| && r[|t|].parent.Some? ==> r[|t|].parent.value < |t|
    ensures Forest(r)
  {
    forall i: nat | i < |t| ensures Rooted(r, i) {
      assert Rooted(t, i);
      var path :| LeadsTo(t, path, i);
      GrownPath(t, r, path);
      assert LeadsTo(r, path, i);
    }
    if |r| > |t| {
      var path: seq<nat> := [];
      if r[|t|].parent.Some? {
        assert Rooted(r, r[|t|].parent.value);
        path :| LeadsTo(r, path, r[|t|].parent.value);
      }
      assert (path + [|t|])[..|path|] == path;
      assert LeadsTo(r, path + [|t|], |t|);
    }
  }

  /** The entry moves a process below itself or below one of its descendants. */
  ghost predicate MovesBelowItself(t: Tree, e: Entry) {
    e.OtherMethod? &&
    var move := Rebinding(t, e.pid, e.ppid);
    move.Some? && AtOrAbove(t, move.value.0, move.value.1)
  }

  /** Entries that move no process add one at most. */
  lemma StepGrows(t: Tree, e: Entry)
    requires WellFormed(t) && Step(t, e).Ok? && !e.OtherMethod?
    ensures var r := Step(t, e).value;
            && |t| <= |r| <= |t| + 1
            && (forall i :: 0 <= i < |t| ==> r[i].parent == t[i].parent)
            && (|r| > |t| && r[|t|].parent.Some? ==> r[|t|].parent.value < |t|)
  {
    match e
    case Running(pid, ppid, name) => AddProcessGrows(t, pid, ppid, 0, 0.0, name, GetProcess(t, ppid), []);
    case CreateProcess(succeeded, newPid, creator, evtid, ts, image, args) =>
      if succeeded { AddProcessGrows(t, newPid, creator, evtid, ts, image, GetProcess(t, creator), args); }
    case _ =>
  }

  lemma AddProcessGrows(t: Tree, pid: int, ppid: int, evtid: int, ts: real, name: string, parent: Option<nat>,
                        args: seq<string>)
    requires parent.Some? ==> parent.value < |t|
    ensures var r := AddProcess(t, pid, ppid, evtid, ts, name, parent, args);
            (forall i :: 0 <= i < |t| ==> r[i].parent == t[i].parent) && r[|t|].parent == parent
  {
  }

  /** An entry keeps the tree a forest exactly when it does not move a process below itself. */
  lemma StepKeepsForest(t: Tree, e: Entry)
    requires WellFormed(t) && Forest(t) && Step(t, e).Ok?
    ensures Forest(Step(t, e).value) <==> !MovesBelowItself(t, e)
  {
    if e.OtherMethod? && Rebinding(t, e.pid, e.ppid).Some? {
      var (p, q) := Rebinding(t, e.pid, e.ppid).value;
      ChangeParentKeepsForest(t, p, q);
    } else if !e.OtherMethod? {
      StepGrows(t, e);
      GrownForest(t, Step(t, e).value);
    }
  }

  ghost predicate DescribesForest(entries: seq<Entry>) {
    Replay(entries).Ok? ==> Forest(Replay(entries).value)
  }

  ghost predicate GoesOnWell(entries: seq<Entry>, e: Entry) {
    Replay(entries).Ok? ==> !MovesBelowItself(Replay(entries).value, e)
  }

  /** Whatever was read of the log so far describes a forest. */
  ghost predicate AlwaysForest(entries: seq<Entry>) {
    forall k :: 0 <= k <= |entries| ==> DescribesForest(entries[..k])
  }

  ghost predicate NeverBelowItself(entries: seq<Entry>) {
    forall k :: 0 <= k < |entries| ==> GoesOnWell(entries[..k], entries[k])
  }

  lemma ForestUpToLast(entries: seq<Entry>)
    requires entries != []
    ensures AlwaysForest(entries) <==> AlwaysForest(entries[..|entries| - 1]) && DescribesForest(entries)
  {
    var before := entries[..|entries| - 1];
    assert entries[..|entries|] == entries;
    forall j | 0 <= j <= |before| ensures before[..j] == entries[..j] {
    }
    if AlwaysForest(entries) {
      assert forall j :: 0 <= j <= |before| ==> DescribesForest(before[..j]);
    }
    if AlwaysForest(before) && DescribesForest(entries) {
      forall j | 0 <= j <= |entries| ensures DescribesForest(entries[..j]) {
        if j < |entries| { assert DescribesForest(before[..j]); }
      }
    }
  }

  lemma WellUpToLast(entries: seq<Entry>)
    requires entries != []
    ensures var before, e := entries[..|entries| - 1], entries[|entries| - 1];
            NeverBelowItself(entries) <==> NeverBelowItself(before) && GoesOnWell(before, e)
  {
    var before := entries[..|entries| - 1];
    forall j | 0 <= j < |before| ensures before[..j] == entries[..j] && before[j] == entries[j] {
    }
    if NeverBelowItself(entries) {
      assert forall j :: 0 <= j < |before| ==> GoesOnWell(before[..j], before[j]);
    }
    if NeverBelowItself(before) && GoesOnWell(before, entries[|before|]) {
      forall j | 0 <= j < |entries| ensures GoesOnWell(entries[..j], entries[j]) {
        if j < |before| { assert GoesOnWell(before[..j], before[j]); }
      }
    }
  }

  lemma LastStep(entries: seq<Entry>)
    requires entries != [] && DescribesForest(entries[..|entries| - 1])
    ensures DescribesForest(entries) <==> GoesOnWell(entries[..|entries| - 1], entries[|entries| - 1])
  {
    if Replay(entries).Ok? {
      StepKeepsForest(Replay(entries[..|entries| - 1]).value, entries[|entries| - 1]);
    }
  }

  /** A log describes a forest all along exactly when no entry moves a process below itself. */
  lemma {:induction false} AlwaysForestExactly(entries: seq<Entry>)
    ensures AlwaysForest(entries) <==> NeverBelowItself(entries)
  {
    if entries == [] {
      assert Forest([]);
    } else {
      var k := |entries| - 1;
      AlwaysForestExactly(entries[..k]);
      ForestUpToLast(entries);
      WellUpToLast(entries);
      if AlwaysForest(entries[..k]) {
        assert entries[..k][..k] == entries[..k];
        LastStep(entries);
      }
    }
  }

  /** Then its dictionaries describe the same tree. */
  lemma ReplayRoundTrip(entries: seq<Entry>)
    requires Replay(entries).Ok? && NeverBelowItself(entries)
    ensures Forest(Replay(entries).value)
    ensures TreeFromDict(AsDict(Replay(entries).value)) == Replay(entries).value
  {
    AlwaysForestExactly(entries);
    assert entries[..|entries|] == entries;
    RoundTrip(Replay(entries).value);
  }

  lemma ReplaySnoc(entries: seq<Entry>, e: Entry)
    requires Replay(entries).Ok?
    ensures Replay(entries + [e]) == Step(Replay(entries).value, e)
  {
    assert (entries + [e])[..|entries|] == entries;
  }

  /** A running process comes last, below the process with its PPID. */
  lemma RunningAdded(t: Tree, pid: int, ppid: int, name: string)
    requires WellFormed(t)
    ensures var r := Step(t, Running(pid, ppid, name));
            && r.Ok? && |r.value| == |t| + 1 && WellFormed(r.value)
            && r.value[|t|].info.pid == pid && r.value[|t|].info.ppid == ppid && r.value[|t|].info.tsTo == None
            && r.value[|t|].parent == GetProcess(t, ppid)
  {
    StepKeepsWellFormed(t, Running(pid, ppid, name));
  }

  lemma OneProcess()
    ensures var log := Replay([Running(1, 0, "a")]);
            && log.Ok? && |log.value| == 1 && log.value[0].parent == None
            && log.value[0].info.pid == 1 && log.value[0].info.ppid == 0 && log.value[0].info.tsTo == None
  {
    ReplaySnoc([], Running(1, 0, "a"));
    assert [] + [Running(1, 0, "a")] == [Running(1, 0, "a")];
    RunningAdded([], 1, 0, "a");
  }

  lemma ParentAndChild()
    ensures var log := Replay([Running(1, 0, "a"), Running(2, 1, "b")]);
            && log.Ok? && |log.value| == 2 && log.value[1].parent == Some(0)
            && Rebinding(log.value, 1, 2) == Some((0, 1))
  {
    var first, second := Running(1, 0, "a"), Running(2, 1, "b");
    OneProcess();
    var one := Replay([first]).value;
    ReplaySnoc([first], second);
    assert [first] + [second] == [first, second];
    RunningAdded(one, 2, 1, "b");
    Identity.AddProcessChanges(one, 2, 1, 0, 0.0, "b", GetProcess(one, 1), [], 0);
  }

  lemma CycleIsNotPrinted(t: Tree)
    requires WellFormed(t) && |t| == 2 && t[0].parent == Some(1) && t[1].parent == Some(0)
    ensures !Forest(t) && AsDict(t) == []
  {
    if Rooted(t, 0) {
      var path :| LeadsTo(t, path, 0);
      NoRootOnCycle(t, path);
    }
    if Roots(t) != [] {
      assert Roots(t)[0] in Roots(t);
    }
  }

  lemma MovedBelowChild(t: Tree)
    requires WellFormed(t) && |t| == 2 && t[1].parent == Some(0) && Rebinding(t, 1, 2) == Some((0, 1))
    ensures var r := Step(t, OtherMethod(1, 2));
            r.Ok? && WellFormed(r.value) && |r.value| == 2 && !Forest(r.value) && AsDict(r.value) == []
  {
    StepKeepsWellFormed(t, OtherMethod(1, 2));
    Identity.RebindMoves(t, 1, 2, 0);
    Identity.RebindMoves(t, 1, 2, 1);
    CycleIsNotPrinted(Step(t, OtherMethod(1, 2)).value);
  }

  /** Nothing prevents such an entry: of this log neither process is below a root, and nothing is printed. */
  lemma CycleExample()
    ensures var log := Replay([Running(1, 0, "a"), Running(2, 1, "b")] + [OtherMethod(1, 2)]);
            log.Ok? && |log.value| == 2 && !Forest(log.value) && AsDict(log.value) == []
  {
    var both := [Running(1, 0, "a"), Running(2, 1, "b")];
    ParentAndChild();
    MovedBelowChild(Replay(both).value);
    ReplaySnoc(both, OtherMethod(1, 2));
  }

  lemma {:induction false} NoRootOnCycle(t: Tree, path: seq<nat>)
    requires |t| == 2 && t[0].parent == Some(1) && t[1].parent == Some(0) && RootPath(t, path)
    ensures path == []
  {
    if path != [] { NoRootOnCycle(t, path[..|path| - 1]); }
  }

  /** Every entry that moves a process moves it below one with a lower number. */
  ghost predicate RebindsToLower(entries: seq<Entry>) {
    forall k :: 0 <= k < |entries| ==> RebindsLowerAfter(entries[..k], entries[k])
  }

  ghost predicate RebindsLowerAfter(entries: seq<Entry>, e: Entry) {
    Replay(entries).Ok? ==> RebindsLower(Replay(entries).value, e)
  }

  predicate RebindsLower(t: Tree, e: Entry) {
    e.OtherMethod? && Rebinding(t, e.pid, e.ppid).Some? ==>
      Rebinding(t, e.pid, e.ppid).value.1 < Rebinding(t, e.pid, e.ppid).value.0
  }

  lemma StepKeepsEarlierParents(t: Tree, e: Entry)
    requires WellFormed(t) && EarlierParents(t) && Step(t, e).Ok? && RebindsLower(t, e)
    ensures EarlierParents(Step(t, e).value)
  {
    var r := Step(t, e).value;
    if e.OtherMethod? {
      forall i | 0 <= i < |t| ensures r[i].parent.Some? ==> r[i].parent.value < i {
        Identity.RebindMoves(t, e.pid, e.ppid, i);
      }
    } else {
      StepGrows(t, e);
    }
  }

  /**
   So does every log whose rebindings all go to lower numbers: it describes a forest, and reads
   back as it was printed.
   */
  lemma {:induction false} LowerRebindsMakeForest(entries: seq<Entry>)
    requires Replay(entries).Ok? && RebindsToLower(entries)
    ensures EarlierParents(Replay(entries).value) && Forest(Replay(entries).value)
    ensures TreeFromDict(AsDict(Replay(entries).value)) == Replay(entries).value
  {
    if entries != [] {
      var k := |entries| - 1;
      forall j | 0 <= j < k ensures RebindsLowerAfter(entries[..k][..j], entries[..k][j]) {
        assert entries[..k][..j] == entries[..j];
      }
      LowerRebindsMakeForest(entries[..k]);
      StepKeepsEarlierParents(Replay(entries[..k]).value, entries[k]);
    }
    EarlierParentsMakeForest(Replay(entries).value);
    RoundTrip(Replay(entries).value);
  }

  // ---------- Printing ----------

  datatype Dict = Dict(info: ProcessInfo, children: seq<Dict>)

  /** The processes cs, children of the last process of the path, each with its own subtrees. */
  function DictsOf(t: Tree, ghost path: seq<nat>, cs: seq<nat>): (r: seq<Dict>)
    requires WellFormed(t) && Hang(t, path, cs)
    ensures |r| == |cs| && forall k :: 0 <= k < |cs| ==> r[k].info == t[cs[k]].info
    decreases |t| - |path|, |cs|
  {
    if cs == [] then []
    else
      HangBelow(t, path, cs);
      [Dict(t[cs[0]].info, DictsOf(t, path + [cs[0]], t[cs[0]].children))] + DictsOf(t, path, cs[1..])
  }

  ghost predicate Hang(t: Tree, path: seq<nat>, cs: seq<nat>) {
    && RootPath(t, path) && |path| <= |t|
    && forall k :: 0 <= k < |cs| ==> cs[k] < |t| && RootPath(t, path + [cs[k]])
  }

  lemma HangBelow(t: Tree, path: seq<nat>, cs: seq<nat>)
    requires WellFormed(t) && Hang(t, path, cs) && cs != []
    ensures Hang(t, path + [cs[0]], t[cs[0]].children)
    ensures Hang(t, path, cs[1..])
  {
    var below := path + [cs[0]];
    assert below[|path|] == cs[0];
    PathDistinct(t, below);
    var kids := t[cs[0]].children;
    forall k | 0 <= k < |kids| ensures kids[k] < |t| && RootPath(t, below + [kids[k]]) {
      assert kids[k] in kids;
      assert (below + [kids[k]])[..|below|] == below;
    }
    forall k | 0 <= k < |cs[1..]| ensures cs[1..][k] < |t| && RootPath(t, path + [cs[1..][k]]) {
      assert cs[1..][k] == cs[k + 1];
    }
  }

  /** The processes without a parent, in list order. */
  function Roots(t: Tree): (r: seq<nat>)
    ensures forall i: nat :: i in r <==> i < |t| && t[i].parent == None
    ensures Increasing(r)
  {
    if t == [] then []
    else
      var k := |t| - 1;
      var earlier := Roots(t[..k]);
      assert forall i: nat :: i in earlier <==> i < k && t[i].parent == None;
      assert forall i :: 0 <= i < |earlier| ==> earlier[i] in earlier;
      if t[k].parent == None then earlier + [k] else earlier
  }

  lemma RootsHang(t: Tree)
    ensures Hang(t, [], Roots(t))
  {
    forall k | 0 <= k < |Roots(t)| ensures Roots(t)[k] < |t| && RootPath(t, [] + [Roots(t)[k]]) {
      assert Roots(t)[k] in Roots(t);
    }
  }

  function AsDict(t: Tree): seq<Dict>
    requires WellFormed(t)
  {
    RootsHang(t);
    DictsOf(t, [], Roots(t))
  }

  ghost predicate OnTop(ds: seq<Dict>, p: nat) {
    exists i :: 0 <= i < |ds| && ds[i].info.seqid == p
  }

  /** At the top are the processes without a parent, each once and by ascending number. */
  lemma TopLevel(t: Tree)
    requires WellFormed(t)
    ensures forall i, j :: 0 <= i < j < |AsDict(t)| ==> AsDict(t)[i].info.seqid < AsDict(t)[j].info.seqid
    ensures forall p: nat :: p < |t| && t[p].parent == None <==> OnTop(AsDict(t), p)
  {
    RootsHang(t);
    var roots := Roots(t);
    forall p: nat | p < |t| && t[p].parent == None ensures OnTop(AsDict(t), p) {
      var i :| 0 <= i < |roots| && roots[i] == p;
      assert AsDict(t)[i].info == t[p].info;
    }
    forall i | 0 <= i < |AsDict(t)| ensures AsDict(t)[i].info.seqid == roots[i] && t[roots[i]].parent == None {
      assert roots[i] in roots;
    }
  }

  // ---------- Parsing ----------

  function Numbers(ds: seq<Dict>): seq<nat> {
    seq(|ds|, k requires 0 <= k < |ds| => ds[k].info.seqid)
  }

  /** The processes in the order parse_children appends them. */
  function Flatten(ds: seq<Dict>, parent: Option<nat>): seq<Node> {
    if ds == [] then []
    else
      var d := ds[0];
      [Node(d.info, parent, Numbers(d.children))] + Flatten(d.children, Some(d.info.seqid)) + Flatten(ds[1..], parent)
  }

  function BySeqid(n: Node): Sorting.Key {
    Sorting.Key(n.info.seqid, 0)
  }

  function TreeFromDict(ds: seq<Dict>): Tree {
    Sorting.Sort(BySeqid, Flatten(ds, None))
  }

  // ---------- What is printed, and what comes back ----------

  /** The path of every process that is printed below path for the processes cs, in the order of printing. */
  ghost function Paths(t: Tree, path: seq<nat>, cs: seq<nat>): seq<seq<nat>>
    requires WellFormed(t) && Hang(t, path, cs)
    decreases |t| - |path|, |cs|
  {
    if cs == [] then []
    else
      HangBelow(t, path, cs);
      [path + [cs[0]]] + Paths(t, path + [cs[0]], t[cs[0]].children) + Paths(t, path, cs[1..])
  }

  ghost predicate Leaves(path: seq<nat>, p: seq<nat>, cs: seq<nat>) {
    |path| < |p| && path == p[..|path|] && p[|path|] in cs
  }

  lemma {:induction false} PathsSound(t: Tree, path: seq<nat>, cs: seq<nat>, p: seq<nat>)
    requires WellFormed(t) && Hang(t, path, cs) && p in Paths(t, path, cs)
    ensures RootPath(t, p) && Leaves(path, p, cs)
    decreases |t| - |path|, |cs|
  {
    HangBelow(t, path, cs);
    var below := path + [cs[0]];
    if p == below {
      assert p[..|path|] == path;
    } else if p in Paths(t, below, t[cs[0]].children) {
      PathsSound(t, below, t[cs[0]].children, p);
      assert p[..|path|] == p[..|below|][..|path|] == path;
      assert p[|path|] == p[..|below|][|path|] == cs[0];
    } else {
      PathsSound(t, path, cs[1..], p);
      assert p[|path|] in cs;
    }
  }

  lemma {:induction false} PathsComplete(t: Tree, path: seq<nat>, cs: seq<nat>, p: seq<nat>)
    requires WellFormed(t) && Hang(t, path, cs) && RootPath(t, p) && Leaves(path, p, cs)
    ensures p in Paths(t, path, cs)
    decreases |t| - |path|, |cs|
  {
    HangBelow(t, path, cs);
    var below := path + [cs[0]];
    if p[|path|] != cs[0] {
      assert cs == [cs[0]] + cs[1..];
      PathsComplete(t, path, cs[1..], p);
    } else if |p| == |below| {
      assert p == p[..|path|] + [cs[0]];
    } else {
      NextBelow(t, path, p, cs);
      PathsComplete(t, below, t[cs[0]].children, p);
    }
  }

  lemma NextBelow(t: Tree, path: seq<nat>, p: seq<nat>, cs: seq<nat>)
    requires WellFormed(t) && RootPath(t, p) && Leaves(path, p, cs)
    requires |p| > |path| + 1 && p[|path|] == cs[0] < |t|
    ensures Leaves(path + [cs[0]], p, t[cs[0]].children)
  {
    PathPrefix(t, p, |path| + 2);
    assert p[..|path| + 1] == p[..|path|] + [cs[0]];
    assert p[..|path| + 2][|path|] == cs[0];
    assert t[p[|path| + 1]].parent == Some(cs[0]);
  }

  lemma {:induction false} PathsDistinct(t: Tree, path: seq<nat>, cs: seq<nat>)
    requires WellFormed(t) && Hang(t, path, cs) && Distinct(cs)
    ensures Distinct(Paths(t, path, cs))
    decreases |t| - |path|, |cs|
  {
    if cs != [] {
      HangBelow(t, path, cs);
      var below := path + [cs[0]];
      var inner := Paths(t, below, t[cs[0]].children);
      var rest := Paths(t, path, cs[1..]);
      PathsDistinct(t, below, t[cs[0]].children);
      PathsDistinct(t, path, cs[1..]);
      forall i | 0 <= i < |inner| ensures |inner[i]| > |below| && inner[i][|path|] == cs[0] {
        PathsSound(t, below, t[cs[0]].children, inner[i]);
        assert inner[i][|path|] == inner[i][..|below|][|path|];
      }
      forall i | 0 <= i < |rest| ensures |rest[i]| > |path| && rest[i][|path|] != cs[0] {
        PathsSound(t, path, cs[1..], rest[i]);
      }
    }
  }

  ghost predicate AllLead(t: Tree, paths: seq<seq<nat>>) {
    forall p :: p in paths ==> RootPath(t, p) && p != []
  }

  /** The process each path leads to. */
  ghost function Ends(t: Tree, paths: seq<seq<nat>>): (r: seq<Node>)
    requires AllLead(t, paths)
  {
    seq(|paths|, k requires 0 <= k < |paths| =>
      assert paths[k] in paths;
      t[paths[k][|paths[k]| - 1]])
  }

  lemma EndsAppend(t: Tree, a: seq<seq<nat>>, b: seq<seq<nat>>)
    requires AllLead(t, a + b)
    ensures AllLead(t, a) && AllLead(t, b) && Ends(t, a + b) == Ends(t, a) + Ends(t, b)
  {
    assert forall p :: p in a || p in b ==> p in a + b;
  }

  lemma PathsLead(t: Tree, path: seq<nat>, cs: seq<nat>)
    requires WellFormed(t) && Hang(t, path, cs)
    ensures AllLead(t, Paths(t, path, cs))
  {
    forall p | p in Paths(t, path, cs) ensures RootPath(t, p) && p != [] {
      PathsSound(t, path, cs, p);
    }
  }

  lemma EndsFirst(t: Tree, path: seq<nat>, cs: seq<nat>)
    requires WellFormed(t) && Hang(t, path, cs) && cs != [] && AllLead(t, Paths(t, path, cs))
    ensures Hang(t, path + [cs[0]], t[cs[0]].children) && Hang(t, path, cs[1..])
    ensures AllLead(t, Paths(t, path + [cs[0]], t[cs[0]].children)) && AllLead(t, Paths(t, path, cs[1..]))
    ensures Ends(t, Paths(t, path, cs))
            == [t[cs[0]]] + Ends(t, Paths(t, path + [cs[0]], t[cs[0]].children)) + Ends(t, Paths(t, path, cs[1..]))
  {
    HangBelow(t, path, cs);
    var below := path + [cs[0]];
    var inner := Paths(t, below, t[cs[0]].children);
    var rest := Paths(t, path, cs[1..]);
    assert Paths(t, path, cs) == [below] + inner + rest;
    EndsAppend(t, [below] + inner, rest);
    EndsAppend(t, [below], inner);
    assert Ends(t, [below]) == [t[cs[0]]];
  }

  function LastOf(path: seq<nat>): Option<nat> {
    if path == [] then None else Some(path[|path| - 1])
  }

  /** Reading back what was printed gives the very nodes of the tree, one for each path. */
  lemma {:induction false} FlattenPrinted(t: Tree, path: seq<nat>, cs: seq<nat>)
    requires WellFormed(t) && Hang(t, path, cs)
    ensures AllLead(t, Paths(t, path, cs))
    ensures Flatten(DictsOf(t, path, cs), LastOf(path)) == Ends(t, Paths(t, path, cs))
    decreases |t| - |path|, |cs|
  {
    PathsLead(t, path, cs);
    if cs != [] {
      HangBelow(t, path, cs);
      var c, kids := cs[0], t[cs[0]].children;
      var below := path + [c];
      FlattenPrinted(t, below, kids);
      FlattenPrinted(t, path, cs[1..]);
      PrintedFirst(t, path, cs);
      EndsFirst(t, path, cs);
    }
  }

  lemma PrintedFirst(t: Tree, path: seq<nat>, cs: seq<nat>)
    requires WellFormed(t) && Hang(t, path, cs) && cs != []
    ensures Hang(t, path + [cs[0]], t[cs[0]].children) && Hang(t, path, cs[1..])
    ensures Flatten(DictsOf(t, path, cs), LastOf(path))
            == [t[cs[0]]] + Flatten(DictsOf(t, path + [cs[0]], t[cs[0]].children), Some(cs[0]))
               + Flatten(DictsOf(t, path, cs[1..]), LastOf(path))
  {
    HangBelow(t, path, cs);
    var below := path + [cs[0]];
    var ds := DictsOf(t, path, cs);
    assert ds[1..] == DictsOf(t, path, cs[1..]);
    assert ds[0] == Dict(t[cs[0]].info, DictsOf(t, below, t[cs[0]].children));
    NumbersPrinted(t, below, t[cs[0]].children);
    assert below[..|path|] == path;
    assert Node(ds[0].info, LastOf(path), Numbers(ds[0].children)) == t[cs[0]];
  }

  lemma NumbersPrinted(t: Tree, path: seq<nat>, cs: seq<nat>)
    requires WellFormed(t) && Hang(t, path, cs)
    ensures Numbers(DictsOf(t, path, cs)) == cs
  {
    var ds := DictsOf(t, path, cs);
    forall k | 0 <= k < |cs| ensures Numbers(ds)[k] == cs[k] {
      assert t[cs[k]].info.seqid == cs[k];
    }
  }

  ghost predicate Ascending(nodes: seq<Node>) {
    forall i, j :: 0 <= i < j < |nodes| ==> nodes[i].info.seqid < nodes[j].info.seqid
  }

  ghost predicate DifferentNumbers(nodes: seq<Node>) {
    forall i, j :: 0 <= i < j < |nodes| ==> nodes[i].info.seqid != nodes[j].info.seqid
  }

  /** Sorting puts processes with different numbers in ascending order, and loses none. */
  lemma SortAscending(nodes: seq<Node>)
    requires DifferentNumbers(nodes)
    ensures Ascending(Sorting.Sort(BySeqid, nodes))
    ensures |Sorting.Sort(BySeqid, nodes)| == |nodes|
    ensures forall y :: y in Sorting.Sort(BySeqid, nodes) <==> y in nodes
  {
    var sorted := Sorting.Sort(BySeqid, nodes);
    Sorting.SortExact(BySeqid, nodes);
    assert |multiset(sorted)| == |multiset(nodes)|;
    forall y ensures y in sorted <==> y in nodes {
      Sorting.SortMember(BySeqid, nodes, y);
    }
    forall i, j | 0 <= i < j < |sorted| ensures sorted[i].info.seqid < sorted[j].info.seqid {
      assert Sorting.NotAfter(BySeqid(sorted[i]), BySeqid(sorted[j]));
      OnePerNumber(nodes, sorted, i, j);
    }
  }

  lemma OnePerNumber(nodes: seq<Node>, sorted: seq<Node>, i: nat, j: nat)
    requires DifferentNumbers(nodes) && multiset(sorted) == multiset(nodes) && i < j < |sorted|
    ensures sorted[i].info.seqid != sorted[j].info.seqid
  {
    if sorted[i].info.seqid == sorted[j].info.seqid {
      TwoOfThem(sorted, i, j);
      assert sorted[i] in multiset(nodes) && sorted[j] in multiset(nodes);
      var k :| 0 <= k < |nodes| && nodes[k] == sorted[i];
      var l :| 0 <= l < |nodes| && nodes[l] == sorted[j];
      assert k == l;
      OneOfIt(nodes, k);
    }
  }

  lemma TwoOfThem(s: seq<Node>, i: nat, j: nat)
    requires i < j < |s|
    ensures s[i] == s[j] ==> multiset(s)[s[i]] >= 2
  {
    assert s == s[..j] + [s[j]] + s[j + 1..];
    assert s[i] in s[..j];
  }

  lemma OneOfIt(s: seq<Node>, k: nat)
    requires k < |s| && DifferentNumbers(s)
    ensures multiset(s)[s[k]] == 1
  {
    assert s == s[..k] + [s[k]] + s[k + 1..];
    assert s[k] !in s[..k] && s[k] !in s[k + 1..];
  }

  /** The numbers of the processes that are printed. */
  ghost function PrintedNumbers(t: Tree): (r: seq<nat>)
    requires WellFormed(t)
    ensures |r| == |Flatten(AsDict(t), None)|
  {
    var nodes := Flatten(AsDict(t), None);
    seq(|nodes|, k requires 0 <= k < |nodes| => nodes[k].info.seqid)
  }

  /** The path that ends in the process printed at some place. */
  lemma PrintedPath(t: Tree)
    requires WellFormed(t)
    ensures Hang(t, [], Roots(t)) && |Paths(t, [], Roots(t))| == |PrintedNumbers(t)|
    ensures forall k :: 0 <= k < |PrintedNumbers(t)| ==>
              && LeadsTo(t, Paths(t, [], Roots(t))[k], PrintedNumbers(t)[k])
              && PrintedNumbers(t)[k] < |t|
              && Flatten(AsDict(t), None)[k] == t[PrintedNumbers(t)[k]]
  {
    RootsHang(t);
    FlattenPrinted(t, [], Roots(t));
    var paths := Paths(t, [], Roots(t));
    forall k | 0 <= k < |paths|
      ensures LeadsTo(t, paths[k], PrintedNumbers(t)[k]) && PrintedNumbers(t)[k] < |t|
      ensures Flatten(AsDict(t), None)[k] == t[PrintedNumbers(t)[k]]
    {
      assert paths[k] in paths;
      var last := paths[k][|paths[k]| - 1];
      assert Flatten(AsDict(t), None)[k] == Ends(t, paths)[k] == t[last];
      assert t[last].info.seqid == last;
    }
  }

  /** as_dict prints a process at most once. */
  lemma PrintedOnce(t: Tree)
    requires WellFormed(t)
    ensures Distinct(PrintedNumbers(t))
  {
    PrintedPath(t);
    PathsDistinct(t, [], Roots(t));
    var paths, printed := Paths(t, [], Roots(t)), PrintedNumbers(t);
    forall i, j | 0 <= i < j < |printed| ensures printed[i] != printed[j] {
      if printed[i] == printed[j] { PathUnique(t, paths[i], paths[j], printed[i]); }
    }
  }

  /** as_dict prints a process exactly when it hangs below a root. */
  lemma PrintedExactly(t: Tree, i: nat)
    requires WellFormed(t)
    ensures i in PrintedNumbers(t) <==> i < |t| && Rooted(t, i)
  {
    PrintedPath(t);
    var paths, printed := Paths(t, [], Roots(t)), PrintedNumbers(t);
    if i < |t| && Rooted(t, i) {
      var path :| LeadsTo(t, path, i);
      RootedPrinted(t, path, i);
      var k :| 0 <= k < |paths| && paths[k] == path;
      assert printed[k] == i;
    }
  }

  lemma RootedPrinted(t: Tree, path: seq<nat>, i: nat)
    requires WellFormed(t) && LeadsTo(t, path, i) && Hang(t, [], Roots(t))
    ensures path in Paths(t, [], Roots(t))
  {
    PathPrefix(t, path, 1);
    assert path[..0] == [];
    PathsComplete(t, [], Roots(t), path);
  }

  lemma {:induction false} AscendingBelow(s: seq<Node>, n: nat, i: nat)
    requires |s| == n && i < n
    requires forall i, j :: 0 <= i < j < n ==> s[i].info.seqid < s[j].info.seqid
    requires forall i :: 0 <= i < n ==> s[i].info.seqid < n
    ensures i <= s[i].info.seqid
    decreases i
  {
    if i > 0 { AscendingBelow(s, n, i - 1); }
  }

  lemma {:induction false} AscendingAbove(s: seq<Node>, n: nat, i: nat)
    requires |s| == n && i < n
    requires forall i, j :: 0 <= i < j < n ==> s[i].info.seqid < s[j].info.seqid
    requires forall i :: 0 <= i < n ==> s[i].info.seqid < n
    ensures s[i].info.seqid <= i
    decreases n - i
  {
    if i < n - 1 { AscendingAbove(s, n, i + 1); }
  }

  /** Processes that carry the numbers 0, 1, 2, ... in order are the processes of the tree. */
  lemma AscendingIsTree(t: Tree, s: seq<Node>)
    requires WellFormed(t) && |s| == |t| && Ascending(s)
    requires forall x :: x in s ==> x.info.seqid < |t| && x == t[x.info.seqid]
    ensures s == t
  {
    forall i | 0 <= i < |s| ensures s[i] == t[i] {
      assert forall k :: 0 <= k < |s| ==> s[k] in s;
      AscendingBelow(s, |s|, i);
      AscendingAbove(s, |s|, i);
    }
  }

  /** All processes are printed exactly when the tree is a forest. */
  lemma PrintedAll(t: Tree)
    requires WellFormed(t)
    ensures |PrintedNumbers(t)| == |t| <==> Forest(t)
  {
    var printed := PrintedNumbers(t);
    PrintedPath(t);
    PrintedOnce(t);
    CardinalityNamed(printed);
    var named := set k | 0 <= k < |printed| :: printed[k];
    forall i: nat ensures i in named <==> i < |t| && Rooted(t, i) {
      PrintedExactly(t, i);
      assert i in named <==> i in printed;
    }
    if Forest(t) {
      assert named == Below(|t|);
    } else {
      var i: nat :| i < |t| && !Rooted(t, i);
      assert named <= Below(|t|) - {i};
      SubsetCardinality(named, Below(|t|) - {i});
    }
  }

  /** tree_from_dict undoes as_dict exactly for forests: processes on a cycle of parents are not printed. */
  lemma RoundTrip(t: Tree)
    requires WellFormed(t)
    ensures TreeFromDict(AsDict(t)) == t <==> Forest(t)
  {
    var nodes := Flatten(AsDict(t), None);
    var printed := PrintedNumbers(t);
    PrintedPath(t);
    PrintedOnce(t);
    PrintedAll(t);
    forall i, j | 0 <= i < j < |nodes| ensures nodes[i].info.seqid != nodes[j].info.seqid {
      assert printed[i] != printed[j];
    }
    SortAscending(nodes);
    if Forest(t) {
      forall x | x in Sorting.Sort(BySeqid, nodes) ensures x.info.seqid < |t| && x == t[x.info.seqid] {
        var k :| 0 <= k < |nodes| && nodes[k] == x;
        assert printed[k] == x.info.seqid;
      }
      AscendingIsTree(t, Sorting.Sort(BySeqid, nodes));
    }
  }
}
