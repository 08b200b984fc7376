/**
 The searches of the process tree view (drakrun/web/frontend/src/ProcessTreeView.jsx) over
 the dictionaries that as_dict prints.
 */
module TreeSearch {
  import opened Common
  import opened ProcessTree
  import opened TreeDict

  // ---------- The path to a process ----------

  datatype Item = Item(parents: seq<nat>, element: Dict)

  /** The parents of the first process with this number in preorder; None when there is none. */
  function FindPath(ds: seq<Dict>, parents: seq<nat>, id: nat): Option<seq<nat>> {
    if ds == [] then None
    else
      var inner := FindIn(ds[0], parents, id);
      if inner.Some? then inner else FindPath(ds[1..], parents, id)
  }

  function FindIn(d: Dict, parents: seq<nat>, id: nat): Option<seq<nat>> {
    if d.info.seqid == id then Some(parents) else FindPath(d.children, parents + [d.info.seqid], id)
  }

  function FindItems(stack: seq<Item>, id: nat): Option<seq<nat>> {
    if stack == [] then None
    else
      var inner := FindIn(stack[0].element, stack[0].parents, id);
      if inner.Some? then inner else FindItems(stack[1..], id)
  }

  function Items(ds: seq<Dict>, parents: seq<nat>): seq<Item> {
    seq(|ds|, i requires 0 <= i < |ds| => Item(parents, ds[i]))
  }

  function Size(ds: seq<Dict>): nat {
    if ds == [] then 0 else 1 + Size(ds[0].children) + Size(ds[1..])
  }

  function StackSize(stack: seq<Item>): nat {
    if stack == [] then 0 else 1 + Size(stack[0].element.children) + StackSize(stack[1..])
  }

  lemma {:induction false} ItemsInFront(ds: seq<Dict>, parents: seq<nat>, rest: seq<Item>, id: nat)
    ensures StackSize(Items(ds, parents) + rest) == Size(ds) + StackSize(rest)
    ensures FindItems(Items(ds, parents) + rest, id) ==
              if FindPath(ds, parents, id).Some? then FindPath(ds, parents, id) else FindItems(rest, id)
  {
    var stack := Items(ds, parents) + rest;
    if ds == [] {
      assert stack == rest;
    } else {
      ItemsInFront(ds[1..], parents, rest, id);
      assert stack[1..] == Items(ds[1..], parents) + rest;
      assert stack[0] == Item(parents, ds[0]);
    }
  }

  /** Terminates, as every step takes a process off the stack for good. */
  method GetProcessParents(processTree: seq<Dict>, processId: nat) returns (r: Option<seq<nat>>)
    ensures r == FindPath(processTree, [], processId)
  {
    var stack := Items(processTree, []);
    ItemsInFront(processTree, [], [], processId);
    assert stack + [] == stack;
    while |stack| > 0
      invariant FindItems(stack, processId) == FindPath(processTree, [], processId)
      decreases StackSize(stack)
    {
      var Item(parents, element) := stack[0];
      var rest := stack[1..];
      if element.info.seqid == processId {
        return Some(parents);
      }
      ItemsInFront(element.children, parents + [element.info.seqid], rest, processId);
      stack := rest;
      if |element.children| > 0 {
        stack := Items(element.children, parents + [element.info.seqid]) + rest;
      }
    }
    r := None;
  }

  /** The first of the processes with its own subtrees, and the others. */
  lemma FirstDict(t: Tree, path: seq<nat>, cs: seq<nat>)
    requires WellFormed(t) && Hang(t, path, cs) && cs != []
    ensures cs[0] < |t| && t[cs[0]].info.seqid == cs[0]
    ensures Hang(t, path + [cs[0]], t[cs[0]].children) && Hang(t, path, cs[1..])
    ensures DictsOf(t, path, cs) ==
              [Dict(t[cs[0]].info, DictsOf(t, path + [cs[0]], t[cs[0]].children))] + DictsOf(t, path, cs[1..])
    ensures |path| < |t|
  {
    HangBelow(t, path, cs);
  }

  lemma FindFirst(d: Dict, rest: seq<Dict>, parents: seq<nat>, id: nat)
    ensures FindPath([d] + rest, parents, id) ==
              if FindIn(d, parents, id).Some? then FindIn(d, parents, id) else FindPath(rest, parents, id)
  {
    assert ([d] + rest)[1..] == rest;
  }

  /** r leads to the process from path on, if it can be reached by one of cs at all. */
  ghost predicate Found(t: Tree, path: seq<nat>, cs: seq<nat>, id: nat, r: Option<seq<nat>>) {
    && (r.Some? ==> LeadsTo(t, r.value + [id], id))
    && (r.None? ==> forall p :: LeadsTo(t, p, id) ==> !Leaves(path, p, cs))
  }

  lemma FoundByFirst(t: Tree, path: seq<nat>, cs: seq<nat>, id: nat, inner: Option<seq<nat>>, later: Option<seq<nat>>)
    requires WellFormed(t) && Hang(t, path, cs) && cs != []
    requires Found(t, path + [cs[0]], t[cs[0]].children, id, inner) && Found(t, path, cs[1..], id, later)
    ensures Found(t, path, cs, id, if cs[0] == id then Some(path) else if inner.Some? then inner else later)
  {
    if cs[0] != id && inner.None? && later.None? {
      forall p | LeadsTo(t, p, id) ensures !Leaves(path, p, cs) {
        if Leaves(path, p, cs) { LeavesSplit(t, path, cs, p); }
      }
    }
  }

  lemma {:induction false} FoundInTree(t: Tree, path: seq<nat>, cs: seq<nat>, id: nat)
    requires WellFormed(t) && Hang(t, path, cs)
    ensures Found(t, path, cs, id, FindPath(DictsOf(t, path, cs), path, id))
    decreases |t| - |path|, |cs|
  {
    if cs != [] {
      FirstDict(t, path, cs);
      var below, kids := path + [cs[0]], t[cs[0]].children;
      FoundInTree(t, below, kids, id);
      FoundInTree(t, path, cs[1..], id);
      var d, rest := Dict(t[cs[0]].info, DictsOf(t, below, kids)), DictsOf(t, path, cs[1..]);
      FindFirst(d, rest, path, id);
      FoundByFirst(t, path, cs, id, FindPath(d.children, below, id), FindPath(rest, path, id));
    }
  }

  /** A path below path goes to the first child, below it, or to one of the other children. */
  lemma LeavesSplit(t: Tree, path: seq<nat>, cs: seq<nat>, p: seq<nat>)
    requires WellFormed(t) && RootPath(t, p) && Leaves(path, p, cs) && cs != [] && cs[0] < |t|
    ensures p == path + [cs[0]] || Leaves(path + [cs[0]], p, t[cs[0]].children) || Leaves(path, p, cs[1..])
  {
    assert cs == [cs[0]] + cs[1..];
    if p[|path|] == cs[0] {
      if |p| == |path| + 1 {
        assert p == p[..|path|] + [cs[0]];
      } else {
        NextBelow(t, path, p, cs);
      }
    }
  }

  /** Every path from a root begins with one. */
  lemma PathsLeave(t: Tree, p: seq<nat>, id: nat)
    requires WellFormed(t) && LeadsTo(t, p, id)
    ensures Leaves([], p, Roots(t))
  {
    PathPrefix(t, p, 1);
    assert p[..0] == [];
  }

  lemma PathFound(t: Tree, p: seq<nat>, id: nat, r: Option<seq<nat>>)
    requires WellFormed(t) && Found(t, [], Roots(t), id, r) && LeadsTo(t, p, id)
    ensures r.Some? && p == r.value + [id]
  {
    PathsLeave(t, p, id);
    PathUnique(t, p, r.value + [id], id);
  }

  /** In a printed tree the search returns the chain of ancestors, and fails exactly when the process is not printed. */
  lemma ParentsAreAncestors(t: Tree, id: nat, parents: seq<nat>)
    requires WellFormed(t)
    ensures FindPath(AsDict(t), [], id) == Some(parents) <==> LeadsTo(t, parents + [id], id)
    ensures FindPath(AsDict(t), [], id) == None <==> !Rooted(t, id)
  {
    RootsHang(t);
    FoundInTree(t, [], Roots(t), id);
    var r := FindPath(AsDict(t), [], id);
    forall p | LeadsTo(t, p, id) ensures r.Some? && p == r.value + [id] {
      PathFound(t, p, id, r);
    }
    assert (parents + [id])[..|parents|] == parents;
  }

  // ---------- The processes that are expanded ----------

  const SUFFIX := "explorer.exe"

  predicate IsProcessInteresting(info: ProcessInfo) {
    |info.procname| >= |SUFFIX| && info.procname[|info.procname| - |SUFFIX|..] == SUFFIX
  }

  lemma InterestingExactly(info: ProcessInfo)
    ensures IsProcessInteresting(info) <==> exists front :: info.procname == front + "explorer.exe"
  {
    if IsProcessInteresting(info) {
      var n := |info.procname| - |SUFFIX|;
      assert info.procname == info.procname[..n] + "explorer.exe";
    }
    if front :| info.procname == front + "explorer.exe" {
      assert info.procname[|front|..] == SUFFIX;
    }
  }

  function Expanded(ds: seq<Dict>): set<nat> {
    if ds == [] then {} else ExpandedIn(ds[0]) + Expanded(ds[1..])
  }

  function ExpandedIn(d: Dict): set<nat> {
    var inner := Expanded(d.children);
    if IsProcessInteresting(d.info) || inner != {} then inner + {d.info.seqid} else {}
  }

  method GetInterestingProcesses(processTree: seq<Dict>) returns (activeSet: set<nat>)
    ensures activeSet == Expanded(processTree)
    decreases processTree, 1
  {
    activeSet := {};
    for i := 0 to |processTree|
      invariant activeSet + Expanded(processTree[i..]) == Expanded(processTree)
    {
      ghost var before := activeSet;
      ExpandedFrom(processTree, i);
      activeSet := AddActive(processTree[i], activeSet);
      assert activeSet + Expanded(processTree[i + 1..]) == before + Expanded(processTree[i..]);
    }
  }

  /** The body of the loop: the process, when it or a process below it is interesting. */
  method AddActive(process: Dict, active: set<nat>) returns (activeSet: set<nat>)
    ensures activeSet == active + ExpandedIn(process)
    decreases process, 0
  {
    activeSet := active;
    if IsProcessInteresting(process.info) {
      activeSet := activeSet + {process.info.seqid};
    }
    if |process.children| > 0 {
      var activeChildren := GetInterestingProcesses(process.children);
      if |activeChildren| > 0 {
        activeSet := activeSet + activeChildren;
        activeSet := activeSet + {process.info.seqid};
      }
    }
  }

  lemma ExpandedFrom(ds: seq<Dict>, i: nat)
    requires i < |ds|
    ensures Expanded(ds[i..]) == ExpandedIn(ds[i]) + Expanded(ds[i + 1..])
  {
    assert ds[i..][1..] == ds[i + 1..];
  }

  /** p leads to an interesting process and passes i behind path. */
  ghost predicate Explains(t: Tree, path: seq<nat>, cs: seq<nat>, i: nat, p: seq<nat>) {
    RootPath(t, p) && Leaves(path, p, cs) && p[|p| - 1] < |t|
    && IsProcessInteresting(t[p[|p| - 1]].info) && i in p[|path|..]
  }

  lemma ExpandedFirst(d: Dict, rest: seq<Dict>)
    ensures Expanded([d] + rest) == ExpandedIn(d) + Expanded(rest)
  {
    assert ([d] + rest)[1..] == rest;
  }

  lemma {:induction false} ExpandedWhy(t: Tree, path: seq<nat>, cs: seq<nat>, i: nat) returns (p: seq<nat>)
    requires WellFormed(t) && Hang(t, path, cs) && i in Expanded(DictsOf(t, path, cs))
    ensures Explains(t, path, cs, i, p)
    decreases |t| - |path|, |cs|
  {
    FirstDict(t, path, cs);
    var below, kids := path + [cs[0]], t[cs[0]].children;
    var d, rest := Dict(t[cs[0]].info, DictsOf(t, below, kids)), DictsOf(t, path, cs[1..]);
    ExpandedFirst(d, rest);
    var inner := Expanded(d.children);
    assert below[..|path|] == path;
    if i in inner || (i == cs[0] && inner != {}) {
      var j := if i in inner then i else var j :| j in inner; j;
      p := ExpandedWhy(t, below, kids, j);
      ExplainsAbove(t, path, cs, i, j, p);
    } else if i == cs[0] && IsProcessInteresting(d.info) {
      p := below;
    } else {
      p := ExpandedWhy(t, path, cs[1..], i);
    }
  }

  lemma ExplainsAbove(t: Tree, path: seq<nat>, cs: seq<nat>, i: nat, j: nat, p: seq<nat>)
    requires cs != [] && cs[0] < |t| && Explains(t, path + [cs[0]], t[cs[0]].children, j, p)
    requires i == j || i == cs[0]
    ensures Explains(t, path, cs, i, p)
  {
    var below := path + [cs[0]];
    assert p[..|path|] == p[..|below|][..|path|] == path;
    assert p[|path|] == p[..|below|][|path|] == cs[0];
    assert p[|path|..] == [cs[0]] + p[|below|..];
  }

  /** Behind its first process a path goes on as it does below that. */
  lemma OneDown(t: Tree, path: seq<nat>, c: nat, kids: seq<nat>, i: nat, p: seq<nat>)
    requires Leaves(path + [c], p, kids)
    ensures i in p[|path|..] <==> i == c || i in p[|path| + 1..]
  {
    assert p[..|path| + 1][|path|] == c;
    assert p[|path|..] == [c] + p[|path| + 1..];
  }

  lemma {:induction false} ExpandedWhen(t: Tree, path: seq<nat>, cs: seq<nat>, i: nat, p: seq<nat>)
    requires WellFormed(t) && Hang(t, path, cs) && Explains(t, path, cs, i, p)
    ensures i in Expanded(DictsOf(t, path, cs))
    decreases |t| - |path|, |cs|
  {
    FirstDict(t, path, cs);
    var below, kids := path + [cs[0]], t[cs[0]].children;
    var d, rest := Dict(t[cs[0]].info, DictsOf(t, below, kids)), DictsOf(t, path, cs[1..]);
    ExpandedFirst(d, rest);
    LeavesSplit(t, path, cs, p);
    if Leaves(path, p, cs[1..]) {
      ExpandedWhen(t, path, cs[1..], i, p);
    } else if p != below {
      OneDown(t, path, cs[0], kids, i, p);
      OneDown(t, path, cs[0], kids, p[|p| - 1], p);
      ExpandedWhen(t, below, kids, p[|p| - 1], p);
      if i in p[|below|..] { ExpandedWhen(t, below, kids, i, p); }
    } else {
      assert p[|path|..] == [cs[0]];
    }
  }

  /** In a printed tree exactly the interesting processes and all their ancestors are expanded. */
  lemma ExpandedExactly(t: Tree, i: nat)
    requires WellFormed(t)
    ensures i in Expanded(AsDict(t)) <==>
              exists j: nat :: j < |t| && IsProcessInteresting(t[j].info) && AtOrAbove(t, i, j)
  {
    RootsHang(t);
    if i in Expanded(AsDict(t)) {
      var p := ExpandedWhy(t, [], Roots(t), i);
      assert LeadsTo(t, p, p[|p| - 1]) && p[0..] == p;
      assert AtOrAbove(t, i, p[|p| - 1]);
    }
    if j: nat :| j < |t| && IsProcessInteresting(t[j].info) && AtOrAbove(t, i, j) {
      var p :| LeadsTo(t, p, j) && i in p;
      PathPrefix(t, p, 1);
      assert p[..0] == [] && p[0..] == p;
      ExpandedWhen(t, [], Roots(t), i, p);
    }
  }
}
