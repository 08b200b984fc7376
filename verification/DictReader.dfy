/**
 tree_from_dict (drakrun/analyzer/postprocessing/process_tree.py): the process objects are
 created parent first, appended to one list, and sorted by number at the end.
 */
module DictReader {
  import opened Common
  import opened ProcessTree
  import opened ProcessObjects
  import opened TreeDict
  import Sorting

  ghost function NumberOf(p: Process?): Option<nat> {
    if p == null then None else Some(p.seqid)
  }

  ghost predicate Shows(p: Process, n: Node)
    reads p
  {
    NodeOf(p) == n && p.seqid == n.info.seqid
  }

  /** A process and everything below it. */
  function FlattenOne(d: Dict, parent: Option<nat>): seq<Node> {
    [Node(d.info, parent, Numbers(d.children))] + Flatten(d.children, Some(d.info.seqid))
  }

  lemma {:induction false} FlattenSnoc(ds: seq<Dict>, d: Dict, parent: Option<nat>)
    ensures Flatten(ds + [d], parent) == Flatten(ds, parent) + FlattenOne(d, parent)
  {
    if ds == [] {
      assert [d][1..] == [] && FlattenOne(d, parent) + [] == FlattenOne(d, parent);
    } else {
      assert (ds + [d])[1..] == ds[1..] + [d];
      FlattenSnoc(ds[1..], d, parent);
    }
  }

  class Reader {
    var processes: seq<Process>
    ghost var listed: set<Process>

    constructor ()
      ensures processes == [] && listed == {}
    {
      processes, listed := [], {};
    }

    /**
     The list from the k-th process on is new and stands for the nodes; the processes are
     linked to listed ones, or to parent.
     */
    twostate predicate Appended(k: nat, nodes: seq<Node>, parent: Process?)
      reads this, processes
    {
      && |processes| == k + |nodes| && k == |old(processes)| && processes[..k] == old(processes)
      && (forall i :: k <= i < |processes| ==> fresh(processes[i]))
      && AllShown(k, nodes, parent)
    }

    ghost predicate AllShown(k: nat, nodes: seq<Node>, parent: Process?)
      requires k + |nodes| <= |processes|
      reads this, processes
    {
      forall i :: 0 <= i < |nodes| ==> ShownAt(k + i, nodes[i], parent)
    }

    ghost predicate ShownAt(k: nat, node: Node, parent: Process?)
      requires k < |processes|
      reads this, processes
    {
      Shows(processes[k], node) && Linked(processes[k], parent)
    }

    lemma Joined(k: nat, before: seq<Node>, more: seq<Node>, parent: Process?)
      requires |processes| == k + |before| + |more|
      requires AllShown(k, before, parent) && AllShown(k + |before|, more, parent)
      ensures AllShown(k, before + more, parent)
    {
      forall i | 0 <= i < |before + more| ensures ShownAt(k + i, (before + more)[i], parent) {
        if i >= |before| {
          assert ShownAt(k + |before| + (i - |before|), more[i - |before|], parent);
        }
      }
    }

    ghost predicate Linked(p: Process, parent: Process?)
      reads this`listed, p
    {
      && p in listed
      && (p.parent == parent || p.parent in listed)
      && forall c :: c in p.children ==> c in listed
    }

    twostate predicate ChildrenAdded(parent: Process?, seqids: seq<nat>)
      reads this`listed, if parent == null then {} else {parent}
    {
      parent != null ==>
        && Seqids(parent.children) == Seqids(old(parent.children)) + seqids
        && forall c :: c in parent.children ==> c in old(parent.children) || c in listed
    }

    /** The process is listed below parent, its own subtree behind it. */
    method ParseEntry(d: Dict, parent: Process?)
      modifies this, (if parent == null then {} else {parent})`children
      ensures Appended(|old(processes)|, FlattenOne(d, NumberOf(parent)), parent)
      ensures ChildrenAdded(parent, [d.info.seqid])
      ensures old(listed) <= listed && forall p :: p in listed ==> p in old(listed) || p in processes
      decreases d, 0
    {
      var process := new Process(d.info, parent);
      processes, listed := processes + [process], listed + {process};
      if parent != null {
        parent.children := parent.children + [process];
      }
      ghost var n, middle := |old(processes)|, processes;
      ghost var below := Flatten(d.children, Some(d.info.seqid));
      ParseChildren(d.children, process);
      assert processes[..n + 1] == middle;
      assert processes[..n] == middle[..n] && processes[n] == process;
      assert AllShown(n, FlattenOne(d, NumberOf(parent)), parent) by {
        var nodes := FlattenOne(d, NumberOf(parent));
        forall j | 0 <= j < |nodes| ensures ShownAt(n + j, nodes[j], parent) {
          if j > 0 {
            assert ShownAt(n + 1 + (j - 1), below[j - 1], process);
          }
        }
      }
    }

    /** One entry more: what was listed before from the n-th process on stays as it is. */
    method ParseNext(d: Dict, parent: Process?, ghost n: nat, ghost before: seq<Node>)
      requires |processes| == n + |before| && AllShown(n, before, parent)
      requires forall i :: n <= i < |processes| ==> processes[i] != parent
      modifies this, (if parent == null then {} else {parent})`children
      ensures |processes| == n + |before| + |FlattenOne(d, NumberOf(parent))|
      ensures processes[..n + |before|] == old(processes)
      ensures forall i :: n + |before| <= i < |processes| ==> fresh(processes[i])
      ensures AllShown(n, before + FlattenOne(d, NumberOf(parent)), parent)
      ensures ChildrenAdded(parent, [d.info.seqid])
      ensures old(listed) <= listed && forall p :: p in listed ==> p in old(listed) || p in processes
      decreases d, 1
    {
      ghost var middle, one := processes, FlattenOne(d, NumberOf(parent));
      ParseEntry(d, parent);
      assert AllShown(n, before, parent) by {
        forall j | 0 <= j < |before| ensures ShownAt(n + j, before[j], parent) {
          assert processes[n + j] == middle[n + j];
          assert Shows(processes[n + j], before[j]) && Linked(processes[n + j], parent);
        }
      }
      Joined(n, before, one, parent);
    }

    /** Creates the processes below parent, each with its own subtree. */
    method ParseChildren(ds: seq<Dict>, parent: Process?)
      modifies this, (if parent == null then {} else {parent})`children
      ensures Appended(|old(processes)|, Flatten(ds, NumberOf(parent)), parent)
      ensures ChildrenAdded(parent, Numbers(ds))
      ensures old(listed) <= listed && forall p :: p in listed ==> p in old(listed) || p in processes
      decreases ds
    {
      ghost var n, number := |processes|, NumberOf(parent);
      for i := 0 to |ds|
        invariant Appended(n, Flatten(ds[..i], number), parent)
        invariant ChildrenAdded(parent, Numbers(ds[..i]))
        invariant old(listed) <= listed && forall p :: p in listed ==> p in old(listed) || p in processes
      {
        assert ds[..i + 1] == ds[..i] + [ds[i]];
        FlattenSnoc(ds[..i], ds[i], number);
        assert Numbers(ds[..i + 1]) == Numbers(ds[..i]) + [ds[i].info.seqid];
        ParseNext(ds[i], parent, n, Flatten(ds[..i], number));
      }
      assert ds[..|ds|] == ds;
    }
  }

  // ---------- Sorting ----------

  function ByNumber(p: Process): Sorting.Key {
    Sorting.Key(p.seqid, 0)
  }

  ghost predicate ShowAll(ps: seq<Process>, nodes: seq<Node>)
    reads ps
  {
    |ps| == |nodes| && forall i :: 0 <= i < |ps| ==> Shows(ps[i], nodes[i])
  }

  lemma {:induction false} InsertShows(p: Process, n: Node, ps: seq<Process>, nodes: seq<Node>)
    requires Shows(p, n) && ShowAll(ps, nodes)
    ensures ShowAll(Sorting.Insert(ByNumber, p, ps), Sorting.Insert(BySeqid, n, nodes))
    ensures forall q :: q in Sorting.Insert(ByNumber, p, ps) <==> q == p || q in ps
  {
    if ps != [] {
      assert ps == [ps[0]] + ps[1..];
      InsertShows(p, n, ps[1..], nodes[1..]);
    }
  }

  lemma {:induction false} SortShows(ps: seq<Process>, nodes: seq<Node>)
    requires ShowAll(ps, nodes)
    ensures ShowAll(Sorting.Sort(ByNumber, ps), Sorting.Sort(BySeqid, nodes))
    ensures forall q :: q in Sorting.Sort(ByNumber, ps) <==> q in ps
  {
    if ps != [] {
      assert ps == [ps[0]] + ps[1..];
      SortShows(ps[1..], nodes[1..]);
      InsertShows(ps[0], nodes[0], Sorting.Sort(ByNumber, ps[1..]), Sorting.Sort(BySeqid, nodes[1..]));
    }
  }

  /** Parents and children are processes of the list, not just equal to some. */
  ghost predicate Closed(ps: seq<Process>)
    reads ps
  {
    && (forall p :: p in ps && p.parent != null ==> p.parent in ps)
    && (forall p, c {:trigger p in ps, c in p.children} :: p in ps && c in p.children ==> c in ps)
  }

  lemma CollectedShow(reader: Reader, nodes: seq<Node>)
    requires |reader.processes| == |nodes| && reader.AllShown(0, nodes, null)
    requires forall p :: p in reader.listed ==> p in reader.processes
    ensures ShowAll(reader.processes, nodes) && Closed(reader.processes)
  {
    var listed := reader.processes;
    forall i | 0 <= i < |listed| ensures Shows(listed[i], nodes[i]) && reader.Linked(listed[i], null) {
      assert reader.ShownAt(0 + i, nodes[i], null);
    }
    forall p | p in listed ensures reader.Linked(p, null) {
      var i :| 0 <= i < |listed| && listed[i] == p;
    }
  }

  method Collect(ds: seq<Dict>) returns (listed: seq<Process>)
    ensures ShowAll(listed, Flatten(ds, None)) && Closed(listed)
  {
    var reader := new Reader();
    reader.ParseChildren(ds, null);
    CollectedShow(reader, Flatten(ds, None));
    listed := reader.processes;
  }

  lemma SortCloses(ps: seq<Process>, sorted: seq<Process>)
    requires Closed(ps) && forall q :: q in sorted <==> q in ps
    ensures Closed(sorted)
  {
  }

  method CollectSorted(ds: seq<Dict>) returns (sorted: seq<Process>)
    ensures ShowAll(sorted, TreeDict.TreeFromDict(ds)) && Closed(sorted)
  {
    var listed := Collect(ds);
    SortShows(listed, Flatten(ds, None));
    SortCloses(listed, Sorting.Sort(ByNumber, listed));
    sorted := Sorting.Sort(ByNumber, listed);
  }

  method TreeFromDict(ds: seq<Dict>) returns (r: ProcessTreeObject)
    ensures r.tree == TreeDict.TreeFromDict(ds) && ShowAll(r.processes, r.tree) && Closed(r.processes)
    ensures Numbered(r.tree) ==> r.Valid()
  {
    var sorted := CollectSorted(ds);
    r := new ProcessTreeObject();
    r.processes := sorted;
    r.tree := TreeDict.TreeFromDict(ds);
    if Numbered(r.tree) { NumberedIsValid(r); }
  }

  lemma NumberedIsValid(r: ProcessTreeObject)
    requires ShowAll(r.processes, r.tree) && Closed(r.processes) && Numbered(r.tree)
    ensures r.Valid()
  {
    var ps := r.processes;
    forall i | 0 <= i < |ps| ensures ps[i].seqid == i && ps[i].info.seqid == i && r.tree[i] == NodeOf(ps[i]) {
      assert Shows(ps[i], r.tree[i]);
    }
    forall p | p in ps ensures r.Lists(p) {
      var i :| 0 <= i < |ps| && ps[i] == p;
    }
    forall i | 0 <= i < |ps| ensures ps[i].parent != null ==> r.Lists(ps[i].parent) {
      assert ps[i] in ps;
    }
    forall i, c | 0 <= i < |ps| && c in ps[i].children ensures r.Lists(c) {
      assert ps[i] in ps;
    }
  }

  /** Reading what was printed gives objects that stand for the same tree. */
  method ReadBack(ds: seq<Dict>, ghost t: Tree) returns (r: ProcessTreeObject)
    requires WellFormed(t) && Forest(t) && ds == AsDict(t)
    ensures r.Valid() && r.tree == t
  {
    RoundTrip(t);
    r := TreeFromDict(ds);
  }
}
