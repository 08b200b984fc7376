/**
 Which memory dumps are kept (drakrun/analyzer/postprocessing/plugins/process_dumps.py):
 first copies of many regions are preferred to many copies of one region, and what is kept
 stays within a budget of bytes.
 */
module Dumps {
  import opened Common
  import opened Sorting

  datatype Owner = Owner(pid: int, seqid: nat)

  /** What the log says of a dump, as far as the report repeats it. */
  datatype Facts = Facts(index: nat, address: int, size: nat, filename: string, details: string)

  /** A line of the log; no owner when no process of that PID was alive at the event. */
  datatype Entry = Entry(owner: Option<Owner>, facts: Facts)

  datatype Config = Config(filterOutSystemPid: bool, minSingle: int, maxSingle: int, maxTotal: int)

  /** The dump files and the metadata files that exist, the latter by index. */
  datatype Folder = Folder(dumps: set<string>, metadata: set<nat>)

  datatype Dump = Dump(owner: Owner, facts: Facts, occurrence: nat)

  datatype Region = Region(pid: int, address: int)

  const SYSTEM_PID := 4

  function RegionOf(d: Dump): Region {
    Region(d.owner.pid, d.facts.address)
  }

  // ---------- Single dumps ----------

  predicate Present(e: Entry, folder: Folder) {
    e.facts.filename in folder.dumps && e.facts.index in folder.metadata
  }

  predicate Fits(e: Entry, c: Config) {
    c.minSingle <= e.facts.size <= c.maxSingle
  }

  /** The owner is looked at although there is none. */
  predicate Broken(e: Entry, c: Config, folder: Folder) {
    Present(e, folder) && e.owner.None? && (c.filterOutSystemPid || Fits(e, c))
  }

  predicate Passes(e: Entry, c: Config, folder: Folder) {
    && Present(e, folder)
    && e.owner.Some?
    && !(c.filterOutSystemPid && e.owner.value.pid == SYSTEM_PID)
    && Fits(e, c)
  }

  function OfRegion(ds: seq<Dump>, r: Region): seq<Dump> {
    if ds == [] then []
    else OfRegion(ds[..|ds| - 1], r) + (if RegionOf(ds[|ds| - 1]) == r then [ds[|ds| - 1]] else [])
  }

  /** The dumps that pass, in the order of the log, each with its rank among the dumps of its region. */
  function Counted(log: seq<Entry>, c: Config, folder: Folder): seq<Dump> {
    if log == [] then []
    else
      var e := log[|log| - 1];
      var before := Counted(log[..|log| - 1], c, folder);
      if Passes(e, c, folder) then
        before + [Dump(e.owner.value, e.facts, |OfRegion(before, Region(e.owner.value.pid, e.facts.address))| + 1)]
      else before
  }

  lemma OfRegionSnoc(ds: seq<Dump>, d: Dump, r: Region)
    ensures OfRegion(ds + [d], r) == OfRegion(ds, r) + (if RegionOf(d) == r then [d] else [])
  {
    assert (ds + [d])[..|ds|] == ds;
  }

  ghost predicate Numbered(ds: seq<Dump>) {
    forall j :: 0 <= j < |ds| ==> ds[j].occurrence == j + 1
  }

  /** The dumps of a region are numbered 1, 2, 3 and so on. */
  lemma {:induction false} RegionNumbered(log: seq<Entry>, c: Config, folder: Folder, r: Region)
    ensures Numbered(OfRegion(Counted(log, c, folder), r))
  {
    if log != [] {
      var e, before := log[|log| - 1], Counted(log[..|log| - 1], c, folder);
      RegionNumbered(log[..|log| - 1], c, folder, r);
      if Passes(e, c, folder) {
        var g := Region(e.owner.value.pid, e.facts.address);
        OfRegionSnoc(before, Dump(e.owner.value, e.facts, |OfRegion(before, g)| + 1), r);
      }
    }
  }

  lemma {:induction false} OfRegionMember(ds: seq<Dump>, r: Region, d: Dump)
    ensures d in OfRegion(ds, r) <==> d in ds && RegionOf(d) == r
  {
    if ds != [] {
      var k := |ds| - 1;
      OfRegionMember(ds[..k], r, d);
      assert ds == ds[..k] + [ds[k]];
    }
  }

  // ---------- What is counted, by the lines of the log ----------

  /** Both files are there, a process is known, it is not filtered out, and the size is within the bounds. */
  predicate Worth(e: Entry, c: Config, folder: Folder) {
    && e.facts.filename in folder.dumps && e.facts.index in folder.metadata && e.owner.Some?
    && (c.filterOutSystemPid ==> e.owner.value.pid != 4)
    && c.minSingle <= e.facts.size && e.facts.size <= c.maxSingle
  }

  /** The dumps in front of dump j with its PID and its address. */
  function SameRegion(ds: seq<Dump>, j: nat): set<nat>
    requires j < |ds|
  {
    set x: nat | x < j && ds[x].owner.pid == ds[j].owner.pid && ds[x].facts.address == ds[j].facts.address
  }

  /** Dump number j is that of line at[j], and its rank is one more than the number of earlier ones of its region. */
  ghost predicate CountedFrom(ds: seq<Dump>, log: seq<Entry>, at: seq<nat>) {
    && |ds| == |at| && (forall j :: 0 <= j < |at| ==> at[j] < |log|)
    && forall j :: 0 <= j < |ds| ==>
         && log[at[j]].owner == Some(ds[j].owner) && ds[j].facts == log[at[j]].facts
         && ds[j].occurrence == 1 + |SameRegion(ds, j)|
  }

  lemma {:induction false} OfRegionCount(ds: seq<Dump>, r: Region)
    ensures |OfRegion(ds, r)| == |set x: nat | x < |ds| && ds[x].owner.pid == r.pid && ds[x].facts.address == r.address|
  {
    if ds != [] {
      var k := |ds| - 1;
      OfRegionCount(ds[..k], r);
      var before := set x: nat | x < k && ds[..k][x].owner.pid == r.pid && ds[..k][x].facts.address == r.address;
      var all := set x: nat | x < |ds| && ds[x].owner.pid == r.pid && ds[x].facts.address == r.address;
      assert all == before + (if RegionOf(ds[k]) == r then {k} else {});
    }
  }

  /** One more dump keeps the ranks of the others, and is ranked behind those of its region. */
  lemma Ranked(before: seq<Dump>, d: Dump)
    requires d.occurrence == |OfRegion(before, RegionOf(d))| + 1
    ensures var ds := before + [d];
            && (forall j :: 0 <= j < |before| ==> SameRegion(ds, j) == SameRegion(before, j))
            && d.occurrence == 1 + |SameRegion(ds, |before|)|
  {
    var ds := before + [d];
    OfRegionCount(before, RegionOf(d));
    assert SameRegion(ds, |before|) == set x: nat | x < |before|
      && before[x].owner.pid == d.owner.pid && before[x].facts.address == d.facts.address;
    forall j | 0 <= j < |before| ensures SameRegion(ds, j) == SameRegion(before, j) {
      assert ds[j] == before[j];
    }
  }

  lemma OneMoreCounted(before: seq<Dump>, log: seq<Entry>, seen: seq<nat>, k: nat, d: Dump)
    requires CountedFrom(before, log, seen) && k < |log| && log[k].owner == Some(d.owner) && log[k].facts == d.facts
    requires d.occurrence == |OfRegion(before, RegionOf(d))| + 1
    ensures CountedFrom(before + [d], log, seen + [k])
  {
    Ranked(before, d);
  }

  lemma {:induction false} CountedUpTo(log: seq<Entry>, c: Config, folder: Folder, k: nat, worth: nat -> bool)
    requires k <= |log| && forall i: nat :: worth(i) <==> i < |log| && Worth(log[i], c, folder)
    ensures CountedFrom(Counted(log[..k], c, folder), log, Where(k, worth))
  {
    if k > 0 {
      CountedUpTo(log, c, folder, k - 1, worth);
      assert log[..k][..k - 1] == log[..k - 1];
      var before := Counted(log[..k - 1], c, folder);
      if Worth(log[k - 1], c, folder) {
        OneMoreCounted(before, log, Where(k - 1, worth), k - 1, Counted(log[..k], c, folder)[|before|]);
      }
    }
  }

  /** What is counted are exactly the dumps worth it, in the order of the log and ranked within their regions. */
  lemma CountedExactly(log: seq<Entry>, c: Config, folder: Folder) returns (at: seq<nat>)
    ensures Increasing(at) && forall i: nat :: i in at <==> i < |log| && Worth(log[i], c, folder)
    ensures CountedFrom(Counted(log, c, folder), log, at)
  {
    var worth := (i: nat) => i < |log| && Worth(log[i], c, folder);
    at := Where(|log|, worth);
    CountedUpTo(log, c, folder, |log|, worth);
    assert log[..|log|] == log;
  }

  // ---------- The pre-filter ----------

  /** The pre-filter, with its counters. None: it fails. */
  method Prefilter(log: seq<Entry>, c: Config, folder: Folder) returns (r: Option<seq<Dump>>)
    ensures r.None? <==> exists i :: 0 <= i < |log| && Broken(log[i], c, folder)
    ensures r.Some? ==> r.value == Counted(log, c, folder)
  {
    var occurrences: map<Region, nat> := map[];
    var filtered: seq<Dump> := [];
    for i := 0 to |log|
      invariant forall j :: 0 <= j < i ==> !Broken(log[j], c, folder)
      invariant filtered == Counted(log[..i], c, folder)
      invariant forall g :: (if g in occurrences then occurrences[g] else 0) == |OfRegion(filtered, g)|
    {
      var e := log[i];
      assert log[..i + 1][..i] == log[..i];
      if e.facts.filename !in folder.dumps {
        continue;
      }
      if e.facts.index !in folder.metadata {
        continue;
      }
      if c.filterOutSystemPid {
        if e.owner.None? {
          return None;
        }
        if e.owner.value.pid == SYSTEM_PID {
          continue;
        }
      }
      if !(c.minSingle <= e.facts.size <= c.maxSingle) {
        continue;
      }
      if e.owner.None? {
        return None;
      }
      var g := Region(e.owner.value.pid, e.facts.address);
      var n := (if g in occurrences then occurrences[g] else 0) + 1;
      var d := Dump(e.owner.value, e.facts, n);
      forall h ensures |OfRegion(filtered + [d], h)| == |OfRegion(filtered, h)| + (if h == g then 1 else 0) {
        OfRegionSnoc(filtered, d, h);
      }
      occurrences := occurrences[g := n];
      filtered := filtered + [d];
    }
    assert log[..|log|] == log;
    r := Some(filtered);
  }

  // ---------- Sorting ----------

  /** First copies first, and among copies of one rank the lower index. */
  function ByPriority(d: Dump): Key {
    Key(d.occurrence, d.facts.index)
  }

  function ByIndex(d: Dump): Key {
    Key(d.facts.index, 0)
  }

  // ---------- The budget ----------

  predicate Names(ds: seq<Dump>, filename: string) {
    exists i :: 0 <= i < |ds| && ds[i].facts.filename == filename
  }

  /** The bytes of the dumps, each file counted once, for the first dump that names it. */
  function DistinctSize(ds: seq<Dump>): nat {
    if ds == [] then 0
    else
      var d := ds[|ds| - 1];
      DistinctSize(ds[..|ds| - 1]) + (if Names(ds[..|ds| - 1], d.facts.filename) then 0 else d.facts.size)
  }

  /** Where the selection stops: at the first place where the budget is exceeded. */
  function Cutoff(ds: seq<Dump>, maxTotal: int, from: nat): (r: nat)
    requires from <= |ds|
    ensures from <= r <= |ds|
    ensures forall j :: from <= j < r ==> DistinctSize(ds[..j]) <= maxTotal
    ensures r < |ds| ==> DistinctSize(ds[..r]) > maxTotal
    decreases |ds| - from
  {
    if from == |ds| || DistinctSize(ds[..from]) > maxTotal then from else Cutoff(ds, maxTotal, from + 1)
  }

  function Kept(ds: seq<Dump>, maxTotal: int): seq<Dump> {
    ds[..Cutoff(ds, maxTotal, 0)]
  }

  method Select(ds: seq<Dump>, maxTotal: int) returns (kept: seq<Dump>)
    ensures kept == Kept(ds, maxTotal)
  {
    var currentSize, visited := 0, {};
    kept := [];
    for i := 0 to |ds|
      invariant kept == ds[..i] && currentSize == DistinctSize(kept)
      invariant forall f :: f in visited <==> Names(kept, f)
      invariant forall j :: 0 <= j < i ==> DistinctSize(ds[..j]) <= maxTotal
    {
      if currentSize > maxTotal {
        return;
      }
      assert ds[..i + 1] == ds[..i] + [ds[i]] && (ds[..i] + [ds[i]])[..i] == ds[..i];
      var f := ds[i].facts.filename;
      NamesSnoc(kept, ds[i]);
      if f !in visited {
        currentSize := currentSize + ds[i].facts.size;
      }
      visited := visited + {f};
      kept := kept + [ds[i]];
    }
    assert ds[..|ds|] == ds;
  }

  lemma NamesSnoc(ds: seq<Dump>, d: Dump)
    ensures forall f :: Names(ds + [d], f) <==> Names(ds, f) || f == d.facts.filename
  {
    forall f ensures Names(ds + [d], f) <==> Names(ds, f) || f == d.facts.filename {
      assert (ds + [d])[|ds|] == d;
      if Names(ds, f) {
        var i :| 0 <= i < |ds| && ds[i].facts.filename == f;
        assert (ds + [d])[i] == ds[i];
      }
    }
  }

  /** The budget is exceeded by less than one dump. */
  lemma KeptSize(ds: seq<Dump>, c: Config)
    requires 0 <= c.maxTotal && 0 <= c.maxSingle && forall d :: d in ds ==> d.facts.size <= c.maxSingle
    ensures DistinctSize(Kept(ds, c.maxTotal)) <= c.maxTotal + c.maxSingle
    ensures Kept(ds, c.maxTotal) != ds ==> DistinctSize(Kept(ds, c.maxTotal)) > c.maxTotal
  {
    var k := Cutoff(ds, c.maxTotal, 0);
    if k > 0 {
      assert ds[..k][..k - 1] == ds[..k - 1];
      assert ds[k - 1] in ds;
    }
    assert ds[..|ds|] == ds;
  }

  // ---------- Packing ----------

  datatype PackedFile = PackedFile(filename: string, baseAddress: int)

  /** One entry for each file, for the first dump that names it. */
  function Files(ds: seq<Dump>): seq<PackedFile> {
    if ds == [] then []
    else
      var d := ds[|ds| - 1];
      Files(ds[..|ds| - 1])
      + (if Names(ds[..|ds| - 1], d.facts.filename) then [] else [PackedFile(d.facts.filename, d.facts.address)])
  }

  function OfProcess(ds: seq<Dump>, seqid: nat): seq<Facts> {
    if ds == [] then []
    else
      var d := ds[|ds| - 1];
      OfProcess(ds[..|ds| - 1], seqid) + (if d.owner.seqid == seqid then [d.facts] else [])
  }

  lemma OneMorePacked(ds: seq<Dump>, i: nat)
    requires i < |ds|
    ensures forall f :: Names(ds[..i + 1], f) <==> Names(ds[..i], f) || f == ds[i].facts.filename
    ensures Files(ds[..i + 1]) == Files(ds[..i]) + (if Names(ds[..i], ds[i].facts.filename) then []
                                                    else [PackedFile(ds[i].facts.filename, ds[i].facts.address)])
    ensures forall p :: OfProcess(ds[..i + 1], p) ==
                          OfProcess(ds[..i], p) + (if ds[i].owner.seqid == p then [ds[i].facts] else [])
  {
    assert ds[..i + 1] == ds[..i] + [ds[i]] && ds[..i + 1][..i] == ds[..i];
    NamesSnoc(ds[..i], ds[i]);
  }

  method Pack(ds: seq<Dump>) returns (perProcess: map<nat, seq<Facts>>, files: seq<PackedFile>)
    ensures files == Files(ds)
    ensures forall p: nat :: p in perProcess <==> OfProcess(ds, p) != []
    ensures forall p: nat :: p in perProcess ==> perProcess[p] == OfProcess(ds, p)
  {
    perProcess, files := map[], [];
    var visited := {};
    for i := 0 to |ds|
      invariant forall f :: f in visited <==> Names(ds[..i], f)
      invariant files == Files(ds[..i])
      invariant forall p: nat :: (if p in perProcess then perProcess[p] else []) == OfProcess(ds[..i], p)
      invariant forall p :: p in perProcess ==> perProcess[p] != []
    {
      var p, f := ds[i].owner.seqid, ds[i].facts.filename;
      OneMorePacked(ds, i);
      perProcess := perProcess[p := (if p in perProcess then perProcess[p] else []) + [ds[i].facts]];
      if f !in visited {
        files := files + [PackedFile(f, ds[i].facts.address)];
        visited := visited + {f};
      }
    }
    assert ds[..|ds|] == ds;
  }

  datatype ProcessDumps = ProcessDumps(seqid: nat, dumps: seq<Facts>)

  datatype Output = Output(memdumps: seq<ProcessDumps>, files: seq<PackedFile>, emptyDirectory: bool)

  ghost predicate Ascending(report: seq<ProcessDumps>) {
    forall i, j :: 0 <= i < j < |report| ==> report[i].seqid < report[j].seqid
  }

  lemma {:induction false} Smallest(s: set<nat>) returns (m: nat)
    requires s != {}
    ensures m in s && forall x :: x in s ==> m <= x
    decreases |s|
  {
    m :| m in s;
    if s != {m} {
      var n := Smallest(s - {m});
      assert forall x :: x in s ==> x == m || x in s - {m};
      if n < m { m := n; }
    }
  }

  /** The lists in the order of the processes' numbers. */
  method Report(perProcess: map<nat, seq<Facts>>) returns (report: seq<ProcessDumps>)
    ensures Ascending(report)
    ensures forall r :: r in report <==> r.seqid in perProcess && r.dumps == perProcess[r.seqid]
  {
    report := [];
    var rest := perProcess.Keys;
    while rest != {}
      invariant rest <= perProcess.Keys && Ascending(report)
      invariant forall r :: r in report <==> r.seqid in perProcess.Keys - rest && r.dumps == perProcess[r.seqid]
      invariant forall r, p :: r in report && p in rest ==> r.seqid < p
      decreases |rest|
    {
      var _ := Smallest(rest);
      var p :| p in rest && forall q :: q in rest ==> p <= q;
      report := report + [ProcessDumps(p, perProcess[p])];
      rest := rest - {p};
    }
  }

  /** The dumps that are packed, in the order in which they are packed. */
  function Chosen(log: seq<Entry>, c: Config, folder: Folder): seq<Dump> {
    Sort(ByIndex, Kept(Sort(ByPriority, Counted(log, c, folder)), c.maxTotal))
  }

  /** From the log to the report and the archive. */
  method Process(log: seq<Entry>, c: Config, folder: Folder) returns (result: Option<Output>)
    ensures result.None? <==>
            exists i :: 0 <= i < |log| && log[i].owner.None?
              && log[i].facts.filename in folder.dumps && log[i].facts.index in folder.metadata
              && (c.filterOutSystemPid || c.minSingle <= log[i].facts.size <= c.maxSingle)
    ensures BestChosen(Counted(log, c, folder), Chosen(log, c, folder))
    ensures result.Some? ==> BaseAddresses(result.value.files, Chosen(log, c, folder))
    ensures result.Some? ==>
              && var ds := Chosen(log, c, folder);
              && result.value.files == Files(ds)
              && (result.value.emptyDirectory <==> ds == [])
              && Ascending(result.value.memdumps)
              && forall r :: r in result.value.memdumps <==> r.dumps != [] && r.dumps == OfProcess(ds, r.seqid)
  {
    AllLeftOut(log, c, folder);
    var filtered := Prefilter(log, c, folder);
    if filtered.None? {
      return None;
    }
    var kept := Select(Sort(ByPriority, filtered.value), c.maxTotal);
    var ds := Sort(ByIndex, kept);
    var perProcess, files := Pack(ds);
    var report := Report(perProcess);
    NoFiles(ds);
    FirstAddresses(log, c, folder);
    result := Some(Output(report, files, files == []));
  }

  /** The dump names the file, at that address, and no other one that does has a lower index. */
  ghost predicate FirstOf(p: PackedFile, d: Dump, ds: seq<Dump>) {
    && d in ds && d.facts.filename == p.filename && d.facts.address == p.baseAddress
    && forall x :: x in ds && x.facts.filename == p.filename ==> d.facts.index <= x.facts.index
  }

  /** Each file is entered with the address of a dump of lowest index among the chosen ones that name it. */
  ghost predicate BaseAddresses(files: seq<PackedFile>, ds: seq<Dump>) {
    forall p :: p in files ==> exists d :: FirstOf(p, d, ds)
  }

  lemma FirstAddresses(log: seq<Entry>, c: Config, folder: Folder)
    ensures BaseAddresses(Files(Chosen(log, c, folder)), Chosen(log, c, folder))
  {
    ChosenIsKept(log, c, folder);
    AddressesInOrder(Chosen(log, c, folder));
  }

  lemma LastIsLatest(ds: seq<Dump>)
    requires Sorted(ByIndex, ds) && ds != []
    ensures forall x :: x in ds ==> x.facts.index <= ds[|ds| - 1].facts.index
  {
    forall i | 0 <= i < |ds| - 1 ensures ds[i].facts.index <= ds[|ds| - 1].facts.index {
      assert NotAfter(ByIndex(ds[i]), ByIndex(ds[|ds| - 1]));
    }
  }

  lemma {:induction false} AddressesInOrder(ds: seq<Dump>)
    requires Sorted(ByIndex, ds)
    ensures BaseAddresses(Files(ds), ds)
  {
    if ds != [] {
      var before, last := ds[..|ds| - 1], ds[|ds| - 1];
      AddressesInOrder(before);
      LastIsLatest(ds);
      assert ds == before + [last];
      forall p | p in Files(ds) ensures exists d :: FirstOf(p, d, ds) {
        if p in Files(before) {
          var d :| FirstOf(p, d, before);
          assert FirstOf(p, d, ds);
        } else {
          assert p == PackedFile(last.facts.filename, last.facts.address);
          NamesInSet(before, last.facts.filename);
          assert FirstOf(p, last, ds);
        }
      }
    }
  }

  lemma NoFiles(ds: seq<Dump>)
    ensures Files(ds) == [] <==> ds == []
  {
    if ds != [] {
      assert Files(ds[..1]) == [PackedFile(ds[0].facts.filename, ds[0].facts.address)];
      FilesGrow(ds, 1);
    }
  }

  lemma {:induction false} FilesGrow(ds: seq<Dump>, k: nat)
    requires k <= |ds|
    ensures Files(ds[..k]) <= Files(ds)
  {
    if k == |ds| {
      assert ds[..k] == ds;
    } else {
      var n := |ds| - 1;
      assert ds[..n][..k] == ds[..k];
      FilesGrow(ds[..n], k);
    }
  }

  // ---------- What the selection promises ----------

  lemma {:induction false} CountedFits(log: seq<Entry>, c: Config, folder: Folder, d: Dump)
    requires d in Counted(log, c, folder)
    ensures c.minSingle <= d.facts.size <= c.maxSingle
    ensures c.filterOutSystemPid ==> d.owner.pid != SYSTEM_PID
  {
    if log != [] && d in Counted(log[..|log| - 1], c, folder) {
      CountedFits(log[..|log| - 1], c, folder, d);
    }
  }

  lemma ChosenIsKept(log: seq<Entry>, c: Config, folder: Folder)
    ensures var sorted := Sort(ByPriority, Counted(log, c, folder));
            && multiset(Chosen(log, c, folder)) == multiset(Kept(sorted, c.maxTotal))
            && multiset(sorted) == multiset(Counted(log, c, folder))
            && Sorted(ByPriority, sorted)
            && Sorted(ByIndex, Chosen(log, c, folder))
  {
    SortExact(ByPriority, Counted(log, c, folder));
    SortExact(ByIndex, Kept(Sort(ByPriority, Counted(log, c, folder)), c.maxTotal));
  }

  lemma SameMembers(a: seq<Dump>, b: seq<Dump>, d: Dump)
    requires multiset(a) == multiset(b)
    ensures d in a <==> d in b
  {
    assert d in a <==> d in multiset(a);
    assert d in b <==> d in multiset(b);
  }

  /** An earlier copy of its region, or as early a one with a lower or the same index. */
  predicate Preferred(x: Dump, d: Dump) {
    x.occurrence < d.occurrence || (x.occurrence == d.occurrence && x.facts.index <= d.facts.index)
  }

  /**
   A dump that passes the pre-filter is left out only when the budget is used up, and never in
   favour of a later copy.
   */
  lemma LeftOut(log: seq<Entry>, c: Config, folder: Folder, d: Dump)
    requires d in Counted(log, c, folder) && d !in Chosen(log, c, folder)
    ensures DistinctSize(Kept(Sort(ByPriority, Counted(log, c, folder)), c.maxTotal)) > c.maxTotal
    ensures forall x :: x in Chosen(log, c, folder) ==> Preferred(x, d)
  {
    var sorted := Sort(ByPriority, Counted(log, c, folder));
    var k := Cutoff(sorted, c.maxTotal, 0);
    ChosenIsKept(log, c, folder);
    SameMembers(sorted, Counted(log, c, folder), d);
    SameMembers(Chosen(log, c, folder), sorted[..k], d);
    assert forall i :: 0 <= i < k ==> sorted[..k][i] == sorted[i];
    var j :| 0 <= j < |sorted| && sorted[j] == d;
    forall x | x in Chosen(log, c, folder) ensures Preferred(x, d) {
      SameMembers(Chosen(log, c, folder), sorted[..k], x);
      var i :| 0 <= i < k && sorted[..k][i] == x;
      assert sorted[i] == x;
      assert NotAfter(ByPriority(sorted[i]), ByPriority(sorted[j]));
    }
  }

  /** What is chosen is preferred to all that is not. */
  ghost predicate BestChosen(counted: seq<Dump>, chosen: seq<Dump>) {
    forall d, x :: d in counted && d !in chosen && x in chosen ==> Preferred(x, d)
  }

  lemma AllLeftOut(log: seq<Entry>, c: Config, folder: Folder)
    ensures BestChosen(Counted(log, c, folder), Chosen(log, c, folder))
  {
    forall d | d in Counted(log, c, folder) && d !in Chosen(log, c, folder)
      ensures forall x :: x in Chosen(log, c, folder) ==> Preferred(x, d)
    {
      LeftOut(log, c, folder, d);
    }
  }

  /** With a copy of a region all its earlier copies are kept. */
  lemma EarlierCopiesKept(log: seq<Entry>, c: Config, folder: Folder, d: Dump, n: nat) returns (x: Dump)
    requires d in Chosen(log, c, folder) && 1 <= n < d.occurrence
    ensures x in Chosen(log, c, folder) && RegionOf(x) == RegionOf(d) && x.occurrence == n
  {
    var sorted := Sort(ByPriority, Counted(log, c, folder));
    var k := Cutoff(sorted, c.maxTotal, 0);
    ChosenIsKept(log, c, folder);
    SameMembers(Chosen(log, c, folder), sorted[..k], d);
    assert d in sorted;
    SameMembers(sorted, Counted(log, c, folder), d);
    var mine := OfRegion(Counted(log, c, folder), RegionOf(d));
    OfRegionMember(Counted(log, c, folder), RegionOf(d), d);
    RegionNumbered(log, c, folder, RegionOf(d));
    var at :| 0 <= at < |mine| && mine[at] == d;
    x := mine[n - 1];
    OfRegionMember(Counted(log, c, folder), RegionOf(d), x);
    if x !in Chosen(log, c, folder) {
      LeftOut(log, c, folder, x);
    }
  }

  // ---------- The size of the archive ----------

  function NameSet(ds: seq<Dump>): set<string> {
    set d | d in ds :: d.facts.filename
  }

  /** The bytes of a set of files. */
  ghost function SizeOf(names: set<string>, sizes: map<string, nat>): nat
    requires names <= sizes.Keys
  {
    if names == {} then 0 else
      var f :| f in names;
      sizes[f] + SizeOf(names - {f}, sizes)
  }

  lemma {:induction false} SizeOfAdd(names: set<string>, f: string, sizes: map<string, nat>)
    requires names <= sizes.Keys && f in sizes && f !in names
    ensures SizeOf(names + {f}, sizes) == SizeOf(names, sizes) + sizes[f]
    decreases names
  {
    var all := names + {f};
    var g :| g in all && SizeOf(all, sizes) == sizes[g] + SizeOf(all - {g}, sizes);
    if g == f {
      assert all - {g} == names;
    } else {
      assert all - {g} == (names - {g}) + {f};
      SizeOfAdd(names - {g}, f, sizes);
      assert (names - {g}) + {g} == names;
      SizeOfAdd(names - {g}, g, sizes);
    }
  }

  /** The sizes in the log are those of the files. */
  ghost predicate TrueSizes(ds: seq<Dump>, sizes: map<string, nat>) {
    forall d :: d in ds ==> d.facts.filename in sizes && sizes[d.facts.filename] == d.facts.size
  }

  lemma {:induction false} DistinctSizeExact(ds: seq<Dump>, sizes: map<string, nat>)
    requires TrueSizes(ds, sizes)
    ensures NameSet(ds) <= sizes.Keys && DistinctSize(ds) == SizeOf(NameSet(ds), sizes)
  {
    if ds != [] {
      var before, d := ds[..|ds| - 1], ds[|ds| - 1];
      DistinctSizeExact(before, sizes);
      assert ds == before + [d] && d in ds;
      assert NameSet(ds) == NameSet(before) + {d.facts.filename};
      NamesInSet(before, d.facts.filename);
      if Names(before, d.facts.filename) {
        assert NameSet(ds) == NameSet(before);
      } else {
        SizeOfAdd(NameSet(before), d.facts.filename, sizes);
      }
    }
  }

  lemma NamesInSet(ds: seq<Dump>, f: string)
    ensures Names(ds, f) <==> f in NameSet(ds)
  {
    if Names(ds, f) {
      var i :| 0 <= i < |ds| && ds[i].facts.filename == f;
      assert ds[i] in ds;
    }
  }

  /** The archive holds exactly the files of the chosen dumps, each once. */
  lemma {:induction false} FilesExact(ds: seq<Dump>)
    ensures forall i, j :: 0 <= i < j < |Files(ds)| ==> Files(ds)[i].filename != Files(ds)[j].filename
    ensures (set p | p in Files(ds) :: p.filename) == NameSet(ds)
  {
    if ds != [] {
      var before, d := ds[..|ds| - 1], ds[|ds| - 1];
      FilesExact(before);
      assert ds == before + [d];
      assert NameSet(ds) == NameSet(before) + {d.facts.filename};
      NamesInSet(before, d.facts.filename);
      var files := Files(before);
      if Names(before, d.facts.filename) {
        assert Files(ds) == files;
      } else {
        var p := PackedFile(d.facts.filename, d.facts.address);
        assert Files(ds) == files + [p];
        assert forall x :: x in files ==> x.filename in NameSet(before);
        assert forall i :: 0 <= i < |files| ==> files[i] in files;
        assert (set x | x in files + [p] :: x.filename) == (set x | x in files :: x.filename) + {p.filename};
      }
    }
  }

  /** The archive exceeds the budget by at most one dump. */
  lemma ArchiveWithinBudget(log: seq<Entry>, c: Config, folder: Folder, sizes: map<string, nat>)
    requires 0 <= c.maxTotal && 0 <= c.maxSingle && TrueSizes(Counted(log, c, folder), sizes)
    ensures var names := set p | p in Files(Chosen(log, c, folder)) :: p.filename;
            names <= sizes.Keys && SizeOf(names, sizes) <= c.maxTotal + c.maxSingle
  {
    var counted := Counted(log, c, folder);
    var sorted := Sort(ByPriority, counted);
    var kept, chosen := Kept(sorted, c.maxTotal), Chosen(log, c, folder);
    ChosenIsKept(log, c, folder);
    forall d | d in sorted ensures d in counted && d.facts.size <= c.maxSingle {
      SameMembers(sorted, counted, d);
      CountedFits(log, c, folder, d);
    }
    KeptSize(sorted, c);
    forall d ensures d in chosen <==> d in kept {
      SameMembers(chosen, kept, d);
    }
    assert NameSet(chosen) == NameSet(kept);
    assert forall d :: d in kept ==> d in sorted;
    DistinctSizeExact(kept, sizes);
    FilesExact(chosen);
  }

  // ---------- The report ----------

  lemma {:induction false} OfProcessMember(ds: seq<Dump>, p: nat, f: Facts)
    ensures f in OfProcess(ds, p) <==> exists d :: d in ds && d.owner.seqid == p && d.facts == f
  {
    if ds != [] {
      var before, last := ds[..|ds| - 1], ds[|ds| - 1];
      OfProcessMember(before, p, f);
      assert ds == before + [last];
      if last.owner.seqid == p && last.facts == f {
        assert last in ds;
      }
    }
  }

  ghost predicate InIndexOrder(fs: seq<Facts>) {
    forall i, j :: 0 <= i < j < |fs| ==> fs[i].index <= fs[j].index
  }

  /** The dumps of a process are reported in the order of their indices. */
  lemma {:induction false} ReportedInOrder(ds: seq<Dump>, p: nat)
    requires Sorted(ByIndex, ds)
    ensures InIndexOrder(OfProcess(ds, p))
  {
    if ds != [] {
      var before, last := ds[..|ds| - 1], ds[|ds| - 1];
      ReportedInOrder(before, p);
      forall f | f in OfProcess(before, p) ensures f.index <= last.facts.index {
        OfProcessMember(before, p, f);
        var i :| 0 <= i < |before| && before[i].facts == f;
        assert NotAfter(ByIndex(ds[i]), ByIndex(last));
      }
    }
  }

  function Lengths(ps: seq<nat>, ds: seq<Dump>): nat {
    if ps == [] then 0 else Lengths(ps[1..], ds) + |OfProcess(ds, ps[0])|
  }

  lemma {:induction false} LengthsSnoc(ps: seq<nat>, ds: seq<Dump>, d: Dump)
    requires Distinct(ps)
    ensures Lengths(ps, ds + [d]) == Lengths(ps, ds) + (if d.owner.seqid in ps then 1 else 0)
  {
    if ps != [] {
      assert (ds + [d])[..|ds|] == ds;
      LengthsSnoc(ps[1..], ds, d);
      assert ps[0] !in ps[1..];
    }
  }

  lemma {:induction false} LengthsAll(ps: seq<nat>, ds: seq<Dump>)
    requires Distinct(ps) && forall d :: d in ds ==> d.owner.seqid in ps
    ensures Lengths(ps, ds) == |ds|
  {
    if ds == [] {
      LengthsNone(ps);
    } else {
      var n := |ds| - 1;
      assert ds == ds[..n] + [ds[n]] && ds[n] in ds;
      LengthsAll(ps, ds[..n]);
      LengthsSnoc(ps, ds[..n], ds[n]);
    }
  }

  lemma {:induction false} LengthsNone(ps: seq<nat>)
    ensures Lengths(ps, []) == 0
  {
    if ps != [] { LengthsNone(ps[1..]); }
  }

  function Total(report: seq<ProcessDumps>): nat {
    if report == [] then 0 else Total(report[1..]) + |report[0].dumps|
  }

  lemma {:induction false} TotalIsLengths(report: seq<ProcessDumps>, ps: seq<nat>, ds: seq<Dump>)
    requires |ps| == |report|
    requires forall i :: 0 <= i < |report| ==> report[i].seqid == ps[i] && report[i].dumps == OfProcess(ds, ps[i])
    ensures Total(report) == Lengths(ps, ds)
  {
    if report != [] { TotalIsLengths(report[1..], ps[1..], ds); }
  }

  /** No chosen dump is missing in the report, and none is reported twice. */
  lemma NoneLost(report: seq<ProcessDumps>, ds: seq<Dump>)
    requires Ascending(report)
    requires forall r :: r in report <==> r.dumps != [] && r.dumps == OfProcess(ds, r.seqid)
    ensures Total(report) == |ds|
    ensures forall d :: d in ds ==> exists r :: r in report && r.seqid == d.owner.seqid && d.facts in r.dumps
  {
    var ps := seq(|report|, i requires 0 <= i < |report| => report[i].seqid);
    forall d | d in ds ensures exists r :: r in report && r.seqid == d.owner.seqid && d.facts in r.dumps {
      OfProcessMember(ds, d.owner.seqid, d.facts);
      assert ProcessDumps(d.owner.seqid, OfProcess(ds, d.owner.seqid)) in report;
    }
    forall d | d in ds ensures d.owner.seqid in ps {
      var i :| 0 <= i < |report| && report[i].seqid == d.owner.seqid;
      assert ps[i] == d.owner.seqid;
    }
    TotalIsLengths(report, ps, ds);
    LengthsAll(ps, ds);
  }
}
