/**
 index_log_file (drakrun/analyzer/postprocessing/indexer.py) and the filter of process_logs
 (drakrun/web/api.py): which bytes of a log belong to a process, by method.
 */
module LogIndex {
  import opened Common
  import opened ProcessTree
  import opened ScatteredRead

  // ---------- The log ----------

  datatype EventUid = Missing | Malformed | Uid(id: int)

  /** What matters of a parsed line. */
  datatype LogEntry = Unparsable | LogEntry(pid: Option<int>, uid: EventUid, apiName: Option<string>)

  datatype LogLine = LogLine(text: Bytes, entry: LogEntry)

  /** A log read line by line: no line is empty. */
  ghost predicate IsLog(lines: seq<LogLine>) {
    forall i :: 0 <= i < |lines| ==> lines[i].text != []
  }

  /** The first k lines as they stand in the file. */
  function Text(lines: seq<LogLine>, k: nat): Bytes
    requires k <= |lines|
  {
    if k == 0 then [] else Text(lines, k - 1) + lines[k - 1].text
  }

  function Content(lines: seq<LogLine>): Bytes {
    Text(lines, |lines|)
  }

  /** The process and the event a line names, if it names both in a usable way. */
  function Subject(line: LogLine): Option<(int, int)> {
    match line.entry
    case Unparsable => None
    case LogEntry(pid, uid, _) =>
      if pid.None? || pid.value == 0 || !uid.Uid? then None else Some((pid.value, uid.id))
  }

  function MethodOf(line: LogLine): Option<string> {
    if line.entry.LogEntry? then line.entry.apiName else None
  }

  // ---------- Attribution ----------

  /** The process last seen for each PID. */
  type Cache = map<int, nat>

  ghost predicate CacheValid(t: Tree, cache: Cache) {
    forall pid :: pid in cache ==> cache[pid] < |t|
  }

  /** The cached process counts until an event lies past its end. */
  predicate Fresh(t: Tree, cache: Cache, pid: int, evtid: int)
    requires CacheValid(t, cache)
  {
    pid in cache && (IsOpen(t[cache[pid]].info) || evtid <= t[cache[pid]].info.evtidTo.value)
  }

  function CachedLookup(t: Tree, cache: Cache, pid: int, evtid: int): (r: Option<nat>)
    requires CacheValid(t, cache)
    ensures r.Some? ==> r.value < |t|
  {
    if Fresh(t, cache, pid, evtid) then Some(cache[pid]) else GetProcessForEvtid(t, pid, evtid)
  }

  function Attribute(t: Tree, cache: Cache, line: LogLine): (r: Option<nat>)
    requires CacheValid(t, cache)
    ensures r.Some? ==> r.value < |t|
  {
    match Subject(line)
    case None => None
    case Some((pid, evtid)) => CachedLookup(t, cache, pid, evtid)
  }

  function Remember(t: Tree, cache: Cache, line: LogLine): (r: Cache)
    requires CacheValid(t, cache)
    ensures CacheValid(t, r)
  {
    var owner := Attribute(t, cache, line);
    if owner.Some? then cache[Subject(line).value.0 := owner.value] else cache
  }

  /** The cache before line k. */
  function CacheAt(t: Tree, lines: seq<LogLine>, k: nat): (r: Cache)
    requires k <= |lines|
    ensures CacheValid(t, r)
  {
    if k == 0 then map[] else Remember(t, CacheAt(t, lines, k - 1), lines[k - 1])
  }

  /** The process line i is attributed to. */
  function Owner(t: Tree, lines: seq<LogLine>, i: nat): (r: Option<nat>)
    requires i < |lines|
    ensures r.Some? ==> r.value < |t|
  {
    Attribute(t, CacheAt(t, lines, i), lines[i])
  }

  // ---------- The index ----------

  datatype IndexEntry = IndexEntry(blocks: seq<Block>, values: seq<Option<string>>, mapping: seq<nat>)

  const NO_ENTRY: IndexEntry := IndexEntry([], [], [])

  /** The first place of x in s; |s| when there is none. */
  function IndexOf<T(==)>(s: seq<T>, x: T): (r: nat)
    ensures r <= |s| && x !in s[..r]
    ensures r < |s| ==> s[r] == x
    ensures r < |s| <==> x in s
  {
    if s == [] then 0
    else if s[0] == x then 0
    else
      assert s == [s[0]] + s[1..];
      1 + IndexOf(s[1..], x)
  }

  predicate Parallel(e: IndexEntry) {
    |e.mapping| == |e.blocks| && forall i :: 0 <= i < |e.mapping| ==> e.mapping[i] < |e.values|
  }

  /** A line joins the last block when it follows it immediately and has the same method. */
  function AddLine(e: IndexEntry, start: nat, end: nat, apiName: Option<string>): (r: IndexEntry)
    requires Parallel(e)
    ensures Parallel(r)
  {
    var valueIndex := IndexOf(e.values, apiName);
    var values := if valueIndex == |e.values| then e.values + [apiName] else e.values;
    var last := |e.blocks| - 1;
    if last >= 0 && start == e.blocks[last].end && e.mapping[last] == valueIndex then
      IndexEntry(e.blocks[last := e.blocks[last].(end := end)], values, e.mapping)
    else
      IndexEntry(e.blocks + [Block(start, end)], values, e.mapping + [valueIndex])
  }

  // ---------- What an index entry means ----------

  /** No filter admits every line; a filter admits the methods it lists. */
  predicate Matches(filter: seq<string>, apiName: Option<string>) {
    filter == [] || (apiName.Some? && apiName.value in filter)
  }

  /** Of the first k lines, those of process s whose method passes the filter, in file order. */
  function SelectedText(t: Tree, lines: seq<LogLine>, s: nat, filter: seq<string>, k: nat): Bytes
    requires k <= |lines|
  {
    if k == 0 then []
    else
      var chosen := Owner(t, lines, k - 1) == Some(s) && Matches(filter, MethodOf(lines[k - 1]));
      SelectedText(t, lines, s, filter, k - 1) + (if chosen then lines[k - 1].text else [])
  }

  /** The methods of the process's lines in the order in which they were first seen. */
  function MethodsSeen(t: Tree, lines: seq<LogLine>, s: nat, k: nat): (r: seq<Option<string>>)
    requires k <= |lines|
    ensures Distinct(r)
  {
    if k == 0 then []
    else
      var seen := MethodsSeen(t, lines, s, k - 1);
      var apiName := MethodOf(lines[k - 1]);
      if Owner(t, lines, k - 1) == Some(s) && apiName !in seen then seen + [apiName] else seen
  }

  /** The bytes of the first n blocks that pass the filter. */
  function ChosenText(content: Bytes, e: IndexEntry, filter: seq<string>, n: nat): Bytes
    requires Parallel(e) && BlocksWithin(e.blocks, |content|) && n <= |e.blocks|
  {
    if n == 0 then []
    else
      var b := e.blocks[n - 1];
      ChosenText(content, e, filter, n - 1) +
      (if Matches(filter, e.values[e.mapping[n - 1]]) then content[b.start..b.end] else [])
  }

  /** Blocks are nonempty, in file order, disjoint, and as long as possible. */
  ghost predicate Coalesced(e: IndexEntry, size: nat)
    requires Parallel(e)
  {
    && (forall i :: 0 <= i < |e.blocks| ==> e.blocks[i].start < e.blocks[i].end <= size)
    && (forall i, j :: 0 <= i < j < |e.blocks| ==> e.blocks[i].end <= e.blocks[j].start)
    && (forall i, j :: 0 <= i && j == i + 1 < |e.blocks| && e.blocks[i].end == e.blocks[j].start ==>
          e.mapping[i] != e.mapping[j])
  }

  /** The entry says, for every filter, which bytes of the first k lines belong to process s. */
  ghost predicate Indexes(e: IndexEntry, t: Tree, lines: seq<LogLine>, s: nat, k: nat)
    requires k <= |lines|
  {
    && Parallel(e) && Coalesced(e, |Text(lines, k)|)
    && e.values == MethodsSeen(t, lines, s, k)
    && forall filter :: Serves(e, t, lines, s, k, filter)
  }

  ghost predicate Serves(e: IndexEntry, t: Tree, lines: seq<LogLine>, s: nat, k: nat, filter: seq<string>)
    requires k <= |lines| && Parallel(e) && BlocksWithin(e.blocks, |Text(lines, k)|)
  {
    ChosenText(Text(lines, k), e, filter, |e.blocks|) == SelectedText(t, lines, s, filter, k)
  }

  lemma {:induction false} ChosenPrefix(c: Bytes, d: Bytes, e: IndexEntry, f: IndexEntry, filter: seq<string>, n: nat)
    requires Parallel(e) && BlocksWithin(e.blocks, |c|) && n <= |e.blocks|
    requires Parallel(f) && BlocksWithin(f.blocks, |d|) && n <= |f.blocks|
    requires c <= d
    requires e.values <= f.values
    requires forall i :: 0 <= i < n ==> e.blocks[i] == f.blocks[i] && e.mapping[i] == f.mapping[i]
    ensures ChosenText(c, e, filter, n) == ChosenText(d, f, filter, n)
  {
    if n > 0 {
      ChosenPrefix(c, d, e, f, filter, n - 1);
      var b := e.blocks[n - 1];
      assert c[b.start..b.end] == d[b.start..b.end];
    }
  }

  /** A line of another process changes nothing. */
  lemma OtherLine(e: IndexEntry, t: Tree, lines: seq<LogLine>, s: nat, k: nat)
    requires k < |lines| && Indexes(e, t, lines, s, k) && Owner(t, lines, k) != Some(s)
    ensures Indexes(e, t, lines, s, k + 1)
  {
    var next := k + 1;
    forall filter ensures Serves(e, t, lines, s, next, filter) {
      ChosenPrefix(Text(lines, k), Text(lines, k + 1), e, e, filter, |e.blocks|);
      assert Serves(e, t, lines, s, k, filter);
    }
  }

  lemma AddLineCoalesced(e: IndexEntry, start: nat, end: nat, apiName: Option<string>)
    requires Parallel(e) && Coalesced(e, start) && start < end
    ensures Coalesced(AddLine(e, start, end, apiName), end)
  {
  }

  /** r is e with a new last block, or with a longer one; everything before it stays. */
  ghost predicate Grown(e: IndexEntry, r: IndexEntry, start: nat, end: nat, apiName: Option<string>)
    requires Parallel(e) && Parallel(r)
  {
    var n := |r.blocks| - 1;
    && e.values <= r.values && 0 <= n <= |e.blocks| && r.values[r.mapping[n]] == apiName
    && (forall i :: 0 <= i < n ==> e.blocks[i] == r.blocks[i] && e.mapping[i] == r.mapping[i])
    && if n == |e.blocks| then r.blocks[n] == Block(start, end)
       else
         && n == |e.blocks| - 1 && e.blocks[n].end == start
         && r.blocks[n] == Block(e.blocks[n].start, end)
         && e.values[e.mapping[n]] == apiName
  }

  lemma AddLineGrows(e: IndexEntry, start: nat, end: nat, apiName: Option<string>)
    requires Parallel(e)
    ensures Grown(e, AddLine(e, start, end, apiName), start, end, apiName)
  {
  }

  /** The two texts of the last block alone. */
  ghost predicate LastText(content: Bytes, e: IndexEntry, filter: seq<string>, n: nat, before: Bytes,
                           apiName: Option<string>, added: Bytes)
    requires Parallel(e) && BlocksWithin(e.blocks, |content|) && n < |e.blocks|
  {
    ChosenText(content, e, filter, n + 1) == if Matches(filter, apiName) then before + added else before
  }

  lemma LastChosen(content: Bytes, e: IndexEntry, filter: seq<string>, n: nat)
    requires Parallel(e) && BlocksWithin(e.blocks, |content|) && n < |e.blocks|
    ensures LastText(content, e, filter, n, ChosenText(content, e, filter, n), e.values[e.mapping[n]],
                     content[e.blocks[n].start..e.blocks[n].end])
  {
  }

  lemma NewBlock(e: IndexEntry, r: IndexEntry, content: Bytes, line: Bytes, apiName: Option<string>,
                 filter: seq<string>)
    requires Parallel(e) && BlocksWithin(e.blocks, |content|)
    requires Parallel(r) && BlocksWithin(r.blocks, |content + line|)
    requires Grown(e, r, |content|, |content + line|, apiName) && |r.blocks| == |e.blocks| + 1
    ensures LastText(content + line, r, filter, |e.blocks|, ChosenText(content, e, filter, |e.blocks|), apiName, line)
  {
    var n := |e.blocks|;
    ChosenPrefix(content, content + line, e, r, filter, n);
    LastChosen(content + line, r, filter, n);
    assert (content + line)[|content|..|content + line|] == line;
  }

  lemma LongerBlock(e: IndexEntry, r: IndexEntry, content: Bytes, line: Bytes, apiName: Option<string>,
                    filter: seq<string>)
    requires Parallel(e) && BlocksWithin(e.blocks, |content|)
    requires Parallel(r) && BlocksWithin(r.blocks, |content + line|)
    requires Grown(e, r, |content|, |content + line|, apiName) && |r.blocks| == |e.blocks|
    ensures LastText(content + line, r, filter, |e.blocks| - 1, ChosenText(content, e, filter, |e.blocks|), apiName,
                     line)
  {
    var n := |e.blocks| - 1;
    var before, o := ChosenText(content, e, filter, n), e.blocks[n];
    ChosenPrefix(content, content + line, e, r, filter, n);
    LastChosen(content, e, filter, n);
    LastChosen(content + line, r, filter, n);
    assert (content + line)[o.start..|content + line|] == content[o.start..o.end] + line;
    assert before + (content[o.start..o.end] + line) == (before + content[o.start..o.end]) + line;
  }

  /** A line of the process adds its bytes under its method. */
  lemma AddLineText(e: IndexEntry, content: Bytes, line: Bytes, apiName: Option<string>, filter: seq<string>)
    requires Parallel(e) && Coalesced(e, |content|) && line != []
    ensures var r := AddLine(e, |content|, |content + line|, apiName);
            && BlocksWithin(r.blocks, |content + line|)
            && ChosenText(content + line, r, filter, |r.blocks|)
               == ChosenText(content, e, filter, |e.blocks|) + (if Matches(filter, apiName) then line else [])
  {
    AddLineCoalesced(e, |content|, |content + line|, apiName);
    AddLineGrows(e, |content|, |content + line|, apiName);
    var r := AddLine(e, |content|, |content + line|, apiName);
    if |r.blocks| == |e.blocks| {
      LongerBlock(e, r, content, line, apiName, filter);
    } else {
      NewBlock(e, r, content, line, apiName, filter);
    }
  }

  lemma OwnLine(e: IndexEntry, t: Tree, lines: seq<LogLine>, s: nat, k: nat)
    requires IsLog(lines) && k < |lines| && Indexes(e, t, lines, s, k) && Owner(t, lines, k) == Some(s)
    ensures Indexes(AddLine(e, |Text(lines, k)|, |Text(lines, k + 1)|, MethodOf(lines[k])), t, lines, s, k + 1)
  {
    var start, end, apiName := |Text(lines, k)|, |Text(lines, k + 1)|, MethodOf(lines[k]);
    AddLineCoalesced(e, start, end, apiName);
    var next := k + 1;
    forall filter ensures Serves(AddLine(e, start, end, apiName), t, lines, s, next, filter) {
      assert Serves(e, t, lines, s, k, filter);
      OwnLineServed(e, t, lines, s, k, filter);
    }
    OwnLineSeen(e, t, lines, s, k, start, end);
  }

  lemma OwnLineSeen(e: IndexEntry, t: Tree, lines: seq<LogLine>, s: nat, k: nat, start: nat, end: nat)
    requires k < |lines| && Parallel(e) && e.values == MethodsSeen(t, lines, s, k) && Owner(t, lines, k) == Some(s)
    ensures AddLine(e, start, end, MethodOf(lines[k])).values == MethodsSeen(t, lines, s, k + 1)
  {
  }

  lemma OwnLineServed(e: IndexEntry, t: Tree, lines: seq<LogLine>, s: nat, k: nat, filter: seq<string>)
    requires IsLog(lines) && k < |lines| && Owner(t, lines, k) == Some(s)
    requires Parallel(e) && Coalesced(e, |Text(lines, k)|) && Serves(e, t, lines, s, k, filter)
    ensures var r := AddLine(e, |Text(lines, k)|, |Text(lines, k + 1)|, MethodOf(lines[k]));
            BlocksWithin(r.blocks, |Text(lines, k + 1)|) && Serves(r, t, lines, s, k + 1, filter)
  {
    AddLineText(e, Text(lines, k), lines[k].text, MethodOf(lines[k]), filter);
  }

  // ---------- The loop ----------

  function EntryOf(index: map<nat, IndexEntry>, s: nat): IndexEntry {
    if s in index then index[s] else NO_ENTRY
  }

  ghost predicate OwnsLine(t: Tree, lines: seq<LogLine>, s: nat, k: nat)
    requires k <= |lines|
  {
    exists i: nat :: i < k && Owner(t, lines, i) == Some(s)
  }

  /** Exactly the processes that own one of the first k lines are indexed, and rightly so. */
  ghost predicate Indexed(index: map<nat, IndexEntry>, t: Tree, lines: seq<LogLine>, k: nat)
    requires k <= |lines|
  {
    && (forall s: nat :: Indexes(EntryOf(index, s), t, lines, s, k))
    && (forall s: nat :: s in index <==> OwnsLine(t, lines, s, k))
  }

  method IndexLogFile(lines: seq<LogLine>, t: Tree) returns (index: map<nat, IndexEntry>)
    requires IsLog(lines)
    ensures Indexed(index, t, lines, |lines|)
  {
    index := map[];
    var processes: Cache := map[];
    var position: nat := 0;
    NothingIndexed(t, lines);
    for k := 0 to |lines|
      invariant position == |Text(lines, k)|
      invariant processes == CacheAt(t, lines, k)
      invariant Indexed(index, t, lines, k)
    {
      var dataStart := position;
      position := position + |lines[k].text|;
      var owner := Attribute(t, processes, lines[k]);
      processes := Remember(t, processes, lines[k]);
      LineIndexed(index, t, lines, k);
      if owner.Some? {
        assert Indexes(EntryOf(index, owner.value), t, lines, owner.value, k);
        var entry := EntryOf(index, owner.value);
        index := index[owner.value := AddLine(entry, dataStart, position, MethodOf(lines[k]))];
      }
    }
  }

  lemma NothingIndexed(t: Tree, lines: seq<LogLine>)
    ensures Indexed(map[], t, lines, 0)
  {
    forall s: nat ensures Indexes(EntryOf(map[], s), t, lines, s, 0) {
      forall filter ensures Serves(NO_ENTRY, t, lines, s, 0, filter) {
      }
    }
  }

  lemma LineIndexed(index: map<nat, IndexEntry>, t: Tree, lines: seq<LogLine>, k: nat)
    requires IsLog(lines) && k < |lines| && Indexed(index, t, lines, k)
    ensures var owner := Owner(t, lines, k);
            if owner.None? then Indexed(index, t, lines, k + 1)
            else
              var entry := EntryOf(index, owner.value);
              && Parallel(entry)
              && Indexed(index[owner.value :=
                             AddLine(entry, |Text(lines, k)|, |Text(lines, k + 1)|, MethodOf(lines[k]))],
                         t, lines, k + 1)
  {
    var owner := Owner(t, lines, k);
    var next := index;
    if owner.Some? {
      var entry := EntryOf(index, owner.value);
      assert Indexes(entry, t, lines, owner.value, k);
      next := index[owner.value := AddLine(entry, |Text(lines, k)|, |Text(lines, k + 1)|, MethodOf(lines[k]))];
    }
    forall s: nat ensures Indexes(EntryOf(next, s), t, lines, s, k + 1) {
      assert Indexes(EntryOf(index, s), t, lines, s, k);
      if owner == Some(s) {
        OwnLine(EntryOf(index, s), t, lines, s, k);
      } else {
        OtherLine(EntryOf(index, s), t, lines, s, k);
      }
    }
    forall s: nat ensures s in next <==> OwnsLine(t, lines, s, k + 1) {
      OwnsOneMore(t, lines, s, k);
    }
  }

  lemma OwnsOneMore(t: Tree, lines: seq<LogLine>, s: nat, k: nat)
    requires k < |lines|
    ensures OwnsLine(t, lines, s, k + 1) <==> OwnsLine(t, lines, s, k) || Owner(t, lines, k) == Some(s)
  {
    if OwnsLine(t, lines, s, k) {
      var i: nat :| i < k && Owner(t, lines, i) == Some(s);
    }
  }

  // ---------- Filters ----------

  /** The numbers of the filter's methods, as process_logs looks them up. */
  function FilterIndices(values: seq<Option<string>>, filter: seq<string>): (r: seq<nat>)
  {
    if filter == [] then []
    else
      (if Some(filter[0]) in values then [IndexOf(values, Some(filter[0]))] else [])
      + FilterIndices(values, filter[1..])
  }

  /** Of the first n blocks, those whose number is in the list. */
  function PickBlocks(blocks: seq<Block>, mapping: seq<nat>, indices: seq<nat>, n: nat): seq<Block>
    requires n <= |blocks| && n <= |mapping|
  {
    if n == 0 then []
    else
      PickBlocks(blocks, mapping, indices, n - 1) + (if mapping[n - 1] in indices then [blocks[n - 1]] else [])
  }

  /** What process_logs reads: every block without a filter, the blocks of the filter's methods otherwise. */
  function FilterBlocks(e: IndexEntry, filter: seq<string>): seq<Block> {
    if filter == [] then e.blocks
    else PickBlocks(e.blocks, e.mapping, FilterIndices(e.values, filter), Min(|e.blocks|, |e.mapping|))
  }

  lemma {:induction false} FilterIndicesExact(values: seq<Option<string>>, filter: seq<string>, m: nat)
    requires Distinct(values) && m < |values|
    ensures m in FilterIndices(values, filter) <==> values[m].Some? && values[m].value in filter
  {
    if filter != [] {
      FilterIndicesExact(values, filter[1..], m);
      assert filter == [filter[0]] + filter[1..];
      var at := IndexOf(values, Some(filter[0]));
      assert at < |values| && at != m ==> values[at] != values[m];
    }
  }

  lemma BlockTextSnoc(content: Bytes, blocks: seq<Block>, b: Block)
    requires BlocksWithin(blocks, |content|) && b.start <= b.end <= |content|
    ensures BlocksWithin(blocks + [b], |content|)
    ensures BlockText(content, blocks + [b]) == BlockText(content, blocks) + content[b.start..b.end]
  {
    assert (blocks + [b])[..|blocks|] == blocks;
  }

  lemma {:induction false} AllText(content: Bytes, e: IndexEntry, n: nat)
    requires Parallel(e) && BlocksWithin(e.blocks, |content|) && n <= |e.blocks|
    ensures BlockText(content, e.blocks[..n]) == ChosenText(content, e, [], n)
  {
    if n > 0 {
      AllText(content, e, n - 1);
      assert e.blocks[..n] == e.blocks[..n - 1] + [e.blocks[n - 1]];
      BlockTextSnoc(content, e.blocks[..n - 1], e.blocks[n - 1]);
    }
  }

  lemma {:induction false} PickedText(content: Bytes, e: IndexEntry, filter: seq<string>, n: nat)
    requires Parallel(e) && BlocksWithin(e.blocks, |content|) && n <= |e.blocks| && Distinct(e.values) && filter != []
    ensures var picked := PickBlocks(e.blocks, e.mapping, FilterIndices(e.values, filter), n);
            BlocksWithin(picked, |content|) && BlockText(content, picked) == ChosenText(content, e, filter, n)
  {
    if n > 0 {
      PickedText(content, e, filter, n - 1);
      FilterIndicesExact(e.values, filter, e.mapping[n - 1]);
      var before := PickBlocks(e.blocks, e.mapping, FilterIndices(e.values, filter), n - 1);
      BlockTextSnoc(content, before, e.blocks[n - 1]);
      assert before + [] == before;
    }
  }

  /**
   Reading the filtered blocks of an index entry gives the lines of the process that pass
   the filter, whole and in file order.
   */
  lemma FilteredBlocksExact(e: IndexEntry, t: Tree, lines: seq<LogLine>, s: nat, filter: seq<string>)
    requires Indexes(e, t, lines, s, |lines|)
    ensures BlocksWithin(FilterBlocks(e, filter), |Content(lines)|)
    ensures BlockText(Content(lines), FilterBlocks(e, filter)) == SelectedText(t, lines, s, filter, |lines|)
  {
    if filter == [] {
      AllText(Content(lines), e, |e.blocks|);
      assert e.blocks[..|e.blocks|] == e.blocks;
    } else {
      PickedText(Content(lines), e, filter, |e.blocks|);
    }
    assert Serves(e, t, lines, s, |lines|, filter);
  }
}
