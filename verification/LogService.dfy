/**
 From the logs of an analysis to what the web interface shows of one process:
 build_log_index (drakrun/analyzer/postprocessing/indexer.py), process_logs and
 process_info (drakrun/web/api.py).
 */
module LogService {
  import opened Attribution
  import opened Common
  import opened BinaryStream
  import opened ScatteredRead
  import opened ProcessTree
  import opened Lifetimes
  import opened LogIndex
  import opened LogLines
  import opened IndexContainer
  import opened LogPager
  import opened Utf8

  /** A log file: the plugin that wrote it and its lines. */
  datatype Log = Log(plugin: string, lines: seq<LogLine>)

  ghost predicate AreLogs(logs: seq<Log>) {
    && (forall i :: 0 <= i < |logs| ==> IsLog(logs[i].lines))
    && (forall i, j :: 0 <= i < j < |logs| ==> logs[i].plugin != logs[j].plugin)
  }

  /** Process s owns a line of the log, and the log is not drakrun's own. */
  ghost predicate Mentions(t: Tree, log: Log, s: nat) {
    log.plugin != "drakrun" && OwnsLine(t, log.lines, s, |log.lines|)
  }

  /** The row has an entry for the log exactly when the log mentions the process, and then the right one. */
  ghost predicate RightFor(row: LogTable, t: Tree, log: Log, s: nat) {
    && (Get(row, log.plugin).Some? <==> Mentions(t, log, s))
    && (Get(row, log.plugin).Some? ==> Indexes(Get(row, log.plugin).value, t, log.lines, s, |log.lines|))
  }

  /** The entries come in the order of the logs. */
  ghost predicate InLogOrder(row: LogTable, logs: seq<Log>) {
    forall i, j, a, b ::
      0 <= i < j < |row| && 0 <= a < |logs| && 0 <= b < |logs| ==>
        row[i].0 == logs[a].plugin && row[j].0 == logs[b].plugin ==> a < b
  }

  /** The row of process s for the first n logs. */
  ghost predicate Tabulates(row: LogTable, t: Tree, logs: seq<Log>, n: nat, s: nat)
    requires n <= |logs|
  {
    && UniqueKeys(row) && InLogOrder(row, logs)
    && (forall i :: 0 <= i < n ==> RightFor(row, t, logs[i], s))
    && (forall i :: n <= i < |logs| ==> Get(row, logs[i].plugin).None?)
  }

  lemma GetAppend<V>(d: Dictionary<V>, key: string, value: V, other: string)
    requires Get(d, key).None?
    ensures Get(d + [(key, value)], other) == if other == key then Some(value) else Get(d, other)
  {
    IndexAppend(Keys(d), key, other);
    assert Keys(d + [(key, value)]) == Keys(d) + [key];
  }

  lemma {:induction false} IndexAppend<T>(s: seq<T>, x: T, y: T)
    requires x !in s
    ensures IndexOf(s + [x], y) == if y == x then |s| else if y in s then IndexOf(s, y) else |s| + 1
  {
    if s != [] {
      assert (s + [x])[1..] == s[1..] + [x];
      IndexAppend(s[1..], x, y);
    }
  }

  /** The tables behind the log index: for every process one entry per log. */
  method BuildTables(logs: seq<Log>, t: Tree) returns (tables: seq<LogTable>)
    requires AreLogs(logs)
    ensures |tables| == |t| && forall s :: 0 <= s < |t| ==> Tabulates(tables[s], t, logs, |logs|, s)
  {
    tables := seq(|t|, _ => []);
    for n := 0 to |logs|
      invariant |tables| == |t| && forall s :: 0 <= s < |t| ==> Tabulates(tables[s], t, logs, n, s)
    {
      if logs[n].plugin == "drakrun" {
        forall s | 0 <= s < |t| ensures Tabulates(tables[s], t, logs, n + 1, s) {
          SkipLog(tables[s], t, logs, n, s);
        }
        continue;
      }
      var index := IndexLogFile(logs[n].lines, t);
      for s := 0 to |t|
        invariant |tables| == |t|
        invariant forall p :: 0 <= p < |t| ==> Tabulates(tables[p], t, logs, if p < s then n + 1 else n, p)
      {
        if s in index {
          assert Indexes(EntryOf(index, s), t, logs[n].lines, s, |logs[n].lines|);
          AddLog(tables[s], t, logs, n, s, index[s]);
          tables := tables[s := tables[s] + [(logs[n].plugin, index[s])]];
        } else {
          SkipLog(tables[s], t, logs, n, s);
        }
      }
    }
  }

  lemma SkipLog(row: LogTable, t: Tree, logs: seq<Log>, n: nat, s: nat)
    requires AreLogs(logs) && n < |logs| && Tabulates(row, t, logs, n, s) && !Mentions(t, logs[n], s)
    ensures Tabulates(row, t, logs, n + 1, s)
  {
  }

  lemma NewIsLast(row: LogTable, t: Tree, logs: seq<Log>, n: nat, s: nat, entry: IndexEntry)
    requires AreLogs(logs) && n < |logs| && Tabulates(row, t, logs, n, s)
    ensures InLogOrder(row + [(logs[n].plugin, entry)], logs)
  {
    var r := row + [(logs[n].plugin, entry)];
    forall i, j, a, b | 0 <= i < j < |r| && 0 <= a < |logs| && 0 <= b < |logs|
                        && r[i].0 == logs[a].plugin && r[j].0 == logs[b].plugin
      ensures a < b
    {
      assert Keys(row)[i] == logs[a].plugin;
      assert Get(row, logs[a].plugin).Some?;
    }
  }

  lemma AddLog(row: LogTable, t: Tree, logs: seq<Log>, n: nat, s: nat, entry: IndexEntry)
    requires AreLogs(logs) && n < |logs| && Tabulates(row, t, logs, n, s) && Mentions(t, logs[n], s)
    requires Indexes(entry, t, logs[n].lines, s, |logs[n].lines|)
    ensures Tabulates(row + [(logs[n].plugin, entry)], t, logs, n + 1, s)
  {
    var r := row + [(logs[n].plugin, entry)];
    assert Get(row, logs[n].plugin).None?;
    assert logs[n].plugin !in Keys(row);
    forall i, j | 0 <= i < j < |r| ensures r[i].0 != r[j].0 {
      assert r[i].0 == Keys(row)[i];
    }
    NewIsLast(row, t, logs, n, s, entry);
    forall i | 0 <= i < n + 1 ensures RightFor(r, t, logs[i], s) {
      GetAppend(row, logs[n].plugin, entry, logs[i].plugin);
      assert i < n ==> RightFor(row, t, logs[i], s);
    }
    forall i | n + 1 <= i < |logs| ensures Get(r, logs[i].plugin).None? {
      GetAppend(row, logs[n].plugin, entry, logs[i].plugin);
    }
  }

  /**
   The bytes of a log that belong to a process and pass the filter, from skip on and at
   most length of them; None when the process has no line in the log. This holds for a
   local file and for an S3 object alike.
   */
  method ProcessLogs(codecs: Codecs, indexFile: BinaryIO, logFile: BinaryIO, seqid: nat, plugin: string,
                     filter: seq<string>, skip: nat, length: Option<nat>,
                     ghost t: Tree, ghost logs: seq<Log>, ghost tables: seq<LogTable>, ghost i: nat)
    returns (response: Option<Bytes>)
    requires Sound(codecs) && indexFile.Valid() && indexFile.Position() == 0
    requires Contains(codecs, tables, indexFile.Content())
    requires |tables| == |t| && forall s :: 0 <= s < |t| ==> Tabulates(tables[s], t, logs, |logs|, s)
    requires i < |logs| && logs[i].plugin == plugin
    requires logFile.Valid() && logFile.Content() == Content(logs[i].lines)
    requires indexFile.Objects() !! logFile.Objects()
    modifies indexFile.Objects(), logFile.Objects()
    ensures response ==
              if seqid < |t| && Mentions(t, logs[i], seqid)
              then Some(Cut(SelectedText(t, logs[i].lines, seqid, filter, |logs[i].lines|), skip, length))
              else None
    ensures response.Some? ==> Served(t, logs[i], seqid, filter, skip, length, response.value)
  {
    var index := GetLogIndexForProcess(codecs, indexFile, seqid, plugin, tables);
    assert seqid < |t| ==> RightFor(tables[seqid], t, logs[i], seqid);
    if index.None? {
      return None;
    }
    var blocks := FilterBlocks(index.value, filter);
    FilteredBlocksExact(index.value, t, logs[i].lines, seqid, filter);
    var chunks := ScatteredReadFile(logFile, blocks, skip, length);
    response := Some(Concat(chunks));
    ghost var at := SelectedExactly(t, logs[i].lines, seqid, filter);
  }

  /**
   The response is the piece that was asked for of the text of exactly those lines, in file
   order, that are the process's and whose method the filter names, if there is one.
   */
  ghost predicate Served(t: Tree, log: Log, s: nat, filter: seq<string>, skip: nat, length: Option<nat>,
                         response: Bytes)
  {
    && log.plugin != "drakrun"
    && exists at :: Picks(t, log.lines, s, filter, at) && response == Cut(Concat(TextsAt(log.lines, at)), skip, length)
  }

  /** The log index of an analysis. */
  method BuildLogIndex(codecs: Codecs, logs: seq<Log>, t: Tree) returns (container: Bytes, ghost tables: seq<LogTable>)
    requires AreLogs(logs)
    ensures Contains(codecs, tables, container)
    ensures |tables| == |t| && forall s :: 0 <= s < |t| ==> Tabulates(tables[s], t, logs, |logs|, s)
  {
    var built := BuildTables(logs, t);
    container := Pack(codecs, built);
    tables := built;
  }

  /** What a process is told to have called in a log: its methods there, if it has lines there at all. */
  ghost predicate Informs(info: Dictionary<seq<Option<string>>>, t: Tree, log: Log, s: nat) {
    Get(info, log.plugin) == if Mentions(t, log, s) then Some(MethodsSeen(t, log.lines, s, |log.lines|)) else None
  }

  /** From the logs to the methods that a process calls in each of them. */
  method IndexAndInform(codecs: Codecs, logs: seq<Log>, t: Tree, seqid: nat)
    returns (info: Dictionary<seq<Option<string>>>)
    requires Sound(codecs) && AreLogs(logs) && seqid < |t|
    ensures forall i :: 0 <= i < |logs| ==> Informs(info, t, logs[i], seqid)
  {
    var container;
    ghost var tables;
    container, tables := BuildLogIndex(codecs, logs, t);
    var indexBody := new StreamingBody(container);
    var indexStream := new SeekableStreamingBody(container, indexBody);
    info := ProcessInfoLogs(codecs, Remote(indexStream), seqid, tables);
    forall i | 0 <= i < |logs| ensures Informs(info, t, logs[i], seqid) {
      assert RightFor(tables[seqid], t, logs[i], seqid);
      SameKeys(tables[seqid], info, logs[i].plugin);
    }
  }

  lemma SameKeys(row: LogTable, info: Dictionary<seq<Option<string>>>, key: string)
    requires |info| == |row| && forall k :: 0 <= k < |row| ==> info[k] == (row[k].0, row[k].1.values)
    ensures Get(info, key) == if Get(row, key).Some? then Some(Get(row, key).value.values) else None
  {
    assert Keys(info) == Keys(row);
  }

  /** From the logs to the response, with the index and the log both fetched from S3. */
  method IndexAndServe(codecs: Codecs, logs: seq<Log>, t: Tree, i: nat, seqid: nat,
                       filter: seq<string>, skip: nat, length: Option<nat>)
    returns (response: Option<Bytes>)
    requires Sound(codecs) && AreLogs(logs) && i < |logs|
    ensures response ==
              if seqid < |t| && Mentions(t, logs[i], seqid)
              then Some(Cut(SelectedText(t, logs[i].lines, seqid, filter, |logs[i].lines|), skip, length))
              else None
  {
    var container;
    ghost var tables;
    container, tables := BuildLogIndex(codecs, logs, t);
    var indexBody := new StreamingBody(container);
    var indexStream := new SeekableStreamingBody(container, indexBody);
    var logBody := new StreamingBody(Content(logs[i].lines));
    var logStream := new SeekableStreamingBody(Content(logs[i].lines), logBody);
    response := ProcessLogs(codecs, Remote(indexStream), Remote(logStream), seqid, logs[i].plugin,
                            filter, skip, length, t, logs, tables, i);
  }

  /** The methods a process calls in each log it appears in. */
  method ProcessInfoLogs(codecs: Codecs, indexFile: BinaryIO, seqid: nat, ghost tables: seq<LogTable>)
    returns (logs: Dictionary<seq<Option<string>>>)
    requires Sound(codecs) && indexFile.Valid() && indexFile.Position() == 0
    requires Contains(codecs, tables, indexFile.Content())
    requires forall s :: 0 <= s < |tables| ==> UniqueKeys(tables[s])
    modifies indexFile.Objects()
    ensures |logs| == if seqid < |tables| then |tables[seqid]| else 0
    ensures forall k :: 0 <= k < |logs| ==> logs[k] == (tables[seqid][k].0, tables[seqid][k].1.values)
  {
    var names := GetPluginNamesForProcess(codecs, indexFile, seqid, tables);
    logs := [];
    for k := 0 to |names|
      invariant indexFile.Valid() && fresh(indexFile.Objects() - old(indexFile.Objects()))
      invariant |logs| == k
      invariant forall j :: 0 <= j < k ==> logs[j] == (tables[seqid][j].0, tables[seqid][j].1.values)
    {
      var values := ValuesIn(codecs, indexFile, seqid, names[k], tables, k);
      logs := logs + [(names[k], values)];
    }
  }

  /** The methods of one log, from an index that is rewound first. */
  method ValuesIn(codecs: Codecs, indexFile: BinaryIO, seqid: nat, plugin: string, ghost tables: seq<LogTable>,
                  ghost k: nat)
    returns (values: seq<Option<string>>)
    requires Sound(codecs) && indexFile.Valid() && Contains(codecs, tables, indexFile.Content())
    requires seqid < |tables| && UniqueKeys(tables[seqid]) && k < |tables[seqid]| && plugin == tables[seqid][k].0
    modifies indexFile.Objects()
    ensures indexFile.Valid() && fresh(indexFile.Objects() - old(indexFile.Objects()))
    ensures values == tables[seqid][k].1.values
  {
    var _ := indexFile.Seek(0);
    var index := GetLogIndexForProcess(codecs, indexFile, seqid, plugin, tables);
    KeyPlace(tables[seqid], k);
    values := index.value.values;
  }

  lemma KeyPlace<V>(d: Dictionary<V>, k: nat)
    requires UniqueKeys(d) && k < |d|
    ensures Get(d, d[k].0) == Some(d[k].1)
  {
    var at := IndexOf(Keys(d), d[k].0);
    assert Keys(d)[k] == d[k].0;
    assert at < |d| ==> d[at].0 == Keys(d)[at];
  }

  // ---------- The viewer ----------

  ghost predicate EndInNewlines(lines: seq<LogLine>) {
    forall i :: 0 <= i < |lines| ==> IsLine(lines[i].text)
  }

  ghost predicate FitInto(lines: seq<LogLine>, n: nat) {
    forall i :: 0 <= i < |lines| ==> |lines[i].text| <= n
  }

  /** The lines behind SelectedText. */
  ghost function SelectedLines(t: Tree, lines: seq<LogLine>, s: nat, filter: seq<string>, k: nat): (r: seq<Bytes>)
    requires k <= |lines|
    ensures |r| <= k && Concat(r) == SelectedText(t, lines, s, filter, k)
    ensures forall x :: x in r ==> exists i :: 0 <= i < |lines| && lines[i].text == x
  {
    if k == 0 then []
    else
      var before := SelectedLines(t, lines, s, filter, k - 1);
      if Owner(t, lines, k - 1) == Some(s) && Matches(filter, MethodOf(lines[k - 1])) then
        ConcatSnoc(before, lines[k - 1].text);
        before + [lines[k - 1].text]
      else before
  }

  lemma SomeOfTheLines(some: seq<Bytes>, lines: seq<LogLine>)
    requires forall x :: x in some ==> exists i :: 0 <= i < |lines| && lines[i].text == x
    ensures EndInNewlines(lines) ==> AreLines(some)
    ensures forall n: nat :: FitInto(lines, n) ==> Hold(some, n)
  {
    forall i | 0 <= i < |some| ensures exists j :: 0 <= j < |lines| && lines[j].text == some[i] {
      assert some[i] in some;
    }
  }

  /**
   The whole way, from the logs of an analysis to the viewer that asks for one range after
   the other, where every range can hold the longest line of the log. When the lines of the
   process that pass the filter are ASCII, and there are at least as many ranges as lines, the
   viewer shows exactly these lines, each once and in file order. With a range for every byte
   of them, and as long as they are valid UTF-8, it does so exactly when they are ASCII.
   However many ranges there are, it never finishes.
   */
  method ViewProcessLog(codecs: Codecs, logs: seq<Log>, t: Tree, i: nat, seqid: nat, filter: seq<string>,
                        sizes: seq<nat>)
    returns (shown: Text, finished: bool)
    requires Sound(codecs) && AreLogs(logs) && i < |logs| && seqid < |t| && Mentions(t, logs[i], seqid)
    requires EndInNewlines(logs[i].lines) && forall f :: 0 <= f < |sizes| ==> FitInto(logs[i].lines, sizes[f])
    ensures var text := SelectedText(t, logs[i].lines, seqid, filter, |logs[i].lines|);
            && (IsAscii(text) && |sizes| >= |logs[i].lines| ==> shown == Decode(text))
            && (IsUtf8(text) && |sizes| >= |text| ==> (shown == Decode(text) <==> IsAscii(text)))
    ensures !finished
  {
    var loader := new LogLoader();
    ghost var lines := SelectedLines(t, logs[i].lines, seqid, filter, |logs[i].lines|);
    SomeOfTheLines(lines, logs[i].lines);
    ghost var k: nat := 0;
    shown := [];
    for f := 0 to |sizes|
      invariant !loader.finished && loader.currentStart == |shown| && Shown(lines, f, shown, k)
    {
      var response := IndexAndServe(codecs, logs, t, i, seqid, filter, loader.currentStart, Some(sizes[f]));
      k := FetchShows(lines, f, shown, k, sizes[f]);
      var r := loader.Next(LogPager.Data(Decode(response.value)));
      shown := shown + r.text;
    }
    AllShown(lines, |sizes|, shown, k);
    finished := loader.finished;
  }

  /**
   One more fetch after the text of all lines was shown once: of valid UTF-8 it shows nothing
   exactly when that is ASCII, and then process_logs has answered with no bytes, not with the
   status 416 that the loader waits for. Either way the loader is not finished.
   */
  method FetchBehindEnd(codecs: Codecs, logs: seq<Log>, t: Tree, i: nat, seqid: nat, filter: seq<string>,
                        size: nat, loader: LogLoader)
    returns (r: Outcome)
    requires Sound(codecs) && AreLogs(logs) && i < |logs| && seqid < |t| && Mentions(t, logs[i], seqid)
    requires EndInNewlines(logs[i].lines) && FitInto(logs[i].lines, size)
    requires var text := SelectedText(t, logs[i].lines, seqid, filter, |logs[i].lines|);
             !loader.finished && loader.currentStart == |Decode(text)|
    modifies loader
    ensures var text := SelectedText(t, logs[i].lines, seqid, filter, |logs[i].lines|);
            r.Yield? && (IsUtf8(text) ==> (r.text == [] <==> IsAscii(text)))
    ensures !loader.finished && loader.currentStart == old(loader.currentStart) + |r.text|
  {
    ghost var lines := SelectedLines(t, logs[i].lines, seqid, filter, |logs[i].lines|);
    SomeOfTheLines(lines, logs[i].lines);
    ghost var text := Concat(lines);
    FetchMoves(lines, |Decode(text)|, size);
    if IsUtf8(text) { OneUnitEachExactly(text); }
    var response := IndexAndServe(codecs, logs, t, i, seqid, filter, loader.currentStart, Some(size));
    r := loader.Next(LogPager.Data(Decode(response.value)));
    assert r.text == Piece(text, |Decode(text)|, size);
  }

  /**
   The same for the tree that the process log describes: what is shown are the lines whose
   event the process covers, given that events are in order and no PID is taken over at event 1.
   */
  method ViewByEvent(codecs: Codecs, logs: seq<Log>, entries: seq<Entry>, i: nat, seqid: nat, filter: seq<string>,
                     sizes: seq<nat>)
    returns (shown: Text)
    requires Sound(codecs) && AreLogs(logs) && i < |logs| && logs[i].plugin != "drakrun"
    requires Chronological(entries) && !HasTakeover(entries) && Replay(entries).Ok? && EventsInOrder(logs[i].lines)
    requires exists j: nat :: j < |logs[i].lines| && DirectOwner(Replay(entries).value, logs[i].lines[j]) == Some(seqid)
    requires EndInNewlines(logs[i].lines) && forall f :: 0 <= f < |sizes| ==> FitInto(logs[i].lines, sizes[f])
    ensures var text := CoveredText(Replay(entries).value, logs[i].lines, seqid, filter, |logs[i].lines|);
            && (IsAscii(text) && |sizes| >= |logs[i].lines| ==> shown == Decode(text))
            && (IsUtf8(text) && |sizes| >= |text| ==> (shown == Decode(text) <==> IsAscii(text)))
  {
    var t := Replay(entries).value;
    ghost var j: nat :| j < |logs[i].lines| && DirectOwner(t, logs[i].lines[j]) == Some(seqid);
    LinesFindTheirProcess(entries, logs[i].lines, j);
    SelectedIsCovered(entries, logs[i].lines, seqid, filter, |logs[i].lines|);
    var finished;
    shown, finished := ViewProcessLog(codecs, logs, t, i, seqid, filter, sizes);
  }
}
