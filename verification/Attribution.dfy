/**
 When the per-PID cache of index_log_file (drakrun/analyzer/postprocessing/indexer.py)
 answers what a lookup in the process tree would answer.
 */
module Attribution {
  import opened Common
  import opened ProcessTree
  import opened Lifetimes
  import Biography
  import opened LogIndex

  /** The process that covers the event a line names. */
  function DirectOwner(t: Tree, line: LogLine): Option<nat> {
    match Subject(line)
    case None => None
    case Some((pid, evtid)) => GetProcessForEvtid(t, pid, evtid)
  }

  predicate SamePidLines(a: LogLine, b: LogLine) {
    Subject(a).Some? && Subject(b).Some? && Subject(a).value.0 == Subject(b).value.0
  }

  /** Line j, in front of line i, is of a process with the same PID that began after the event of line i. */
  predicate Overtaken(t: Tree, lines: seq<LogLine>, i: nat, j: nat)
    requires j < i < |lines|
  {
    && SamePidLines(lines[j], lines[i])
    && DirectOwner(t, lines[j]).Some?
    && Subject(lines[i]).value.1 < t[DirectOwner(t, lines[j]).value].info.evtidFrom
  }

  // ---------- What the cache holds ----------

  /** Line j is the one through which process c was found. */
  predicate FoundBy(t: Tree, lines: seq<LogLine>, pid: int, c: nat, j: nat)
    requires j < |lines|
  {
    Subject(lines[j]).Some? && Subject(lines[j]).value.0 == pid && DirectOwner(t, lines[j]) == Some(c)
  }

  /** c is the process of one of the first k lines of the PID, and began last of them. */
  ghost predicate Latest(t: Tree, lines: seq<LogLine>, k: nat, pid: int, c: nat)
    requires k <= |lines| && c < |t|
  {
    && (exists j: nat :: j < k && FoundBy(t, lines, pid, c, j))
    && (forall j: nat, d: nat :: j < k && FoundBy(t, lines, pid, d, j) ==> t[d].info.evtidFrom <= t[c].info.evtidFrom)
  }

  ghost predicate RightFor(t: Tree, lines: seq<LogLine>, k: nat, pid: int, cached: Option<nat>)
    requires k <= |lines|
  {
    if cached.Some? then cached.value < |t| && Latest(t, lines, k, pid, cached.value)
    else forall j: nat, c: nat :: j < k ==> !FoundBy(t, lines, pid, c, j)
  }

  /** What the cache holds for a PID, behind one more line. */
  function NextCached(t: Tree, cached: Option<nat>, pid: int, line: LogLine): Option<nat>
    requires cached.Some? ==> cached.value < |t|
  {
    match Subject(line)
    case None => cached
    case Some((p, evtid)) =>
      if p != pid then cached
      else if cached.Some? && (IsOpen(t[cached.value].info) || evtid <= t[cached.value].info.evtidTo.value) then cached
      else if DirectOwner(t, line).Some? then DirectOwner(t, line)
      else cached
  }

  function CachedAt(t: Tree, lines: seq<LogLine>, k: nat, pid: int): (r: Option<nat>)
    requires k <= |lines|
    ensures r.Some? ==> r.value < |t|
  {
    if pid in CacheAt(t, lines, k) then Some(CacheAt(t, lines, k)[pid]) else None
  }

  lemma CachedNext(t: Tree, lines: seq<LogLine>, k: nat, pid: int)
    requires k < |lines|
    ensures CachedAt(t, lines, k + 1, pid) == NextCached(t, CachedAt(t, lines, k, pid), pid, lines[k])
  {
  }

  /** The cache names, for every PID, the process that began last among those of the lines so far. */
  lemma {:induction false} CacheIsLatest(t: Tree, lines: seq<LogLine>, k: nat, pid: int)
    requires Unambiguous(t) && k <= |lines|
    ensures RightFor(t, lines, k, pid, CachedAt(t, lines, k, pid))
  {
    if k > 0 {
      CacheIsLatest(t, lines, k - 1, pid);
      CachedNext(t, lines, k - 1, pid);
      LatestStep(t, lines, k - 1, pid, CachedAt(t, lines, k - 1, pid));
    }
  }

  lemma LatestStep(t: Tree, lines: seq<LogLine>, k: nat, pid: int, cached: Option<nat>)
    requires Unambiguous(t) && k < |lines| && RightFor(t, lines, k, pid, cached)
    ensures RightFor(t, lines, k + 1, pid, NextCached(t, cached, pid, lines[k]))
  {
    var next := NextCached(t, cached, pid, lines[k]);
    var mine := Subject(lines[k]).Some? && Subject(lines[k]).value.0 == pid;
    if mine && cached.Some? && DirectOwner(t, lines[k]).Some? {
      ByEvent(t, lines, k, pid, cached.value, Subject(lines[k]).value.1, DirectOwner(t, lines[k]).value);
    }
    if next != cached {
      assert FoundBy(t, lines, pid, next.value, k);
    } else if cached.Some? {
      var j: nat :| j < k && FoundBy(t, lines, pid, cached.value, j);
      assert FoundBy(t, lines, pid, next.value, j);
    }
  }

  /** Of two processes of a PID, the one that covers an event the other does not cover any more began later. */
  lemma ByEvent(t: Tree, lines: seq<LogLine>, k: nat, pid: int, c: nat, evtid: int, d: nat)
    requires Unambiguous(t) && k < |lines| && c < |t| && Latest(t, lines, k, pid, c)
    requires d < |t| && t[d].info.pid == pid && Covers(t[d].info, evtid)
    ensures IsOpen(t[c].info) || evtid <= t[c].info.evtidTo.value ==> t[d].info.evtidFrom <= t[c].info.evtidFrom
    ensures !IsOpen(t[c].info) && t[c].info.evtidTo.value < evtid ==> t[c].info.evtidFrom <= t[d].info.evtidFrom
  {
    var j: nat :| j < k && FoundBy(t, lines, pid, c, j);
    var from := t[c].info.evtidFrom;
    assert t[c].info.pid == pid && Covers(t[c].info, Subject(lines[j]).value.1);
    if c != d {
      Apart(t, c, d, evtid);
      Apart(t, c, d, from);
    }
  }

  lemma Apart(t: Tree, c: nat, d: nat, evtid: int)
    requires Unambiguous(t) && c < |t| && d < |t| && c != d && t[c].info.pid == t[d].info.pid
    ensures !(Covers(t[c].info, evtid) && Covers(t[d].info, evtid))
  {
  }

  // ---------- When it is right ----------

  /**
   A line is attributed to the process that covers its event exactly when no earlier line
   of the PID belongs to a process that began after the event.
   */
  lemma CacheAgrees(t: Tree, lines: seq<LogLine>, i: nat)
    requires Unambiguous(t) && i < |lines|
    ensures Owner(t, lines, i) == DirectOwner(t, lines[i]) <==> !exists j: nat :: j < i && Overtaken(t, lines, i, j)
  {
    var cache := CacheAt(t, lines, i);
    if Subject(lines[i]).Some? {
      var (pid, evtid) := Subject(lines[i]).value;
      CacheIsLatest(t, lines, i, pid);
      if pid in cache {
        var c := cache[pid];
        var found: nat :| found < i && FoundBy(t, lines, pid, c, found);
        if Fresh(t, cache, pid, evtid) {
          LookupExact(t, pid, evtid, c);
          assert evtid < t[c].info.evtidFrom ==> Overtaken(t, lines, i, found);
        }
      }
      forall j: nat | j < i && Overtaken(t, lines, i, j) ensures Owner(t, lines, i) != DirectOwner(t, lines[i]) {
        assert FoundBy(t, lines, pid, DirectOwner(t, lines[j]).value, j);
        assert pid in cache;
      }
    }
  }

  /** Lines of one PID come in the order of their events. */
  ghost predicate EventsInOrder(lines: seq<LogLine>) {
    forall i, j :: 0 <= i < j < |lines| && SamePidLines(lines[i], lines[j]) ==>
      Subject(lines[i]).value.1 <= Subject(lines[j]).value.1
  }

  lemma InOrderNotOvertaken(t: Tree, lines: seq<LogLine>, i: nat)
    requires EventsInOrder(lines) && i < |lines|
    ensures !exists j: nat :: j < i && Overtaken(t, lines, i, j)
  {
    forall j: nat | j < i && SamePidLines(lines[j], lines[i]) ensures !Overtaken(t, lines, i, j) {
      assert Subject(lines[j]).value.1 <= Subject(lines[i]).value.1;
    }
  }

  /**
   For the tree of a chronological log and a log in event order, every line is attributed
   to the process that was alive at its event, and skipped exactly when there is none.
   */
  lemma LinesFindTheirProcess(entries: seq<Entry>, lines: seq<LogLine>, i: nat)
    requires Chronological(entries) && !HasTakeover(entries) && Replay(entries).Ok?
    requires EventsInOrder(lines) && i < |lines|
    ensures Owner(Replay(entries).value, lines, i) == DirectOwner(Replay(entries).value, lines[i])
  {
    var t := Replay(entries).value;
    LifetimesApartExactly(entries);
    InOrderNotOvertaken(t, lines, i);
    CacheAgrees(t, lines, i);
  }

  /** Of the first k lines, those whose event process s covers and whose method passes the filter, in file order. */
  function CoveredText(t: Tree, lines: seq<LogLine>, s: nat, filter: seq<string>, k: nat): Bytes
    requires k <= |lines|
  {
    if k == 0 then []
    else
      var line := lines[k - 1];
      var chosen := DirectOwner(t, line) == Some(s) && Matches(filter, MethodOf(line));
      CoveredText(t, lines, s, filter, k - 1) + (if chosen then line.text else [])
  }

  lemma {:induction false} SameSelection(t: Tree, lines: seq<LogLine>, s: nat, filter: seq<string>, k: nat)
    requires k <= |lines| && forall i: nat :: i < |lines| ==> Owner(t, lines, i) == DirectOwner(t, lines[i])
    ensures SelectedText(t, lines, s, filter, k) == CoveredText(t, lines, s, filter, k)
  {
    if k > 0 { SameSelection(t, lines, s, filter, k - 1); }
  }

  /** The lines that the index selects for a process are those whose events it covers. */
  lemma SelectedIsCovered(entries: seq<Entry>, lines: seq<LogLine>, s: nat, filter: seq<string>, k: nat)
    requires Chronological(entries) && !HasTakeover(entries) && Replay(entries).Ok?
    requires EventsInOrder(lines) && k <= |lines|
    ensures SelectedText(Replay(entries).value, lines, s, filter, k)
            == CoveredText(Replay(entries).value, lines, s, filter, k)
  {
    var t := Replay(entries).value;
    forall i: nat | i < |lines| ensures Owner(t, lines, i) == DirectOwner(t, lines[i]) {
      LinesFindTheirProcess(entries, lines, i);
    }
    SameSelection(t, lines, s, filter, k);
  }

  /** A line out of order can go to the wrong process: here event 5, to the process that began at event 10. */
  lemma OutOfOrderExample(first: ProcessInfo, second: ProcessInfo, text: Bytes)
    requires first.pid == second.pid != 0
    requires first.evtidFrom == 2 && first.evtidTo == Some(9) && second.evtidFrom == 10 && second.evtidTo == None
    ensures var t := [Node(first, None, []), Node(second, None, [])];
            var at := (evtid: int) => LogLine(text, LogEntry(Some(first.pid), Uid(evtid), None));
            && Unambiguous(t)
            && Owner(t, [at(12), at(5)], 1) == Some(1)
            && DirectOwner(t, at(5)) == Some(0)
  {
    var t := [Node(first, None, []), Node(second, None, [])];
    var at := (evtid: int) => LogLine(text, LogEntry(Some(first.pid), Uid(evtid), None));
    var lines := [at(12), at(5)];
    assert t[..1][..0] == [] && t[..1] == [t[0]];
    LookupExact(t, first.pid, 12, 1);
    LookupExact(t, first.pid, 5, 0);
    assert CacheAt(t, lines, 0) == map[];
    assert CacheAt(t, lines, 1) == map[first.pid := 1];
  }

  // ---------- By the entries of the process log ----------

  /** The line names the PID and an event of the process that entry b begins, at which it was alive. */
  ghost predicate LineOf(entries: seq<Entry>, b: nat, line: LogLine)
    requires b < |entries| && Biography.Begins(entries[b])
  {
    && line.entry.LogEntry? && line.entry.pid == Some(Biography.PidOf(entries[b])) && line.entry.pid != Some(0)
    && line.entry.uid.Uid? && Biography.Alive(entries, b, line.entry.uid.id)
  }

  /**
   For a chronological log without a PID taken over at event 1, and a log in event order: a line
   is attributed to a process exactly when it names its PID and an event of its lifetime.
   */
  lemma LinesOfProcess(entries: seq<Entry>, lines: seq<LogLine>, i: nat, s: nat)
    requires Chronological(entries) && !HasTakeover(entries) && Replay(entries).Ok?
    requires EventsInOrder(lines) && i < |lines| && s < |Replay(entries).value|
    ensures s < |Biography.Births(entries)|
    ensures Owner(Replay(entries).value, lines, i) == Some(s)
            <==> LineOf(entries, Biography.Births(entries)[s], lines[i])
  {
    LinesFindTheirProcess(entries, lines, i);
    Biography.ReplayTold(entries);
    match lines[i].entry
    case LogEntry(Some(pid), Uid(evtid), _) => Biography.LookupFindsAlive(entries, pid, evtid, s);
    case _ =>
  }
}
