/**
 What is selected of a log (drakrun/analyzer/postprocessing/indexer.py, drakrun/web/api.py), by
 the lines themselves: which ones, in which order, and which methods a process has.
 */
module LogLines {
  import opened Common
  import opened ProcessTree
  import opened LogIndex

  /** Without a filter every line is asked for; with one, the lines whose method is in it. */
  predicate AskedFor(line: LogLine, filter: seq<string>) {
    filter == [] || (line.entry.LogEntry? && line.entry.apiName.Some? && line.entry.apiName.value in filter)
  }

  function TextsAt(lines: seq<LogLine>, at: seq<nat>): seq<Bytes>
    requires forall j :: 0 <= j < |at| ==> at[j] < |lines|
  {
    seq(|at|, j requires 0 <= j < |at| => lines[at[j]].text)
  }

  /** The places of the lines of process s that are asked for, in the order of the file. */
  ghost predicate Picks(t: Tree, lines: seq<LogLine>, s: nat, filter: seq<string>, at: seq<nat>) {
    && Increasing(at) && (forall j :: 0 <= j < |at| ==> at[j] < |lines|)
    && forall i: nat :: i in at <==> i < |lines| && Owner(t, lines, i) == Some(s) && AskedFor(lines[i], filter)
  }

  lemma TextsAtSnoc(lines: seq<LogLine>, at: seq<nat>, k: nat)
    requires k < |lines| && forall j :: 0 <= j < |at| ==> at[j] < |lines|
    ensures Concat(TextsAt(lines, at + [k])) == Concat(TextsAt(lines, at)) + lines[k].text
  {
    assert TextsAt(lines, at + [k]) == TextsAt(lines, at) + [lines[k].text];
    ConcatSnoc(TextsAt(lines, at), lines[k].text);
  }

  lemma SelectedNext(t: Tree, lines: seq<LogLine>, s: nat, filter: seq<string>, k: nat)
    requires k < |lines|
    ensures SelectedText(t, lines, s, filter, k + 1) == SelectedText(t, lines, s, filter, k)
              + (if Owner(t, lines, k) == Some(s) && AskedFor(lines[k], filter) then lines[k].text else [])
  {
  }

  /** The marked numbers below k, in order. */
  ghost predicate PicksBelow(marks: seq<bool>, k: nat, at: seq<nat>)
    requires k <= |marks|
  {
    Increasing(at) && (forall j :: 0 <= j < |at| ==> at[j] < k) && forall i: nat :: i in at <==> i < k && marks[i]
  }

  lemma PicksNext(marks: seq<bool>, k: nat, at: seq<nat>)
    requires k < |marks| && PicksBelow(marks, k, at)
    ensures PicksBelow(marks, k + 1, if marks[k] then at + [k] else at)
  {
    if marks[k] {
      IncreasingSnoc(at, k);
    }
  }

  predicate GrowsAt(lines: seq<LogLine>, texts: seq<Bytes>, marks: seq<bool>, j: nat)
    requires j < |lines| == |marks| < |texts|
  {
    texts[j + 1] == if marks[j] then texts[j] + lines[j].text else texts[j]
  }

  /** The first k texts were gathered from the marked lines. */
  ghost predicate GatheredFrom(lines: seq<LogLine>, text: Bytes, marks: seq<bool>, k: nat, at: seq<nat>)
    requires k <= |lines| == |marks|
  {
    PicksBelow(marks, k, at) && text == Concat(TextsAt(lines, at))
  }

  lemma GatheredNext(lines: seq<LogLine>, texts: seq<Bytes>, marks: seq<bool>, k: nat, at: seq<nat>)
    returns (next: seq<nat>)
    requires k < |lines| == |marks| < |texts| && GrowsAt(lines, texts, marks, k)
    requires GatheredFrom(lines, texts[k], marks, k, at)
    ensures GatheredFrom(lines, texts[k + 1], marks, k + 1, next)
  {
    next := at;
    PicksNext(marks, k, at);
    if marks[k] {
      TextsAtSnoc(lines, at, k);
      next := at + [k];
    }
  }

  lemma NothingGathered(lines: seq<LogLine>, marks: seq<bool>)
    requires |lines| == |marks|
    ensures GatheredFrom(lines, [], marks, 0, [])
  {
    assert TextsAt(lines, []) == [];
  }

  /** Text that grows line by line is the text of the lines by which it grows. */
  lemma {:induction false} Gathered(lines: seq<LogLine>, texts: seq<Bytes>, marks: seq<bool>, k: nat)
    returns (at: seq<nat>)
    requires k <= |lines| == |marks| < |texts| && texts[0] == []
    requires forall j: nat :: j < |lines| ==> GrowsAt(lines, texts, marks, j)
    ensures GatheredFrom(lines, texts[k], marks, k, at)
  {
    if k == 0 {
      NothingGathered(lines, marks);
      at := [];
    } else {
      at := Gathered(lines, texts, marks, k - 1);
      at := GatheredNext(lines, texts, marks, k - 1, at);
    }
  }

  /** Which lines are process s's and asked for. */
  function Marks(t: Tree, lines: seq<LogLine>, s: nat, filter: seq<string>): (r: seq<bool>)
    ensures |r| == |lines|
    ensures forall i :: 0 <= i < |lines| ==> (r[i] <==> Owner(t, lines, i) == Some(s) && AskedFor(lines[i], filter))
  {
    seq(|lines|, i requires 0 <= i < |lines| => Owner(t, lines, i) == Some(s) && AskedFor(lines[i], filter))
  }

  function Selections(t: Tree, lines: seq<LogLine>, s: nat, filter: seq<string>): (r: seq<Bytes>)
    ensures |r| == |lines| + 1
    ensures forall k :: 0 <= k <= |lines| ==> r[k] == SelectedText(t, lines, s, filter, k)
  {
    seq(|lines| + 1, k requires 0 <= k <= |lines| => SelectedText(t, lines, s, filter, k))
  }

  /** What is selected is the text of exactly the lines of the process that are asked for, in file order. */
  lemma SelectedExactly(t: Tree, lines: seq<LogLine>, s: nat, filter: seq<string>) returns (at: seq<nat>)
    ensures Picks(t, lines, s, filter, at)
    ensures SelectedText(t, lines, s, filter, |lines|) == Concat(TextsAt(lines, at))
  {
    var marks, texts := Marks(t, lines, s, filter), Selections(t, lines, s, filter);
    forall j: nat | j < |lines| ensures GrowsAt(lines, texts, marks, j) {
      SelectedNext(t, lines, s, filter, j);
    }
    at := Gathered(lines, texts, marks, |lines|);
  }

  /** Value j is the method of the line at[j] of the process. */
  ghost predicate ValuesAt(lines: seq<LogLine>, own: seq<bool>, k: nat, values: seq<Option<string>>, at: seq<nat>)
    requires k <= |lines| <= |own|
  {
    && |at| == |values|
    && forall j :: 0 <= j < |at| ==>
         at[j] < k && own[at[j]] && lines[at[j]].entry.LogEntry? && lines[at[j]].entry.apiName == values[j]
  }

  ghost predicate SeenBy(values: seq<Option<string>>, at: seq<nat>, i: nat, line: LogLine)
    requires |at| == |values|
  {
    line.entry.LogEntry? && exists j :: 0 <= j < |at| && at[j] <= i && values[j] == line.entry.apiName
  }

  /** The values are the methods of the process's lines, each once, in the order of their first lines. */
  ghost predicate FirstSeen(lines: seq<LogLine>, own: seq<bool>, k: nat, values: seq<Option<string>>, at: seq<nat>)
    requires k <= |lines| <= |own|
  {
    && ValuesAt(lines, own, k, values, at) && Increasing(at) && Distinct(values)
    && forall i: nat :: i < k && own[i] ==> SeenBy(values, at, i, lines[i])
  }

  lemma StillSeen(values: seq<Option<string>>, at: seq<nat>, value: Option<string>, k: nat, i: nat, line: LogLine)
    requires |at| == |values| && SeenBy(values, at, i, line)
    ensures SeenBy(values + [value], at + [k], i, line)
  {
    var j :| 0 <= j < |at| && at[j] <= i && values[j] == line.entry.apiName;
    assert (at + [k])[j] == at[j] && (values + [value])[j] == values[j];
  }

  lemma NewValue(lines: seq<LogLine>, own: seq<bool>, k: nat, values: seq<Option<string>>, at: seq<nat>)
    requires k < |lines| <= |own| && FirstSeen(lines, own, k, values, at) && own[k] && lines[k].entry.LogEntry?
    requires lines[k].entry.apiName !in values
    ensures FirstSeen(lines, own, k + 1, values + [lines[k].entry.apiName], at + [k])
  {
    var value := lines[k].entry.apiName;
    NewSeen(lines, own, k, values, at);
    NewValueAt(lines, own, k, values, at);
    DistinctSnoc(values, value);
    IncreasingSnoc(at, k);
  }

  lemma NewSeen(lines: seq<LogLine>, own: seq<bool>, k: nat, values: seq<Option<string>>, at: seq<nat>)
    requires k < |lines| <= |own| && own[k] && lines[k].entry.LogEntry? && |at| == |values|
    requires forall i: nat :: i < k && own[i] ==> SeenBy(values, at, i, lines[i])
    ensures forall i: nat :: i < k + 1 && own[i] ==>
              SeenBy(values + [lines[k].entry.apiName], at + [k], i, lines[i])
  {
    var value := lines[k].entry.apiName;
    forall i: nat | i < k + 1 && own[i] ensures SeenBy(values + [value], at + [k], i, lines[i]) {
      if i < k {
        StillSeen(values, at, value, k, i, lines[i]);
      } else {
        assert (values + [value])[|at|] == value && (at + [k])[|at|] == k;
      }
    }
  }

  lemma NewValueAt(lines: seq<LogLine>, own: seq<bool>, k: nat, values: seq<Option<string>>, at: seq<nat>)
    requires k < |lines| <= |own| && own[k] && lines[k].entry.LogEntry? && ValuesAt(lines, own, k, values, at)
    ensures ValuesAt(lines, own, k + 1, values + [lines[k].entry.apiName], at + [k])
  {
  }

  lemma OldValue(lines: seq<LogLine>, own: seq<bool>, k: nat, values: seq<Option<string>>, at: seq<nat>)
    requires k < |lines| <= |own| && FirstSeen(lines, own, k, values, at)
    requires own[k] ==> lines[k].entry.LogEntry? && lines[k].entry.apiName in values
    ensures FirstSeen(lines, own, k + 1, values, at)
  {
    if own[k] {
      var j :| 0 <= j < |values| && values[j] == lines[k].entry.apiName;
      assert at[j] <= k;
    }
    assert ValuesAt(lines, own, k + 1, values, at);
  }

  predicate SeesAt(lines: seq<LogLine>, own: seq<bool>, seen: seq<seq<Option<string>>>, j: nat)
    requires j < |lines| < |seen| && |lines| <= |own|
  {
    if own[j] then
      && lines[j].entry.LogEntry?
      && seen[j + 1] == if lines[j].entry.apiName in seen[j] then seen[j] else seen[j] + [lines[j].entry.apiName]
    else seen[j + 1] == seen[j]
  }

  lemma {:induction false} SeenUpTo(lines: seq<LogLine>, own: seq<bool>, seen: seq<seq<Option<string>>>, k: nat)
    returns (at: seq<nat>)
    requires k <= |lines| < |seen| && |lines| <= |own| && seen[0] == []
    requires forall j: nat :: j < |lines| ==> SeesAt(lines, own, seen, j)
    ensures FirstSeen(lines, own, k, seen[k], at)
  {
    at := [];
    if k > 0 {
      at := SeenUpTo(lines, own, seen, k - 1);
      var j: nat := k - 1;
      assert SeesAt(lines, own, seen, j);
      if own[j] && lines[j].entry.apiName !in seen[j] {
        NewValue(lines, own, j, seen[j], at);
        at := at + [j];
      } else {
        OldValue(lines, own, j, seen[j], at);
      }
    }
  }

  lemma SeenNext(t: Tree, lines: seq<LogLine>, s: nat, k: nat)
    requires k < |lines|
    ensures var seen := MethodsSeen(t, lines, s, k);
            MethodsSeen(t, lines, s, k + 1) ==
              if Owner(t, lines, k) == Some(s) && lines[k].entry.apiName !in seen then seen + [lines[k].entry.apiName]
              else seen
    ensures Owner(t, lines, k) == Some(s) ==> lines[k].entry.LogEntry?
  {
  }

  /** The values of a process are exactly the methods of its lines. */
  lemma ValuesExactly(t: Tree, lines: seq<LogLine>, s: nat, own: seq<bool>) returns (at: seq<nat>)
    requires |own| == |lines| && forall i :: 0 <= i < |lines| ==> (own[i] <==> Owner(t, lines, i) == Some(s))
    ensures FirstSeen(lines, own, |lines|, MethodsSeen(t, lines, s, |lines|), at)
  {
    var seen := seq(|lines| + 1, k requires 0 <= k <= |lines| => MethodsSeen(t, lines, s, k));
    forall j: nat | j < |lines| ensures SeesAt(lines, own, seen, j) {
      SeenNext(t, lines, s, j);
    }
    at := SeenUpTo(lines, own, seen, |lines|);
  }
}
