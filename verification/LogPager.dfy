/**
 The loader of the log viewer (drakrun/web/frontend/src/LogViewer.jsx): it fetches a log
 range by range and hands on whole lines only. Ranges count bytes, and the loader counts the
 code units of the text it is given.
 */
module LogPager {
  import opened Common
  import opened Utf8

  const NEWLINE: byte := 10

  /** A line with one character of two bytes. */
  const ACCENTED: Bytes := [0xC3, 0xA9, NEWLINE]

  /** A newline at the end, and nowhere else. */
  ghost predicate IsLine(line: Bytes) {
    line != [] && line[|line| - 1] == NEWLINE && forall i :: 0 <= i < |line| - 1 ==> line[i] != NEWLINE
  }

  ghost predicate AreLines(lines: seq<Bytes>) {
    forall i :: 0 <= i < |lines| ==> IsLine(lines[i])
  }

  /** No line is longer than n. */
  ghost predicate Hold(lines: seq<Bytes>, n: nat) {
    forall i :: 0 <= i < |lines| ==> |lines[i]| <= n
  }

  /** The length up to and including the last newline; 0 without one. */
  function CompleteLength<T(==)>(data: seq<T>, newline: T): (r: nat)
    ensures r <= |data|
    ensures r > 0 ==> data[r - 1] == newline
    ensures forall i :: r <= i < |data| ==> data[i] != newline
  {
    if data == [] then 0
    else if data[|data| - 1] == newline then |data|
    else CompleteLength(data[..|data| - 1], newline)
  }

  // ---------- The generator ----------

  datatype Reply = Data(text: Text) | RangeNotSatisfiable | Failed

  datatype Outcome = Yield(text: Text) | Done | Thrown

  class LogLoader {
    var currentStart: nat
    var finished: bool

    constructor ()
      ensures currentStart == 0 && !finished
    {
      currentStart := 0;
      finished := false;
    }

    /** One step of the generator, with the server's reply to the request it makes. */
    method Next(reply: Reply) returns (r: Outcome)
      modifies this
      ensures old(finished) ==> r == Done && finished && currentStart == old(currentStart)
      ensures !old(finished) ==>
                match reply
                case Data(text) =>
                  !finished && r == Yield(text[..CompleteLength(text, NEWLINE as unit16)])
                  && currentStart == old(currentStart) + CompleteLength(text, NEWLINE as unit16)
                case RangeNotSatisfiable => finished && r == Done && currentStart == old(currentStart)
                case Failed => finished && r == Thrown && currentStart == old(currentStart)
    {
      if finished {
        return Done;
      }
      match reply
      case Data(text) =>
        var dataLength := CompleteLength(text, NEWLINE as unit16);
        currentStart := currentStart + dataLength;
        r := Yield(text[..dataLength]);
      case RangeNotSatisfiable =>
        finished := true;
        r := Done;
      case Failed =>
        finished := true;
        r := Thrown;
    }

    /**
     A run of the loader against a server that answers fetch number f with sizes[f] bytes
     from the loader's position on, or with what is left, where every range can hold the
     longest line. Of a log in ASCII each fetch shows at least one more line: what was shown is
     always the log up to the end of some line, and after as many fetches as there are lines it
     is all of it. And as long as the log is valid UTF-8 nothing less will do: the loader ends
     with the log shown once exactly when it is ASCII.
     */
    method Run(lines: seq<Bytes>, sizes: seq<nat>) returns (shown: Text, ghost k: nat)
      requires AreLines(lines) && currentStart == 0 && !finished
      requires forall f :: 0 <= f < |sizes| ==> Hold(lines, sizes[f])
      modifies this
      ensures !finished && currentStart == |shown| <= |Concat(lines)|
      ensures IsAscii(Concat(lines)) ==>
                k <= |lines| && shown == Decode(Concat(lines[..k])) && k >= Min(|sizes|, |lines|)
      ensures IsAscii(Concat(lines)) && |sizes| >= |lines| ==> shown == Decode(Concat(lines))
      ensures IsUtf8(Concat(lines)) && |sizes| >= |Concat(lines)| ==>
                (shown == Decode(Concat(lines)) <==> IsAscii(Concat(lines)))
    {
      shown, k := [], 0;
      for f := 0 to |sizes|
        invariant !finished && currentStart == |shown| && Shown(lines, f, shown, k)
      {
        var slice := Window(Concat(lines), currentStart, sizes[f]);
        k := FetchShows(lines, f, shown, k, sizes[f]);
        var r := Next(Data(Decode(slice)));
        shown := shown + r.text;
      }
      AllShown(lines, |sizes|, shown, k);
    }

    /**
     What goes wrong otherwise: of a line with one character of two bytes the second fetch
     shows the newline again.
     */
    method ShowTwice(n: nat, m: nat) returns (first: Outcome, second: Outcome)
      requires currentStart == 0 && !finished && n >= 3 && m >= 1
      modifies this
      ensures IsLine(ACCENTED) && IsUtf8(ACCENTED) && Decode(ACCENTED) == [0xE9, 10]
      ensures first == Yield([0xE9, 10]) && second == Yield([10])
    {
      AccentedText();
      AccentedPieces(n, m);
      first := Next(Data(Decode(Window(ACCENTED, currentStart, n))));
      second := Next(Data(Decode(Window(ACCENTED, currentStart, m))));
    }
  }

  // ---------- What a fetch shows ----------

  /** What is shown of a range of n bytes at a position. */
  function Piece(log: Bytes, at: nat, n: nat): Text {
    var text := Decode(Window(log, at, n));
    text[..CompleteLength(text, NEWLINE as unit16)]
  }

  /** What was shown after f fetches; k: how many lines that are, if the log is ASCII. */
  ghost predicate Shown(lines: seq<Bytes>, f: nat, shown: Text, k: nat) {
    var log := Concat(lines);
    && Min(f, |log|) <= |shown| <= |log|
    && (IsAscii(log) ==> Min(f, |lines|) <= k <= |lines| && shown == Decode(Concat(lines[..k])))
  }

  /** The text of bytes that end in a newline, and of what follows without one, is cut between the two. */
  lemma CutAtNewline(whole: Bytes, tail: Bytes)
    requires NEWLINE !in tail
    ensures var text := Decode(whole + [NEWLINE] + tail);
            text[..CompleteLength(text, NEWLINE as unit16)] == Decode(whole + [NEWLINE])
  {
    NoneAdded(tail, NEWLINE);
    DecodeUpTo(whole, NEWLINE);
    DecodeBehind(whole, NEWLINE, tail);
    CompleteLengthOf(Decode(whole + [NEWLINE]), Decode(tail), NEWLINE as unit16);
  }

  /** The text is cut where its bytes would be. */
  lemma PieceIsDecoded(log: Bytes, at: nat, n: nat)
    ensures var slice := Window(log, at, n); Piece(log, at, n) == Decode(slice[..CompleteLength(slice, NEWLINE)])
  {
    var slice := Window(log, at, n);
    var k := CompleteLength(slice, NEWLINE);
    if k == 0 {
      NoneAdded(slice, NEWLINE);
      CompleteLengthOf([], Decode(slice), NEWLINE as unit16);
      assert [] + Decode(slice) == Decode(slice);
    } else {
      assert slice == slice[..k - 1] + [NEWLINE] + slice[k..];
      assert slice[..k] == slice[..k - 1] + [NEWLINE];
      CutAtNewline(slice[..k - 1], slice[k..]);
    }
  }

  lemma AccentedText()
    ensures IsUtf8(ACCENTED) && Decode(ACCENTED) == [0xE9, 10] && Decode([NEWLINE]) == [10]
  {
    assert ACCENTED[2..] == [NEWLINE];
    AsciiIsItself([NEWLINE]);
    assert Taken(ACCENTED) == 2;
    assert Front(ACCENTED) == [0xE9];
  }

  lemma Whole(slice: Bytes)
    requires slice != [] && slice[|slice| - 1] == NEWLINE
    ensures slice[..CompleteLength(slice, NEWLINE)] == slice
  {
  }

  lemma AccentedPieces(n: nat, m: nat)
    requires n >= 3 && m >= 1
    ensures Piece(ACCENTED, 0, n) == [0xE9, 10] && Piece(ACCENTED, 2, m) == [10]
  {
    AccentedText();
    assert Window(ACCENTED, 0, n) == ACCENTED && Window(ACCENTED, 2, m) == [NEWLINE];
    PieceIsDecoded(ACCENTED, 0, n);
    PieceIsDecoded(ACCENTED, 2, m);
    Whole(ACCENTED);
    Whole([NEWLINE]);
  }

  /** A range behind which bytes are left, and that can hold the longest line, holds the end of one. */
  lemma {:induction false} HoldsAnEnd(lines: seq<Bytes>, at: nat, n: nat)
    requires AreLines(lines) && Hold(lines, n) && at < |Concat(lines)|
    ensures NEWLINE in Window(Concat(lines), at, n)
  {
    var m := |lines| - 1;
    var before := Concat(lines[..m]);
    var slice := Window(Concat(lines), at, n);
    assert IsLine(lines[m]);
    if at < |before| {
      HoldsAnEnd(lines[..m], at, n);
      var i :| 0 <= i < |Window(before, at, n)| && Window(before, at, n)[i] == NEWLINE;
      assert slice[i] == NEWLINE;
    } else {
      assert slice[|Concat(lines)| - 1 - at] == NEWLINE;
    }
  }

  /** The loader never runs past the end, and always moves on in front of it. */
  lemma FetchMoves(lines: seq<Bytes>, at: nat, n: nat)
    requires AreLines(lines) && at <= |Concat(lines)|
    ensures at + |Piece(Concat(lines), at, n)| <= |Concat(lines)|
    ensures Hold(lines, n) && at < |Concat(lines)| ==> Piece(Concat(lines), at, n) != []
  {
    PieceIsDecoded(Concat(lines), at, n);
    if Hold(lines, n) && at < |Concat(lines)| {
      HoldsAnEnd(lines, at, n);
    }
  }

  lemma AsciiUpTo(lines: seq<Bytes>, k: nat)
    requires k <= |lines| && IsAscii(Concat(lines))
    ensures |Decode(Concat(lines[..k]))| == |Concat(lines[..k])|
  {
    var done := Concat(lines[..k]);
    assert lines == lines[..k] + lines[k..];
    ConcatAppend(lines[..k], lines[k..]);
    assert forall i :: 0 <= i < |done| ==> done[i] == Concat(lines)[i];
    AsciiIsItself(done);
  }

  lemma AsciiInside(log: Bytes, at: nat, n: nat)
    requires IsAscii(log)
    ensures IsAscii(Window(log, at, n))
  {
    var slice := Window(log, at, n);
    assert forall i :: 0 <= i < |slice| ==> slice[i] == log[at + i];
  }

  /** Of a log in ASCII a fetch shows whole lines, from where the last one ended. */
  lemma AsciiFetch(lines: seq<Bytes>, k: nat, n: nat) returns (next: nat)
    requires AreLines(lines) && k <= |lines| && Hold(lines, n) && IsAscii(Concat(lines))
    ensures k <= next <= |lines| && (k < |lines| ==> next > k)
    ensures var shown := Decode(Concat(lines[..k]));
            shown + Piece(Concat(lines), |shown|, n) == Decode(Concat(lines[..next]))
  {
    var log, done := Concat(lines), Concat(lines[..k]);
    AsciiUpTo(lines, k);
    next := SliceEndsLines(lines, k, n);
    var slice := Window(log, |done|, n);
    AsciiInside(log, |done|, n);
    PieceIsDecoded(log, |done|, n);
    DecodeAppend(done, slice[..CompleteLength(slice, NEWLINE)]);
  }

  lemma FetchShows(lines: seq<Bytes>, f: nat, shown: Text, k: nat, n: nat) returns (next: nat)
    requires AreLines(lines) && Hold(lines, n) && Shown(lines, f, shown, k)
    ensures Shown(lines, f + 1, shown + Piece(Concat(lines), |shown|, n), next)
  {
    FetchMoves(lines, |shown|, n);
    next := k;
    if IsAscii(Concat(lines)) {
      next := AsciiFetch(lines, k, n);
    }
  }

  /** After as many fetches as bytes, as many code units were shown: of valid UTF-8 the right ones only if ASCII. */
  lemma AllShown(lines: seq<Bytes>, f: nat, shown: Text, k: nat)
    requires Shown(lines, f, shown, k)
    ensures IsAscii(Concat(lines)) && f >= |lines| ==> shown == Decode(Concat(lines))
    ensures IsUtf8(Concat(lines)) && f >= |Concat(lines)| && AreLines(lines) ==>
              (shown == Decode(Concat(lines)) <==> IsAscii(Concat(lines)))
  {
    assert lines[..|lines|] == lines;
    if IsUtf8(Concat(lines)) && AreLines(lines) {
      OneUnitEachExactly(Concat(lines));
      NotFewerBytes(lines);
    }
  }

  lemma {:induction false} NotFewerBytes(lines: seq<Bytes>)
    requires AreLines(lines)
    ensures |lines| <= |Concat(lines)|
  {
    if lines != [] {
      assert IsLine(lines[|lines| - 1]);
      NotFewerBytes(lines[..|lines| - 1]);
    }
  }

  // ---------- Slices and lines ----------

  lemma {:induction false} CompleteLengthOf<T>(whole: seq<T>, tail: seq<T>, newline: T)
    requires whole == [] || whole[|whole| - 1] == newline
    requires newline !in tail
    ensures CompleteLength(whole + tail, newline) == |whole|
  {
    assert whole != [] ==> (whole + tail)[|whole| - 1] == newline;
    assert forall i :: |whole| <= i < |whole + tail| ==> (whole + tail)[i] == tail[i - |whole|];
  }

  lemma ConcatEndsInNewline(lines: seq<Bytes>)
    requires AreLines(lines)
    ensures var whole := Concat(lines); whole == [] || whole[|whole| - 1] == NEWLINE
  {
    if lines != [] {
      assert IsLine(lines[|lines| - 1]);
    }
  }

  /** A slice from the beginning is cut back to the lines it holds entirely. */
  lemma {:induction false} WholeLines(lines: seq<Bytes>, n: nat) returns (k: nat)
    requires AreLines(lines)
    ensures k <= |lines| && CompleteLength(Upto(Concat(lines), n), NEWLINE) == |Concat(lines[..k])| <= |Concat(lines)|
    ensures Upto(Concat(lines), n)[..|Concat(lines[..k])|] == Concat(lines[..k])
    ensures lines != [] ==> (k > 0 <==> n >= |lines[0]|)
  {
    var m := |lines| - 1;
    if n >= |Concat(lines)| {
      k := |lines|;
      assert lines[..k] == lines;
      ConcatEndsInNewline(lines);
      CompleteLengthOf(Concat(lines), [], NEWLINE);
      assert Concat(lines) + [] == Concat(lines);
      if lines != [] { FirstLineFits(lines); }
    } else if n <= |Concat(lines[..m])| && m > 0 {
      k := WholeLines(lines[..m], n);
      assert lines[..m][..k] == lines[..k];
      assert Upto(Concat(lines), n) == Upto(Concat(lines[..m]), n);
    } else {
      k := m;
      var whole, tail := Concat(lines[..m]), lines[m][..n - |Concat(lines[..m])|];
      assert IsLine(lines[m]);
      ConcatEndsInNewline(lines[..m]);
      CompleteLengthOf(whole, tail, NEWLINE);
      assert Upto(Concat(lines), n) == whole + tail;
      if m > 0 { FirstLineFits(lines[..m]); }
    }
  }

  lemma {:induction false} FirstLineFits(lines: seq<Bytes>)
    requires lines != []
    ensures |lines[0]| <= |Concat(lines)|
  {
    if |lines| > 1 { FirstLineFits(lines[..|lines| - 1]); }
  }

  /** A slice from the end of line k on is cut back to the end of some line, and of a later one if it holds line k. */
  lemma SliceEndsLines(lines: seq<Bytes>, k: nat, n: nat) returns (next: nat)
    requires AreLines(lines) && k <= |lines|
    ensures k <= next <= |lines|
    ensures var start := |Concat(lines[..k])|;
            var slice := Window(Concat(lines), start, n);
            && Concat(lines[..k]) + slice[..CompleteLength(slice, NEWLINE)] == Concat(lines[..next])
            && (k < |lines| ==> (next > k <==> n >= |lines[k]|))
  {
    var done, rest := lines[..k], lines[k..];
    assert lines == done + rest;
    ConcatAppend(done, rest);
    assert From(Concat(lines), |Concat(done)|) == Concat(rest);
    var more := WholeLines(rest, n);
    next := k + more;
    assert lines[..next] == done + rest[..more];
    ConcatAppend(done, rest[..more]);
  }

  /**
   When the loader moves on: a fetch in front of line k emits something exactly when the
   slice can hold that line. A shorter slice is fetched again and again.
   */
  lemma ProgressExactly(lines: seq<Bytes>, k: nat, n: nat)
    requires AreLines(lines) && k < |lines|
    ensures Piece(Concat(lines), |Concat(lines[..k])|, n) != [] <==> n >= |lines[k]|
  {
    var next := SliceEndsLines(lines, k, n);
    PieceIsDecoded(Concat(lines), |Concat(lines[..k])|, n);
    if next > k {
      ConcatGrows(lines, k, next);
    }
  }

  lemma {:induction false} ConcatGrows(lines: seq<Bytes>, k: nat, next: nat)
    requires AreLines(lines) && k < next <= |lines|
    ensures |Concat(lines[..k])| < |Concat(lines[..next])|
    decreases next
  {
    assert lines[..next][..next - 1] == lines[..next - 1];
    assert IsLine(lines[next - 1]);
    if k < next - 1 { ConcatGrows(lines, k, next - 1); }
  }
}
