/**
 The log_index file (drakrun/analyzer/postprocessing/indexer.py): a table of offsets, then
 one serialized index entry per process and log. The serializer is a parameter.
 */
module IndexContainer {
  import opened Common
  import opened BinaryStream
  import opened LogIndex

  /** decode returns the object at the front of the bytes and its length, None while it is incomplete. */
  datatype Codec<!T> = Codec(encode: T -> Bytes, decode: Bytes -> Option<(T, nat)>)

  /** Where an encoded object ends shows from the object alone. */
  ghost predicate SelfDelimiting<T(!new)>(codec: Codec<T>) {
    && (forall x: T, rest: Bytes :: codec.decode(codec.encode(x) + rest) == Some((x, |codec.encode(x)|)))
    && (forall x: T, k: nat :: k < |codec.encode(x)| ==> codec.decode(codec.encode(x)[..k]) == None)
  }

  /** A dictionary keeps its keys in the order of insertion; no key occurs twice. */
  type Dictionary<V> = seq<(string, V)>

  ghost predicate UniqueKeys<V>(d: Dictionary<V>) {
    forall i, j :: 0 <= i < j < |d| ==> d[i].0 != d[j].0
  }

  function Keys<V>(d: Dictionary<V>): (r: seq<string>)
    ensures |r| == |d| && forall i :: 0 <= i < |d| ==> r[i] == d[i].0
  {
    seq(|d|, i requires 0 <= i < |d| => d[i].0)
  }

  function Get<V>(d: Dictionary<V>, key: string): Option<V> {
    var i := IndexOf(Keys(d), key);
    if i < |d| then Some(d[i].1) else None
  }

  type LogTable = Dictionary<IndexEntry>

  type Toc = seq<Dictionary<nat>>

  // ---------- What the container holds ----------

  /** The serialized entries of the first n logs of one process. */
  function RowBlob(codec: Codec<IndexEntry>, row: LogTable, n: nat): Bytes
    requires n <= |row|
  {
    if n == 0 then [] else RowBlob(codec, row, n - 1) + codec.encode(row[n - 1].1)
  }

  /** The serialized entries of the first n processes. */
  function Blob(codec: Codec<IndexEntry>, tables: seq<LogTable>, n: nat): Bytes
    requires n <= |tables|
  {
    if n == 0 then [] else Blob(codec, tables, n - 1) + RowBlob(codec, tables[n - 1], |tables[n - 1]|)
  }

  /** How many serialized bytes lie before entry i of process s. */
  function Offset(codec: Codec<IndexEntry>, tables: seq<LogTable>, s: nat, i: nat): nat
    requires s < |tables| && i <= |tables[s]|
  {
    |Blob(codec, tables, s)| + |RowBlob(codec, tables[s], i)|
  }

  /** The table names the offset of each entry behind it. */
  ghost predicate TocFor(codec: Codec<IndexEntry>, tables: seq<LogTable>, toc: Toc) {
    |toc| == |tables| && forall s :: 0 <= s < |toc| ==> RowFor(codec, tables, s, toc[s])
  }

  ghost predicate RowFor(codec: Codec<IndexEntry>, tables: seq<LogTable>, s: nat, row: Dictionary<nat>)
    requires s < |tables|
  {
    |row| == |tables[s]| && RowSoFar(codec, tables, s, row)
  }

  ghost predicate RowSoFar(codec: Codec<IndexEntry>, tables: seq<LogTable>, s: nat, row: Dictionary<nat>)
    requires s < |tables|
  {
    && |row| <= |tables[s]|
    && forall i {:trigger row[i]} :: 0 <= i < |row| ==> row[i] == (tables[s][i].0, Offset(codec, tables, s, i))
  }

  /** What build_log_index returns for the tables. */
  ghost predicate Contains(codecs: Codecs, tables: seq<LogTable>, container: Bytes) {
    exists toc: Toc ::
      TocFor(codecs.entries, tables, toc)
      && container == codecs.tocs.encode(toc) + Blob(codecs.entries, tables, |tables|)
  }

  datatype Codecs = Codecs(tocs: Codec<Toc>, entries: Codec<IndexEntry>)

  ghost predicate Sound(codecs: Codecs) {
    SelfDelimiting(codecs.tocs) && SelfDelimiting(codecs.entries)
  }

  // ---------- Packing ----------

  method Pack(codecs: Codecs, tables: seq<LogTable>) returns (container: Bytes)
    ensures Contains(codecs, tables, container)
  {
    var serialized: Bytes := [];
    var toc: Toc := [];
    for s := 0 to |tables|
      invariant serialized == Blob(codecs.entries, tables, s)
      invariant |toc| == s && forall p :: 0 <= p < s ==> RowFor(codecs.entries, tables, p, toc[p])
    {
      var row, indexes := PackRow(codecs.entries, tables, s, |serialized|);
      PiecesJoined(codecs.entries, tables[s], indexes, |indexes|);
      toc := toc + [row];
      serialized := serialized + Concat(indexes);
    }
    container := codecs.tocs.encode(toc) + serialized;
    assert TocFor(codecs.entries, tables, toc);
  }

  /** Serializes the entries of process s, start bytes after the first entry of all. */
  method PackRow(codec: Codec<IndexEntry>, tables: seq<LogTable>, s: nat, start: nat)
    returns (row: Dictionary<nat>, indexes: seq<Bytes>)
    requires s < |tables| && start == |Blob(codec, tables, s)|
    ensures RowFor(codec, tables, s, row)
    ensures |indexes| == |tables[s]| && forall i :: 0 <= i < |indexes| ==> indexes[i] == codec.encode(tables[s][i].1)
  {
    row, indexes := [], [];
    var current := start;
    for i := 0 to |tables[s]|
      invariant current == Offset(codec, tables, s, i)
      invariant |row| == i && RowSoFar(codec, tables, s, row)
      invariant |indexes| == i && forall j :: 0 <= j < i ==> indexes[j] == codec.encode(tables[s][j].1)
    {
      NextOffset(codec, tables, s, row);
      var serializedIndex := codec.encode(tables[s][i].1);
      row := row + [(tables[s][i].0, current)];
      indexes := indexes + [serializedIndex];
      current := current + |serializedIndex|;
    }
  }

  lemma {:induction false} PiecesJoined(codec: Codec<IndexEntry>, row: LogTable, pieces: seq<Bytes>, n: nat)
    requires n <= |pieces| == |row| && forall i :: 0 <= i < |row| ==> pieces[i] == codec.encode(row[i].1)
    ensures Concat(pieces[..n]) == RowBlob(codec, row, n)
    ensures n == |pieces| ==> Concat(pieces) == RowBlob(codec, row, n)
  {
    if n > 0 {
      PiecesJoined(codec, row, pieces, n - 1);
      assert pieces[..n] == pieces[..n - 1] + [pieces[n - 1]];
      ConcatSnoc(pieces[..n - 1], pieces[n - 1]);
    }
    assert pieces[..|pieces|] == pieces;
  }

  lemma NextOffset(codec: Codec<IndexEntry>, tables: seq<LogTable>, s: nat, row: Dictionary<nat>)
    requires s < |tables| && |row| < |tables[s]| && RowSoFar(codec, tables, s, row)
    ensures Offset(codec, tables, s, |row| + 1)
            == Offset(codec, tables, s, |row|) + |codec.encode(tables[s][|row|].1)|
    ensures RowSoFar(codec, tables, s, row + [(tables[s][|row|].0, Offset(codec, tables, s, |row|))])
  {
  }

  // ---------- Unpacking ----------

  const READ_SIZE: nat := 16 * 1024

  /** Reads the file piece by piece until one object is complete; None when the file ends first. */
  method Unpack<T(!new)>(codec: Codec<T>, file: BinaryIO, ghost x: T) returns (r: Option<(T, nat)>)
    requires SelfDelimiting(codec) && file.Valid()
    requires codec.encode(x) <= From(file.Content(), file.Position())
    modifies file.Objects()
    ensures file.Valid() && fresh(file.Objects() - old(file.Objects()))
    ensures r == Some((x, |codec.encode(x)|))
  {
    var buffer: Bytes := [];
    ghost var start := file.Position();
    ghost var text := From(file.Content(), start);
    r := codec.decode(buffer);
    DecodesAt(codec, x, text, 0);
    while r.None?
      invariant file.Valid() && fresh(file.Objects() - old(file.Objects()))
      invariant file.Position() == start + |buffer| && |buffer| <= |text| && buffer == text[..|buffer|]
      invariant r == if |buffer| < |codec.encode(x)| then None else Some((x, |codec.encode(x)|))
      decreases |text| - |buffer|
    {
      var chunk := file.Read(READ_SIZE);
      assert chunk == Window(text, |buffer|, READ_SIZE);
      buffer := buffer + chunk;
      DecodesAt(codec, x, text, |buffer|);
      r := codec.decode(buffer);
    }
  }

  lemma DecodesAt<T(!new)>(codec: Codec<T>, x: T, text: Bytes, n: nat)
    requires SelfDelimiting(codec) && codec.encode(x) <= text && n <= |text|
    ensures codec.decode(text[..n]) == if n < |codec.encode(x)| then None else Some((x, |codec.encode(x)|))
  {
    var code := codec.encode(x);
    if n < |code| {
      assert text[..n] == code[..n];
    } else {
      assert text[..n] == code + text[|code|..n];
    }
  }

  /** The offset in the table is where the entry lies. */
  lemma {:induction false} EntryInBlob(codec: Codec<IndexEntry>, tables: seq<LogTable>, s: nat, i: nat, n: nat)
    requires s < n <= |tables| && i < |tables[s]|
    ensures codec.encode(tables[s][i].1) <= From(Blob(codec, tables, n), Offset(codec, tables, s, i))
  {
    var code := codec.encode(tables[s][i].1);
    if n > s + 1 {
      EntryInBlob(codec, tables, s, i, n - 1);
      StillInBlob(codec, tables, n - 1, code, Offset(codec, tables, s, i));
    } else {
      EntryInLast(codec, tables, s, i);
    }
  }

  lemma EntryInLast(codec: Codec<IndexEntry>, tables: seq<LogTable>, s: nat, i: nat)
    requires s < |tables| && i < |tables[s]|
    ensures codec.encode(tables[s][i].1) <= From(Blob(codec, tables, s + 1), Offset(codec, tables, s, i))
  {
    var row := tables[s];
    EntryInRow(codec, row, i, |row|);
    InFront(codec.encode(row[i].1), Blob(codec, tables, s), RowBlob(codec, row, |row|), |RowBlob(codec, row, i)|);
  }

  lemma StillInBlob(codec: Codec<IndexEntry>, tables: seq<LogTable>, n: nat, code: Bytes, at: nat)
    requires n < |tables| && code <= From(Blob(codec, tables, n), at)
    ensures code <= From(Blob(codec, tables, n + 1), at)
  {
    Behind(code, Blob(codec, tables, n), RowBlob(codec, tables[n], |tables[n]|), at);
  }

  lemma Behind(code: Bytes, blob: Bytes, more: Bytes, at: nat)
    requires code <= From(blob, at)
    ensures code <= From(blob + more, at)
  {
    if at <= |blob| { assert (blob + more)[at..] == blob[at..] + more; }
  }

  lemma InFront(code: Bytes, blob: Bytes, row: Bytes, at: nat)
    requires code <= From(row, at)
    ensures code <= From(blob + row, |blob| + at)
  {
    if at <= |row| { assert (blob + row)[|blob| + at..] == row[at..]; }
  }

  lemma {:induction false} EntryInRow(codec: Codec<IndexEntry>, row: LogTable, i: nat, n: nat)
    requires i < n <= |row|
    ensures codec.encode(row[i].1) <= From(RowBlob(codec, row, n), |RowBlob(codec, row, i)|)
  {
    if n > i + 1 {
      EntryInRow(codec, row, i, n - 1);
      Behind(codec.encode(row[i].1), RowBlob(codec, row, n - 1), codec.encode(row[n - 1].1), |RowBlob(codec, row, i)|);
    }
  }

  /** The stored entry of a process and a log, or None when there is none. */
  method GetLogIndexForProcess(codecs: Codecs, file: BinaryIO, seqid: nat, plugin: string, ghost tables: seq<LogTable>)
    returns (r: Option<IndexEntry>)
    requires Sound(codecs) && file.Valid() && file.Position() == 0
    requires Contains(codecs, tables, file.Content())
    modifies file.Objects()
    ensures file.Valid() && fresh(file.Objects() - old(file.Objects()))
    ensures r == if seqid < |tables| then Get(tables[seqid], plugin) else None
  {
    ghost var toc: Toc :| TocFor(codecs.entries, tables, toc)
      && file.Content() == codecs.tocs.encode(toc) + Blob(codecs.entries, tables, |tables|);
    var unpacked := Unpack(codecs.tocs, file, toc);
    var (indexToc, logPos) := unpacked.value;
    if seqid >= |indexToc| {
      return None;
    }
    assert RowFor(codecs.entries, tables, seqid, toc[seqid]);
    assert Keys(toc[seqid]) == Keys(tables[seqid]);
    var start := Get(indexToc[seqid], plugin);
    if start.None? {
      return None;
    }
    ghost var i := IndexOf(Keys(tables[seqid]), plugin);
    var _ := file.Seek(logPos + start.value);
    AtOffset(codecs, tables, toc, file.Content(), seqid, i);
    var entry := Unpack(codecs.entries, file, tables[seqid][i].1);
    r := Some(entry.value.0);
  }

  lemma AtOffset(codecs: Codecs, tables: seq<LogTable>, toc: Toc, container: Bytes, s: nat, i: nat)
    requires s < |tables| && i < |tables[s]|
    requires container == codecs.tocs.encode(toc) + Blob(codecs.entries, tables, |tables|)
    ensures codecs.entries.encode(tables[s][i].1)
            <= From(container, |codecs.tocs.encode(toc)| + Offset(codecs.entries, tables, s, i))
  {
    EntryInBlob(codecs.entries, tables, s, i, |tables|);
    var blob := Blob(codecs.entries, tables, |tables|);
    assert From(container, |codecs.tocs.encode(toc)| + Offset(codecs.entries, tables, s, i))
        == From(blob, Offset(codecs.entries, tables, s, i));
  }

  /** The logs a process has an entry in. */
  method GetPluginNamesForProcess(codecs: Codecs, file: BinaryIO, seqid: nat, ghost tables: seq<LogTable>)
    returns (names: seq<string>)
    requires Sound(codecs) && file.Valid() && file.Position() == 0
    requires Contains(codecs, tables, file.Content())
    modifies file.Objects()
    ensures file.Valid() && fresh(file.Objects() - old(file.Objects()))
    ensures names == if seqid < |tables| then Keys(tables[seqid]) else []
  {
    ghost var toc: Toc :| TocFor(codecs.entries, tables, toc)
      && file.Content() == codecs.tocs.encode(toc) + Blob(codecs.entries, tables, |tables|);
    var unpacked := Unpack(codecs.tocs, file, toc);
    var indexToc := unpacked.value.0;
    if seqid >= |indexToc| {
      return [];
    }
    assert RowFor(codecs.entries, tables, seqid, toc[seqid]);
    names := Keys(indexToc[seqid]);
  }
}
