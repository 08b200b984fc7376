/**
 scattered_read_file (drakrun/analyzer/postprocessing/indexer.py): a window of the bytes that a
 list of blocks selects.
 */
module ScatteredRead {
  import opened Common
  import opened BinaryStream

  /** The bytes of a file from start up to, and not including, end. */
  datatype Block = Block(start: nat, end: nat)

  ghost predicate BlocksWithin(blocks: seq<Block>, size: nat) {
    forall i :: 0 <= i < |blocks| ==> blocks[i].start <= blocks[i].end <= size
  }

  /** The selected bytes, all of them and in the order of the blocks. */
  function BlockText(content: Bytes, blocks: seq<Block>): Bytes
    requires BlocksWithin(blocks, |content|)
  {
    if blocks == [] then []
    else
      var last := blocks[|blocks| - 1];
      BlockText(content, blocks[..|blocks| - 1]) + content[last.start..last.end]
  }

  /** The slice text[skip : skip + length], where no length means all the rest. */
  function Cut<T>(text: seq<T>, skip: nat, length: Option<nat>): seq<T> {
    match length
    case None => From(text, skip)
    case Some(n) => Window(text, skip, n)
  }

  /** The cut from skip on, of at most length elements: exactly these elements of the text. */
  lemma CutExactly<T>(text: seq<T>, skip: nat, length: Option<nat>)
    ensures var left := if skip <= |text| then |text| - skip else 0;
            |Cut(text, skip, length)| == if length.Some? && length.value < left then length.value else left
    ensures forall i :: 0 <= i < |Cut(text, skip, length)| ==>
              skip + i < |text| && Cut(text, skip, length)[i] == text[skip + i]
  {
  }

  ghost predicate Served<T>(text: seq<T>, skip: nat, length: Option<nat>, output: seq<T>) {
    output == Cut(text, skip, length) && (length.Some? ==> |output| <= length.value)
  }

  /** What one more block adds to a cut. */
  lemma CutAppend<T>(text: seq<T>, block: seq<T>, skip: nat, length: Option<nat>, output: seq<T>)
    requires Served(text, skip, length, output)
    ensures skip >= |text| + |block| ==> Served(text + block, skip, length, output)
    ensures skip < |text| + |block| ==>
              var blockSkip := Max(0, skip - |text|);
              var available := |block| - blockSkip;
              var wanted := if length.Some? then Min(length.value - |output|, available) else available;
              Served(text + block, skip, length, output + Window(block, blockSkip, wanted))
  {
    if skip < |text| {
      assert From(text + block, skip) == From(text, skip) + block;
    } else if skip < |text| + |block| {
      assert From(text + block, skip) == From(block, skip - |text|);
    }
  }

  lemma WindowOfBlock<T>(content: seq<T>, b: Block, at: nat, n: nat)
    requires b.start <= b.end <= |content| && at + n <= b.end - b.start
    ensures Window(content[b.start..b.end], at, n) == Window(content, b.start + at, n)
    ensures |Window(content, b.start + at, n)| == n
  {
  }

  /** The seek and the read for one block. */
  method ReadWithin(file: BinaryIO, block: Block, blockSkip: nat, blockRead: nat) returns (chunk: Bytes)
    requires file.Valid() && block.start <= block.end <= |file.Content()|
    requires blockSkip + blockRead <= block.end - block.start
    modifies file.Objects()
    ensures file.Valid() && fresh(file.Objects() - old(file.Objects()))
    ensures |chunk| == blockRead
    ensures chunk == Window(file.Content()[block.start..block.end], blockSkip, blockRead)
  {
    var _ := file.Seek(block.start + blockSkip);
    WindowOfBlock(file.Content(), block, blockSkip, blockRead);
    chunk := file.Read(blockRead);
  }

  lemma PieceServed(text: Bytes, piece: Bytes, skip: nat, length: Option<nat>, chunks: seq<Bytes>, chunk: Bytes,
                    blockSkip: nat, blockRead: nat)
    requires Served(text, skip, length, Concat(chunks)) && skip < |text| + |piece|
    requires blockSkip == Max(0, skip - |text|)
    requires blockRead ==
             if length.Some? then Min(length.value - |Concat(chunks)|, |piece| - blockSkip) else |piece| - blockSkip
    requires chunk == Window(piece, blockSkip, blockRead)
    ensures Served(text + piece, skip, length, Concat(chunks + [chunk]))
    ensures |Concat(chunks + [chunk])| == |Concat(chunks)| + |chunk|
  {
    var output := Concat(chunks);
    ConcatSnoc(chunks, chunk);
    CutAppend(text, piece, skip, length, output);
    PieceLength(piece, blockSkip, blockRead, |output|, length);
  }

  lemma PieceLength(piece: Bytes, blockSkip: nat, blockRead: nat, read: nat, length: Option<nat>)
    requires blockSkip + blockRead <= |piece| && (length.Some? ==> read + blockRead <= length.value)
    ensures |Window(piece, blockSkip, blockRead)| == blockRead
    ensures length.Some? ==> read + |Window(piece, blockSkip, blockRead)| <= length.value
  {
  }

  /** One block of the loop: what of it is asked for is read, if anything is. */
  method ReadBlock(file: BinaryIO, block: Block, skip: nat, length: Option<nat>, bytesScanned: nat, bytesRead: nat,
                   chunks: seq<Bytes>, ghost text: Bytes)
    returns (read: nat, output: seq<Bytes>)
    requires file.Valid() && block.start <= block.end <= |file.Content()|
    requires Served(text, skip, length, Concat(chunks)) && bytesScanned == |text| && bytesRead == |Concat(chunks)|
    modifies file.Objects()
    ensures file.Valid() && fresh(file.Objects() - old(file.Objects()))
    ensures Served(text + file.Content()[block.start..block.end], skip, length, Concat(output))
    ensures read == |Concat(output)|
  {
    ghost var piece := file.Content()[block.start..block.end];
    read, output := bytesRead, chunks;
    var blockLength := block.end - block.start;
    if skip >= bytesScanned + blockLength {
      CutAppend(text, piece, skip, length, Concat(chunks));
    } else {
      var blockSkip := Max(0, skip - bytesScanned);
      var blockRead := blockLength - blockSkip;
      if length.Some? {
        blockRead := Min(length.value - bytesRead, blockRead);
      }
      var chunk := ReadWithin(file, block, blockSkip, blockRead);
      PieceServed(text, piece, skip, length, chunks, chunk, blockSkip, blockRead);
      output := chunks + [chunk];
      read := bytesRead + blockRead;
    }
  }

  lemma BlockTextNext(content: Bytes, offsets: seq<Block>, i: nat)
    requires BlocksWithin(offsets, |content|) && i < |offsets|
    ensures BlockText(content, offsets[..i + 1]) ==
            BlockText(content, offsets[..i]) + content[offsets[i].start..offsets[i].end]
  {
    assert offsets[..i + 1][..i] == offsets[..i];
  }

  method ScatteredReadFile(file: BinaryIO, offsets: seq<Block>, skip: nat, length: Option<nat>)
    returns (chunks: seq<Bytes>)
    requires file.Valid() && BlocksWithin(offsets, |file.Content()|)
    modifies file.Objects()
    ensures file.Valid() && fresh(file.Objects() - old(file.Objects()))
    ensures Concat(chunks) == Cut(BlockText(file.Content(), offsets), skip, length)
  {
    var bytesScanned: nat, bytesRead: nat := 0, 0;
    chunks := [];
    ghost var text: Bytes := [];
    for i := 0 to |offsets|
      invariant file.Valid() && fresh(file.Objects() - old(file.Objects()))
      invariant text == BlockText(file.Content(), offsets[..i])
      invariant Served(text, skip, length, Concat(chunks))
      invariant bytesScanned == |text| && bytesRead == |Concat(chunks)|
    {
      var block := offsets[i];
      BlockTextNext(file.Content(), offsets, i);
      ghost var piece := file.Content()[block.start..block.end];
      bytesRead, chunks := ReadBlock(file, block, skip, length, bytesScanned, bytesRead, chunks, text);
      bytesScanned := bytesScanned + (block.end - block.start);
      text := text + piece;
    }
    assert offsets[..|offsets|] == offsets;
  }

  function Sum(lengths: seq<nat>): nat {
    if lengths == [] then 0 else lengths[0] + Sum(lengths[1..])
  }

  /** Requests for adjacent windows, each beginning where the one before it was asked to end. */
  function Pages<T>(text: seq<T>, skip: nat, lengths: seq<nat>): seq<T>
    decreases |lengths|
  {
    if lengths == [] then []
    else Cut(text, skip, Some(lengths[0])) + Pages(text, skip + lengths[0], lengths[1..])
  }

  /** Adjacent windows put together are one window, and the whole once they are long enough. */
  lemma {:induction false} PagesReassemble<T>(text: seq<T>, skip: nat, lengths: seq<nat>)
    ensures Pages(text, skip, lengths) == Cut(text, skip, Some(Sum(lengths)))
    ensures skip + Sum(lengths) >= |text| ==> Pages(text, skip, lengths) == Cut(text, skip, None)
    decreases |lengths|
  {
    if lengths != [] {
      PagesReassemble(text, skip + lengths[0], lengths[1..]);
      WindowSplit(text, skip, lengths[0], Sum(lengths[1..]));
    }
  }
}
