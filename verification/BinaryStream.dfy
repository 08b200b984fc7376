/**
 The two kinds of files logs are served from: a local file, and an S3 object behind
 SeekableStreamingBody (drakrun/web/storage.py). The forward-only object body hands out
 pieces of any size; the wrapper hides that behind a readahead window.
 */
module BinaryStream {
  import opened Common

  const READAHEAD_SIZE: nat := 128 * 1024

  // ---------- What a seekable file does ----------

  datatype Op = Read(n: nat) | Seek(offset: nat) | Tell

  datatype Reply = Data(bytes: Bytes) | Position(at: nat)

  /** The reply of a plain file holding content, asked op at position at, and its position behind that. */
  function PlainAnswer(content: Bytes, at: nat, op: Op): (Reply, nat) {
    match op
    case Read(n) => (Data(Window(content, at, n)), at + |Window(content, at, n)|)
    case Seek(offset) => (Position(offset), offset)
    case Tell => (Position(at), at)
  }

  /** The replies of a plain file, asked ops from position at. */
  function PlainRun(content: Bytes, at: nat, ops: seq<Op>): seq<Reply>
    decreases |ops|
  {
    if ops == [] then []
    else
      var (reply, next) := PlainAnswer(content, at, ops[0]);
      [reply] + PlainRun(content, next, ops[1..])
  }

  lemma PlainNext(content: Bytes, start: nat, ops: seq<Op>, i: nat, at: nat, replies: seq<Reply>)
    requires i < |ops| && replies + PlainRun(content, at, ops[i..]) == PlainRun(content, start, ops)
    ensures var (reply, next) := PlainAnswer(content, at, ops[i]);
            (replies + [reply]) + PlainRun(content, next, ops[i + 1..]) == PlainRun(content, start, ops)
  {
    var (reply, next) := PlainAnswer(content, at, ops[i]);
    var rest := PlainRun(content, next, ops[i + 1..]);
    assert ops[i..][0] == ops[i] && ops[i..][1..] == ops[i + 1..];
    assert (replies + [reply]) + rest == replies + ([reply] + rest);
  }

  // ---------- The files ----------

  class LocalFile {
    const content: Bytes
    var pos: nat

    constructor (content: Bytes)
      ensures this.content == content && pos == 0
    {
      this.content := content;
      pos := 0;
    }

    method Read(n: nat) returns (data: Bytes)
      modifies this
      ensures data == Window(content, old(pos), n)
      ensures pos == old(pos) + |data|
    {
      data := Window(content, pos, n);
      pos := pos + |data|;
    }

    method Seek(offset: nat) returns (at: nat)
      modifies this
      ensures at == pos == offset
    {
      pos := offset;
      at := offset;
    }
  }

  /** The body of an S3 response: the bytes not handed out yet. */
  class StreamingBody {
    var rest: Bytes

    constructor (rest: Bytes)
      ensures this.rest == rest
    {
      this.rest := rest;
    }

    /** Any nonempty piece of at most amount bytes, until the end of the object. */
    method Read(amount: nat) returns (chunk: Bytes)
      modifies this
      ensures chunk + rest == old(rest) && |chunk| <= amount
      ensures amount > 0 && old(rest) != [] ==> chunk != []
    {
      if amount == 0 || rest == [] {
        return [];
      }
      var k :| 1 <= k <= amount && k <= |rest|;
      chunk := rest[..k];
      rest := rest[k..];
    }

    method ReadAll() returns (chunk: Bytes)
      modifies this
      ensures chunk == old(rest) && rest == []
    {
      chunk := rest;
      rest := [];
    }
  }

  /** A piece of a buffer is the piece of the longer sequence the buffer begins. */
  lemma WindowPiece<T>(buffer: seq<T>, at: nat, n: nat, rest: seq<T>)
    requires at <= |buffer|
    ensures var piece := Upto(buffer[at..], n);
            piece == Window(buffer + rest, at, |piece|) && at + |piece| <= |buffer|
  {
  }

  lemma NextPiece<T>(c: seq<T>, at: nat, data: seq<T>, chunk: seq<T>)
    requires data == Window(c, at, |data|) && chunk == Window(c, at + |data|, |chunk|)
    ensures data + chunk == Window(c, at, |data + chunk|)
  {
  }

  lemma NothingLeft<T>(c: seq<T>, at: nat, data: seq<T>, n: nat)
    requires data == Window(c, at, |data|) && From(c, at + |data|) == [] && |data| <= n
    ensures data == Window(c, at, n)
  {
  }

  class SeekableStreamingBody {
    const content: Bytes        // the S3 object, immutable while it is read
    var body: StreamingBody
    var window: Bytes          // the readahead buffer
    var windowPos: nat         // how much of it was consumed
    var current: nat

    ghost predicate Shaped()
      reads this
    {
      windowPos <= |window| && windowPos <= current
    }

    /** Where the window begins in the object, as the code computes it. */
    ghost function WindowStart(): nat
      requires Shaped()
      reads this
    {
      current - windowPos
    }

    /** The window, followed by what the body still holds, is the object from the window's start on. */
    ghost predicate Valid()
      reads this, body
    {
      Shaped() && window + body.rest == From(content, WindowStart())
    }

    constructor (content: Bytes, body: StreamingBody)
      requires body.rest == content
      modifies body
      ensures Valid() && current == 0 && this.content == content && this.body == body
      ensures |window| == Min(131072, |content|) && windowPos == 0
    {
      this.content := content;
      this.body := body;
      this.window, this.windowPos, this.current := [], 0, 0;
      new;
      window := Readahead();
    }

    /** Collects pieces of the body until the window is full or the body ends. */
    method Readahead() returns (buffer: Bytes)
      modifies body
      ensures buffer + body.rest == old(body.rest)
      ensures |buffer| == Min(131072, |old(body.rest)|)
    {
      buffer := [];
      var size: nat := READAHEAD_SIZE;
      while size > 0
        invariant buffer + body.rest == old(body.rest)
        invariant |buffer| + size == READAHEAD_SIZE
      {
        var chunk := body.Read(size);
        if chunk == [] {
          break;
        }
        buffer := buffer + chunk;
        size := size - |chunk|;
      }
      assert |old(body.rest)| == |buffer| + |body.rest|;
    }

    /** At most n bytes out of the window, moving the position behind them. */
    method TakeFromWindow(n: nat) returns (chunk: Bytes)
      requires Shaped()
      modifies this`windowPos, this`current
      ensures Shaped() && WindowStart() == old(WindowStart())
      ensures chunk == Window(window, old(windowPos), n) && windowPos == old(windowPos) + |chunk|
      ensures old(Valid()) ==> chunk == Window(content, old(current), |chunk|)
    {
      chunk := Upto(window[windowPos..], n);
      WindowPiece(window, windowPos, n, body.rest);
      windowPos := windowPos + |chunk|;
      current := current + |chunk|;
    }

    /** Replaces a used-up window by the next bytes of the body. */
    method Refill()
      requires Shaped() && windowPos == |window|
      modifies this`window, this`windowPos, body
      ensures Shaped() && windowPos == 0
      ensures old(Valid()) ==> Valid() && (window == [] ==> From(content, current) == [])
    {
      window := Readahead();
      windowPos := 0;
    }

    /** The first n bytes from the position on, as a file would return them. */
    method Read(n: nat) returns (data: Bytes)
      requires Shaped()
      modifies this, body
      ensures Shaped() && body == old(body)
      ensures current == old(current) + |data|
      ensures old(Valid()) ==> Valid() && data == Window(content, old(current), n)
      // what the window can satisfy comes out of the window, be it right or wrong
      ensures 0 < n <= |old(window)| - old(windowPos) ==> data == Window(old(window), old(windowPos), n)
    {
      data := [];
      ghost var w, at, fits := window, windowPos, 0 < n <= |window| - windowPos;
      var left: nat := n;
      while left > 0
        invariant Shaped() && body == old(body)
        invariant left + |data| == n && current == old(current) + |data|
        invariant old(Valid()) ==> Valid() && data == Window(content, old(current), |data|)
        invariant fits ==> if left == n then window == w && windowPos == at else data == Window(w, at, n)
        invariant fits ==> left == n || left == 0
        decreases left, if windowPos < |window| then 0 else 1
      {
        var chunk := TakeFromWindow(left);
        if chunk == [] {
          Refill();
          if window == [] {
            if old(Valid()) { NothingLeft(content, old(current), data, n); }
            break;
          }
        }
        if old(Valid()) { NextPiece(content, old(current), data, chunk); }
        data := data + chunk;
        left := left - |chunk|;
      }
    }

    /** All the bytes from the position on. The window keeps the bytes it had. */
    method ReadAll() returns (data: Bytes)
      requires Valid()
      modifies this, body
      ensures Shaped() && body == old(body)
      ensures data == From(content, old(current)) && current == old(current) + |data|
      ensures body.rest == [] && window == old(window) && windowPos == |window|
      ensures WindowStart() == old(WindowStart()) + |old(body.rest)|
      ensures Valid() <==> StillRight(content, old(WindowStart()), |window|)
    {
      var readahead := window[windowPos..];
      windowPos := |window|;
      var remaining := body.ReadAll();
      current := current + |readahead| + |remaining|;
      data := readahead + remaining;
    }

    /** Moves within the window when the offset lies in it, and restarts the request otherwise. */
    method Seek(offset: nat) returns (at: nat)
      requires Shaped()
      modifies this
      ensures Shaped() && at == current == offset
      ensures body == old(body) || fresh(body)
      ensures old(Valid()) ==> Valid()
      ensures old(WindowStart()) <= offset < old(WindowStart()) + |old(window)| ==>
                window == old(window) && windowPos == offset - old(WindowStart())
    {
      var start := current - windowPos;
      if start <= offset < start + |window| {
        windowPos := offset - start;
        current := offset;
        return offset;
      }
      if offset >= |content| {
        // the range request is refused: past the end there is nothing to read
        current := offset;
        window, windowPos := [], 0;
        body := new StreamingBody([]);
        return offset;
      }
      body := new StreamingBody(content[offset..]);
      current := offset;
      window := Readahead();
      windowPos := 0;
      return offset;
    }

    method Tell() returns (at: nat)
      ensures at == current
    {
      at := current;
    }
  }

  // ---------- Reading to the end and going back ----------

  /** The window that began at start is also the end of the object. */
  predicate StillRight(content: Bytes, start: nat, held: nat) {
    held <= |content| && Window(content, start, held) == From(content, |content| - held)
  }

  /**
   ReadAll leaves a valid window for every object of a length exactly when the window was
   empty or the body had nothing left, that is, when the window reached up to the end.
   */
  lemma ReadAllKeepsWindow(length: nat, start: nat, held: nat)
    requires start + held <= length
    ensures (forall c: Bytes | |c| == length :: StillRight(c, start, held)) <==> held == 0 || start + held == length
  {
    if held != 0 && start + held != length {
      var c: Bytes := seq(length, i => if i == length - 1 then 1 else 0);
      assert Window(c, start, held)[held - 1] != From(c, length - held)[held - 1];
    }
  }

  lemma WindowByte(window: Bytes, rest: Bytes, content: Bytes, start: nat, i: nat)
    requires window + rest == From(content, start) && start + |rest| + i < |content|
    ensures i < |window| && window[i] == content[start + i]
  {
    assert |window| + |rest| == |content| - start;
    assert (window + rest)[i] == window[i];
  }

  /** A seek into the window, right or wrong, and a read of one byte. */
  method ByteOfWindow(s: SeekableStreamingBody, offset: nat) returns (data: Bytes)
    requires s.Shaped() && s.WindowStart() <= offset < s.WindowStart() + |s.window|
    modifies s, s.body
    ensures data == [old(s.window)[offset - old(s.WindowStart())]]
  {
    ghost var w, start := s.window, s.WindowStart();
    var _ := s.Seek(offset);
    assert s.window == w && s.windowPos == offset - start;
    data := s.Read(1);
  }

  /**
   Otherwise the stream serves bytes that lie |rest| too early: after ReadAll, a seek to an
   offset that the window is believed to hold reads the byte |rest| before it.
   */
  method ReadAllThenSeek(s: SeekableStreamingBody, offset: nat) returns (data: Bytes)
    requires s.Valid() && s.body.rest != []
    requires s.WindowStart() + |s.body.rest| <= offset < |s.content|
    modifies s, s.body
    ensures data == [s.content[offset - |old(s.body.rest)|]]
  {
    WindowByte(s.window, s.body.rest, s.content, s.WindowStart(), offset - |s.body.rest| - s.WindowStart());
    var _ := s.ReadAll();
    data := ByteOfWindow(s, offset);
  }

  // ---------- One handle for both ----------

  /** What open_seekable_stream yields: a local file or an S3 object. */
  datatype BinaryIO = Local(file: LocalFile) | Remote(stream: SeekableStreamingBody) {

    ghost function Objects(): set<object>
      reads if Remote? then {stream} else {}
    {
      if Local? then {file} else {stream, stream.body}
    }

    ghost predicate Valid()
      reads Objects()
    {
      Local? || stream.Valid()
    }

    ghost function Content(): Bytes {
      if Local? then file.content else stream.content
    }

    ghost function Position(): nat
      reads Objects()
    {
      if Local? then file.pos else stream.current
    }

    method Read(n: nat) returns (data: Bytes)
      requires Valid()
      modifies Objects()
      ensures Valid() && fresh(Objects() - old(Objects()))
      ensures data == Window(Content(), old(Position()), n)
      ensures Position() == old(Position()) + |data|
    {
      match this
      case Local(f) => data := f.Read(n);
      case Remote(s) => data := s.Read(n);
    }

    method Seek(offset: nat) returns (at: nat)
      requires Valid()
      modifies Objects()
      ensures Valid() && fresh(Objects() - old(Objects()))
      ensures at == Position() == offset
    {
      match this
      case Local(f) => at := f.Seek(offset);
      case Remote(s) => at := s.Seek(offset);
    }

    method Tell() returns (at: nat)
      ensures at == Position()
    {
      match this
      case Local(f) => at := f.pos;
      case Remote(s) => at := s.Tell();
    }

    method Answer(op: Op) returns (reply: Reply)
      requires Valid()
      modifies Objects()
      ensures Valid() && fresh(Objects() - old(Objects()))
      ensures (reply, Position()) == PlainAnswer(Content(), old(Position()), op)
    {
      match op
      case Read(n) => var data := Read(n); reply := Data(data);
      case Seek(offset) => var at := Seek(offset); reply := Reply.Position(at);
      case Tell => var at := Tell(); reply := Reply.Position(at);
    }

    /**
     Whatever is asked, in whatever order, and however the object body is cut into pieces:
     the replies are those of a plain file.
     */
    method Run(ops: seq<Op>) returns (replies: seq<Reply>)
      requires Valid()
      modifies Objects()
      ensures Valid() && fresh(Objects() - old(Objects()))
      ensures replies == PlainRun(Content(), old(Position()), ops)
    {
      replies := [];
      for i := 0 to |ops|
        invariant Valid() && fresh(Objects() - old(Objects()))
        invariant replies + PlainRun(Content(), Position(), ops[i..]) == PlainRun(Content(), old(Position()), ops)
      {
        PlainNext(Content(), old(Position()), ops, i, Position(), replies);
        var reply := Answer(ops[i]);
        replies := replies + [reply];
      }
    }
  }
}
