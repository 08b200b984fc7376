/**
 The messages of the drakshell protocol: how the guest writes responses
 (drakrun/tools/drakshell/drakshell.c) and how the host reads them (drakrun/lib/drakshell.py),
 both piece by piece.
 */
module Framing {
  import opened Common

  const REQ_PING: byte := 0xA0
  const REQ_GET_INFO: byte := 0xA1
  const REQ_INTERACTIVE_EXECUTE: byte := 0xA2
  const REQ_NON_INTERACTIVE_EXECUTE: byte := 0xA3
  const REQ_EXECUTE_AND_FINISH: byte := 0xA4
  const REQ_FINISH: byte := 0xA5
  const REQ_DATA: byte := 0xA6
  const REQ_TERMINATE_PROCESS: byte := 0xA7

  const RESP_PONG: byte := 0xA0
  const RESP_INFO: byte := 0xA1
  const RESP_INTERACTIVE_EXECUTE_START: byte := 0xA2
  const RESP_NON_INTERACTIVE_EXECUTE_START: byte := 0xA3
  const RESP_EXECUTE_AND_FINISH_START: byte := 0xA4
  const RESP_FINISH_START: byte := 0xA5
  const RESP_STDOUT_DATA: byte := 0xA6
  const RESP_STDERR_DATA: byte := 0xA7
  const RESP_PROCESS_START: byte := 0xA8
  const RESP_PROCESS_EXIT: byte := 0xA9
  const RESP_BAD_REQ: byte := 0xB0
  const RESP_FATAL_ERROR: byte := 0xB1
  const RESP_PROCESS_ERROR: byte := 0xB2

  const WORD: int := 0x1_0000
  const DWORD: int := 0x1_0000_0000

  datatype Response =
    | Plain(code: byte)
    | Block(code: byte, data: Bytes)
    | Status(code: byte, value: int)
    | Info(pid: int, tid: int)

  predicate IsBlock(code: byte) { code == RESP_STDOUT_DATA || code == RESP_STDERR_DATA }

  predicate IsStatus(code: byte) {
    code == RESP_PROCESS_EXIT || code == RESP_PROCESS_ERROR || code == RESP_FATAL_ERROR
  }

  predicate IsCode(code: byte) {
    RESP_PONG <= code <= RESP_PROCESS_EXIT || RESP_BAD_REQ <= code <= RESP_PROCESS_ERROR
  }

  /** A response the guest can send: block lengths fit a word, codes and ids a double word. */
  predicate Sendable(r: Response) {
    match r
    case Plain(code) => IsCode(code) && !IsBlock(code) && !IsStatus(code) && code != RESP_INFO
    case Block(code, data) => IsBlock(code) && |data| < WORD
    case Status(code, value) => IsStatus(code) && 0 <= value < DWORD
    case Info(pid, tid) => 0 <= pid < DWORD && 0 <= tid < DWORD
  }

  // ---------- Bytes on the wire ----------

  function Word(n: int): Bytes
    requires 0 <= n < WORD
  {
    [(n % 256) as byte, (n / 256) as byte]
  }

  function DoubleWord(n: int): Bytes
    requires 0 <= n < DWORD
  {
    Word(n % WORD) + Word(n / WORD)
  }

  function FromWord(b: Bytes): (r: int)
    requires |b| == 2
    ensures 0 <= r < WORD
  {
    b[0] as int + 256 * (b[1] as int)
  }

  function FromDoubleWord(b: Bytes): (r: int)
    requires |b| == 4
    ensures 0 <= r < DWORD
  {
    FromWord(b[..2]) + WORD * FromWord(b[2..])
  }

  lemma WordRoundTrip(n: int)
    requires 0 <= n < WORD
    ensures FromWord(Word(n)) == n
  {
  }

  lemma DoubleWordRoundTrip(n: int)
    requires 0 <= n < DWORD
    ensures FromDoubleWord(DoubleWord(n)) == n
  {
    WordRoundTrip(n % WORD);
    WordRoundTrip(n / WORD);
    assert DoubleWord(n)[..2] == Word(n % WORD) && DoubleWord(n)[2..] == Word(n / WORD);
  }

  function Encode(r: Response): (b: Bytes)
    requires Sendable(r)
    ensures b != []
  {
    match r
    case Plain(code) => [code]
    case Block(code, data) => [code] + Word(|data|) + data
    case Status(code, value) => [code] + DoubleWord(value)
    case Info(pid, tid) => [RESP_INFO] + DoubleWord(pid) + DoubleWord(tid)
  }

  /** The messages as they are on the wire: a code, and behind it little-endian numbers. */
  lemma WireFormat(value: int, data: Bytes, pid: int, tid: int)
    requires 0 <= value < DWORD && |data| < WORD && 0 <= pid < DWORD && 0 <= tid < DWORD
    ensures Encode(Plain(RESP_PONG)) == [0xA0] && Encode(Plain(RESP_PROCESS_START)) == [0xA8]
    ensures Encode(Plain(RESP_BAD_REQ)) == [0xB0]
    ensures Encode(Status(RESP_PROCESS_EXIT, value)) == [0xA9] + LittleEndian(value, 4)
    ensures Encode(Status(RESP_FATAL_ERROR, value)) == [0xB1] + LittleEndian(value, 4)
    ensures Encode(Status(RESP_PROCESS_ERROR, value)) == [0xB2] + LittleEndian(value, 4)
    ensures Encode(Block(RESP_STDOUT_DATA, data)) == [0xA6] + LittleEndian(|data|, 2) + data
    ensures Encode(Block(RESP_STDERR_DATA, data)) == [0xA7] + LittleEndian(|data|, 2) + data
    ensures Encode(Info(pid, tid)) == [0xA1] + LittleEndian(pid, 4) + LittleEndian(tid, 4)
  {
    DoubleWordIs(value);
    DoubleWordIs(pid);
    DoubleWordIs(tid);
    WordIs(|data|);
  }

  /** The n low bytes of a number, the lowest first. */
  function LittleEndian(value: nat, n: nat): (b: Bytes)
    ensures |b| == n
  {
    if n == 0 then [] else [(value % 256) as byte] + LittleEndian(value / 256, n - 1)
  }

  lemma WordIs(n: int)
    requires 0 <= n < WORD
    ensures Word(n) == LittleEndian(n, 2)
  {
    assert LittleEndian(n, 2) == [(n % 256) as byte] + LittleEndian(n / 256, 1);
    assert LittleEndian(n / 256, 1) == [(n / 256 % 256) as byte] + LittleEndian(n / 256 / 256, 0);
  }

  lemma DoubleWordIs(n: int)
    requires 0 <= n < DWORD
    ensures DoubleWord(n) == LittleEndian(n, 4)
  {
    assert LittleEndian(n, 4) == [(n % 256) as byte] + LittleEndian(n / 256, 3);
    assert LittleEndian(n / 256, 3) == [(n / 256 % 256) as byte] + LittleEndian(n / 256 / 256, 2);
    WordIs(n / 256 / 256);
    assert n / 256 / 256 == n / WORD && n % WORD % 256 == n % 256 && n % WORD / 256 == n / 256 % 256;
  }

  function EncodeAll(rs: seq<Response>): Bytes
    requires forall r :: r in rs ==> Sendable(r)
  {
    if rs == [] then [] else Encode(rs[0]) + EncodeAll(rs[1..])
  }

  lemma {:induction false} EncodeAllAppend(a: seq<Response>, b: seq<Response>)
    requires forall r :: r in a + b ==> Sendable(r)
    ensures (forall r :: r in a ==> r in a + b) && (forall r :: r in b ==> r in a + b)
    ensures EncodeAll(a + b) == EncodeAll(a) + EncodeAll(b)
  {
    if a == [] {
      assert a + b == b;
    } else {
      assert (a + b)[1..] == a[1..] + b;
      EncodeAllAppend(a[1..], b);
    }
  }

  /** How many bytes recv_response asks for next, given the bytes it has; 0 when the response is complete. */
  function Needed(b: Bytes): nat {
    if b == [] then 1
    else if IsBlock(b[0]) then
      if |b| < 3 then 3 - |b| else Max(0, 3 + FromWord(b[1..3]) - |b|)
    else if IsStatus(b[0]) then Max(0, 5 - |b|)
    else if b[0] == RESP_INFO then Max(0, 9 - |b|)
    else 0
  }

  /** The response in a complete message; None for a code the host does not know. */
  function Decode(b: Bytes): Option<Response>
    requires b != [] && Needed(b) == 0
  {
    if !IsCode(b[0]) then None
    else if IsBlock(b[0]) then Some(Block(b[0], b[3..]))
    else if IsStatus(b[0]) then Some(Status(b[0], FromDoubleWord(b[1..5])))
    else if b[0] == RESP_INFO then Some(Info(FromDoubleWord(b[1..5]), FromDoubleWord(b[5..9])))
    else Some(Plain(b[0]))
  }

  /** The host never asks for a byte behind the response, and it decodes what was encoded. */
  lemma FrameExact(r: Response, n: nat)
    requires Sendable(r) && n <= |Encode(r)|
    ensures Needed(Encode(r)[..n]) <= |Encode(r)| - n
    ensures Needed(Encode(r)[..n]) == 0 <==> n == |Encode(r)|
    ensures Decode(Encode(r)) == Some(r)
  {
    var code := Encode(r);
    var b := code[..n];
    match r
    case Plain(_) =>
    case Block(c, data) =>
      WordRoundTrip(|data|);
      assert code[1..3] == Word(|data|) && code[3..] == data;
      assert n >= 3 ==> b[1..3] == code[1..3];
    case Status(c, value) =>
      DoubleWordRoundTrip(value);
      assert code[1..5] == DoubleWord(value);
    case Info(pid, tid) =>
      DoubleWordRoundTrip(pid);
      DoubleWordRoundTrip(tid);
      assert code[1..5] == DoubleWord(pid) && code[5..9] == DoubleWord(tid);
    assert code[..|code|] == code;
  }

  /** The length of the response at the front of a stream; None while it is incomplete. */
  function FrameLength(stream: Bytes): (r: Option<nat>)
    ensures r.Some? ==> 0 < r.value <= |stream| && Needed(stream[..r.value]) == 0
  {
    if stream == [] then None
    else if IsBlock(stream[0]) then
      if |stream| < 3 then None
      else
        var n := 3 + FromWord(stream[1..3]);
        assert n <= |stream| ==> stream[..n][1..3] == stream[1..3];
        if n <= |stream| then Some(n) else None
    else
      var n := if IsStatus(stream[0]) then 5 else if stream[0] == RESP_INFO then 9 else 1;
      if n <= |stream| then Some(n) else None
  }

  /** What was encoded is found at the front of any stream that begins with it. */
  lemma DecodesFront(r: Response, rest: Bytes)
    requires Sendable(r)
    ensures FrameLength(Encode(r) + rest) == Some(|Encode(r)|)
    ensures (Encode(r) + rest)[..|Encode(r)|] == Encode(r) && (Encode(r) + rest)[|Encode(r)|..] == rest
    ensures Decode(Encode(r)) == Some(r)
  {
    FrameExact(r, |Encode(r)|);
    if r.Block? {
      WordRoundTrip(|r.data|);
      assert (Encode(r) + rest)[1..3] == Word(|r.data|);
    }
  }

  // ---------- The guest's side ----------

  lemma Longer(before: Bytes, first: Bytes, second: Bytes)
    ensures (before + first) + second == before + (first + second)
    ensures before + first <= before + (first + second)
  {
    assert (before + first) + second == before + (first + second);
  }

  /** The serial port: what was written to it. */
  class Port {
    var written: Bytes

    constructor ()
      ensures written == []
    {
      written := [];
    }

    /** A write may take any nonempty part of the buffer, and it may fail. */
    method Write(buffer: Bytes) returns (ok: bool, count: nat)
      requires buffer != []
      modifies this
      ensures ok ==> 1 <= count <= |buffer| && written == old(written) + buffer[..count]
      ensures !ok ==> written == old(written)
    {
      ok := *;
      count := 0;
      if ok {
        count :| 1 <= count <= |buffer|;
        written := written + buffer[..count];
      }
    }

    /** Writes the whole buffer, or fails behind some part of it. */
    method SendN(buffer: Bytes) returns (ok: bool)
      modifies this
      ensures old(written) <= written <= old(written) + buffer
      ensures ok ==> written == old(written) + buffer
    {
      var sent: nat := 0;
      while sent < |buffer|
        invariant sent <= |buffer| && written == old(written) + buffer[..sent]
      {
        var done, count := Write(buffer[sent..]);
        if !done {
          return false;
        }
        assert buffer[..sent] + buffer[sent..][..count] == buffer[..sent + count];
        sent := sent + count;
      }
      ok := true;
    }

    method SendControl(code: byte) returns (ok: bool)
      modifies this
      ensures old(written) <= written <= old(written) + [code]
      ensures ok ==> written == old(written) + [code]
    {
      ok := SendN([code]);
    }

    method SendData(data: Bytes) returns (ok: bool)
      requires |data| < WORD
      modifies this
      ensures old(written) <= written <= old(written) + (Word(|data|) + data)
      ensures ok ==> written == old(written) + (Word(|data|) + data)
    {
      Longer(written, Word(|data|), data);
      ok := SendN(Word(|data|));
      if !ok || |data| == 0 {
        return;
      }
      ok := SendN(data);
    }

    method SendControlWithCode(code: byte, value: int) returns (ok: bool)
      requires 0 <= value < DWORD
      modifies this
      ensures old(written) <= written <= old(written) + ([code] + DoubleWord(value))
      ensures ok ==> written == old(written) + ([code] + DoubleWord(value))
    {
      Longer(written, [code], DoubleWord(value));
      ok := SendControl(code);
      if !ok {
        return;
      }
      ok := SendN(DoubleWord(value));
    }

    method SendInfo(pid: int, tid: int) returns (ok: bool)
      requires 0 <= pid < DWORD && 0 <= tid < DWORD
      modifies this
      ensures old(written) <= written <= old(written) + (DoubleWord(pid) + DoubleWord(tid))
      ensures ok ==> written == old(written) + (DoubleWord(pid) + DoubleWord(tid))
    {
      Longer(written, DoubleWord(pid), DoubleWord(tid));
      ok := SendN(DoubleWord(pid));
      if !ok {
        return;
      }
      ok := SendN(DoubleWord(tid));
    }

    method Send(r: Response) returns (ok: bool)
      requires Sendable(r)
      modifies this
      ensures old(written) <= written <= old(written) + Encode(r)
      ensures ok ==> written == old(written) + Encode(r)
    {
      match r
      case Plain(code) => ok := SendControl(code);
      case Block(code, data) => ok := SendBlock(code, data);
      case Status(code, value) => ok := SendControlWithCode(code, value);
      case Info(pid, tid) => ok := SendIds(pid, tid);
    }

    method SendBlock(code: byte, data: Bytes) returns (ok: bool)
      requires Sendable(Block(code, data))
      modifies this
      ensures old(written) <= written <= old(written) + Encode(Block(code, data))
      ensures ok ==> written == old(written) + Encode(Block(code, data))
    {
      Longer(written, [code], Word(|data|) + data);
      assert Encode(Block(code, data)) == [code] + (Word(|data|) + data);
      ok := SendControl(code);
      if ok { ok := SendData(data); }
    }

    method SendIds(pid: int, tid: int) returns (ok: bool)
      requires 0 <= pid < DWORD && 0 <= tid < DWORD
      modifies this
      ensures old(written) <= written <= old(written) + Encode(Info(pid, tid))
      ensures ok ==> written == old(written) + Encode(Info(pid, tid))
    {
      Longer(written, [RESP_INFO], DoubleWord(pid) + DoubleWord(tid));
      assert Encode(Info(pid, tid)) == [RESP_INFO] + (DoubleWord(pid) + DoubleWord(tid));
      ok := SendControl(RESP_INFO);
      if ok { ok := SendInfo(pid, tid); }
    }
  }

  // ---------- The host's side ----------

  datatype Error = Disconnected | UnknownCode

  /** The socket: the bytes that arrive until the peer disconnects. */
  class Socket {
    var incoming: Bytes

    constructor (incoming: Bytes)
      ensures this.incoming == incoming
    {
      this.incoming := incoming;
    }

    /** Any nonempty piece of at most size bytes; nothing once the peer is gone. */
    method Recv(size: nat) returns (part: Bytes)
      requires size > 0
      modifies this
      ensures part + incoming == old(incoming) && |part| <= size
      ensures old(incoming) != [] ==> part != []
    {
      if incoming == [] {
        return [];
      }
      var k :| 1 <= k <= size && k <= |incoming|;
      part := incoming[..k];
      incoming := incoming[k..];
    }

    method RecvN(size: nat) returns (data: Option<Bytes>)
      modifies this
      ensures data.Some? <==> size <= |old(incoming)|
      ensures data.Some? ==> data.value == old(incoming)[..size] && incoming == old(incoming)[size..]
    {
      var got: Bytes := [];
      var left: nat := size;
      while left > 0
        invariant got + incoming == old(incoming) && |got| + left == size
      {
        var part := Recv(left);
        if part == [] {
          assert |got + incoming| == |got|;
          return None;
        }
        left := left - |part|;
        got := got + part;
      }
      assert old(incoming)[..size] == got;
      data := Some(got);
    }

    /** recv_response: the code, then as much as the code calls for. */
    method RecvResponse() returns (r: Result<Response, Error>)
      modifies this
      ensures match FrameLength(old(incoming))
              case None => r.Err?
              case Some(n) =>
                r == (var m := Decode(old(incoming)[..n]); if m.Some? then Ok(m.value) else Err(UnknownCode))
                && incoming == old(incoming)[n..]
    {
      var control := Recv(1);
      if control == [] {
        return Err(Disconnected);
      }
      var code := control[0];
      assert [code] + incoming == old(incoming);
      assert old(incoming)[1..] == incoming && old(incoming)[..1] == [code];
      if !IsCode(code) {
        r := Err(UnknownCode);
      } else if IsBlock(code) {
        r := RecvBlock(code);
        assert FrameLength(old(incoming)).Some? ==>
            var n := FrameLength(old(incoming)).value; old(incoming)[..n][3..] == old(incoming)[3..n];
      } else if IsStatus(code) {
        var value := RecvN(4);
        if value.None? { return Err(Disconnected); }
        assert old(incoming)[..5][1..5] == value.value;
        r := Ok(Status(code, FromDoubleWord(value.value)));
      } else if code == RESP_INFO {
        var info := RecvN(8);
        if info.None? { return Err(Disconnected); }
        assert old(incoming)[..9][1..5] == info.value[..4] && old(incoming)[..9][5..9] == info.value[4..];
        r := Ok(Info(FromDoubleWord(info.value[..4]), FromDoubleWord(info.value[4..])));
      } else {
        r := Ok(Plain(code));
      }
    }

    method RecvBlock(code: byte) returns (r: Result<Response, Error>)
      requires IsBlock(code)
      modifies this
      ensures match FrameLength([code] + old(incoming))
              case None => r.Err?
              case Some(n) => r == Ok(Block(code, ([code] + old(incoming))[3..n]))
                              && incoming == ([code] + old(incoming))[n..]
    {
      ghost var stream := [code] + incoming;
      var len := RecvN(2);
      if len.None? { return Err(Disconnected); }
      assert stream[1..3] == len.value;
      var data := RecvN(FromWord(len.value));
      if data.None? { return Err(Disconnected); }
      ghost var n := 3 + FromWord(len.value);
      assert stream[3..n] == data.value && stream[n..] == incoming;
      r := Ok(Block(code, data.value));
    }

    method RecvSent(ghost sent: Response, ghost rest: Bytes) returns (r: Response)
      requires Sendable(sent) && incoming == Encode(sent) + rest
      modifies this
      ensures r == sent && incoming == rest
    {
      DecodesFront(sent, rest);
      var received := RecvResponse();
      r := received.value;
    }

    /** Receives responses one after the other, as many as were sent. */
    method RecvResponses(count: nat, ghost sent: seq<Response>) returns (rs: seq<Response>)
      requires |sent| == count && (forall r :: r in sent ==> Sendable(r)) && incoming == EncodeAll(sent)
      modifies this
      ensures rs == sent && incoming == []
    {
      rs := [];
      for i := 0 to count
        invariant rs == sent[..i] && incoming == EncodeAll(sent[i..])
      {
        assert sent[i..][1..] == sent[i + 1..];
        var r := RecvSent(sent[i], EncodeAll(sent[i + 1..]));
        rs := rs + [r];
      }
    }
  }

  /**
   Whatever the guest sends, however its writes and the host's reads are cut into pieces:
   when no write fails, the host receives exactly these responses in this order.
   */
  method Transfer(sent: seq<Response>) returns (ok: bool, received: seq<Response>)
    requires forall r :: r in sent ==> Sendable(r)
    ensures ok ==> received == sent
  {
    var port := new Port();
    received := [];
    ok := SendAll(port, sent);
    if ok {
      var socket := new Socket(port.written);
      received := socket.RecvResponses(|sent|, sent);
    }
  }

  method SendAll(port: Port, sent: seq<Response>) returns (ok: bool)
    requires port.written == [] && forall r :: r in sent ==> Sendable(r)
    modifies port
    ensures port.written <= EncodeAll(sent)
    ensures ok ==> port.written == EncodeAll(sent)
  {
    assert sent[..0] == [];
    for i := 0 to |sent|
      invariant port.written == EncodeAll(sent[..i])
    {
      SentSoFar(sent, i);
      ok := port.Send(sent[i]);
      if !ok {
        SentInPart(sent, i);
        Prefixes(port.written, EncodeAll(sent[..i + 1]), EncodeAll(sent));
        return;
      }
    }
    assert sent[..|sent|] == sent;
    ok := true;
  }

  lemma Prefixes(a: Bytes, b: Bytes, c: Bytes)
    requires a <= b <= c
    ensures a <= c
  {
  }

  lemma SentInPart(sent: seq<Response>, i: nat)
    requires i < |sent| && forall r :: r in sent ==> Sendable(r)
    ensures EncodeAll(sent[..i + 1]) <= EncodeAll(sent)
  {
    assert sent == sent[..i + 1] + sent[i + 1..];
    SentFirst(sent[..i + 1], sent[i + 1..], sent);
  }

  lemma SentFirst(first: seq<Response>, last: seq<Response>, all: seq<Response>)
    requires all == first + last && forall r :: r in all ==> Sendable(r)
    ensures forall r :: r in first ==> Sendable(r)
    ensures EncodeAll(first) <= EncodeAll(all)
  {
    EncodeAllAppend(first, last);
  }

  lemma SentSoFar(sent: seq<Response>, i: nat)
    requires i < |sent| && forall r :: r in sent ==> Sendable(r)
    ensures EncodeAll(sent[..i + 1]) == EncodeAll(sent[..i]) + Encode(sent[i])
  {
    assert sent[..i + 1] == sent[..i] + [sent[i]];
    EncodeAllAppend(sent[..i], [sent[i]]);
    assert [sent[i]][1..] == [];
  }
}
