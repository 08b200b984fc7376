/**
 Host and guest stay in step (drakrun/lib/drakshell.py, drakrun/tools/drakshell/drakshell.c):
 as long as nobody writes to stdin and every command fits the guest, each call sees the
 response it expects and leaves both channels empty.
 */
module SessionSync {
  import opened Common
  import opened Framing
  import opened Session

  /** All the bytes under way to the host, from the ones it has read already on. */
  function Coming(s: State): Bytes {
    s.host.received + s.toHost + s.guest.pending
  }

  /** All the bytes under way to the guest. */
  function Going(s: State): Bytes {
    s.guest.received + s.toGuest + s.host.pending
  }

  ghost predicate AllSendable(rs: seq<Response>) {
    forall r :: r in rs ==> Sendable(r)
  }

  /** The output in a list of responses. */
  function OutputOf(rs: seq<Response>, start: Output): Output {
    if rs == [] then start else OutputOf(rs[1..], Deliver(start, rs[0]))
  }

  function LastRun(runs: seq<Output>): Output {
    if runs == [] then NO_OUTPUT else runs[|runs| - 1]
  }

  ghost predicate Blocks(rs: seq<Response>) {
    forall i :: 0 <= i < |rs| ==> rs[i].Block?
  }

  /** Blocks of output, followed by the exit once the process is gone; with them the host has all that was read. */
  ghost predicate Streaming(rs: seq<Response>, pc: GuestPc, delivered: Output, produced: Output) {
    && OutputOf(rs, delivered) == produced
    && (pc == Loop ==> Blocks(rs))
    && (pc != Loop ==>
          pc == Top && rs != [] && Blocks(rs[..|rs| - 1])
          && rs[|rs| - 1].Status? && rs[|rs| - 1].code == RESP_PROCESS_EXIT)
  }

  predicate Fits(command: Bytes) {
    |command| <= GUEST_COMMAND_LIMIT
  }

  /** Every command of the calls is within the limit, or is refused by the host. */
  ghost predicate CommandsWithin(calls: seq<Call>, limit: nat) {
    forall i :: 0 <= i < |calls| && (calls[i].Run? || calls[i].RunInteractive?) ==>
      |calls[i].command| <= limit || |calls[i].command| > HOST_COMMAND_LIMIT
  }

  /** Every command of the calls fits the guest, or is refused by the host. */
  ghost predicate CommandsFit(calls: seq<Call>) {
    CommandsWithin(calls, GUEST_COMMAND_LIMIT)
  }

  predicate SessionMode(mode: byte) {
    mode == REQ_INTERACTIVE_EXECUTE || mode == REQ_NON_INTERACTIVE_EXECUTE
  }

  /** The command on its way, at each point of the guest's reading of it. */
  ghost predicate CommandUnderway(mode: byte, pc: GuestPc, going: Bytes, limit: nat) {
    exists command: Bytes :: |command| <= Min(limit, HOST_COMMAND_LIMIT) && CommandAt(mode, pc, going, command)
  }

  ghost predicate CommandAt(mode: byte, pc: GuestPc, going: Bytes, command: Bytes)
    requires |command| <= HOST_COMMAND_LIMIT
  {
    || (pc == ExecControl(mode) && going == Command(command))
    || (pc == ExecLength(mode) && going == Word(|command|) + command)
    || (pc == ExecData(mode, |command|) && going == command && Fits(command))
  }

  /** The guest has tried to start the process, and an interactive one already writes. */
  ghost predicate Answered(mode: byte, pc: GuestPc, rs: seq<Response>, delivered: Output, last: Output)
    requires rs != []
  {
    if rs[0] == Plain(RESP_PROCESS_START) && mode == REQ_INTERACTIVE_EXECUTE then
      Streaming(rs[1..], pc, NO_OUTPUT, last)
    else
      pc == Top && |rs| == 1 && delivered == last
      && (rs[0] == Plain(RESP_PROCESS_START) || (rs[0].Status? && rs[0].code == RESP_PROCESS_ERROR))
  }

  /** What the phase of a session depends on. last: the output of the last process so far. */
  datatype Phase = Phase(host: HostPc, delivered: Output, guest: GuestPc, going: Bytes, last: Output)

  function PhaseOf(s: State): Phase {
    Phase(s.host.pc, s.host.delivered, s.guest.pc, Going(s), LastRun(s.guest.runs))
  }

  /** The guest was given a command that is too long for it, and says so. */
  predicate Refused(pc: GuestPc, rs: seq<Response>) {
    pc == Dead && rs == [Plain(RESP_BAD_REQ)]
  }

  /**
   Who owes what to whom. rs: the responses under way to the host; limit: what every command
   is within. A session can be lost only when the limit is above the guest's.
   */
  ghost predicate InPhase(p: Phase, rs: seq<Response>, limit: nat) {
    var pc, going := p.guest, p.going;
    match p.host
    case Idle => pc == Top && going == [] && rs == [] && p.delivered == p.last
    case AwaitPong =>
      pc == Top && p.delivered == p.last
      && ((going == [REQ_PING] && rs == []) || (going == [] && rs == [Plain(RESP_PONG)]))
    case AwaitInfo =>
      pc == Top && p.delivered == p.last
      && ((going == [REQ_GET_INFO] && rs == []) || (going == [] && |rs| == 1 && rs[0].Info?))
    case AwaitStart(mode, command) =>
      SessionMode(mode) && |command| <= Min(limit, HOST_COMMAND_LIMIT) && p.delivered == p.last
      && ((pc == Top && going == [mode] && rs == []) || (pc == ExecControl(mode) && going == [] && rs == [Plain(mode)]))
    case AwaitProcess(mode) =>
      SessionMode(mode)
      && ((CommandUnderway(mode, pc, going, limit) && rs == [] && p.delivered == p.last)
          || (limit > GUEST_COMMAND_LIMIT && Refused(pc, rs))
          || (going == [] && rs != [] && Answered(mode, pc, rs, p.delivered, p.last)))
    case Interact => going == [] && Streaming(rs, pc, p.delivered, p.last)
    case OutOfSync => limit > GUEST_COMMAND_LIMIT && pc == Dead && rs == []
  }

  /** The bytes under way to the host are the responses rs, and neither end has read too far. */
  ghost predicate Wired(s: State, rs: seq<Response>) {
    && AllSendable(rs) && Coming(s) == EncodeAll(rs)
    && |s.host.received| <= (if rs == [] then 0 else |Encode(rs[0])|)
    && |s.guest.received| <= Wants(s.guest.pc)
  }

  ghost predicate InStep(s: State, rs: seq<Response>, limit: nat) {
    && CommandsWithin(s.host.calls, limit) && Wired(s, rs) && InPhase(PhaseOf(s), rs, limit)
    && (s.guest.runs == [] ==> NothingRun(s.host.pc, s.guest.pc, rs))
  }

  /** No interactive process was started yet. */
  predicate NothingRun(host: HostPc, guest: GuestPc, rs: seq<Response>) {
    && guest != Loop && host != Interact
    && !(host == AwaitProcess(REQ_INTERACTIVE_EXECUTE) && rs != [] && rs[0] == Plain(RESP_PROCESS_START))
  }

  // ---------- One step ----------

  /** The bytes read so far are the front of the frame they belong to. */
  lemma FrontOf(received: Bytes, more: Bytes, frame: Bytes, rest: Bytes)
    requires received + more == frame + rest && |received| <= |frame|
    ensures received == frame[..|received|] && more == frame[|received|..] + rest
  {
    assert (received + more)[..|received|] == received;
    assert (frame + rest)[..|received|] == frame[..|received|];
    assert (received + more)[|received|..] == more;
    assert (frame + rest)[|received|..] == frame[|received|..] + rest;
  }

  lemma FrontOfFirst(s: State, rs: seq<Response>)
    requires Wired(s, rs) && rs != []
    ensures Sendable(rs[0]) && s.host.received == Encode(rs[0])[..|s.host.received|]
    ensures s.toHost + s.guest.pending == Encode(rs[0])[|s.host.received|..] + EncodeAll(rs[1..])
  {
    assert rs[0] in rs;
    assert Coming(s) == s.host.received + (s.toHost + s.guest.pending);
    FrontOf(s.host.received, s.toHost + s.guest.pending, Encode(rs[0]), EncodeAll(rs[1..]));
  }

  predicate Moves(e: Event) {
    e.HostWrites? || e.HostReads? || e.GuestWrites? || e.GuestReads?
  }

  /** Moving bytes along a channel changes nothing about what is under way. */
  lemma MovingKeeps(s: State, e: Event, rs: seq<Response>)
    requires Wired(s, rs) && Enabled(s, e) && Moves(e)
    ensures Wired(Apply(s, e), rs) && PhaseOf(Apply(s, e)) == PhaseOf(s)
  {
    MovingConserves(s, e);
    if e.HostReads? {
      assert Coming(s) != [];
      FrontOfFirst(s, rs);
      FrameExact(rs[0], |s.host.received|);
    }
  }

  lemma MovingConserves(s: State, e: Event)
    requires Enabled(s, e) && Moves(e)
    ensures Coming(Apply(s, e)) == Coming(s) && Going(Apply(s, e)) == Going(s)
  {
    match e
    case HostWrites(n) => ShiftIn(s.guest.received, s.toGuest, s.host.pending, n);
    case HostReads(n) => ShiftOut(s.host.received, s.toHost, s.guest.pending, n);
    case GuestWrites(n) => ShiftIn(s.host.received, s.toHost, s.guest.pending, n);
    case GuestReads(n) => ShiftOut(s.guest.received, s.toGuest, s.host.pending, n);
  }

  lemma ShiftIn(a: Bytes, b: Bytes, c: Bytes, n: nat)
    requires n <= |c|
    ensures a + (b + c[..n]) + c[n..] == a + b + c
  {
  }

  lemma ShiftOut(a: Bytes, b: Bytes, c: Bytes, n: nat)
    requires n <= |b|
    ensures (a + b[..n]) + b[n..] + c == a + b + c
  {
  }

  lemma StartKeeps(s: State, rs: seq<Response>, limit: nat)
    requires InStep(s, rs, limit) && Enabled(s, HostStarts)
    ensures InStep(Apply(s, HostStarts), rs, limit)
  {
    var r := Apply(s, HostStarts);
    assert s.host.received == [] && s.toHost == [] && s.guest.pending == [] by { assert Coming(s) == []; }
    assert s.guest.received == [] && s.toGuest == [] by { assert Going(s) == []; }
    assert Coming(r) == [] && Going(r) == r.host.pending;
    forall i | 0 <= i < |r.host.calls| && (r.host.calls[i].Run? || r.host.calls[i].RunInteractive?)
      ensures |r.host.calls[i].command| <= limit || |r.host.calls[i].command| > HOST_COMMAND_LIMIT
    {
      assert r.host.calls[i] == s.host.calls[i + 1];
    }
  }

  /** A complete response is the first one under way, and taking it leaves the others. */
  lemma FirstResponse(s: State, rs: seq<Response>)
    requires Wired(s, rs) && Enabled(s, HostActs)
    ensures rs != [] && Decode(s.host.received) == Some(rs[0])
    ensures AllSendable(rs[1..]) && s.toHost + s.guest.pending == EncodeAll(rs[1..])
  {
    FrontOfFirst(s, rs);
    FrameExact(rs[0], |s.host.received|);
    assert Encode(rs[0])[..|Encode(rs[0])|] == Encode(rs[0]);
  }

  lemma HostActKeeps(s: State, rs: seq<Response>, limit: nat)
    requires InStep(s, rs, limit) && Enabled(s, HostActs)
    ensures InStep(Apply(s, HostActs), rs[1..], limit)
  {
    FirstResponse(s, rs);
    HostActPhase(s.host, PhaseOf(s), rs, limit);
    Taken(s, Apply(s, HostActs), rs);
  }

  lemma Taken(s: State, r: State, rs: seq<Response>)
    requires Wired(s, rs) && rs != [] && s.host.pending == []
    requires AllSendable(rs[1..]) && s.toHost + s.guest.pending == EncodeAll(rs[1..])
    requires r.host.received == [] && r.guest == s.guest && r.toHost == s.toHost && r.toGuest == s.toGuest
    ensures Wired(r, rs[1..]) && Going(r) == Going(s) + r.host.pending
  {
    Regroup([], s.toHost, s.guest.pending);
    Regroup(s.guest.received, s.toGuest, r.host.pending);
  }

  lemma Regroup(a: Bytes, b: Bytes, c: Bytes)
    ensures [] + b + c == b + c && a + b + [] + c == a + b + c
  {
  }

  lemma HostActPhase(h: Host, p: Phase, rs: seq<Response>, limit: nat)
    requires rs != [] && InPhase(p, rs, limit) && p.host == h.pc && p.delivered == h.delivered && HostListens(h)
    ensures var r := HostAct(h, Some(rs[0]));
            r.received == [] && r.calls == h.calls
            && InPhase(Phase(r.pc, r.delivered, p.guest, p.going + r.pending, p.last), rs[1..], limit)
  {
    var r := HostAct(h, Some(rs[0]));
    match h.pc
    case AwaitStart(mode, command) =>
      assert p.going + r.pending == Command(command);
      assert CommandAt(mode, p.guest, Command(command), command);
    case Interact => StreamNext(rs, p.guest, h.delivered, p.last);
    case _ =>
  }

  lemma StreamNext(rs: seq<Response>, pc: GuestPc, delivered: Output, produced: Output)
    requires Streaming(rs, pc, delivered, produced) && rs != []
    ensures rs[0].Block? ==> Streaming(rs[1..], pc, Deliver(delivered, rs[0]), produced)
    ensures !rs[0].Block? ==>
              && rs[0].Status? && rs[0].code == RESP_PROCESS_EXIT
              && |rs| == 1 && delivered == produced && pc == Top
  {
    if pc != Loop && |rs| > 1 {
      assert rs[..|rs| - 1][0] == rs[0];
      assert rs[1..][..|rs| - 2] == rs[..|rs| - 1][1..];
    }
  }

  /** The one response, if any, that the guest's action puts under way. */
  function ReplyTo(g: Guest, w: World): seq<Response>
    requires |g.received| == Wants(g.pc) && IsWorld(w)
  {
    match g.pc
    case Top =>
      if g.received[0] == REQ_GET_INFO then [Info(w.pid, w.tid)]
      else if g.received[0] == REQ_PING then [Plain(RESP_PONG)]
      else if IsExecute(g.received[0]) then [Plain(g.received[0])]
      else [Plain(RESP_BAD_REQ)]
    case ExecLength(_) => if FromWord(g.received) > GUEST_COMMAND_LIMIT then [Plain(RESP_BAD_REQ)] else []
    case ExecData(_, _) => [if w.started then Plain(RESP_PROCESS_START) else Status(RESP_PROCESS_ERROR, w.error)]
    case _ => []
  }

  lemma Single(r: Response)
    requires Sendable(r)
    ensures AllSendable([r]) && EncodeAll([r]) == Encode(r)
  {
    assert [r][1..] == [];
    assert EncodeAll([r][1..]) == [];
  }

  lemma OneByte(received: Bytes, rest: Bytes, b: byte)
    requires |received| == 1
    ensures received + rest == [b] ==> received == [b] && rest == []
  {
    assert |received + rest| == 1 + |rest|;
    assert (received + rest)[0] == received[0];
  }

  /** A step of the guest in a phase: what it puts under way, and the phase behind it. */
  ghost predicate ActsInPhase(g: Guest, p: Phase, rest: Bytes, rs: seq<Response>, w: World, limit: nat)
    requires |g.received| == Wants(g.pc) && IsWorld(w)
  {
    var r, more := GuestAct(g, w), ReplyTo(g, w);
    && AllSendable(more) && r.pending == EncodeAll(more) && r.received == []
    && InPhase(Phase(p.host, p.delivered, r.pc, rest, LastRun(r.runs)), rs + more, limit)
    && (r.runs == [] ==> NothingRun(p.host, r.pc, rs + more))
  }

  /** In a session in step the guest's action answers the request that is under way. */
  lemma GuestActPhase(g: Guest, p: Phase, rest: Bytes, rs: seq<Response>, w: World, limit: nat)
    requires InPhase(p, rs, limit) && p.guest == g.pc && p.going == g.received + rest && p.last == LastRun(g.runs)
    requires |g.received| == Wants(g.pc) && IsWorld(w) && g.pc != Loop && g.pc != Dead
    requires g.runs == [] ==> NothingRun(p.host, g.pc, rs)
    ensures ActsInPhase(g, p, rest, rs, w, limit)
  {
    assert p.going == [] ==> g.received == [];
    match p.host
    case AwaitPong =>
      OneByte(g.received, rest, REQ_PING);
      Single(Plain(RESP_PONG));
    case AwaitInfo =>
      OneByte(g.received, rest, REQ_GET_INFO);
      Single(Info(w.pid, w.tid));
    case AwaitStart(mode, _) =>
      OneByte(g.received, rest, mode);
      Single(Plain(mode));
    case AwaitProcess(mode) =>
      var command :| |command| <= Min(limit, HOST_COMMAND_LIMIT) && CommandAt(mode, g.pc, p.going, command);
      assert rs == [];
      CommandPhase(g, p, rest, mode, command, w, limit);
    case Interact =>
    case Idle =>
    case OutOfSync =>
  }

  /** The guest reads on in a command, refuses it, or tries to start the process. */
  lemma CommandPhase(g: Guest, p: Phase, rest: Bytes, mode: byte, command: Bytes, w: World, limit: nat)
    requires p.host == AwaitProcess(mode) && p.delivered == p.last == LastRun(g.runs) && SessionMode(mode)
    requires |command| <= Min(limit, HOST_COMMAND_LIMIT) && CommandAt(mode, g.pc, g.received + rest, command)
    requires |g.received| == Wants(g.pc) && IsWorld(w)
    ensures ActsInPhase(g, p, rest, [], w, limit)
  {
    var r, more := GuestAct(g, w), ReplyTo(g, w);
    CommandRead(g, rest, mode, command, w);
    assert [] + more == more;
    if g.pc.ExecData? {
      Single(if w.started then Plain(RESP_PROCESS_START) else Status(RESP_PROCESS_ERROR, w.error));
      assert more[1..] == [];
    } else if r.pc == Dead {
      Single(Plain(RESP_BAD_REQ));
    } else {
      assert CommandAt(mode, r.pc, rest, command);
    }
  }

  lemma CommandRead(g: Guest, rest: Bytes, mode: byte, command: Bytes, w: World)
    requires |command| <= HOST_COMMAND_LIMIT && SessionMode(mode) && CommandAt(mode, g.pc, g.received + rest, command)
    requires |g.received| == Wants(g.pc) && IsWorld(w)
    ensures g.pc.ExecData? ==> rest == []
    ensures g.pc.ExecLength? ==> FromWord(g.received) == |command|
    ensures !g.pc.ExecData? ==>
              if g.pc.ExecLength? && !Fits(command) then GuestAct(g, w).pc == Dead
              else CommandAt(mode, GuestAct(g, w).pc, rest, command)
  {
    match g.pc
    case ExecControl(_) =>
      FrontOf(g.received, rest, [REQ_DATA], Word(|command|) + command);
      assert [REQ_DATA] + (Word(|command|) + command) == Command(command);
    case ExecLength(_) =>
      FrontOf(g.received, rest, Word(|command|), command);
      assert g.received == Word(|command|);
      WordRoundTrip(|command|);
    case ExecData(_, _) =>
      assert |g.received + rest| == |command|;
    case _ =>
  }

  lemma GuestActKeeps(s: State, w: World, rs: seq<Response>, limit: nat)
    requires InStep(s, rs, limit) && Enabled(s, GuestActs(w))
    ensures InStep(Apply(s, GuestActs(w)), rs + ReplyTo(s.guest, w), limit)
  {
    var r, more := Apply(s, GuestActs(w)), ReplyTo(s.guest, w);
    var rest := s.toGuest + s.host.pending;
    assert Going(s) == s.guest.received + rest;
    GuestActPhase(s.guest, PhaseOf(s), rest, rs, w, limit);
    ActedInPhase(s, w, rest, rs, limit);
    Appended(s, r, rs, more);
  }

  lemma ActedInPhase(s: State, w: World, rest: Bytes, rs: seq<Response>, limit: nat)
    requires Enabled(s, GuestActs(w)) && rest == s.toGuest + s.host.pending
    requires ActsInPhase(s.guest, PhaseOf(s), rest, rs, w, limit)
    ensures var r, more := Apply(s, GuestActs(w)), ReplyTo(s.guest, w);
            && InPhase(PhaseOf(r), rs + more, limit)
            && (r.guest.runs == [] ==> NothingRun(r.host.pc, r.guest.pc, rs + more))
            && AllSendable(more) && r.guest.pending == EncodeAll(more) && r.guest.received == []
  {
    PhaseBehind(s, w, rest);
  }

  lemma PhaseBehind(s: State, w: World, rest: Bytes)
    requires Enabled(s, GuestActs(w)) && rest == s.toGuest + s.host.pending
    requires GuestAct(s.guest, w).received == []
    ensures var g := GuestAct(s.guest, w);
            PhaseOf(Apply(s, GuestActs(w))) == Phase(s.host.pc, s.host.delivered, g.pc, rest, LastRun(g.runs))
  {
    assert Going(Apply(s, GuestActs(w))) == rest;
  }

  /** New responses line up behind those under way. */
  lemma Appended(s: State, r: State, rs: seq<Response>, more: seq<Response>)
    requires Wired(s, rs) && s.guest.pending == [] && AllSendable(more)
    requires r.host == s.host && r.toHost == s.toHost && r.guest.pending == EncodeAll(more) && r.guest.received == []
    ensures Wired(r, rs + more)
  {
    EncodeAllAppend(rs, more);
    var read := s.host.received + s.toHost;
    assert Coming(s) == read && Coming(r) == read + EncodeAll(more);
    assert rs != [] ==> (rs + more)[0] == rs[0];
  }

  /** What a signal of the message loop puts under way. */
  function ReplyToSignal(signal: Signal): seq<Response>
    requires IsSignal(signal)
  {
    match signal
    case ProcessEnded(code, _) => [Status(RESP_PROCESS_EXIT, code)]
    case Stdout(data) => [Block(RESP_STDOUT_DATA, data)]
    case Stderr(data) => [Block(RESP_STDERR_DATA, data)]
    case StdinControl => []
  }

  lemma {:induction false} OutputOfAppend(rs: seq<Response>, r: Response, start: Output)
    ensures OutputOf(rs + [r], start) == Deliver(OutputOf(rs, start), r)
  {
    if rs != [] {
      assert (rs + [r])[1..] == rs[1..] + [r];
      OutputOfAppend(rs[1..], r, Deliver(start, rs[0]));
    } else {
      assert [r][1..] == [];
    }
  }

  lemma StreamGrows(rs: seq<Response>, delivered: Output, runs: seq<Output>, g: Guest, signal: Signal)
    requires g.pc == Loop && g.runs == runs && runs != []
    requires Streaming(rs, Loop, delivered, LastRun(runs)) && IsSignal(signal) && signal != StdinControl
    ensures var r := GuestSignal(g, signal);
            Streaming(rs + ReplyToSignal(signal), r.pc, delivered, LastRun(r.runs))
  {
    var next := ReplyToSignal(signal)[0];
    OutputOfAppend(rs, next, delivered);
    assert (rs + [next])[..|rs|] == rs;
    NothingAdded(LastRun(runs));
  }

  lemma NothingAdded(o: Output)
    ensures Output(o.out + [], o.err) == o == Output(o.out, o.err + [])
  {
    assert o.out + [] == o.out && o.err + [] == o.err;
  }

  lemma SignalPhase(g: Guest, p: Phase, rs: seq<Response>, signal: Signal, limit: nat)
    requires InPhase(p, rs, limit) && p.guest == g.pc == Loop && g.runs != [] && p.last == LastRun(g.runs)
    requires IsSignal(signal) && signal != StdinControl
    ensures var r := GuestSignal(g, signal);
            InPhase(p.(guest := r.pc, last := LastRun(r.runs)), rs + ReplyToSignal(signal), limit)
    ensures p.going == []
  {
    var more := ReplyToSignal(signal);
    if p.host == Interact {
      StreamGrows(rs, p.delivered, g.runs, g, signal);
    } else {
      StreamGrows(rs[1..], NO_OUTPUT, g.runs, g, signal);
      assert (rs + more)[1..] == rs[1..] + more && (rs + more)[0] == rs[0];
    }
  }

  lemma SignalKeeps(s: State, signal: Signal, code: int, rs: seq<Response>, limit: nat)
    requires InStep(s, rs, limit) && Enabled(s, GuestSignalled(signal, code))
    ensures InStep(Apply(s, GuestSignalled(signal, code)), rs + ReplyToSignal(signal), limit)
  {
    assert Going(s) == [];
    assert |Going(s)| == |s.guest.received| + |s.toGuest| + |s.host.pending|;
    var r := Apply(s, GuestSignalled(signal, code));
    SignalPhase(s.guest, PhaseOf(s), rs, signal, limit);
    Single(ReplyToSignal(signal)[0]);
    Appended(s, r, rs, ReplyToSignal(signal));
    assert Going(r) == [];
  }

  // ---------- Whole sessions ----------

  /** What is under way to the host after an event. */
  function UnderWay(s: State, e: Event, rs: seq<Response>): seq<Response>
    requires Enabled(s, e)
  {
    match e
    case HostActs => From(rs, 1)
    case GuestActs(w) => rs + ReplyTo(s.guest, w)
    case GuestSignalled(signal, code) => rs + ReplyToSignal(signal)
    case _ => rs
  }

  lemma UnderWayTold(s: State, e: Event, rs: seq<Response>)
    requires Enabled(s, e)
    ensures forall x :: x in UnderWay(s, e, rs) ==> x in rs || Tells(e, x)
  {
  }

  lemma StepKeeps(s: State, e: Event, rs: seq<Response>, limit: nat) returns (next: seq<Response>)
    requires InStep(s, rs, limit) && Enabled(s, e) && !e.HostFeeds?
    ensures InStep(Apply(s, e), next, limit)
    ensures next == UnderWay(s, e, rs)
  {
    next := rs;
    match e
    case HostStarts => StartKeeps(s, rs, limit);
    case HostActs =>
      HostActKeeps(s, rs, limit);
      next := rs[1..];
    case GuestActs(w) =>
      GuestActKeeps(s, w, rs, limit);
      next := rs + ReplyTo(s.guest, w);
    case GuestSignalled(signal, code) =>
      SignalKeeps(s, signal, code, rs, limit);
      next := rs + ReplyToSignal(signal);
    case _ => MovingKeeps(s, e, rs);
  }

  /** Nothing is written to stdin, and no termination asked for. */
  predicate Unfed(events: seq<Event>) {
    forall e :: e in events ==> !e.HostFeeds?
  }

  lemma {:induction false} RunKeeps(s: State, events: seq<Event>, r: State, rs: seq<Response>, limit: nat)
    returns (last: seq<Response>)
    requires InStep(s, rs, limit) && Reaches(s, events, r) && Unfed(events)
    ensures InStep(r, last, limit)
    decreases |events|
  {
    last := rs;
    if events != [] {
      var next := StepKeeps(s, events[0], rs, limit);
      assert forall e :: e in events[1..] ==> e in events;
      last := RunKeeps(Apply(s, events[0]), events[1..], r, next, limit);
    }
  }

  /** No call sends anything to its process. */
  ghost predicate NoInput(calls: seq<Call>) {
    forall i :: 0 <= i < |calls| ==> InputOf(calls[i]) == []
  }

  lemma {:induction false} WithoutStdin(s: State, events: seq<Event>, r: State)
    requires s.input == [] && NoInput(s.host.calls) && Reaches(s, events, r)
    ensures Unfed(events)
    decreases |events|
  {
    if events != [] {
      WithoutStdin(Apply(s, events[0]), events[1..], r);
      assert events == [events[0]] + events[1..];
    }
  }

  /**
   In every run of a session without input whose commands fit the guest, no call sees a
   response it does not expect; and whenever a call is over, nothing is left in either
   channel, the guest waits for the next request, and everything that was read from the
   last process has been handed on.
   */
  lemma SessionInSync(s: State, events: seq<Event>, r: State)
    requires Start(s) && NoInput(s.host.calls) && CommandsFit(s.host.calls)
    requires Reaches(s, events, r)
    ensures r.host.pc != OutOfSync
    ensures r.host.pc == Idle ==>
              && r.toGuest == [] && r.toHost == []
              && r.host.received == [] && r.host.pending == []
              && r.guest.pc == Top && r.guest.received == [] && r.guest.pending == []
              && r.host.delivered == LastRun(r.guest.runs)
  {
    WithoutStdin(s, events, r);
    var rs := RunKeeps(s, events, r, [], GUEST_COMMAND_LIMIT);
    if r.host.pc == Idle {
      assert Coming(r) == [] && Going(r) == [];
      assert |Coming(r)| == |r.host.received| + |r.toHost| + |r.guest.pending|;
      assert |Going(r)| == |r.guest.received| + |r.toGuest| + |r.host.pending|;
    }
  }

  // ---------- Progress ----------

  /**
   As long as calls are left or one is under way, some end can take a step: nobody waits for
   bytes that never come.
   */
  lemma NeverStuck(s: State, rs: seq<Response>) returns (e: Event)
    requires InStep(s, rs, GUEST_COMMAND_LIMIT) && !(s.host.pc == Idle && s.host.calls == [])
    ensures Enabled(s, e)
  {
    if s.host.pending != [] {
      e := HostWrites(1);
    } else if s.guest.pending != [] {
      e := GuestWrites(1);
    } else if s.host.pc == Idle {
      e := HostStarts;
    } else if rs != [] {
      FrontOfFirst(s, rs);
      FrameExact(rs[0], |s.host.received|);
      e := if Needed(s.host.received) == 0 then HostActs else HostReads(1);
    } else if s.guest.pc == Loop {
      e := GuestSignalled(ProcessEnded(0, false), 0);
    } else {
      GuestHasEnough(PhaseOf(s));
      assert |Going(s)| == |s.guest.received| + |s.toGuest|;
      e := if |s.guest.received| == Wants(s.guest.pc) then GuestActs(World(0, 0, true, 0, true, 0)) else GuestReads(1);
    }
  }

  /** With nothing under way to the host, all the bytes the guest waits for are under way to it. */
  lemma GuestHasEnough(p: Phase)
    requires InPhase(p, [], GUEST_COMMAND_LIMIT) && p.host != Idle && p.guest != Loop
    ensures p.guest != Dead && |p.going| >= Wants(p.guest)
  {
    if p.host.AwaitProcess? {
      var command :| |command| <= GUEST_COMMAND_LIMIT && CommandAt(p.host.mode, p.guest, p.going, command);
    }
  }
}
