/**
 The two ends of a drakshell session, joined by two byte channels: the guest's
 drakshell_loop and process_execute (drakrun/tools/drakshell/drakshell.c) and the host's
 Drakshell and DrakshellInteractiveProcess (drakrun/lib/drakshell.py). An event is one step
 of one end; any order of events is a run.
 */
module Session {
  import opened Common
  import opened Framing

  const GUEST_COMMAND_LIMIT: nat := 2046
  const HOST_COMMAND_LIMIT: nat := 2048
  const GUEST_BUFFER: nat := 1024

  /** What was read from a process: its stdout and its stderr. */
  datatype Output = Output(out: Bytes, err: Bytes)

  const NO_OUTPUT: Output := Output([], [])

  // ---------- The guest ----------

  /** Where the guest waits for bytes. Receiving says what the command line is for. */
  datatype GuestPc =
    | Top
    | ExecControl(mode: byte)
    | ExecLength(mode: byte)
    | ExecData(mode: byte, size: nat)
    | VoidLength
    | VoidData(size: nat)
    | Loop
    | StdinLength
    | StdinData(size: nat)
    | Dead

  /** received: bytes read for the current wait; pending: bytes still to be written. */
  datatype Guest = Guest(pc: GuestPc, received: Bytes, pending: Bytes, runs: seq<Output>)

  predicate IsExecute(request: byte) {
    REQ_INTERACTIVE_EXECUTE <= request <= REQ_EXECUTE_AND_FINISH
  }

  function Wants(pc: GuestPc): nat {
    match pc
    case Top => 1
    case ExecControl(_) => 1
    case ExecLength(_) => 2
    case ExecData(_, n) => n
    case VoidLength => 2
    case VoidData(n) => n
    case StdinLength => 2
    case StdinData(n) => n
    case Loop => 0
    case Dead => 0
  }

  /** What Windows decides: ids, whether a process starts, whether a write to its stdin works, exit codes. */
  datatype World = World(pid: int, tid: int, started: bool, error: int, written: bool, exitCode: int)

  predicate IsWorld(w: World) {
    0 <= w.pid < DWORD && 0 <= w.tid < DWORD && 0 <= w.error < DWORD && 0 <= w.exitCode < DWORD
  }

  function Reply(g: Guest, bytes: Bytes, pc: GuestPc): Guest {
    g.(received := [], pending := bytes, pc := pc)
  }

  /** The guest leaves the message loop and reports the exit of the process. */
  function Leave(g: Guest, code: int): Guest
    requires 0 <= code < DWORD
  {
    Reply(g, Encode(Status(RESP_PROCESS_EXIT, code)), Top)
  }

  /** What the guest does with the bytes it waited for. */
  function GuestAct(g: Guest, w: World): Guest
    requires |g.received| == Wants(g.pc) && IsWorld(w)
  {
    match g.pc
    case Top =>
      var request := g.received[0];
      if request == REQ_PING then Reply(g, [RESP_PONG], Top)
      else if request == REQ_GET_INFO then Reply(g, Encode(Info(w.pid, w.tid)), Top)
      else if IsExecute(request) then Reply(g, [request], ExecControl(request))
      else if request == REQ_FINISH then Reply(g, [RESP_FINISH_START], Dead)
      else if request == REQ_DATA then Reply(g, [], VoidLength)
      else Reply(g, [RESP_BAD_REQ], Top)
    case VoidLength =>
      var n := FromWord(g.received);
      if n > GUEST_BUFFER then Reply(g, [], Dead) else Reply(g, [], VoidData(n))
    case VoidData(_) => Reply(g, [RESP_BAD_REQ], Top)
    case ExecControl(mode) =>
      if g.received[0] == REQ_DATA then Reply(g, [], ExecLength(mode))
      else Reply(g, [RESP_BAD_REQ], if mode == REQ_EXECUTE_AND_FINISH then Dead else Top)
    case ExecLength(mode) =>
      var n := FromWord(g.received);
      if n > GUEST_COMMAND_LIMIT then Reply(g, [RESP_BAD_REQ], Dead) else Reply(g, [], ExecData(mode, n))
    case ExecData(mode, _) =>
      var next := if mode == REQ_EXECUTE_AND_FINISH then Dead else Top;
      if !w.started then Reply(g, Encode(Status(RESP_PROCESS_ERROR, w.error)), next)
      else if mode == REQ_INTERACTIVE_EXECUTE then
        Reply(g, [RESP_PROCESS_START], Loop).(runs := g.runs + [NO_OUTPUT])
      else Reply(g, [RESP_PROCESS_START], next)
    case StdinLength =>
      var n := FromWord(g.received);
      if n > GUEST_BUFFER then Reply(g, Encode(Status(RESP_FATAL_ERROR, w.error)), Dead)
      else Reply(g, [], StdinData(n))
    case StdinData(_) => if w.written then Reply(g, [], Loop) else Leave(g, w.exitCode)
    case Loop => g
    case Dead => g
  }

  /**
   What the message loop waits for. A broken pipe and a failing wait end the loop like the
   exit does. taken: the pending read of a control byte had completed, and its byte is dropped.
   */
  datatype Signal =
    | ProcessEnded(exitCode: int, taken: bool)
    | Stdout(data: Bytes)
    | Stderr(data: Bytes)
    | StdinControl

  predicate IsSignal(signal: Signal) {
    match signal
    case ProcessEnded(code, _) => 0 <= code < DWORD
    case Stdout(data) => |data| <= GUEST_BUFFER
    case Stderr(data) => |data| <= GUEST_BUFFER
    case StdinControl => true
  }

  predicate TakesByte(signal: Signal) {
    signal.StdinControl? || (signal.ProcessEnded? && signal.taken)
  }

  function AddOutput(runs: seq<Output>, out: Bytes, err: Bytes): seq<Output> {
    if runs == [] then []
    else
      var k := |runs| - 1;
      runs[k := Output(runs[k].out + out, runs[k].err + err)]
  }

  function GuestSignal(g: Guest, signal: Signal): Guest
    requires IsSignal(signal) && signal != StdinControl
  {
    match signal
    case ProcessEnded(code, _) => Leave(g, code)
    case Stdout(data) => Reply(g, Encode(Block(RESP_STDOUT_DATA, data)), Loop).(runs := AddOutput(g.runs, data, []))
    case Stderr(data) => Reply(g, Encode(Block(RESP_STDERR_DATA, data)), Loop).(runs := AddOutput(g.runs, [], data))
  }

  /** A control byte from the host during the loop. */
  function GuestControl(g: Guest, control: byte, exitCode: int): Guest
    requires 0 <= exitCode < DWORD
  {
    if control == REQ_DATA then Reply(g, [], StdinLength) else Leave(g, exitCode)
  }

  // ---------- The host ----------

  const HOST_STDIN_READ: nat := 2048

  type Piece = b: Bytes | |b| <= HOST_STDIN_READ

  /** What the host sends to a process: one read of its stdin, or the request to terminate. */
  datatype Input = Stdin(data: Piece) | Terminate

  function Message(x: Input): (m: Bytes)
    ensures m != []
  {
    match x
    case Stdin(data) => [REQ_DATA] + (Word(|data|) + data)
    case Terminate => [REQ_TERMINATE_PROCESS]
  }

  /** RunInteractive: run_interactive with what is sent to the process, and join; check_call sends nothing. */
  datatype Call = Connect | GetInfo | Run(command: Bytes) | RunInteractive(command: Bytes, input: seq<Input>)

  function InputOf(call: Call): seq<Input> {
    if call.RunInteractive? then call.input else []
  }

  datatype HostPc =
    | Idle
    | AwaitPong
    | AwaitInfo
    | AwaitStart(mode: byte, command: Bytes)
    | AwaitProcess(mode: byte)
    | Interact
    | OutOfSync

  /** received: the part of a response read so far; delivered: what the current process's output handed on. */
  datatype Host = Host(pc: HostPc, received: Bytes, pending: Bytes, calls: seq<Call>, delivered: Output)

  function Request(h: Host, bytes: Bytes, pc: HostPc): Host {
    h.(received := [], pending := bytes, pc := pc)
  }

  /** The next call. A command the host finds too long fails before anything is sent. */
  function HostStart(h: Host): Host
    requires h.calls != []
  {
    var rest := h.(calls := h.calls[1..]);
    match h.calls[0]
    case Connect => Request(rest, [REQ_PING], AwaitPong)
    case GetInfo => Request(rest, [REQ_GET_INFO], AwaitInfo)
    case Run(command) =>
      if |command| > HOST_COMMAND_LIMIT then rest
      else Request(rest, [REQ_NON_INTERACTIVE_EXECUTE], AwaitStart(REQ_NON_INTERACTIVE_EXECUTE, command))
    case RunInteractive(command, _) =>
      if |command| > HOST_COMMAND_LIMIT then rest
      else Request(rest, [REQ_INTERACTIVE_EXECUTE], AwaitStart(REQ_INTERACTIVE_EXECUTE, command))
  }

  function Command(command: Bytes): Bytes
    requires |command| <= HOST_COMMAND_LIMIT
  {
    [REQ_DATA] + Word(|command|) + command
  }

  function Deliver(d: Output, r: Response): Output {
    match r
    case Block(code, data) =>
      if code == RESP_STDOUT_DATA then Output(d.out + data, d.err) else Output(d.out, d.err + data)
    case _ => d
  }

  /** What the host does with a complete response; None stands for a code it does not know. */
  function HostAct(h: Host, r: Option<Response>): Host {
    match h.pc
    case AwaitPong => Request(h, [], if r == Some(Plain(RESP_PONG)) then Idle else OutOfSync)
    case AwaitInfo => Request(h, [], if r.Some? && r.value.Info? then Idle else OutOfSync)
    case AwaitStart(mode, command) =>
      if r == Some(Plain(mode)) && |command| <= HOST_COMMAND_LIMIT
      then Request(h, Command(command), AwaitProcess(mode))
      else Request(h, [], OutOfSync)
    case AwaitProcess(mode) =>
      if r == Some(Plain(RESP_PROCESS_START)) then
        if mode == REQ_INTERACTIVE_EXECUTE then Request(h, [], Interact).(delivered := NO_OUTPUT)
        else Request(h, [], Idle)
      else if r.Some? && r.value.Status? && r.value.code == RESP_PROCESS_ERROR then Request(h, [], Idle)
      else Request(h, [], OutOfSync)
    case Interact =>
      if r.Some? && r.value.Block? then Request(h, [], Interact).(delivered := Deliver(h.delivered, r.value))
      else if r.Some? && r.value.Status? && r.value.code == RESP_PROCESS_EXIT then Request(h, [], Idle)
      else Request(h, [], OutOfSync)
    case Idle => h
    case OutOfSync => h
  }

  predicate HostListens(h: Host) {
    h.pending == [] && h.pc != Idle && h.pc != OutOfSync
  }

  // ---------- Both ----------

  /** input: what the call under way has yet to send to its process. */
  datatype State = State(host: Host, guest: Guest, toGuest: Bytes, toHost: Bytes, input: seq<Input>)

  datatype Event =
    | HostStarts
    | HostWrites(n: nat)
    | HostReads(n: nat)
    | HostActs
    | HostFeeds
    | GuestWrites(n: nat)
    | GuestReads(n: nat)
    | GuestActs(world: World)
    | GuestSignalled(signal: Signal, exitCode: int)

  predicate Enabled(s: State, e: Event) {
    match e
    case HostStarts => s.host.pc == Idle && s.host.calls != [] && s.host.pending == []
    case HostWrites(n) => 1 <= n <= |s.host.pending|
    case HostReads(n) => HostListens(s.host) && 1 <= n <= |s.toHost| && n <= Needed(s.host.received)
    case HostActs => HostListens(s.host) && s.host.received != [] && Needed(s.host.received) == 0
    case HostFeeds => s.input != [] && s.host.pc == Interact
    case GuestWrites(n) => 1 <= n <= |s.guest.pending|
    case GuestReads(n) =>
      s.guest.pending == [] && 1 <= n <= |s.toGuest| && |s.guest.received| + n <= Wants(s.guest.pc)
    case GuestActs(w) =>
      s.guest.pending == [] && !s.guest.pc.Loop? && !s.guest.pc.Dead?
      && |s.guest.received| == Wants(s.guest.pc) && IsWorld(w)
    case GuestSignalled(signal, code) =>
      s.guest.pending == [] && s.guest.pc == Loop && IsSignal(signal) && 0 <= code < DWORD
      && (TakesByte(signal) ==> s.toGuest != [])
  }

  function Apply(s: State, e: Event): State
    requires Enabled(s, e)
  {
    match e
    case HostStarts => s.(host := HostStart(s.host), input := InputOf(s.host.calls[0]))
    case HostWrites(n) =>
      s.(host := s.host.(pending := s.host.pending[n..]), toGuest := s.toGuest + s.host.pending[..n])
    case HostReads(n) =>
      s.(host := s.host.(received := s.host.received + s.toHost[..n]), toHost := s.toHost[n..])
    case HostActs => s.(host := HostAct(s.host, Decode(s.host.received)))
    case HostFeeds =>
      s.(host := s.host.(pending := s.host.pending + Message(s.input[0])), input := s.input[1..])
    case GuestWrites(n) =>
      s.(guest := s.guest.(pending := s.guest.pending[n..]), toHost := s.toHost + s.guest.pending[..n])
    case GuestReads(n) =>
      s.(guest := s.guest.(received := s.guest.received + s.toGuest[..n]), toGuest := s.toGuest[n..])
    case GuestActs(w) => s.(guest := GuestAct(s.guest, w))
    case GuestSignalled(signal, code) =>
      if signal == StdinControl
      then s.(guest := GuestControl(s.guest, s.toGuest[0], code), toGuest := s.toGuest[1..])
      else s.(guest := GuestSignal(s.guest, signal), toGuest := if TakesByte(signal) then s.toGuest[1..] else s.toGuest)
  }

  /**
   The guest tells x because of e: its ids, the bytes of one read of the process's stdout or
   stderr, that a process starts, why one does not, or the code with which it ends.
   */
  predicate Tells(e: Event, x: Response) {
    match x
    case Info(pid, tid) => e.GuestActs? && e.world.pid == pid && e.world.tid == tid
    case Block(code, data) =>
      e.GuestSignalled? && ((code == 0xA6 && e.signal == Stdout(data)) || (code == 0xA7 && e.signal == Stderr(data)))
    case Status(code, value) =>
      || (code == 0xB2 && e.GuestActs? && !e.world.started && e.world.error == value)
      || (code == 0xB1 && e.GuestActs? && e.world.error == value)
      || (code == 0xA9 && Ends(e, value))
    case Plain(code) => code == 0xA8 ==> e.GuestActs? && e.world.started
  }

  /** The process ends by itself, when asked to, or when its stdin cannot be written to, with this code. */
  predicate Ends(e: Event, code: int) {
    || (e.GuestActs? && !e.world.written && e.world.exitCode == code)
    || (e.GuestSignalled? && e.signal == StdinControl && e.exitCode == code)
    || (e.GuestSignalled? && e.signal.ProcessEnded? && e.signal.exitCode == code)
  }

  /** The state after the events, each of them possible when its turn comes. */
  ghost predicate Reaches(s: State, events: seq<Event>, r: State)
    decreases |events|
  {
    if events == [] then r == s
    else Enabled(s, events[0]) && Reaches(Apply(s, events[0]), events[1..], r)
  }

  predicate Start(s: State) {
    && s.host.pc == Idle && s.host.received == [] && s.host.pending == []
    && s.guest == Guest(Top, [], [], []) && s.toGuest == [] && s.toHost == [] && s.host.delivered == NO_OUTPUT
    && s.input == []
  }
}
