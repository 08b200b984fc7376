/**
 The exact limit of a drakshell command (drakrun/lib/drakshell.py:297,
 drakrun/tools/drakshell/drakshell.c:415): a command the host lets through and the guest
 does not take ends the session.
 */
module SessionLimit {
  import opened Common
  import opened Framing
  import opened Session
  import opened SessionSync

  ghost predicate CanReach(s: State, r: State) {
    exists events :: Reaches(s, events, r)
  }

  /** The event is possible and leads to m, from where r can be reached. */
  lemma Next(s: State, e: Event, m: State, r: State)
    requires Enabled(s, e) && Apply(s, e) == m && CanReach(m, r)
    ensures CanReach(s, r)
  {
    var events :| Reaches(m, events, r);
    assert ([e] + events)[1..] == events;
    assert Reaches(s, [e] + events, r);
  }

  lemma Here(s: State)
    ensures CanReach(s, s)
  {
    assert Reaches(s, [], s);
  }

  /** The host has written b, and the guest reads all of it that it wants. */
  lemma GuestGets(s: State, b: Bytes, rest: Bytes, r: State)
    requires s.toGuest == b + rest && s.guest.received == [] && s.guest.pending == [] && |b| == Wants(s.guest.pc)
    requires CanReach(s.(guest := s.guest.(received := b), toGuest := rest), r)
    ensures CanReach(s, r)
  {
    var m := s.(guest := s.guest.(received := b), toGuest := rest);
    if b == [] {
      assert s.toGuest == rest;
      assert s == m;
    } else {
      assert s.toGuest[..|b|] == b && s.toGuest[|b|..] == rest && [] + b == b;
      Next(s, GuestReads(|b|), m, r);
    }
  }

  lemma HostPuts(s: State, b: Bytes, r: State)
    requires s.host.pending == b && b != [] && s.toGuest == []
    requires CanReach(s.(host := s.host.(pending := []), toGuest := b), r)
    ensures CanReach(s, r)
  {
    assert b[..|b|] == b && b[|b|..] == [] && [] + b == b;
    Next(s, HostWrites(|b|), s.(host := s.host.(pending := []), toGuest := b), r);
  }

  lemma GuestPuts(s: State, b: Bytes, r: State)
    requires s.guest.pending == b && b != [] && s.toHost == []
    requires CanReach(s.(guest := s.guest.(pending := []), toHost := b), r)
    ensures CanReach(s, r)
  {
    assert b[..|b|] == b && b[|b|..] == [] && [] + b == b;
    Next(s, GuestWrites(|b|), s.(guest := s.guest.(pending := []), toHost := b), r);
  }

  /** One read of the host, of what it still needs of a response. */
  lemma HostGetsMore(s: State, x: Response, n: nat, k: nat, r: State)
    requires Sendable(x) && n < |Encode(x)| && HostListens(s.host)
    requires s.host.received == Encode(x)[..n] && s.toHost == Encode(x)[n..]
    requires k == Needed(Encode(x)[..n]) && 0 < k && n + k <= |Encode(x)|
    requires CanReach(s.(host := s.host.(received := Encode(x)[..n + k]), toHost := Encode(x)[n + k..]), r)
    ensures CanReach(s, r)
  {
    var code := Encode(x);
    assert code[n..][..k] == code[n..n + k] && code[..n] + code[n..n + k] == code[..n + k];
    assert code[n..][k..] == code[n + k..];
    Next(s, HostReads(k), s.(host := s.host.(received := code[..n + k]), toHost := code[n + k..]), r);
  }

  /** The host reads one response, in as many pieces as recv_response asks for. */
  lemma {:induction false} HostGets(s: State, x: Response, n: nat, r: State)
    requires Sendable(x) && n <= |Encode(x)| && HostListens(s.host)
    requires s.host.received == Encode(x)[..n] && s.toHost == Encode(x)[n..]
    requires CanReach(s.(host := s.host.(received := Encode(x)), toHost := []), r)
    ensures CanReach(s, r)
    decreases |Encode(x)| - n
  {
    var code := Encode(x);
    if n == |code| {
      assert code[..n] == code && code[n..] == [];
    } else {
      FrameExact(x, n);
      var k := Needed(code[..n]);
      HostGets(s.(host := s.host.(received := code[..n + k]), toHost := code[n + k..]), x, n + k, r);
      HostGetsMore(s, x, n, k, r);
    }
  }

  /** The guest's response x reaches the host, which acts on it. */
  lemma Answer(s: State, x: Response, r: State)
    requires Sendable(x) && s.guest.pending == Encode(x) && s.toHost == [] && s.host.received == []
    requires HostListens(s.host)
    requires CanReach(s.(host := HostAct(s.host.(received := Encode(x)), Some(x)),
                         guest := s.guest.(pending := [])), r)
    ensures CanReach(s, r)
  {
    var sent := s.(guest := s.guest.(pending := []), toHost := Encode(x));
    var got := sent.(host := s.host.(received := Encode(x)), toHost := []);
    var acted := s.(host := HostAct(s.host.(received := Encode(x)), Some(x)), guest := s.guest.(pending := []));
    FrameExact(x, |Encode(x)|);
    assert Encode(x)[..|Encode(x)|] == Encode(x) && Encode(x)[..0] == [] && Encode(x)[0..] == Encode(x);
    Next(got, HostActs, acted, r);
    HostGets(sent, x, 0, r);
    GuestPuts(s, Encode(x), r);
  }

  // ---------- Calls ----------

  /** A session between two calls: the calls to come, what ran so far, and what is yet to be sent to a process. */
  datatype Rest = Rest(calls: seq<Call>, runs: seq<Output>, delivered: Output, input: seq<Input>)

  function HostOf(pc: HostPc, x: Rest): Host {
    Host(pc, [], [], x.calls, x.delivered)
  }

  function GuestOf(pc: GuestPc, x: Rest): Guest {
    Guest(pc, [], [], x.runs)
  }

  /** Both ends wait, and nothing is under way. */
  function Waiting(host: HostPc, guest: GuestPc, x: Rest): State {
    State(HostOf(host, x), GuestOf(guest, x), [], [], x.input)
  }

  function Between(x: Rest): State {
    Waiting(Idle, Top, x)
  }

  function AfterCall(x: Rest): Rest
    requires x.calls != []
  {
    x.(calls := x.calls[1..], input := InputOf(x.calls[0]))
  }

  const ANY_WORLD: World := World(0, 0, false, 0, true, 0)

  /** The host has sent the command, and the guest waits for it. */
  function Commanded(mode: byte, command: Bytes, x: Rest): State
    requires |command| <= HOST_COMMAND_LIMIT
  {
    var s := Waiting(AwaitProcess(mode), ExecControl(mode), x);
    s.(host := s.host.(pending := Command(command)))
  }

  /** A request of one byte that the guest answers with a. */
  lemma Ask(x: Rest, request: byte, pc: HostPc, a: Response, next: GuestPc, r: State)
    requires x.calls != [] && HostStart(HostOf(Idle, x)) == HostOf(pc, AfterCall(x)).(pending := [request])
    requires Sendable(a) && pc != Idle && pc != OutOfSync
    requires GuestAct(GuestOf(Top, x).(received := [request]), ANY_WORLD) == GuestOf(next, x).(pending := Encode(a))
    requires var host := HostAct(HostOf(pc, AfterCall(x)).(received := Encode(a)), Some(a));
             CanReach(Waiting(pc, next, AfterCall(x)).(host := host), r)
    ensures CanReach(Between(x), r)
  {
    var waiting := Waiting(pc, Top, AfterCall(x));
    var started := waiting.(host := waiting.host.(pending := [request]));
    var put := waiting.(toGuest := [request]);
    var got := waiting.(guest := GuestOf(Top, x).(received := [request]));
    var acted := waiting.(guest := GuestOf(next, x).(pending := Encode(a)));
    Answer(acted, a, r);
    Next(got, GuestActs(ANY_WORLD), acted, r);
    assert [request] + [] == [request];
    GuestGets(put, [request], [], r);
    HostPuts(started, [request], r);
    Next(Between(x), HostStarts, started, r);
  }

  function Mode(call: Call): byte
    requires call.Run? || call.RunInteractive?
  {
    if call.Run? then REQ_NON_INTERACTIVE_EXECUTE else REQ_INTERACTIVE_EXECUTE
  }

  lemma CommandGoesOut(x: Rest, r: State)
    requires x.calls != [] && (x.calls[0].Run? || x.calls[0].RunInteractive?)
    requires |x.calls[0].command| <= HOST_COMMAND_LIMIT
    requires CanReach(Commanded(Mode(x.calls[0]), x.calls[0].command, AfterCall(x)), r)
    ensures CanReach(Between(x), r)
  {
    var mode := Mode(x.calls[0]);
    Ask(x, mode, AwaitStart(mode, x.calls[0].command), Plain(mode), ExecControl(mode), r);
  }

  /** The guest learns the length of the command. */
  lemma LengthArrives(mode: byte, command: Bytes, x: Rest, r: State)
    requires |command| <= HOST_COMMAND_LIMIT
    requires var s := Waiting(AwaitProcess(mode), ExecLength(mode), x);
             CanReach(s.(guest := GuestAct(s.guest.(received := Word(|command|)), ANY_WORLD), toGuest := command), r)
    ensures CanReach(Commanded(mode, command, x), r)
  {
    var s := Commanded(mode, command, x);
    var rest := Word(|command|) + command;
    assert Command(command) == [REQ_DATA] + rest;
    var put := Waiting(AwaitProcess(mode), ExecControl(mode), x).(toGuest := Command(command));
    var got := put.(guest := put.guest.(received := [REQ_DATA]), toGuest := rest);
    var waiting := Waiting(AwaitProcess(mode), ExecLength(mode), x).(toGuest := rest);
    var read := waiting.(guest := waiting.guest.(received := Word(|command|)), toGuest := command);
    Next(read, GuestActs(ANY_WORLD), read.(guest := GuestAct(read.guest, ANY_WORLD)), r);
    GuestGets(waiting, Word(|command|), command, r);
    Next(got, GuestActs(ANY_WORLD), waiting, r);
    GuestGets(put, [REQ_DATA], rest, r);
    HostPuts(s, Command(command), r);
  }

  /** A command between the two limits: the guest gives up, and the host sees a response it does not expect. */
  lemma TooLongForGuest(mode: byte, command: Bytes, x: Rest) returns (r: State)
    requires GUEST_COMMAND_LIMIT < |command| <= HOST_COMMAND_LIMIT
    ensures CanReach(Commanded(mode, command, x), r) && r.host.pc == OutOfSync && r.guest.pc == Dead
  {
    WordRoundTrip(|command|);
    var a := Plain(RESP_BAD_REQ);
    var s := Waiting(AwaitProcess(mode), Dead, x).(toGuest := command);
    r := s.(host := HostAct(s.host.(received := Encode(a)), Some(a)));
    Here(r);
    s := s.(guest := s.guest.(pending := Encode(a)));
    Answer(s, a, r);
    LengthArrives(mode, command, x, r);
  }

  /** A command that fits arrives, and Windows decides what becomes of it. */
  lemma CommandArrives(mode: byte, command: Bytes, x: Rest, w: World, r: State)
    requires Fits(command) && IsWorld(w)
    requires var s := Waiting(AwaitProcess(mode), ExecData(mode, |command|), x);
             CanReach(s.(guest := GuestAct(s.guest.(received := command), w)), r)
    ensures CanReach(Commanded(mode, command, x), r)
  {
    WordRoundTrip(|command|);
    var waiting := Waiting(AwaitProcess(mode), ExecData(mode, |command|), x);
    var read := waiting.(guest := waiting.guest.(received := command));
    Next(read, GuestActs(w), read.(guest := GuestAct(read.guest, w)), r);
    assert command + [] == command;
    GuestGets(waiting.(toGuest := command), command, [], r);
    LengthArrives(mode, command, x, r);
  }

  /** A command that fits can always be answered, if only by a process that does not start. */
  lemma FittingAnswered(mode: byte, command: Bytes, x: Rest, r: State)
    requires Fits(command) && SessionMode(mode) && CanReach(Between(x), r)
    ensures CanReach(Commanded(mode, command, x), r)
  {
    var a := Status(RESP_PROCESS_ERROR, 0);
    var s := Waiting(AwaitProcess(mode), Top, x);
    Answer(s.(guest := s.guest.(pending := Encode(a))), a, r);
    CommandArrives(mode, command, x, ANY_WORLD, r);
  }

  /** The first call can be completed, if its command fits or is refused. */
  lemma CallCompleted(x: Rest, r: State)
    requires x.calls != [] && CanReach(Between(AfterCall(x)), r)
    requires (x.calls[0].Run? || x.calls[0].RunInteractive?) ==>
               Fits(x.calls[0].command) || |x.calls[0].command| > HOST_COMMAND_LIMIT
    ensures CanReach(Between(x), r)
  {
    match x.calls[0]
    case Connect => Ask(x, REQ_PING, AwaitPong, Plain(RESP_PONG), Top, r);
    case GetInfo => Ask(x, REQ_GET_INFO, AwaitInfo, Info(0, 0), Top, r);
    case _ =>
      if Fits(x.calls[0].command) {
        FittingAnswered(Mode(x.calls[0]), x.calls[0].command, AfterCall(x), r);
        CommandGoesOut(x, r);
      } else {
        Next(Between(x), HostStarts, Between(AfterCall(x)), r);
      }
  }

  /** Calls before the first one that does not fit can be completed, and that one loses the session. */
  lemma {:induction false} SomeRunLosesSync(x: Rest) returns (r: State)
    requires !CommandsFit(x.calls)
    ensures CanReach(Between(x), r) && r.host.pc == OutOfSync
    decreases |x.calls|
  {
    var call := x.calls[0];
    if (call.Run? || call.RunInteractive?) && GUEST_COMMAND_LIMIT < |call.command| <= HOST_COMMAND_LIMIT {
      r := TooLongForGuest(Mode(call), call.command, AfterCall(x));
      CommandGoesOut(x, r);
    } else {
      FitsLater(x.calls);
      r := SomeRunLosesSync(AfterCall(x));
      CallCompleted(x, r);
    }
  }

  lemma FitsLater(calls: seq<Call>)
    requires calls != [] && !CommandsFit(calls)
    requires (calls[0].Run? || calls[0].RunInteractive?) ==>
               Fits(calls[0].command) || |calls[0].command| > HOST_COMMAND_LIMIT
    ensures !CommandsFit(calls[1..])
  {
    if CommandsFit(calls[1..]) {
      forall i | 0 <= i < |calls| && (calls[i].Run? || calls[i].RunInteractive?)
        ensures Fits(calls[i].command) || |calls[i].command| > HOST_COMMAND_LIMIT
      {
        if i > 0 { assert calls[1..][i - 1] == calls[i]; }
      }
    }
  }

  /** A session without input stays in step in every run exactly when no command has 2047 or 2048 bytes. */
  lemma InSyncExactly(s: State)
    requires Start(s) && NoInput(s.host.calls)
    ensures (forall r :: CanReach(s, r) ==> r.host.pc != OutOfSync) <==> CommandsFit(s.host.calls)
  {
    if CommandsFit(s.host.calls) {
      forall r | CanReach(s, r) ensures r.host.pc != OutOfSync {
        var events :| Reaches(s, events, r);
        SessionInSync(s, events, r);
      }
    } else {
      var x := Rest(s.host.calls, [], NO_OUTPUT, []);
      assert s == Between(x);
      var r := SomeRunLosesSync(x);
    }
  }
}
