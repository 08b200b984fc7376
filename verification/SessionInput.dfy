/**
 Stdin and termination of an interactive process (drakrun/lib/drakshell.py:144-236,
 drakrun/tools/drakshell/drakshell.c:500-560): which sessions with them stay in step in every run.
 */
module SessionInput {
  import opened Common
  import opened Framing
  import opened Session
  import opened SessionSync
  import opened OutputDelivery
  import opened SessionLimit

  /** The bytes of the inputs, one after the other. */
  function Stream(xs: seq<Input>): Bytes {
    if xs == [] then [] else Message(xs[0]) + Stream(xs[1..])
  }

  /** Every piece of stdin in front of the first termination fits the guest's buffer. */
  predicate Harmless(xs: seq<Input>) {
    xs == [] || xs[0].Terminate? || (|xs[0].data| <= GUEST_BUFFER && Harmless(xs[1..]))
  }

  predicate Accepted(call: Call) {
    (call.Run? || call.RunInteractive?) ==> |call.command| <= HOST_COMMAND_LIMIT
  }

  ghost predicate NoneAccepted(calls: seq<Call>) {
    forall i :: 0 <= i < |calls| ==> !Accepted(calls[i])
  }

  /**
   Whatever is sent to an interactive process fits it, and no call follows that could see
   what comes too late.
   */
  ghost predicate InputFits(calls: seq<Call>) {
    forall i :: 0 <= i < |calls| && Accepted(calls[i]) && InputOf(calls[i]) != [] ==>
      Harmless(InputOf(calls[i])) && NoneAccepted(calls[i + 1..])
  }

  // ---------- Sessions whose input fits ----------

  /** All that the process will still be sent, whether or not it is under way. */
  function Ahead(s: State): Bytes {
    Going(s) + Stream(s.input)
  }

  /** The guest's place in the stream of inputs. */
  ghost predicate Aligned(pc: GuestPc, ahead: Bytes, xs: seq<Input>) {
    && Harmless(xs)
    && (pc == Loop ==> ahead == Stream(xs))
    && (pc != Loop ==>
          && xs != [] && xs[0].Stdin?
          && (pc == StdinLength ==> ahead == Word(|xs[0].data|) + xs[0].data + Stream(xs[1..]))
          && (pc.StdinData? ==> pc.size == |xs[0].data| && ahead == xs[0].data + Stream(xs[1..])))
  }

  /** The host interacts with process k, and the guest reads its input as it was sent. */
  ghost predicate Feeding(s: State, k: nat, rs: seq<Response>, late: Bytes, xs: seq<Input>) {
    && s.host.pc == Interact && NoneAccepted(s.host.calls)
    && Delivering(s, k, rs, late) && NoneFatal(rs) && |s.guest.received| <= Wants(s.guest.pc)
    && (Serving(s.guest, k) ==> Aligned(s.guest.pc, Ahead(s), xs))
  }

  /** The last call is over: whatever arrives from the guest, nobody reads it. */
  ghost predicate Over(s: State) {
    s.host.pc == Idle && NoneAccepted(s.host.calls)
  }

  lemma MovingFeeds(s: State, e: Event, k: nat, rs: seq<Response>, late: Bytes, xs: seq<Input>)
    requires Feeding(s, k, rs, late, xs) && Enabled(s, e) && (Moves(e) || e.HostFeeds?)
    ensures Feeding(Apply(s, e), k, rs, late, xs)
  {
    var r := Apply(s, e);
    MovingDelivers(s, e, k, rs, late);
    if e.HostFeeds? {
      var going := s.guest.received + s.toGuest;
      assert going + (s.host.pending + Message(s.input[0])) + Stream(s.input[1..])
          == going + s.host.pending + (Message(s.input[0]) + Stream(s.input[1..]));
    } else {
      MovingConserves(s, e);
    }
    assert Ahead(r) == Ahead(s);
  }

  /** The inputs behind the one that the guest acts upon. */
  function StillToRead(g: Guest, k: nat, xs: seq<Input>): seq<Input> {
    if Serving(g, k) && g.pc.StdinData? then From(xs, 1) else xs
  }

  /** The guest reads on in its input. */
  lemma GuestReadsInput(g: Guest, behind: Bytes, w: World, k: nat, xs: seq<Input>) returns (next: seq<Input>)
    requires Serving(g, k) && g.pc != Loop && |g.received| == Wants(g.pc) && IsWorld(w)
    requires Aligned(g.pc, g.received + behind, xs)
    ensures GuestAct(g, w).pc != Dead
    ensures Serving(GuestAct(g, w), k) ==> Aligned(GuestAct(g, w).pc, behind, next)
    ensures next == StillToRead(g, k, xs)
  {
    var data, later := xs[0].data, Stream(xs[1..]);
    if g.pc == StdinLength {
      assert Word(|data|) + (data + later) == Word(|data|) + data + later;
      FrontOf(g.received, behind, Word(|data|), data + later);
      WordRoundTrip(|data|);
      next := xs;
    } else {
      FrontOf(g.received, behind, data, later);
      next := xs[1..];
    }
  }

  lemma GuestActAligns(s: State, w: World, k: nat, xs: seq<Input>) returns (next: seq<Input>)
    requires Serving(s.guest, k) && Enabled(s, GuestActs(w)) && Aligned(s.guest.pc, Ahead(s), xs)
    ensures GuestAct(s.guest, w).pc != Dead
    ensures var r := Apply(s, GuestActs(w)); Serving(r.guest, k) ==> Aligned(r.guest.pc, Ahead(r), next)
    ensures next == StillToRead(s.guest, k, xs)
  {
    AheadOfGuest(s, w, k);
    next := GuestReadsInput(s.guest, Unread(s), w, k, xs);
  }

  /** What the guest has not read yet. */
  function Unread(s: State): Bytes {
    s.toGuest + s.host.pending + Stream(s.input)
  }

  lemma AheadOfGuest(s: State, w: World, k: nat)
    requires Serving(s.guest, k) && Enabled(s, GuestActs(w))
    ensures Ahead(s) == s.guest.received + Unread(s) && Ahead(Apply(s, GuestActs(w))) == Unread(s)
  {
    var r := Apply(s, GuestActs(w));
    assert r.guest.received == [] && [] + r.toGuest == r.toGuest;
  }

  lemma HeadTail(a: byte, x: Bytes, b: byte, y: Bytes)
    requires [a] + x == [b] + y
    ensures a == b && x == y
  {
    assert ([a] + x)[0] == a && ([b] + y)[0] == b;
    assert ([a] + x)[1..] == x && ([b] + y)[1..] == y;
  }

  lemma MessageThen(data: Piece, later: Bytes)
    ensures Message(Stdin(data)) + later == [REQ_DATA] + (Word(|data|) + data + later)
  {
    PushOut([REQ_DATA], Word(|data|) + data, later);
  }

  /** The first byte of the inputs to come says of which kind the first one is. */
  lemma FirstInput(xs: seq<Input>, control: byte, behind: Bytes)
    requires [control] + behind == Stream(xs)
    ensures xs != []
    ensures xs[0].Stdin? ==> control == REQ_DATA && behind == Word(|xs[0].data|) + xs[0].data + Stream(xs[1..])
    ensures xs[0].Terminate? ==> control == REQ_TERMINATE_PROCESS
  {
    var later := Stream(xs[1..]);
    match xs[0]
    case Stdin(data) =>
      MessageThen(data, later);
      HeadTail(control, behind, REQ_DATA, Word(|data|) + data + later);
    case Terminate => HeadTail(control, behind, REQ_TERMINATE_PROCESS, later);
  }

  /** The control byte is the first one of what is ahead. */
  lemma ControlAhead(s: State, code: int)
    requires Enabled(s, GuestSignalled(StdinControl, code)) && s.guest.received == []
    ensures Ahead(s) == [s.toGuest[0]] + Ahead(Apply(s, GuestSignalled(StdinControl, code)))
  {
    var rest := s.toGuest[1..] + s.host.pending + Stream(s.input);
    assert Ahead(Apply(s, GuestSignalled(StdinControl, code))) == rest;
    assert [s.toGuest[0]] + s.toGuest[1..] == s.toGuest;
    assert Ahead(s) == [s.toGuest[0]] + rest;
  }

  /** The control byte that the message loop reads is the first one of the next input. */
  lemma ControlRead(s: State, code: int, k: nat, xs: seq<Input>)
    requires Enabled(s, GuestSignalled(StdinControl, code)) && Aligned(Loop, Ahead(s), xs) && s.guest.received == []
    ensures var r := Apply(s, GuestSignalled(StdinControl, code));
            Serving(r.guest, k) ==> Aligned(r.guest.pc, Ahead(r), xs)
  {
    ControlAhead(s, code);
    FirstInput(xs, s.toGuest[0], Ahead(Apply(s, GuestSignalled(StdinControl, code))));
  }

  lemma HostActFeeds(s: State, k: nat, rs: seq<Response>, late: Bytes, xs: seq<Input>)
    requires Feeding(s, k, rs, late, xs) && Enabled(s, HostActs)
    ensures rs != [] && (Feeding(Apply(s, HostActs), k, rs[1..], late, xs) || Over(Apply(s, HostActs)))
  {
    HostActDelivers(s, k, rs, late);
    assert rs[0] in rs;
    NothingRequested(s);
  }

  /** What a host that interacts does with a response sends nothing. */
  lemma NothingRequested(s: State)
    requires Enabled(s, HostActs) && s.host.pc == Interact
    ensures var r := Apply(s, HostActs);
            r.guest == s.guest && r.host.calls == s.host.calls && Ahead(r) == Ahead(s)
  {
    assert Apply(s, HostActs).host.pending == s.host.pending == [];
  }

  lemma GuestActFeeds(s: State, w: World, k: nat, rs: seq<Response>, late: Bytes, xs: seq<Input>)
    returns (rs': seq<Response>, late': Bytes, xs': seq<Input>)
    requires Feeding(s, k, rs, late, xs) && Enabled(s, GuestActs(w))
    ensures Feeding(Apply(s, GuestActs(w)), k, rs', late', xs')
    ensures xs' == StillToRead(s.guest, k, xs)
    ensures forall x :: x in rs' ==> x in rs || Tells(GuestActs(w), x)
  {
    xs' := xs;
    if Serving(s.guest, k) {
      xs' := GuestActAligns(s, w, k, xs);
    }
    rs', late' := GuestActDelivers(s, k, rs, late, w);
    if !Serving(s.guest, k) {
      NoMoreRuns(s, w, k);
    }
  }

  /** A guest that is done with process k has nothing to do with it later. */
  lemma NoMoreRuns(s: State, w: World, k: nat)
    requires k < |s.guest.runs| && Enabled(s, GuestActs(w)) && !Serving(s.guest, k)
    ensures !Serving(Apply(s, GuestActs(w)).guest, k)
  {
  }

  lemma SignalFeeds(s: State, signal: Signal, code: int, k: nat, rs: seq<Response>, late: Bytes, xs: seq<Input>)
    returns (rs': seq<Response>, late': Bytes)
    requires Feeding(s, k, rs, late, xs) && Enabled(s, GuestSignalled(signal, code))
    ensures Feeding(Apply(s, GuestSignalled(signal, code)), k, rs', late', xs)
    ensures forall x :: x in rs' ==> x in rs || Tells(GuestSignalled(signal, code), x)
  {
    var r := Apply(s, GuestSignalled(signal, code));
    if Serving(s.guest, k) {
      if signal == StdinControl {
        ControlRead(s, code, k, xs);
      } else if !signal.ProcessEnded? {
        assert s.guest.received == [] && r.guest.received == [];
        assert Ahead(r) == Ahead(s);
      }
    }
    rs', late' := SignalDelivers(s, k, rs, late, signal, code);
  }

  /** Every step of an interaction whose input fits goes on with it, or ends it as the host expects. */
  lemma FeedingStep(s: State, e: Event, k: nat, rs: seq<Response>, late: Bytes, xs: seq<Input>)
    returns (rs': seq<Response>, late': Bytes, xs': seq<Input>)
    requires Feeding(s, k, rs, late, xs) && Enabled(s, e)
    ensures Feeding(Apply(s, e), k, rs', late', xs') || Over(Apply(s, e))
    ensures forall x :: x in rs' ==> x in rs || Tells(e, x)
    ensures xs' == if e.GuestActs? then StillToRead(s.guest, k, xs) else xs
  {
    rs', late', xs' := rs, late, xs;
    match e
    case HostActs =>
      HostActFeeds(s, k, rs, late, xs);
      rs' := rs[1..];
    case GuestActs(w) => rs', late', xs' := GuestActFeeds(s, w, k, rs, late, xs);
    case GuestSignalled(signal, code) => rs', late' := SignalFeeds(s, signal, code, k, rs, late, xs);
    case _ => MovingFeeds(s, e, k, rs, late, xs);
  }

  lemma OverStays(s: State, e: Event)
    requires Over(s) && Enabled(s, e)
    ensures Over(Apply(s, e))
  {
  }

  // ---------- The whole session ----------

  predicate InInteractiveCall(pc: HostPc) {
    match pc
    case AwaitStart(mode, _) => mode == REQ_INTERACTIVE_EXECUTE
    case AwaitProcess(mode) => mode == REQ_INTERACTIVE_EXECUTE
    case _ => pc == Interact
  }

  /** No process was sent anything yet, and only the last call may do so. */
  ghost predicate Calling(s: State, rs: seq<Response>) {
    && InStep(s, rs, GUEST_COMMAND_LIMIT) && InputFits(s.host.calls)
    && (InInteractiveCall(s.host.pc) && s.input != [] ==>
          s.host.pc != Interact && Harmless(s.input) && NoneAccepted(s.host.calls))
  }

  lemma InputFitsLater(calls: seq<Call>)
    requires InputFits(calls) && calls != []
    ensures InputFits(calls[1..])
    ensures Accepted(calls[0]) && InputOf(calls[0]) != [] ==> Harmless(InputOf(calls[0])) && NoneAccepted(calls[1..])
  {
    var later := calls[1..];
    forall i | 0 <= i < |later| && Accepted(later[i]) && InputOf(later[i]) != []
      ensures Harmless(InputOf(later[i])) && NoneAccepted(later[i + 1..])
    {
      assert later[i] == calls[i + 1] && later[i + 1..] == calls[i + 2..];
    }
  }

  /** The host begins to interact, and all of the input is still ahead. */
  lemma InputBegins(s: State, rs: seq<Response>)
    requires InStep(s, rs, GUEST_COMMAND_LIMIT) && s.host.pc == Interact && NoneAccepted(s.host.calls)
    requires Harmless(s.input)
    ensures s.guest.runs != [] && Feeding(s, |s.guest.runs| - 1, rs, [], s.input)
  {
    InteractionBegins(s, rs, GUEST_COMMAND_LIMIT);
    assert Going(s) == [] && Ahead(s) == Stream(s.input);
    ExitIsNotFatal(rs, s);
  }

  lemma ExitIsNotFatal(rs: seq<Response>, s: State)
    requires Streaming(rs, s.guest.pc, s.host.delivered, LastRun(s.guest.runs))
    ensures NoneFatal(rs)
  {
    forall x | x in rs ensures !(x.Status? && x.code == RESP_FATAL_ERROR) {
      var i :| 0 <= i < |rs| && rs[i] == x;
      assert i < |rs| - 1 ==> rs[..|rs| - 1][i] == x;
    }
  }

  /** The call that is under way after a step, its input, and the calls to come. */
  lemma CallAfter(s: State, e: Event)
    requires InputFits(s.host.calls) && Enabled(s, e)
    requires InInteractiveCall(s.host.pc) && s.input != [] ==>
               s.host.pc != Interact && Harmless(s.input) && NoneAccepted(s.host.calls)
    ensures !e.HostFeeds?
    ensures var r := Apply(s, e);
            && InputFits(r.host.calls)
            && (InInteractiveCall(r.host.pc) && r.input != [] ==> Harmless(r.input) && NoneAccepted(r.host.calls))
  {
    if e.HostStarts? {
      InputFitsLater(s.host.calls);
    }
  }

  lemma CallingStep(s: State, e: Event, rs: seq<Response>) returns (next: seq<Response>)
    requires Calling(s, rs) && Enabled(s, e)
    ensures var r := Apply(s, e);
            Calling(r, next) || (r.guest.runs != [] && Feeding(r, |r.guest.runs| - 1, next, [], r.input))
    ensures forall x :: x in next ==> x in rs || Tells(e, x)
  {
    CallAfter(s, e);
    next := StepKeeps(s, e, rs, GUEST_COMMAND_LIMIT);
    UnderWayTold(s, e, rs);
    var r := Apply(s, e);
    if r.host.pc == Interact && r.input != [] {
      InputBegins(r, next);
    }
  }

  /** A session whose commands and input fit is between or in its calls, feeds its last process, or is over. */
  ghost predicate InOrder(s: State) {
    || (exists rs :: Calling(s, rs))
    || (exists k, rs, late, xs :: Feeding(s, k, rs, late, xs))
    || Over(s)
  }

  lemma InOrderStep(s: State, e: Event)
    requires InOrder(s) && Enabled(s, e)
    ensures InOrder(Apply(s, e))
  {
    if rs :| Calling(s, rs) {
      var next := CallingStep(s, e, rs);
    } else if k, rs, late, xs :| Feeding(s, k, rs, late, xs) {
      var rs', late', xs' := FeedingStep(s, e, k, rs, late, xs);
    } else {
      OverStays(s, e);
    }
  }

  lemma {:induction false} InOrderRun(s: State, events: seq<Event>, r: State)
    requires InOrder(s) && Reaches(s, events, r)
    ensures InOrder(r)
    decreases |events|
  {
    if events != [] {
      InOrderStep(s, events[0]);
      InOrderRun(Apply(s, events[0]), events[1..], r);
    }
  }

  lemma StartInOrder(s: State)
    requires Start(s) && CommandsFit(s.host.calls) && InputFits(s.host.calls)
    ensures InOrder(s)
  {
    assert Coming(s) == [] && Going(s) == [];
    assert Calling(s, []);
  }

  /** With commands and input that fit, no run of the session sees a response that it does not expect. */
  lemma FittingInputInSync(s: State, events: seq<Event>, r: State)
    requires Start(s) && Reaches(s, events, r) && CommandsFit(s.host.calls) && InputFits(s.host.calls)
    ensures r.host.pc != OutOfSync
  {
    StartInOrder(s);
    InOrderRun(s, events, r);
  }

  // ---------- Progress ----------

  /** The guest is never left in the middle of an input, with nothing more to come. */
  lemma FeedingMoves(s: State, k: nat, rs: seq<Response>, late: Bytes, xs: seq<Input>) returns (e: Event)
    requires Feeding(s, k, rs, late, xs)
    ensures Enabled(s, e)
  {
    if s.host.pending != [] {
      e := HostWrites(1);
    } else if s.guest.pending != [] {
      e := GuestWrites(1);
    } else if rs != [] {
      FirstCarried(s, k, rs, late);
      FrameExact(rs[0], |s.host.received|);
      e := if Needed(s.host.received) == 0 then HostActs else HostReads(1);
    } else if s.input != [] {
      e := HostFeeds;
    } else if s.guest.pc == Loop {
      e := GuestSignalled(ProcessEnded(0, false), 0);
    } else {
      assert |Ahead(s)| == |s.guest.received| + |s.toGuest|;
      e := if |s.guest.received| == Wants(s.guest.pc) then GuestActs(ANY_WORLD) else GuestReads(1);
    }
  }

  /**
   In every run of such a session some end can take a step until all calls are over: nobody
   waits for bytes that never come.
   */
  lemma NeverStuckInRuns(s: State, events: seq<Event>, r: State) returns (e: Event)
    requires Start(s) && Reaches(s, events, r) && CommandsFit(s.host.calls) && InputFits(s.host.calls)
    requires !(r.host.pc == Idle && r.host.calls == [])
    ensures Enabled(r, e)
  {
    StartInOrder(s);
    InOrderRun(s, events, r);
    if rs :| Calling(r, rs) {
      e := NeverStuck(r, rs);
    } else if k, rs, late, xs :| Feeding(r, k, rs, late, xs) {
      e := FeedingMoves(r, k, rs, late, xs);
    } else {
      e := if r.host.pending != [] then HostWrites(1) else HostStarts;
    }
  }

  // ---------- Sessions whose input does not fit ----------

  /** A process runs, with nothing under way in either direction. */
  function During(x: Rest): State {
    Waiting(Interact, Loop, x)
  }

  function Fed(x: Rest): Rest
    requires x.input != []
  {
    x.(input := x.input[1..])
  }

  /** The next message goes out. */
  lemma MessageGoesOut(x: Rest, r: State)
    requires x.input != [] && CanReach(During(Fed(x)).(toGuest := Message(x.input[0])), r)
    ensures CanReach(During(x), r)
  {
    var s := During(Fed(x));
    var m := Message(x.input[0]);
    var feeding := s.(host := s.host.(pending := m));
    assert [] + m == m;
    HostPuts(feeding, m, r);
    Next(During(x), HostFeeds, feeding, r);
  }

  /** The guest has read the length of a piece of stdin. */
  lemma StdinArrives(x: Rest, data: Piece, r: State)
    requires x.input != [] && x.input[0] == Stdin(data)
    requires var s := Waiting(Interact, StdinLength, Fed(x));
             CanReach(s.(guest := GuestAct(s.guest.(received := Word(|data|)), ANY_WORLD), toGuest := data), r)
    ensures CanReach(During(x), r)
  {
    var s := Waiting(Interact, StdinLength, Fed(x));
    var rest := Word(|data|) + data;
    var read := s.(guest := s.guest.(received := Word(|data|)), toGuest := data);
    Next(read, GuestActs(ANY_WORLD), read.(guest := GuestAct(read.guest, ANY_WORLD)), r);
    GuestGets(s.(toGuest := rest), Word(|data|), data, r);
    var put := During(Fed(x)).(toGuest := Message(x.input[0]));
    assert put.toGuest[0] == REQ_DATA && put.toGuest[1..] == rest;
    Next(put, GuestSignalled(StdinControl, 0), s.(toGuest := rest), r);
    MessageGoesOut(x, r);
  }

  /** A piece of stdin that the host reads at once and the guest cannot hold ends guest and session. */
  lemma LongStdinIsFatal(x: Rest, data: Piece) returns (r: State)
    requires x.input != [] && x.input[0] == Stdin(data) && GUEST_BUFFER < |data|
    ensures CanReach(During(x), r) && r.guest.pc == Dead && r.host.pc == OutOfSync
  {
    WordRoundTrip(|data|);
    var a := Status(RESP_FATAL_ERROR, 0);
    var s := Waiting(Interact, Dead, Fed(x)).(toGuest := data);
    r := s.(host := HostAct(s.host.(received := Encode(a)), Some(a)));
    Here(r);
    Answer(s.(guest := s.guest.(pending := Encode(a))), a, r);
    StdinArrives(x, data, r);
  }

  /** A piece that fits can be taken, and leaves everything else as it was. */
  lemma ShortStdinIsTaken(x: Rest, data: Piece, r: State)
    requires x.input != [] && x.input[0] == Stdin(data) && |data| <= GUEST_BUFFER
    requires CanReach(During(Fed(x)), r)
    ensures CanReach(During(x), r)
  {
    WordRoundTrip(|data|);
    var waiting := Waiting(Interact, StdinData(|data|), Fed(x));
    Next(waiting.(guest := waiting.guest.(received := data)), GuestActs(ANY_WORLD), During(Fed(x)), r);
    assert data + [] == data;
    GuestGets(waiting.(toGuest := data), data, [], r);
    StdinArrives(x, data, r);
  }

  /** A call is over, but the guest has something to say about what came too late. */
  function Disturbed(x: Rest): State {
    Between(x).(toHost := [RESP_BAD_REQ])
  }

  /** At the top the guest reads a message that was meant for a process. */
  lemma MessageIsRefused(x: Rest, i: Input, r: State)
    requires i.Stdin? ==> |i.data| <= GUEST_BUFFER
    requires CanReach(Disturbed(x), r)
    ensures CanReach(Between(x).(toGuest := Message(i)), r)
  {
    var s := Between(x);
    var refused := s.(guest := s.guest.(pending := [RESP_BAD_REQ]));
    GuestPuts(refused, [RESP_BAD_REQ], r);
    match i
    case Terminate =>
      Next(s.(guest := s.guest.(received := Message(i))), GuestActs(ANY_WORLD), refused, r);
      assert Message(i) + [] == Message(i);
      GuestGets(s.(toGuest := Message(i)), Message(i), [], r);
    case Stdin(data) =>
      WordRoundTrip(|data|);
      var waiting := Waiting(Idle, VoidData(|data|), x);
      Next(waiting.(guest := waiting.guest.(received := data)), GuestActs(ANY_WORLD), refused, r);
      assert data + [] == data;
      GuestGets(waiting.(toGuest := data), data, [], r);
      var length := Waiting(Idle, VoidLength, x);
      Next(length.(guest := length.guest.(received := Word(|data|)), toGuest := data), GuestActs(ANY_WORLD),
           waiting.(toGuest := data), r);
      var rest := Word(|data|) + data;
      GuestGets(length.(toGuest := rest), Word(|data|), data, r);
      Next(s.(guest := s.guest.(received := [REQ_DATA]), toGuest := rest), GuestActs(ANY_WORLD),
           length.(toGuest := rest), r);
      GuestGets(s.(toGuest := Message(i)), [REQ_DATA], rest, r);
  }

  /** The process ends before the guest has read what the host sent last. */
  lemma ProcessEndsFirst(x: Rest, r: State)
    requires x.input != [] && Harmless(x.input) && CanReach(Disturbed(Fed(x)), r)
    ensures CanReach(During(x), r)
  {
    var m := Message(x.input[0]);
    MessageIsRefused(Fed(x), x.input[0], r);
    var a := Status(RESP_PROCESS_EXIT, 0);
    var s := Waiting(Interact, Top, Fed(x)).(toGuest := m);
    var ended := s.(guest := s.guest.(pending := Encode(a)));
    Answer(ended, a, r);
    Next(During(Fed(x)).(toGuest := m), GuestSignalled(ProcessEnded(0, false), 0), ended, r);
    MessageGoesOut(x, r);
  }

  /** The next call that is not refused takes the guest's complaint for its answer. */
  lemma {:induction false} NextCallIsLost(x: Rest) returns (r: State)
    requires !NoneAccepted(x.calls)
    ensures CanReach(Disturbed(x), r) && r.host.pc == OutOfSync
    decreases |x.calls|
  {
    var h := HostStart(HostOf(Idle, x));
    var s := Disturbed(x).(host := h, input := InputOf(x.calls[0]));
    if Accepted(x.calls[0]) {
      var a := Plain(RESP_BAD_REQ);
      var put := s.(host := h.(pending := []), toGuest := h.pending);
      r := put.(host := HostAct(put.host.(received := Encode(a)), Some(a)), toHost := []);
      Here(r);
      var got := put.(host := put.host.(received := Encode(a)), toHost := []);
      FrameExact(a, 1);
      assert Encode(a)[..1] == Encode(a) && Encode(a)[..0] == [] && Encode(a)[0..] == Encode(a);
      Next(got, HostActs, r, r);
      HostGets(put, a, 0, r);
      HostPuts(s, h.pending, r);
    } else {
      forall i | 0 <= i < |x.calls| && Accepted(x.calls[i]) ensures !NoneAccepted(AfterCall(x).calls) {
        assert AfterCall(x).calls[i - 1] == x.calls[i];
      }
      r := NextCallIsLost(AfterCall(x));
    }
    Next(Disturbed(x), HostStarts, s, r);
  }

  /** A process runs, and its input does not fit: some run loses the session. */
  lemma {:induction false} SomeInputLosesSync(x: Rest) returns (r: State)
    requires x.input != [] && !(Harmless(x.input) && NoneAccepted(x.calls))
    ensures CanReach(During(x), r) && r.host.pc == OutOfSync
    decreases |x.input|
  {
    if Harmless(x.input) {
      r := NextCallIsLost(Fed(x));
      ProcessEndsFirst(x, r);
    } else if |x.input[0].data| > GUEST_BUFFER {
      r := LongStdinIsFatal(x, x.input[0].data);
    } else {
      r := SomeInputLosesSync(Fed(x));
      ShortStdinIsTaken(x, x.input[0].data, r);
    }
  }

  const STARTING: World := World(0, 0, true, 0, true, 0)

  /** The first call starts a process, and the host begins to interact with it. */
  lemma InteractionStarts(x: Rest, r: State)
    requires x.calls != [] && x.calls[0].RunInteractive? && Fits(x.calls[0].command)
    requires CanReach(During(AfterCall(x).(runs := x.runs + [NO_OUTPUT], delivered := NO_OUTPUT)), r)
    ensures CanReach(Between(x), r)
  {
    var command, mode := x.calls[0].command, REQ_INTERACTIVE_EXECUTE;
    var a := Plain(RESP_PROCESS_START);
    var s := Waiting(AwaitProcess(mode), Loop, AfterCall(x).(runs := x.runs + [NO_OUTPUT]));
    Answer(s.(guest := s.guest.(pending := Encode(a))), a, r);
    CommandArrives(mode, command, AfterCall(x), STARTING, r);
    CommandGoesOut(x, r);
  }

  /** The calls in front of the process whose input does not fit can be completed. */
  lemma {:induction false} SomeProcessLosesSync(x: Rest) returns (r: State)
    requires CommandsFit(x.calls) && !InputFits(x.calls)
    ensures CanReach(Between(x), r) && r.host.pc == OutOfSync
    decreases |x.calls|
  {
    if InputFits(x.calls[1..]) {
      FirstDecides(x.calls);
      r := SomeInputLosesSync(AfterCall(x).(runs := x.runs + [NO_OUTPUT], delivered := NO_OUTPUT));
      InteractionStarts(x, r);
    } else {
      CommandsFitLater(x.calls);
      r := SomeProcessLosesSync(AfterCall(x));
      CallCompleted(x, r);
    }
  }

  /** When the input of the later calls fits, that of the first decides. */
  lemma FirstDecides(calls: seq<Call>)
    requires calls != [] && InputFits(calls[1..])
    ensures InputFits(calls) <==>
            (Accepted(calls[0]) && InputOf(calls[0]) != [] ==> Harmless(InputOf(calls[0])) && NoneAccepted(calls[1..]))
  {
    var later := calls[1..];
    forall i | 0 < i < |calls| && Accepted(calls[i]) && InputOf(calls[i]) != []
      ensures Harmless(InputOf(calls[i])) && NoneAccepted(calls[i + 1..])
    {
      assert later[i - 1] == calls[i] && later[i..] == calls[i + 1..];
    }
  }

  lemma CommandsFitLater(calls: seq<Call>)
    requires CommandsFit(calls) && calls != []
    ensures CommandsFit(calls[1..])
  {
    forall i | 0 <= i < |calls| - 1 && (calls[1..][i].Run? || calls[1..][i].RunInteractive?)
      ensures Fits(calls[1..][i].command) || |calls[1..][i].command| > HOST_COMMAND_LIMIT
    {
      assert calls[1..][i] == calls[i + 1];
    }
  }

  /** The lengths of commands and of stdin that a session survives, whatever happens. */
  ghost predicate SafeCalls(calls: seq<Call>) {
    && (forall i :: 0 <= i < |calls| && (calls[i].Run? || calls[i].RunInteractive?) ==>
          |calls[i].command| != 2047 && |calls[i].command| != 2048)
    && forall i :: 0 <= i < |calls| && InputOf(calls[i]) != [] && |calls[i].command| <= 2048 ==>
         SafeInput(calls[i].input) && NoCallBehind(calls, i)
  }

  /** What comes later is too long for the host, and never sent. */
  ghost predicate NoCallBehind(calls: seq<Call>, i: nat) {
    forall n :: i < n < |calls| ==> (calls[n].Run? || calls[n].RunInteractive?) && |calls[n].command| > 2048
  }

  lemma NoneAcceptedExactly(calls: seq<Call>, i: nat)
    requires i < |calls|
    ensures NoneAccepted(calls[i + 1..]) <==> NoCallBehind(calls, i)
  {
    var later := calls[i + 1..];
    if NoneAccepted(later) {
      forall n | i < n < |calls| ensures !Accepted(calls[n]) { assert later[n - i - 1] == calls[n]; }
    }
  }

  /** Each piece of stdin with no termination in front of it has at most 1024 bytes. */
  ghost predicate SafeInput(xs: seq<Input>) {
    forall j :: 0 <= j < |xs| && (forall k :: 0 <= k <= j ==> xs[k].Stdin?) ==> |xs[j].data| <= 1024
  }

  lemma {:induction false} SafeInputExactly(xs: seq<Input>)
    ensures SafeInput(xs) <==> Harmless(xs)
  {
    if xs != [] && xs[0].Stdin? {
      var rest := xs[1..];
      SafeInputExactly(rest);
      if SafeInput(xs) {
        assert |xs[0].data| <= 1024;
        forall j | 0 <= j < |rest| && (forall k :: 0 <= k <= j ==> rest[k].Stdin?) ensures |rest[j].data| <= 1024 {
          assert forall k :: 0 <= k <= j + 1 ==> k == 0 || xs[k] == rest[k - 1];
          assert rest[j] == xs[j + 1];
        }
      }
      if Harmless(xs) {
        forall j | 0 <= j < |xs| && (forall k :: 0 <= k <= j ==> xs[k].Stdin?) ensures |xs[j].data| <= 1024 {
          if j > 0 {
            assert forall k :: 0 <= k <= j - 1 ==> rest[k] == xs[k + 1];
            assert rest[j - 1] == xs[j];
          }
        }
      }
    }
  }

  lemma SafeExactly(calls: seq<Call>)
    ensures SafeCalls(calls) <==> CommandsFit(calls) && InputFits(calls)
  {
    forall i | 0 <= i < |calls| && calls[i].RunInteractive?
      ensures SafeInput(calls[i].input) <==> Harmless(calls[i].input)
    {
      SafeInputExactly(calls[i].input);
    }
    forall i | 0 <= i < |calls| ensures NoneAccepted(calls[i + 1..]) <==> NoCallBehind(calls, i) {
      NoneAcceptedExactly(calls, i);
    }
  }

  /**
   Which sessions stay in step, whatever their calls and what these send to their processes:
   in every run no call sees a response it does not expect, exactly when no command has 2047
   or 2048 bytes, and of every process that is sent anything, the pieces of stdin in front of
   the first termination have at most 1024 bytes, and no call follows.
   */
  lemma StaysInStepExactly(s: State)
    requires Start(s)
    ensures (forall r :: CanReach(s, r) ==> r.host.pc != OutOfSync)
            <==> SafeCalls(s.host.calls)
  {
    SafeExactly(s.host.calls);
    var x := Rest(s.host.calls, [], NO_OUTPUT, []);
    assert s == Between(x);
    if !CommandsFit(x.calls) {
      var r := SomeRunLosesSync(x);
    } else if !InputFits(x.calls) {
      var r := SomeProcessLosesSync(x);
    } else {
      forall r | CanReach(s, r) ensures r.host.pc != OutOfSync {
        var events :| Reaches(s, events, r);
        FittingInputInSync(s, events, r);
      }
    }
  }
}
