/**
 What the host hands on of a process's output (drakrun/lib/drakshell.py,
 drakrun/tools/drakshell/drakshell.c), in an interactive run with any stdin and any
 request for termination, sent at any time.
 */
module OutputDelivery {
  import opened Common
  import opened Framing
  import opened Session
  import opened SessionSync

  /** The guest still serves process number k. */
  predicate Serving(g: Guest, k: nat) {
    |g.runs| == k + 1 && (g.pc.Loop? || g.pc.StdinLength? || g.pc.StdinData?)
  }

  /** Responses about a process that is over: its output and how it ended. */
  ghost predicate Finished(rs: seq<Response>) {
    rs != [] && Blocks(rs[..|rs| - 1]) && rs[|rs| - 1].Status?
    && (rs[|rs| - 1].code == RESP_PROCESS_EXIT || rs[|rs| - 1].code == RESP_FATAL_ERROR)
  }

  /**
   Under way to the host: the rest rs of the responses about process k, and behind the last
   of them whatever the guest made of bytes that came too late.
   */
  ghost predicate Carries(s: State, k: nat, rs: seq<Response>, late: Bytes) {
    && AllSendable(rs) && s.host.received + s.toHost + s.guest.pending == EncodeAll(rs) + late
    && |s.host.received| <= (if rs == [] then 0 else |Encode(rs[0])|)
    && (if Serving(s.guest, k) then Blocks(rs) && late == [] else Finished(rs))
  }

  ghost predicate Delivering(s: State, k: nat, rs: seq<Response>, late: Bytes) {
    && k < |s.guest.runs|
    && (s.host.pc == Interact ==> Carries(s, k, rs, late) && OutputOf(rs, s.host.delivered) == s.guest.runs[k])
    && (s.host.pc != Interact ==>
          (s.host.pc == Idle || s.host.pc == OutOfSync)
          && !Serving(s.guest, k) && s.host.delivered == s.guest.runs[k])
  }

  /** None of the responses reports a fatal error. */
  ghost predicate NoneFatal(rs: seq<Response>) {
    forall r :: r in rs ==> !(r.Status? && r.code == RESP_FATAL_ERROR)
  }

  lemma FirstCarried(s: State, k: nat, rs: seq<Response>, late: Bytes)
    requires Carries(s, k, rs, late) && rs != []
    ensures Sendable(rs[0]) && s.host.received == Encode(rs[0])[..|s.host.received|]
    ensures s.toHost + s.guest.pending == Encode(rs[0])[|s.host.received|..] + (EncodeAll(rs[1..]) + late)
  {
    assert rs[0] in rs;
    assert EncodeAll(rs) == Encode(rs[0]) + EncodeAll(rs[1..]);
    FrontOfThree(s.host.received, s.toHost, s.guest.pending, Encode(rs[0]), EncodeAll(rs[1..]), late);
  }

  lemma FrontOfThree(a: Bytes, b: Bytes, c: Bytes, frame: Bytes, rest: Bytes, late: Bytes)
    requires a + b + c == frame + rest + late && |a| <= |frame|
    ensures a == frame[..|a|] && b + c == frame[|a|..] + (rest + late)
  {
    assert a + (b + c) == a + b + c && frame + (rest + late) == frame + rest + late;
    FrontOf(a, b + c, frame, rest + late);
  }

  lemma MovingDelivers(s: State, e: Event, k: nat, rs: seq<Response>, late: Bytes)
    requires Delivering(s, k, rs, late) && Enabled(s, e) && (Moves(e) || e.HostFeeds?)
    ensures Delivering(Apply(s, e), k, rs, late)
  {
    if s.host.pc == Interact {
      match e
      case HostReads(n) =>
        ShiftOut(s.host.received, s.toHost, s.guest.pending, n);
        assert rs != [];
        FirstCarried(s, k, rs, late);
        FrameExact(rs[0], |s.host.received|);
      case GuestWrites(n) => ShiftIn(s.host.received, s.toHost, s.guest.pending, n);
      case _ =>
    }
  }

  lemma HostActDelivers(s: State, k: nat, rs: seq<Response>, late: Bytes)
    requires Delivering(s, k, rs, late) && Enabled(s, HostActs)
    ensures rs != [] && Delivering(Apply(s, HostActs), k, rs[1..], late)
    ensures Decode(s.host.received) == Some(rs[0])
    ensures !rs[0].Block? ==> rs[0].Status? && (rs[0].code == RESP_PROCESS_EXIT || rs[0].code == RESP_FATAL_ERROR)
  {
    FirstCarried(s, k, rs, late);
    FrameExact(rs[0], |s.host.received|);
    assert Encode(rs[0])[..|Encode(rs[0])|] == Encode(rs[0]);
    if rs[0].Block? {
      var r := Apply(s, HostActs);
      Regroup([], s.toHost, s.guest.pending);
      assert Encode(rs[0])[|s.host.received|..] == [];
      assert [] + (EncodeAll(rs[1..]) + late) == EncodeAll(rs[1..]) + late;
      RestFinished(rs);
    } else {
      EndsWithStatus(s, k, rs, late);
    }
  }

  lemma RestFinished(rs: seq<Response>)
    requires rs != [] && rs[0].Block?
    ensures Finished(rs) ==> Finished(rs[1..])
    ensures Blocks(rs) ==> Blocks(rs[1..])
  {
    if Finished(rs) {
      assert rs[1..][..|rs| - 2] == rs[..|rs| - 1][1..];
    }
  }

  lemma BlocksBeforeStatus(rs: seq<Response>)
    requires Finished(rs)
    ensures |rs| > 1 ==> rs[0].Block?
  {
    if |rs| > 1 {
      assert rs[..|rs| - 1][0] == rs[0];
    }
  }

  /** A status is the last response about the process: with it everything was handed on. */
  lemma EndsWithStatus(s: State, k: nat, rs: seq<Response>, late: Bytes)
    requires s.host.pc == Interact && Carries(s, k, rs, late) && rs != [] && !rs[0].Block?
    ensures !Serving(s.guest, k) && |rs| == 1 && rs[0].Status?
    ensures OutputOf(rs, s.host.delivered) == s.host.delivered
    ensures rs[0].code == RESP_PROCESS_EXIT || rs[0].code == RESP_FATAL_ERROR
  {
    if Finished(rs) { BlocksBeforeStatus(rs); }
    assert |rs| == 1 ==> rs[1..] == [];
  }

  /** The guest puts one more response about process k under way. */
  lemma Says(s: State, r: State, k: nat, rs: seq<Response>, more: Response)
    requires s.host.pc == Interact && Carries(s, k, rs, []) && Serving(s.guest, k) && s.guest.pending == []
    requires Sendable(more) && r.guest.pending == Encode(more) && r.host == s.host && r.toHost == s.toHost
    requires if Serving(r.guest, k) then more.Block?
             else more.Status? && more.code in {RESP_PROCESS_EXIT, RESP_FATAL_ERROR}
    ensures Carries(r, k, rs + [more], [])
  {
    Single(more);
    EncodeAllAppend(rs, [more]);
    var read := s.host.received + s.toHost;
    assert read + [] == read && EncodeAll(rs) + [] == EncodeAll(rs);
    assert read + Encode(more) == EncodeAll(rs + [more]) + [];
    assert (rs + [more])[..|rs|] == rs;
    if rs != [] { assert (rs + [more])[0] == rs[0]; }
  }

  /** Nothing the guest does later touches what is under way about process k. */
  lemma Later(s: State, r: State, k: nat, rs: seq<Response>, late: Bytes)
    requires Carries(s, k, rs, late) && !Serving(s.guest, k) && !Serving(r.guest, k) && s.guest.pending == []
    requires r.host == s.host && r.toHost == s.toHost
    ensures Carries(r, k, rs, late + r.guest.pending)
  {
    Behind(s.host.received + s.toHost, EncodeAll(rs), late, r.guest.pending);
  }

  lemma Behind(read: Bytes, about: Bytes, late: Bytes, more: Bytes)
    requires read + [] == about + late
    ensures read + more == about + (late + more)
  {
    assert read + [] == read;
  }

  /** A block of stdin that is too long, or that cannot be written, ends the loop with a status. */
  lemma StdinEnds(g: Guest, k: nat, w: World) returns (more: Response)
    requires Serving(g, k) && g.pc != Loop && |g.received| == Wants(g.pc) && IsWorld(w) && !Serving(GuestAct(g, w), k)
    ensures more.Status? && more.code in {RESP_PROCESS_EXIT, RESP_FATAL_ERROR}
    ensures more.code == RESP_FATAL_ERROR ==> GuestAct(g, w).pc == Dead
    ensures Sendable(more) && GuestAct(g, w).pending == Encode(more) && GuestAct(g, w).runs == g.runs
    ensures Tells(GuestActs(w), more)
  {
    more := if GuestAct(g, w).pc.Dead? then Status(RESP_FATAL_ERROR, w.error)
            else Status(RESP_PROCESS_EXIT, w.exitCode);
  }

  lemma GuestActDelivers(s: State, k: nat, rs: seq<Response>, late: Bytes, w: World)
    returns (rs': seq<Response>, late': Bytes)
    requires Delivering(s, k, rs, late) && Enabled(s, GuestActs(w))
    ensures Delivering(Apply(s, GuestActs(w)), k, rs', late')
    ensures NoneFatal(rs) && (Serving(s.guest, k) ==> GuestAct(s.guest, w).pc != Dead) ==> NoneFatal(rs')
    ensures forall x :: x in rs' ==> x in rs || Tells(GuestActs(w), x)
  {
    rs', late' := rs, late;
    var r := Apply(s, GuestActs(w));
    if s.host.pc == Interact {
      if !Serving(s.guest, k) {
        Later(s, r, k, rs, late);
        late' := late + r.guest.pending;
      } else if !Serving(r.guest, k) {
        var more := StdinEnds(s.guest, k, w);
        Says(s, r, k, rs, more);
        OutputOfAppend(rs, more, s.host.delivered);
        rs' := rs + [more];
      }
    }
  }

  lemma SignalDelivers(s: State, k: nat, rs: seq<Response>, late: Bytes, signal: Signal, code: int)
    returns (rs': seq<Response>, late': Bytes)
    requires Delivering(s, k, rs, late) && Enabled(s, GuestSignalled(signal, code))
    ensures Delivering(Apply(s, GuestSignalled(signal, code)), k, rs', late')
    ensures NoneFatal(rs) ==> NoneFatal(rs')
    ensures forall x :: x in rs' ==> x in rs || Tells(GuestSignalled(signal, code), x)
  {
    rs', late' := rs, late;
    var r := Apply(s, GuestSignalled(signal, code));
    if s.host.pc == Interact {
      if !Serving(s.guest, k) {
        Later(s, r, k, rs, late);
        late' := late + r.guest.pending;
      } else if r.guest.pc != StdinLength {
        var more := if signal == StdinControl then Status(RESP_PROCESS_EXIT, code) else ReplyToSignal(signal)[0];
        Says(s, r, k, rs, more);
        OutputOfAppend(rs, more, s.host.delivered);
        NothingAdded(s.guest.runs[k]);
        rs' := rs + [more];
      }
    }
  }

  lemma {:induction false} RunDelivers(s: State, events: seq<Event>, r: State, k: nat, rs: seq<Response>, late: Bytes)
    returns (rs': seq<Response>, late': Bytes)
    requires Delivering(s, k, rs, late) && Reaches(s, events, r) && NoCallIn(events)
    ensures Delivering(r, k, rs', late')
    decreases |events|
  {
    rs', late' := rs, late;
    if events != [] {
      var e := events[0];
      if e.HostActs? {
        HostActDelivers(s, k, rs, late);
        rs' := rs[1..];
      } else if e.GuestActs? {
        rs', late' := GuestActDelivers(s, k, rs, late, e.world);
      } else if e.GuestSignalled? {
        rs', late' := SignalDelivers(s, k, rs, late, e.signal, e.exitCode);
      } else {
        MovingDelivers(s, e, k, rs, late);
      }
      assert forall x :: x in events[1..] ==> x in events;
      rs', late' := RunDelivers(Apply(s, events[0]), events[1..], r, k, rs', late');
    }
  }

  predicate NoCallIn(events: seq<Event>) {
    forall e :: e in events ==> !e.HostStarts?
  }

  /** Between two calls, with nothing under way: at the start of a session, and whenever a call has left it so. */
  predicate Quiet(s: State) {
    && s.host.pc == Idle && s.host.received == [] && s.host.pending == []
    && s.guest.pc == Top && s.guest.received == [] && s.guest.pending == []
    && s.toGuest == [] && s.toHost == [] && s.host.delivered == LastRun(s.guest.runs)
  }

  lemma QuietInStep(s: State)
    requires Quiet(s)
    ensures InStep(s, [], HOST_COMMAND_LIMIT)
  {
    assert Coming(s) == [] && Going(s) == [];
  }

  /** When the host begins to interact, output and even the exit can be under way already. */
  lemma InteractionBegins(s: State, rs: seq<Response>, limit: nat)
    requires InStep(s, rs, limit) && s.host.pc == Interact
    ensures s.guest.runs != [] && Delivering(s, |s.guest.runs| - 1, rs, [])
  {
    assert EncodeAll(rs) + [] == EncodeAll(rs);
    assert NothingRun(s.host.pc, s.guest.pc, rs) ==> s.host.pc != Interact;
  }

  lemma RunToInteraction(s: State, before: seq<Event>, m: State) returns (underway: seq<Response>)
    requires Quiet(s) && Reaches(s, before, m) && Unfed(before) && m.host.pc == Interact
    ensures m.guest.runs != [] && Delivering(m, |m.guest.runs| - 1, underway, [])
  {
    QuietInStep(s);
    underway := RunKeeps(s, before, m, [], HOST_COMMAND_LIMIT);
    InteractionBegins(m, underway, HOST_COMMAND_LIMIT);
  }

  lemma HandedOn(s: State, k: nat, rs: seq<Response>, late: Bytes)
    requires Delivering(s, k, rs, late)
    ensures s.host.delivered.out <= s.guest.runs[k].out && s.host.delivered.err <= s.guest.runs[k].err
    ensures s.host.pc != Interact ==> s.host.delivered == s.guest.runs[k]
  {
    OutputGrows(rs, s.host.delivered);
  }

  /**
   In a session of any calls: from the moment the host begins to interact with a process (m)
   up to the next call, with any stdin and termination and in any interleaving, what the host
   has handed on of stdout is a beginning of what was read from the process's stdout, and
   the same for stderr; when the host has seen how the process ended, it is all of it.
   */
  lemma OutputDelivered(s: State, before: seq<Event>, m: State, after: seq<Event>, r: State)
    requires Quiet(s) && Reaches(s, before, m) && Unfed(before) && m.host.pc == Interact
    requires Reaches(m, after, r) && NoCallIn(after)
    ensures m.guest.runs != []
    ensures var k := |m.guest.runs| - 1;
            && k < |r.guest.runs|
            && r.host.delivered.out <= r.guest.runs[k].out && r.host.delivered.err <= r.guest.runs[k].err
            && (r.host.pc != Interact ==> r.host.delivered == r.guest.runs[k])
  {
    var underway := RunToInteraction(s, before, m);
    var rs, late := RunDelivers(m, after, r, |m.guest.runs| - 1, underway, []);
    HandedOn(r, |m.guest.runs| - 1, rs, late);
  }

  lemma {:induction false} OutputGrows(rs: seq<Response>, start: Output)
    ensures start.out <= OutputOf(rs, start).out && start.err <= OutputOf(rs, start).err
  {
    if rs != [] { OutputGrows(rs[1..], Deliver(start, rs[0])); }
  }

  // ---------- What was read ----------

  /** What an event reads from the process's stdout. */
  function Stdouts(e: Event): Bytes {
    if e.GuestSignalled? && e.signal.Stdout? then e.signal.data else []
  }

  function Stderrs(e: Event): Bytes {
    if e.GuestSignalled? && e.signal.Stderr? then e.signal.data else []
  }

  /** What the events read, in the order in which they did. */
  function ReadIn(events: seq<Event>): Output {
    if events == [] then NO_OUTPUT
    else
      var earlier, e := ReadIn(events[..|events| - 1]), events[|events| - 1];
      Output(earlier.out + Stdouts(e), earlier.err + Stderrs(e))
  }

  predicate InLoop(pc: GuestPc) {
    pc.Loop? || pc.StdinLength? || pc.StdinData?
  }

  /** Behind the n processes of before there is at most one, and o is what was read from it. */
  ghost predicate OneRun(n: nat, g: Guest, o: Output) {
    && n <= |g.runs| && (InLoop(g.pc) ==> |g.runs| > n)
    && (|g.runs| == n ==> o == NO_OUTPUT)
    && (|g.runs| == n + 1 ==> g.runs[n] == o)
  }

  lemma ReadInSnoc(events: seq<Event>, e: Event)
    ensures ReadIn(events + [e]) == Output(ReadIn(events).out + Stdouts(e), ReadIn(events).err + Stderrs(e))
  {
    assert (events + [e])[..|events|] == events;
  }

  lemma OneRunActs(n: nat, g: Guest, w: World, o: Output)
    requires OneRun(n, g, o) && |g.received| == Wants(g.pc) && IsWorld(w)
    ensures OneRun(n, GuestAct(g, w), o)
  {
  }

  lemma OneRunSignalled(n: nat, g: Guest, signal: Signal, o: Output)
    requires OneRun(n, g, o) && g.pc == Loop && IsSignal(signal) && signal != StdinControl
    ensures match signal
            case Stdout(data) => OneRun(n, GuestSignal(g, signal), Output(o.out + data, o.err + []))
            case Stderr(data) => OneRun(n, GuestSignal(g, signal), Output(o.out + [], o.err + data))
            case _ => OneRun(n, GuestSignal(g, signal), o)
  {
  }

  lemma OneRunStep(n: nat, s: State, e: Event, o: Output)
    requires OneRun(n, s.guest, o) && Enabled(s, e)
    ensures OneRun(n, Apply(s, e).guest, Output(o.out + Stdouts(e), o.err + Stderrs(e)))
  {
    NothingAdded(o);
    match e
    case GuestActs(w) => OneRunActs(n, s.guest, w, o);
    case GuestSignalled(signal, code) =>
      if signal != StdinControl { OneRunSignalled(n, s.guest, signal, o); }
    case _ =>
  }

  lemma {:induction false} OneRunKept(n: nat, s: State, events: seq<Event>, r: State, seen: seq<Event>)
    requires OneRun(n, s.guest, ReadIn(seen)) && Reaches(s, events, r)
    ensures OneRun(n, r.guest, ReadIn(seen + events))
    decreases |events|
  {
    if events == [] {
      assert seen + events == seen;
    } else {
      ReadInSnoc(seen, events[0]);
      OneRunStep(n, s, events[0], ReadIn(seen));
      OneRunKept(n, Apply(s, events[0]), events[1..], r, seen + [events[0]]);
      assert seen + [events[0]] + events[1..] == seen + events;
    }
  }

  lemma RunIsRead(s: State, before: seq<Event>, m: State, after: seq<Event>, r: State)
    requires s.guest.pc == Top && Reaches(s, before, m) && Reaches(m, after, r)
    ensures |s.guest.runs| <= |m.guest.runs|
    ensures |s.guest.runs| <= |r.guest.runs|
    ensures |r.guest.runs| == |s.guest.runs| + 1 ==> r.guest.runs[|s.guest.runs|] == ReadIn(before + after)
  {
    OneRunKept(|s.guest.runs|, s, before, m, []);
    assert [] + before == before;
    OneRunKept(|s.guest.runs|, m, after, r, before);
  }

  /**
   The same, told by what happened: from any moment between two calls on, while there is one
   process to interact with, what is handed on of its stdout is a beginning of what the guest
   read from its stdout, in the order in which it did, and likewise of stderr; and all of it
   once the host has seen how the process ended.
   */
  lemma ReadIsHandedOn(s: State, before: seq<Event>, m: State, after: seq<Event>, r: State)
    requires Quiet(s) && Reaches(s, before, m) && Unfed(before) && m.host.pc == Interact
    requires Reaches(m, after, r) && NoCallIn(after)
    requires |m.guest.runs| == |r.guest.runs| == |s.guest.runs| + 1
    ensures r.host.delivered.out <= ReadIn(before + after).out && r.host.delivered.err <= ReadIn(before + after).err
    ensures r.host.pc != Interact ==> r.host.delivered == ReadIn(before + after)
  {
    OutputDelivered(s, before, m, after, r);
    RunIsRead(s, before, m, after, r);
  }
}
