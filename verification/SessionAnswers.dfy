/**
 What every call of a session receives (drakrun/lib/drakshell.py:248-345): each one completes
 with the response that is meant for it, in the order of the calls.
 */
module SessionAnswers {
  import opened Common
  import opened Framing
  import opened Session
  import opened SessionSync
  import opened OutputDelivery
  import opened SessionInput

  /** A call, and the response that completed it. */
  datatype Exchange = Exchange(call: Call, answer: Option<Response>)

  /** What one event adds to the exchanges so far. */
  function Noted(h: seq<Exchange>, s: State, e: Event): seq<Exchange>
    requires Enabled(s, e)
  {
    match e
    case HostStarts => h + [Exchange(s.host.calls[0], None)]
    case HostActs =>
      if h != [] && Apply(s, e).host.pc == Idle then
        h[|h| - 1 := h[|h| - 1].(answer := Decode(s.host.received))]
      else h
    case _ => h
  }

  /** The exchanges of a run, behind earlier ones. */
  ghost function Exchanges(s: State, events: seq<Event>, r: State, h: seq<Exchange>): seq<Exchange>
    requires Reaches(s, events, r)
    decreases |events|
  {
    if events == [] then h else Exchanges(Apply(s, events[0]), events[1..], r, Noted(h, s, events[0]))
  }

  /** connect receives a pong, get_info the ids, and an execution its start, its exit, or why it did not start. */
  predicate HasAnswer(x: Exchange) {
    match x.call
    case Connect => x.answer == Some(Plain(0xA0))
    case GetInfo => x.answer.Some? && x.answer.value.Info?
    case Run(command) =>
      if |command| > 2048 then x.answer.None?
      else x.answer.Some? && (x.answer.value == Plain(0xA8) || (x.answer.value.Status? && x.answer.value.code == 0xB2))
    case RunInteractive(command, _) =>
      if |command| > 2048 then x.answer.None?
      else x.answer.Some? && x.answer.value.Status? && (x.answer.value.code == 0xA9 || x.answer.value.code == 0xB2)
  }

  /** What the host waits for belongs to the call. */
  predicate WaitsFor(pc: HostPc, call: Call) {
    match pc
    case AwaitPong => call.Connect?
    case AwaitInfo => call.GetInfo?
    case AwaitStart(mode, command) => Executes(call, mode) && call.command == command && |command| <= 2048
    case AwaitProcess(mode) => Executes(call, mode) && |call.command| <= 2048
    case Interact => call.RunInteractive? && |call.command| <= 2048
    case Idle => false
    case OutOfSync => true
  }

  predicate Executes(call: Call, mode: byte) {
    (call.Run? && mode == 0xA3) || (call.RunInteractive? && mode == 0xA2)
  }

  function CallsOf(h: seq<Exchange>): seq<Call> {
    seq(|h|, i requires 0 <= i < |h| => h[i].call)
  }

  /** Every call is answered, but for the last one while it is under way. */
  ghost predicate NotedSo(all: seq<Call>, s: State, h: seq<Exchange>) {
    && CallsOf(h) + s.host.calls == all
    && (forall i :: 0 <= i < |h| - 1 ==> HasAnswer(h[i]))
    && (if h == [] then s.host.pc == Idle
        else if s.host.pc == Idle then HasAnswer(h[|h| - 1])
        else h[|h| - 1].answer.None? && WaitsFor(s.host.pc, h[|h| - 1].call))
  }

  lemma StartNoted(all: seq<Call>, s: State, h: seq<Exchange>)
    requires NotedSo(all, s, h) && Enabled(s, HostStarts)
    ensures NotedSo(all, Apply(s, HostStarts), Noted(h, s, HostStarts))
  {
    var call := s.host.calls[0];
    assert CallsOf(h + [Exchange(call, None)]) == CallsOf(h) + [call];
    assert [call] + s.host.calls[1..] == s.host.calls;
  }

  lemma ActNoted(all: seq<Call>, s: State, h: seq<Exchange>)
    requires NotedSo(all, s, h) && Enabled(s, HostActs)
    ensures NotedSo(all, Apply(s, HostActs), Noted(h, s, HostActs))
  {
    var next := Noted(h, s, HostActs);
    assert CallsOf(next) == CallsOf(h);
  }

  lemma StepNoted(all: seq<Call>, s: State, e: Event, h: seq<Exchange>)
    requires NotedSo(all, s, h) && Enabled(s, e)
    ensures NotedSo(all, Apply(s, e), Noted(h, s, e))
  {
    match e
    case HostStarts => StartNoted(all, s, h);
    case HostActs => ActNoted(all, s, h);
    case _ =>
  }

  lemma {:induction false} RunNoted(all: seq<Call>, s: State, events: seq<Event>, r: State, h: seq<Exchange>)
    requires NotedSo(all, s, h) && Reaches(s, events, r)
    ensures NotedSo(all, r, Exchanges(s, events, r, h))
    decreases |events|
  {
    if events != [] {
      StepNoted(all, s, events[0], h);
      RunNoted(all, Apply(s, events[0]), events[1..], r, Noted(h, s, events[0]));
    }
  }

  /**
   In every run of every session the calls take place in their order, and each one that is
   over has received the response that is meant for it, whatever the guest does.
   */
  lemma CallsAreAnswered(s: State, events: seq<Event>, r: State)
    requires Start(s) && Reaches(s, events, r)
    ensures var h := Exchanges(s, events, r, []);
            && CallsOf(h) + r.host.calls == s.host.calls
            && (forall i :: 0 <= i < |h| - 1 ==> HasAnswer(h[i]))
            && (r.host.pc == Idle && h != [] ==> HasAnswer(h[|h| - 1]))
  {
    NothingNoted(s);
    RunNoted(s.host.calls, s, events, r, []);
  }

  lemma NothingNoted(s: State)
    requires Start(s)
    ensures NotedSo(s.host.calls, s, [])
  {
    assert CallsOf([]) + s.host.calls == s.host.calls;
  }

  // ---------- What the answers say ----------

  ghost predicate Backed(seen: seq<Event>, x: Response) {
    exists i :: 0 <= i < |seen| && Tells(seen[i], x)
  }

  ghost predicate AllBacked(seen: seq<Event>, rs: seq<Response>) {
    forall x :: x in rs ==> Backed(seen, x)
  }

  ghost predicate AnswersBacked(seen: seq<Event>, h: seq<Exchange>) {
    forall i :: 0 <= i < |h| && h[i].answer.Some? ==> Backed(seen, h[i].answer.value)
  }

  /** The session is in order, and the guest has told what is under way for a reason. */
  ghost predicate Truthful(s: State, seen: seq<Event>) {
    || (exists rs :: Calling(s, rs) && AllBacked(seen, rs))
    || (exists k, rs, late, xs :: Feeding(s, k, rs, late, xs) && AllBacked(seen, rs))
    || Over(s)
  }

  lemma BackedLater(seen: seq<Event>, e: Event, x: Response)
    requires Backed(seen, x) || Tells(e, x)
    ensures Backed(seen + [e], x)
  {
    if Tells(e, x) {
      assert (seen + [e])[|seen|] == e;
    } else {
      var i :| 0 <= i < |seen| && Tells(seen[i], x);
      assert (seen + [e])[i] == seen[i];
    }
  }

  lemma AllBackedLater(seen: seq<Event>, e: Event, rs: seq<Response>, next: seq<Response>)
    requires AllBacked(seen, rs) && forall x :: x in next ==> x in rs || Tells(e, x)
    ensures AllBacked(seen + [e], next)
  {
    forall x | x in next ensures Backed(seen + [e], x) {
      BackedLater(seen, e, x);
    }
  }

  lemma TruthfulStep(s: State, e: Event, seen: seq<Event>)
    requires Truthful(s, seen) && Enabled(s, e)
    ensures Truthful(Apply(s, e), seen + [e])
  {
    if rs :| Calling(s, rs) && AllBacked(seen, rs) {
      var next := CallingStep(s, e, rs);
      AllBackedLater(seen, e, rs, next);
    } else if k, rs, late, xs :| Feeding(s, k, rs, late, xs) && AllBacked(seen, rs) {
      var rs', late', xs' := FeedingStep(s, e, k, rs, late, xs);
      AllBackedLater(seen, e, rs, rs');
    } else {
      OverStays(s, e);
    }
  }

  /** What the host reads was told for a reason. */
  lemma ReadTrue(s: State, seen: seq<Event>)
    requires Truthful(s, seen) && Enabled(s, HostActs)
    ensures Decode(s.host.received).Some? && Backed(seen, Decode(s.host.received).value)
  {
    if rs :| Calling(s, rs) && AllBacked(seen, rs) {
      FirstResponse(s, rs);
      assert rs[0] in rs;
    } else if k, rs, late, xs :| Feeding(s, k, rs, late, xs) && AllBacked(seen, rs) {
      HostActDelivers(s, k, rs, late);
      assert rs[0] in rs;
    }
  }

  lemma NotedTrue(s: State, e: Event, seen: seq<Event>, h: seq<Exchange>)
    requires Truthful(s, seen) && AnswersBacked(seen, h) && Enabled(s, e)
    ensures AnswersBacked(seen + [e], Noted(h, s, e))
  {
    var next := Noted(h, s, e);
    if e.HostActs? { ReadTrue(s, seen); }
    forall i | 0 <= i < |next| && next[i].answer.Some? ensures Backed(seen + [e], next[i].answer.value) {
      BackedLater(seen, e, next[i].answer.value);
    }
  }

  lemma {:induction false} RunTrue(s: State, events: seq<Event>, r: State, seen: seq<Event>, h: seq<Exchange>)
    requires Truthful(s, seen) && AnswersBacked(seen, h) && Reaches(s, events, r)
    ensures AnswersBacked(seen + events, Exchanges(s, events, r, h))
    decreases |events|
  {
    if events == [] {
      assert seen + events == seen;
    } else {
      var e := events[0];
      TruthfulStep(s, e, seen);
      NotedTrue(s, e, seen, h);
      RunTrue(Apply(s, e), events[1..], r, seen + [e], Noted(h, s, e));
      assert seen + [e] + events[1..] == seen + events;
    }
  }

  /**
   In a session whose commands and input fit, what a call receives is true: the ids are those
   the guest had when it was asked, the error is the one with which the process did not start,
   and the code is the one with which it ended.
   */
  lemma AnswersAreTrue(s: State, events: seq<Event>, r: State)
    requires Start(s) && CommandsFit(s.host.calls) && InputFits(s.host.calls) && Reaches(s, events, r)
    ensures var h := Exchanges(s, events, r, []);
            forall i :: 0 <= i < |h| && h[i].answer.Some? ==> Backed(events, h[i].answer.value)
  {
    QuietInStep(s);
    assert Calling(s, []);
    assert AllBacked([], []);
    RunTrue(s, events, r, [], []);
    assert [] + events == events;
  }
}
