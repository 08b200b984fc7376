/**
 What a process is given on its stdin (drakrun/lib/drakshell.py:173-216,
 drakrun/tools/drakshell/drakshell.c:500-560): what was sent to it, in order and without a gap.
 */
module StdinDelivery {
  import opened Common
  import opened Framing
  import opened Session
  import opened SessionSync
  import opened OutputDelivery
  import opened SessionInput

  /** The stdin that is sent in front of the first request to terminate. */
  function StdinOf(xs: seq<Input>): Bytes {
    if xs == [] || xs[0].Terminate? then [] else xs[0].data + StdinOf(xs[1..])
  }

  /** What an event writes to the stdin of process k. */
  function Writes(k: nat, s: State, e: Event): Bytes {
    if e.GuestActs? && s.guest.pc.StdinData? && Serving(s.guest, k) && e.world.written then s.guest.received else []
  }

  /** What the events of a run write to the stdin of process k. */
  ghost function Written(k: nat, s: State, events: seq<Event>, r: State): Bytes
    requires Reaches(s, events, r)
    decreases |events|
  {
    if events == [] then [] else Writes(k, s, events[0]) + Written(k, Apply(s, events[0]), events[1..], r)
  }

  /** Of all, what is not done is still to be read by the guest, as long as it serves process k. */
  ghost predicate Passing(k: nat, s: State, all: Bytes, done: Bytes) {
    && k < |s.guest.runs| && done <= all
    && (Serving(s.guest, k) ==>
          exists rs, late, xs :: Feeding(s, k, rs, late, xs) && done + StdinOf(xs) == all)
  }

  /** The guest writes exactly the next piece. */
  lemma PieceRead(s: State, w: World, k: nat, xs: seq<Input>)
    requires Serving(s.guest, k) && s.guest.pc.StdinData? && Enabled(s, GuestActs(w))
    requires Aligned(s.guest.pc, Ahead(s), xs)
    ensures xs != [] && xs[0] == Stdin(s.guest.received)
  {
    AheadOfGuest(s, w, k);
    FrontOf(s.guest.received, Unread(s), xs[0].data, Stream(xs[1..]));
  }

  /** The guest leaves process k when its stdin cannot be written to. */
  lemma LeftUnwritten(s: State, w: World, k: nat)
    requires Serving(s.guest, k) && s.guest.pc.StdinData? && Enabled(s, GuestActs(w))
    ensures Serving(Apply(s, GuestActs(w)).guest, k) <==> w.written
    ensures k < |Apply(s, GuestActs(w)).guest.runs|
  {
  }

  lemma PiecePasses(k: nat, s: State, w: World, rs: seq<Response>, late: Bytes, xs: seq<Input>, all: Bytes, done: Bytes)
    requires Feeding(s, k, rs, late, xs) && done + StdinOf(xs) == all
    requires Serving(s.guest, k) && s.guest.pc.StdinData? && Enabled(s, GuestActs(w))
    ensures Passing(k, Apply(s, GuestActs(w)), all, done + Writes(k, s, GuestActs(w)))
  {
    var rs', late', xs' := FeedingStep(s, GuestActs(w), k, rs, late, xs);
    PieceRead(s, w, k, xs);
    LeftUnwritten(s, w, k);
    assert done + (xs[0].data + StdinOf(xs[1..])) == done + xs[0].data + StdinOf(xs[1..]);
    assert done + [] == done;
  }

  /** Nothing but a piece changes what is done, and only while the host interacts. */
  lemma OtherPasses(k: nat, s: State, e: Event, rs: seq<Response>, late: Bytes, xs: seq<Input>, all: Bytes, done: Bytes)
    requires Feeding(s, k, rs, late, xs) && done + StdinOf(xs) == all
    requires Serving(s.guest, k) && Enabled(s, e) && !(e.GuestActs? && s.guest.pc.StdinData?)
    ensures Passing(k, Apply(s, e), all, done)
  {
    var rs', late', xs' := FeedingStep(s, e, k, rs, late, xs);
    if e.HostActs? { HostActDelivers(s, k, rs, late); }
  }

  lemma NoneServed(k: nat, s: State, e: Event)
    requires k < |s.guest.runs| && Enabled(s, e) && !Serving(s.guest, k)
    ensures k < |Apply(s, e).guest.runs| && !Serving(Apply(s, e).guest, k)
  {
    if e.GuestActs? { NoMoreRuns(s, e.world, k); }
  }

  lemma PassingStep(k: nat, s: State, e: Event, all: Bytes, done: Bytes)
    requires Passing(k, s, all, done) && Enabled(s, e)
    ensures Passing(k, Apply(s, e), all, done + Writes(k, s, e))
  {
    if !Serving(s.guest, k) {
      NoneServed(k, s, e);
      assert done + [] == done;
    } else {
      var rs, late, xs :| Feeding(s, k, rs, late, xs) && done + StdinOf(xs) == all;
      if e.GuestActs? && s.guest.pc.StdinData? {
        PiecePasses(k, s, e.world, rs, late, xs, all, done);
      } else {
        OtherPasses(k, s, e, rs, late, xs, all, done);
        assert done + [] == done;
      }
    }
  }

  lemma {:induction false} RunPasses(k: nat, s: State, events: seq<Event>, r: State, all: Bytes, done: Bytes)
    requires Passing(k, s, all, done) && Reaches(s, events, r)
    ensures Passing(k, r, all, done + Written(k, s, events, r))
    decreases |events|
  {
    if events == [] {
      assert done + [] == done;
    } else {
      var next := Apply(s, events[0]);
      PassingStep(k, s, events[0], all, done);
      RunPasses(k, next, events[1..], r, all, done + Writes(k, s, events[0]));
      PushOut(done, Writes(k, s, events[0]), Written(k, next, events[1..], r));
    }
  }

  // ---------- Until something is sent ----------

  /** Nothing was sent to a process yet. */
  ghost predicate Untouched(s: State, rs: seq<Response>) {
    InStep(s, rs, GUEST_COMMAND_LIMIT) && StillFits(s)
  }

  ghost predicate StillFits(s: State) {
    && InputFits(s.host.calls)
    && (InInteractiveCall(s.host.pc) && s.input != [] ==> Harmless(s.input) && NoneAccepted(s.host.calls))
  }

  lemma StillFitsStep(s: State, e: Event)
    requires StillFits(s) && Enabled(s, e) && !e.HostFeeds?
    ensures StillFits(Apply(s, e))
  {
    if e.HostStarts? { InputFitsLater(s.host.calls); }
  }

  lemma UntouchedStep(s: State, e: Event, rs: seq<Response>) returns (next: seq<Response>)
    requires Untouched(s, rs) && Enabled(s, e) && !e.HostFeeds?
    ensures Untouched(Apply(s, e), next)
  {
    next := StepKeeps(s, e, rs, GUEST_COMMAND_LIMIT);
    StillFitsStep(s, e);
  }

  lemma {:induction false} UntouchedRun(s: State, events: seq<Event>, r: State, rs: seq<Response>)
    returns (last: seq<Response>)
    requires Untouched(s, rs) && Reaches(s, events, r) && Unfed(events)
    ensures Untouched(r, last)
    decreases |events|
  {
    last := rs;
    if events != [] {
      var next := UntouchedStep(s, events[0], rs);
      assert forall e :: e in events[1..] ==> e in events;
      last := UntouchedRun(Apply(s, events[0]), events[1..], r, next);
    }
  }

  lemma PassingBegins(s: State, before: seq<Event>, m: State)
    requires Start(s) && CommandsFit(s.host.calls) && InputFits(s.host.calls)
    requires Reaches(s, before, m) && Unfed(before) && m.host.pc == Interact && m.input != []
    ensures m.guest.runs != [] && Passing(|m.guest.runs| - 1, m, StdinOf(m.input), [])
  {
    QuietInStep(s);
    var rs := UntouchedRun(s, before, m, []);
    InputBegins(m, rs);
    assert [] + StdinOf(m.input) == StdinOf(m.input);
  }

  lemma NothingAhead(s: State, xs: seq<Input>)
    requires Aligned(Loop, Ahead(s), xs) && s.guest.received == [] && s.toGuest == [] && s.host.pending == []
    requires s.input == []
    ensures xs == []
  {
    assert Ahead(s) == [];
  }

  /**
   In a session whose commands and input fit, from the moment the host begins to interact
   with a process that it sends something (m): what the guest writes to the stdin of the
   process is a beginning of what is sent in front of the first termination, and once all of
   it was sent and read, while the process is still served, it is all of it.
   */
  lemma StdinIsWritten(s: State, before: seq<Event>, m: State, after: seq<Event>, r: State)
    requires Start(s) && CommandsFit(s.host.calls) && InputFits(s.host.calls)
    requires Reaches(s, before, m) && Unfed(before) && m.host.pc == Interact && m.input != []
    requires Reaches(m, after, r)
    ensures m.guest.runs != []
    ensures Written(|m.guest.runs| - 1, m, after, r) <= StdinOf(m.input)
    ensures Serving(r.guest, |m.guest.runs| - 1) && r.guest.pc == Loop && r.guest.received == []
            && r.toGuest == [] && r.host.pending == [] && r.input == [] ==>
              Written(|m.guest.runs| - 1, m, after, r) == StdinOf(m.input)
  {
    PassingBegins(s, before, m);
    var k, all := |m.guest.runs| - 1, StdinOf(m.input);
    RunPasses(k, m, after, r, all, []);
    var written := Written(k, m, after, r);
    assert [] + written == written;
    if Serving(r.guest, k) && r.guest.pc == Loop && r.guest.received == []
       && r.toGuest == [] && r.host.pending == [] && r.input == [] {
      var rs, late, xs :| Feeding(r, k, rs, late, xs) && written + StdinOf(xs) == all;
      NothingAhead(r, xs);
      assert written + [] == written;
    }
  }
}
