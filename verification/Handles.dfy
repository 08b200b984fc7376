/**
 The pipe and process handles of one process_execute
 (drakrun/tools/drakshell/drakshell.c): none is used or closed after it was closed, and none
 is left open behind a message loop.
 */
module Handles {
  import opened Common
  import opened Framing

  const INVALID_HANDLE_VALUE: int := -1

  /**
   The handle table of the guest process. Handles are numbered as they are created;
   available says how many more can be created before a creation fails.
   */
  class Kernel {
    var open: set<int>
    var created: nat
    var available: nat

    ghost predicate Valid()
      reads this
    {
      forall h :: h in open ==> 0 <= h < created
    }

    constructor (available: nat)
      ensures Valid() && open == {} && this.available == available
    {
      open, created, this.available := {}, 0, available;
    }

    /** Creates a handle, or fails. */
    method CreateHandle() returns (h: int)
      requires Valid()
      modifies this
      ensures Valid()
      ensures h != INVALID_HANDLE_VALUE <==> old(available) > 0
      ensures available == if h == INVALID_HANDLE_VALUE then old(available) else old(available) - 1
      ensures h == INVALID_HANDLE_VALUE ==> open == old(open) && created == old(created)
      ensures h != INVALID_HANDLE_VALUE ==> h == old(created) && h >= 0 && created == h + 1 && open == old(open) + {h}
    {
      if available == 0 {
        return INVALID_HANDLE_VALUE;
      }
      available := available - 1;
      h := created;
      created := created + 1;
      open := open + {h};
    }

    /** Only an open handle may be closed, and a number is never given out again: no handle is closed twice. */
    method CloseHandle(h: int)
      requires Valid() && h in open
      modifies this
      ensures Valid() && open == old(open) - {h} && created == old(created) && available == old(available)
    {
      open := open - {h};
    }

    /** Any other call with a handle: it has to be open. The result is up to Windows. */
    method Use(h: int) returns (ok: bool)
      requires h in open
    {
      ok := *;
    }
  }

  class StdHandles {
    var stdinRead: int
    var stdinWrite: int
    var stdoutRead: int
    var stdoutWrite: int
    var stderrRead: int
    var stderrWrite: int

    constructor ()
      ensures AllInvalid()
    {
      stdinRead, stdinWrite := INVALID_HANDLE_VALUE, INVALID_HANDLE_VALUE;
      stdoutRead, stdoutWrite := INVALID_HANDLE_VALUE, INVALID_HANDLE_VALUE;
      stderrRead, stderrWrite := INVALID_HANDLE_VALUE, INVALID_HANDLE_VALUE;
    }

    ghost predicate AllInvalid()
      reads this
    {
      stdinRead == stdinWrite == stdoutRead == stdoutWrite == stderrRead == stderrWrite == INVALID_HANDLE_VALUE
    }

    /** The handles that are set. */
    ghost function Held(): set<int>
      reads this
    {
      {stdinRead, stdinWrite, stdoutRead, stdoutWrite, stderrRead, stderrWrite} - {INVALID_HANDLE_VALUE}
    }

    /** The handles that are set are different and open. */
    ghost predicate Holds(k: Kernel)
      reads this, k
    {
      && Held() <= k.open
      && Apart(stdinRead, {stdinWrite, stdoutRead, stdoutWrite, stderrRead, stderrWrite})
      && Apart(stdinWrite, {stdoutRead, stdoutWrite, stderrRead, stderrWrite})
      && Apart(stdoutRead, {stdoutWrite, stderrRead, stderrWrite})
      && Apart(stdoutWrite, {stderrRead, stderrWrite})
      && Apart(stderrRead, {stderrWrite})
    }
  }

  ghost predicate Apart(h: int, others: set<int>) {
    h == INVALID_HANDLE_VALUE || h !in others
  }

  /** Closes a handle that is set. */
  method CloseIfSet(k: Kernel, h: int) returns (r: int)
    requires k.Valid() && (h != INVALID_HANDLE_VALUE ==> h in k.open)
    modifies k
    ensures k.Valid() && r == INVALID_HANDLE_VALUE && k.open == old(k.open) - {h} && k.created == old(k.created)
    ensures k.available == old(k.available)
  {
    r := INVALID_HANDLE_VALUE;
    if h != INVALID_HANDLE_VALUE {
      k.CloseHandle(h);
    }
  }

  method CloseStdHandles(k: Kernel, handles: StdHandles)
    requires k.Valid() && handles.Holds(k)
    modifies k, handles
    ensures k.Valid() && handles.AllInvalid() && k.created == old(k.created)
    ensures k.open == old(k.open) - old(handles.Held()) && k.available == old(k.available)
  {
    handles.stdinRead := CloseIfSet(k, handles.stdinRead);
    handles.stdoutRead := CloseIfSet(k, handles.stdoutRead);
    handles.stderrRead := CloseIfSet(k, handles.stderrRead);
    handles.stdinWrite := CloseIfSet(k, handles.stdinWrite);
    handles.stdoutWrite := CloseIfSet(k, handles.stdoutWrite);
    handles.stderrWrite := CloseIfSet(k, handles.stderrWrite);
  }

  /** Some pipe ends were created since the handle numbered first; the others and base are as they were. */
  ghost predicate Building(k: Kernel, handles: StdHandles, base: set<int>, first: nat)
    reads k, handles
  {
    && k.Valid() && handles.Holds(k) && k.open == base + handles.Held() && first <= k.created
    && (forall h :: h in base ==> h < first)
    && (forall h :: h in handles.Held() ==> h >= first)
  }

  method GiveUp(k: Kernel, handles: StdHandles, ghost base: set<int>, ghost first: nat)
    requires Building(k, handles, base, first)
    modifies k, handles
    ensures k.Valid() && k.open == base && handles.AllInvalid() && k.created == old(k.created)
  {
    ghost var held := handles.Held();
    assert forall h :: h in held ==> h !in base;
    CloseStdHandles(k, handles);
    assert k.open == base;
  }

  /** Both ends of the stdin pipe; on failure everything is closed again. */
  method InitStdin(k: Kernel, handles: StdHandles, ghost base: set<int>, ghost first: nat) returns (ok: bool)
    requires Building(k, handles, base, first)
    requires handles.stdinRead == handles.stdinWrite == INVALID_HANDLE_VALUE
    modifies k, handles
    ensures (ok <==> old(k.available) >= 2) && (ok ==> k.available == old(k.available) - 2)
    ensures if ok then Building(k, handles, base, first) && handles.stdinRead >= 0 && handles.stdinWrite >= 0
            else k.Valid() && k.open == base && handles.AllInvalid() && k.created >= first
    ensures ok ==> handles.stdoutRead == old(handles.stdoutRead) && handles.stdoutWrite == old(handles.stdoutWrite)
    ensures ok ==> handles.stderrRead == old(handles.stderrRead) && handles.stderrWrite == old(handles.stderrWrite)
  {
    handles.stdinRead := k.CreateHandle();
    if handles.stdinRead == INVALID_HANDLE_VALUE {
      GiveUp(k, handles, base, first);
      return false;
    }
    handles.stdinWrite := k.CreateHandle();
    if handles.stdinWrite == INVALID_HANDLE_VALUE {
      GiveUp(k, handles, base, first);
      return false;
    }
    ok := true;
  }

  /** Both ends of the stdout pipe. */
  method InitStdout(k: Kernel, handles: StdHandles, ghost base: set<int>, ghost first: nat) returns (ok: bool)
    requires Building(k, handles, base, first)
    requires handles.stdoutWrite == handles.stdoutRead == INVALID_HANDLE_VALUE
    modifies k, handles
    ensures (ok <==> old(k.available) >= 2) && (ok ==> k.available == old(k.available) - 2)
    ensures if ok then Building(k, handles, base, first) && handles.stdoutWrite >= 0 && handles.stdoutRead >= 0
            else k.Valid() && k.open == base && handles.AllInvalid() && k.created >= first
    ensures ok ==> handles.stdinRead == old(handles.stdinRead) && handles.stdinWrite == old(handles.stdinWrite)
    ensures ok ==> handles.stderrRead == old(handles.stderrRead) && handles.stderrWrite == old(handles.stderrWrite)
  {
    handles.stdoutWrite := k.CreateHandle();
    if handles.stdoutWrite == INVALID_HANDLE_VALUE {
      GiveUp(k, handles, base, first);
      return false;
    }
    handles.stdoutRead := k.CreateHandle();
    if handles.stdoutRead == INVALID_HANDLE_VALUE {
      GiveUp(k, handles, base, first);
      return false;
    }
    ok := true;
  }

  /** Both ends of the stderr pipe. */
  method InitStderr(k: Kernel, handles: StdHandles, ghost base: set<int>, ghost first: nat) returns (ok: bool)
    requires Building(k, handles, base, first)
    requires handles.stderrWrite == handles.stderrRead == INVALID_HANDLE_VALUE
    modifies k, handles
    ensures (ok <==> old(k.available) >= 2) && (ok ==> k.available == old(k.available) - 2)
    ensures if ok then Building(k, handles, base, first) && handles.stderrWrite >= 0 && handles.stderrRead >= 0
            else k.Valid() && k.open == base && handles.AllInvalid() && k.created >= first
    ensures ok ==> handles.stdinRead == old(handles.stdinRead) && handles.stdinWrite == old(handles.stdinWrite)
    ensures ok ==> handles.stdoutRead == old(handles.stdoutRead) && handles.stdoutWrite == old(handles.stdoutWrite)
  {
    handles.stderrWrite := k.CreateHandle();
    if handles.stderrWrite == INVALID_HANDLE_VALUE {
      GiveUp(k, handles, base, first);
      return false;
    }
    handles.stderrRead := k.CreateHandle();
    if handles.stderrRead == INVALID_HANDLE_VALUE {
      GiveUp(k, handles, base, first);
      return false;
    }
    ok := true;
  }

  /** All six ends of the three pipes, or none. */
  method InitStdHandles(k: Kernel, handles: StdHandles) returns (ok: bool)
    requires k.Valid()
    modifies k, handles
    ensures k.Valid() && k.created >= old(k.created)
    ensures (ok <==> old(k.available) >= 6) && (ok ==> k.available == old(k.available) - 6)
    ensures ok ==> Building(k, handles, old(k.open), old(k.created)) && INVALID_HANDLE_VALUE !in {handles.stdinRead,
                     handles.stdinWrite, handles.stdoutRead, handles.stdoutWrite, handles.stderrRead,
                     handles.stderrWrite}
    ensures !ok ==> handles.AllInvalid() && k.open == old(k.open)
  {
    handles.stdinRead, handles.stdinWrite := INVALID_HANDLE_VALUE, INVALID_HANDLE_VALUE;
    handles.stdoutRead, handles.stdoutWrite := INVALID_HANDLE_VALUE, INVALID_HANDLE_VALUE;
    handles.stderrRead, handles.stderrWrite := INVALID_HANDLE_VALUE, INVALID_HANDLE_VALUE;
    ghost var base, first := k.open, k.created;
    ok := InitStdin(k, handles, base, first);
    if !ok { return; }
    ok := InitStdout(k, handles, base, first);
    if !ok { return; }
    ok := InitStderr(k, handles, base, first);
  }

  /** CreateProcessW: a handle of the process and one of its main thread. */
  method CreateProcessW(k: Kernel) returns (ok: bool, hProcess: int, hThread: int)
    requires k.Valid()
    modifies k
    ensures k.Valid() && k.created >= old(k.created)
    ensures ok <==> old(k.available) >= 2
    ensures ok ==> hProcess != hThread && hProcess >= old(k.created) && hThread >= old(k.created)
                   && k.open == old(k.open) + {hProcess, hThread}
    ensures !ok ==> k.open == old(k.open)
  {
    ok, hProcess, hThread := false, INVALID_HANDLE_VALUE, INVALID_HANDLE_VALUE;
    var p := k.CreateHandle();
    if p == INVALID_HANDLE_VALUE {
      return;
    }
    var t := k.CreateHandle();
    if t == INVALID_HANDLE_VALUE {
      k.CloseHandle(p);
      return;
    }
    ok, hProcess, hThread := true, p, t;
  }

  /** The host's ends of the pipes of a running process. */
  ghost predicate HostEnds(k: Kernel, handles: StdHandles)
    reads k, handles
  {
    && handles.Holds(k)
    && handles.stdinRead == handles.stdoutWrite == handles.stderrWrite == INVALID_HANDLE_VALUE
    && INVALID_HANDLE_VALUE !in {handles.stdinWrite, handles.stdoutRead, handles.stderrRead}
  }

  /** The ends of the pipes that the new process has inherited are closed here. */
  method CloseProcessEnds(k: Kernel, handles: StdHandles)
    requires k.Valid() && handles.Holds(k)
    requires INVALID_HANDLE_VALUE !in {handles.stdinRead, handles.stdinWrite, handles.stdoutRead, handles.stdoutWrite,
                                       handles.stderrRead, handles.stderrWrite}
    modifies k, handles
    ensures k.Valid() && HostEnds(k, handles) && handles.Held() <= old(handles.Held())
    ensures k.open == old(k.open) - old(handles.Held()) + handles.Held() && k.created == old(k.created)
  {
    k.CloseHandle(handles.stderrWrite);
    handles.stderrWrite := INVALID_HANDLE_VALUE;
    k.CloseHandle(handles.stdoutWrite);
    handles.stdoutWrite := INVALID_HANDLE_VALUE;
    k.CloseHandle(handles.stdinRead);
    handles.stdinRead := INVALID_HANDLE_VALUE;
  }

  /** The handles that are created on the way to a running process. */
  function Required(interactive: bool): nat {
    if interactive then 8 else 2
  }

  /** Starts the process. Without pipes its handle is not kept either. */
  method CreateProcess(k: Kernel, handles: StdHandles, interactive: bool) returns (ok: bool, hProcess: int)
    requires k.Valid() && handles.AllInvalid()
    modifies k, handles
    ensures ok <==> old(k.available) >= Required(interactive)
    ensures k.Valid() && (!ok || !interactive ==> k.open == old(k.open) && handles.AllInvalid())
    ensures ok && interactive ==>
              && HostEnds(k, handles) && hProcess >= 0 && hProcess !in handles.Held()
              && k.open == old(k.open) + handles.Held() + {hProcess}
              && old(k.open) !! handles.Held() + {hProcess}
  {
    hProcess := INVALID_HANDLE_VALUE;
    if interactive {
      ok := InitStdHandles(k, handles);
      if !ok {
        return;
      }
    }
    var success, process, thread := CreateProcessW(k);
    if !success {
      if interactive {
        CloseStdHandles(k, handles);
      }
      return false, INVALID_HANDLE_VALUE;
    }
    k.CloseHandle(thread);
    if interactive {
      CloseProcessEnds(k, handles);
      hProcess := process;
    } else {
      k.CloseHandle(process);
    }
    ok := true;
  }

  // ---------- The message loop ----------

  /** What ends a wait: one of the four handles, the timeout, or a failure. */
  datatype Wake =
    | ProcessSignalled
    | StdinSignalled(control: byte)
    | StdoutSignalled
    | StderrSignalled
    | TimedOut
    | WaitFailed

  datatype LoopBreak = Running | FatalError | BrokenPipe | ProcessExit | KillProcess | BadRequest

  /** One pending read of the loop: its result is taken, and the next read is started. */
  method Continue(k: Kernel, pipe: int, pending: bool) returns (reason: LoopBreak, nowPending: bool)
    requires pipe in k.open
    ensures reason in {Running, BrokenPipe, FatalError} && (reason == Running ==> nowPending)
  {
    nowPending := pending;
    if pending {
      var got := k.Use(pipe);
      if !got {
        return BrokenPipe, nowPending;
      }
      var sent: bool := *;
      if !sent {
        return FatalError, nowPending;
      }
    }
    var started := k.Use(pipe);
    if !started {
      return BrokenPipe, nowPending;
    }
    reason, nowPending := Running, true;
  }

  /** A control byte of the host, when one had arrived. */
  method HandleControl(k: Kernel, stdinWrite: int, control: byte, pending: bool)
    returns (reason: LoopBreak, nowPending: bool)
    requires stdinWrite in k.open
    ensures reason != ProcessExit && (reason == Running ==> nowPending)
  {
    nowPending := pending;
    if pending {
      var got: bool := *;
      if !got {
        return FatalError, nowPending;
      }
      if control == REQ_DATA {
        var received: bool := *;
        if !received {
          return FatalError, nowPending;
        }
        var written := k.Use(stdinWrite);
        if !written {
          return BrokenPipe, nowPending;
        }
      } else if control == REQ_TERMINATE_PROCESS {
        return KillProcess, nowPending;
      } else {
        return BadRequest, nowPending;
      }
    }
    var started: bool := *;
    if !started {
      return FatalError, nowPending;
    }
    reason, nowPending := Running, true;
  }

  /**
   The loop, woken up as wakes says; Running when it still waits after the last of them.
   It closes nothing but the process, and that only when it reports the exit.
   */
  method MessageLoop(k: Kernel, handles: StdHandles, process: int, wakes: seq<Wake>)
    returns (reason: LoopBreak, hProcess: int, stdoutPending: bool, stderrPending: bool)
    requires k.Valid() && HostEnds(k, handles) && process >= 0 && process in k.open && process !in handles.Held()
    modifies k
    ensures k.Valid() && HostEnds(k, handles) && INVALID_HANDLE_VALUE !in k.open
    ensures if hProcess == process then k.open == old(k.open)
            else hProcess == INVALID_HANDLE_VALUE && k.open == old(k.open) - {process} && reason == ProcessExit
  {
    reason, hProcess := Running, process;
    var stdinPending := false;
    stdoutPending, stderrPending := false, false;
    for i := 0 to |wakes|
      invariant k.Valid() && HostEnds(k, handles) && k.open == old(k.open) && hProcess == process && reason == Running
    {
      var _ := k.Use(hProcess);
      match wakes[i] {
        case ProcessSignalled =>
          var known := k.Use(hProcess);
          if !known {
            reason := BrokenPipe;
            return;
          }
          reason := ProcessExit;
          k.CloseHandle(hProcess);
          hProcess := INVALID_HANDLE_VALUE;
          return;
        case StdinSignalled(control) =>
          reason, stdinPending := HandleControl(k, handles.stdinWrite, control, stdinPending);
        case StdoutSignalled =>
          reason, stdoutPending := Continue(k, handles.stdoutRead, stdoutPending);
        case StderrSignalled =>
          reason, stderrPending := Continue(k, handles.stderrRead, stderrPending);
        case TimedOut =>
        case WaitFailed => reason := BrokenPipe;
      }
      if reason != Running {
        return;
      }
    }
  }

  // ---------- The whole request ----------

  datatype Outcome = NoCommand | NotStarted | StartNotReported | StartedOnly | StillRunning | Finished(fatal: bool)

  /** Behind the loop: the process, if it was not closed yet, and all pipe ends are closed. */
  method CleanUp(k: Kernel, handles: StdHandles, process: int, reason: LoopBreak, stdoutPending: bool,
                 stderrPending: bool)
    requires k.Valid() && HostEnds(k, handles) && process !in handles.Held()
    requires process != INVALID_HANDLE_VALUE ==> process in k.open
    modifies k, handles
    ensures k.Valid() && k.open == old(k.open) - old(handles.Held()) - {process}
  {
    if process != INVALID_HANDLE_VALUE {
      if reason == BrokenPipe || reason == ProcessExit {
        var _ := k.Use(process);
      }
      var known := k.Use(process);
      if !known {
        var _ := k.Use(process);
      }
      k.CloseHandle(process);
    }
    if stdoutPending {
      var _ := k.Use(handles.stdoutRead);
    }
    if stderrPending {
      var _ := k.Use(handles.stderrRead);
    }
    CloseStdHandles(k, handles);
  }

  /** The loop and what follows it; None while the loop still waits. */
  method Serve(k: Kernel, handles: StdHandles, hProcess: int, wakes: seq<Wake>) returns (fatal: Option<bool>)
    requires k.Valid() && HostEnds(k, handles) && hProcess >= 0 && hProcess in k.open && hProcess !in handles.Held()
    modifies k, handles
    ensures k.Valid()
    ensures k.open == if fatal.None? then old(k.open) else old(k.open) - (old(handles.Held()) + {hProcess})
  {
    var reason, process, stdoutPending, stderrPending := MessageLoop(k, handles, hProcess, wakes);
    if reason == Running {
      return None;
    }
    CleanUp(k, handles, process, reason, stdoutPending, stderrPending);
    fatal := Some(reason == FatalError);
  }

  lemma FourHandles(k: Kernel, handles: StdHandles, hProcess: int)
    requires HostEnds(k, handles) && hProcess >= 0 && hProcess !in handles.Held()
    ensures |handles.Held() + {hProcess}| == 4
  {
    assert handles.Held() + {hProcess} == {handles.stdinWrite, handles.stdoutRead, handles.stderrRead, hProcess};
  }

  /** The part of process_execute behind the start of an interactive process. */
  method Interact(k: Kernel, handles: StdHandles, hProcess: int, reported: bool, wakes: seq<Wake>, ghost base: set<int>)
    returns (outcome: Outcome, ghost kept: set<int>)
    requires k.Valid() && HostEnds(k, handles) && hProcess >= 0 && hProcess !in handles.Held()
    requires k.open == base + handles.Held() + {hProcess} && base !! handles.Held() + {hProcess}
    modifies k, handles
    ensures k.Valid() && kept !! base && k.open == base + kept
    ensures outcome.StartNotReported? || outcome.StillRunning? || outcome.Finished?
    ensures outcome == StartNotReported <==> !reported
    ensures |kept| == if outcome.Finished? then 0 else 4
  {
    kept := handles.Held() + {hProcess};
    FourHandles(k, handles, hProcess);
    if !reported {
      return StartNotReported, kept;
    }
    var fatal := Serve(k, handles, hProcess, wakes);
    if fatal.None? {
      return StillRunning, kept;
    }
    assert k.open == base;
    outcome, kept := Finished(fatal.value), {};
  }

  /**
   process_execute. command: a command line arrives; reported: the host can be told that the
   process has started. kept: the handles that are left open. There are some only while the
   loop runs, and exactly when the start of an interactive process cannot be reported: then
   the process and the guest's three pipe ends stay open for good.
   */
  method ProcessExecute(k: Kernel, interactive: bool, command: bool, reported: bool, wakes: seq<Wake>)
    returns (outcome: Outcome, ghost kept: set<int>)
    requires k.Valid()
    modifies k
    ensures k.Valid() && kept !! old(k.open) && k.open == old(k.open) + kept
    ensures outcome == NoCommand <==> !command
    ensures outcome == NotStarted <==> command && old(k.available) < Required(interactive)
    ensures outcome == StartNotReported <==> command && old(k.available) >= Required(interactive) && !reported
    ensures |kept| == if (outcome == StartNotReported && interactive) || outcome == StillRunning then 4 else 0
  {
    var handles := new StdHandles();
    if !command {
      return NoCommand, {};
    }
    var ok, hProcess := CreateProcess(k, handles, interactive);
    if !ok {
      return NotStarted, {};
    }
    if !interactive {
      return if reported then StartedOnly else StartNotReported, {};
    }
    outcome, kept := Interact(k, handles, hProcess, reported, wakes, old(k.open));
  }

  /** For example, in a guest that has no open handle before. */
  method UnreportedStart() returns (k: Kernel, outcome: Outcome)
    ensures outcome == StartNotReported && k.Valid() && |k.open| == 4
  {
    k := new Kernel(Required(true));
    ghost var kept;
    outcome, kept := ProcessExecute(k, true, true, false, []);
    assert k.open == kept;
  }
}
