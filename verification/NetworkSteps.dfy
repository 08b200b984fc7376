/**
 Starts and stops of different machines at the same time. Every worker process runs its own
 virtual machine, so the commands of drakrun/lib/networking.py interleave freely; each
 machine has at most one start or stop under way. Commands that change neither rules nor
 bridges nor descriptions are no steps: failing there is failing at the next step.
 */
module NetworkSteps {
  import opened Common
  import opened Network

  /** Where a start or stop is. A stop on behalf of a start goes on with the start (next). */
  datatype Job =
    | Idle
    | TakingDown(next: Option<NetworkInfo>)
    | Clearing(k: nat, removing: bool, next: Option<NetworkInfo>)
    | Forgetting(next: Option<NetworkInfo>)
    | Bridging(info: NetworkInfo)
    | Adding(info: NetworkInfo, k: nat, appending: bool)
    | Saving(info: NetworkInfo)
    | Finishing(info: NetworkInfo)

  /** The rules of the host, and what belongs to one machine. */
  datatype View = View(rules: seq<Rule>, bridge: bool, saved: Option<NetworkInfo>, job: Job)

  /** Missed: the command that deletes the bridge fails, which nobody notices. */
  datatype Event =
    | CallStart(vm: nat, info: NetworkInfo)
    | CallStop(vm: nat)
    | Step(vm: nat)
    | Missed(vm: nat)
    | Fail(vm: nat)

  /** A job stays within the list of rules it works on. */
  predicate Proper(vm: nat, s: View) {
    match s.job
    case TakingDown(_) => s.saved.Some?
    case Clearing(k, _, _) => s.saved.Some? && k < |StopList(vm, s.saved.value)|
    case Adding(info, k, _) => k < |RulesOf(vm, info)|
    case _ => true
  }

  predicate CanHappen(vm: nat, s: View, e: Event) {
    match e
    case CallStart(_, info) => s.job.Idle? && info.outInterface.External?
    case CallStop(_) => s.job.Idle?
    case Missed(_) => s.job.TakingDown?
    case Fail(_) => !s.job.Idle?
    case Step(_) =>
      match s.job {
        case Idle => false
        case Bridging(_) => !s.bridge
        case Clearing(k, removing, _) => removing && Proper(vm, s) ==> StopList(vm, s.saved.value)[k] in s.rules
        case _ => true
      }
  }

  function Then(next: Option<NetworkInfo>): Job {
    if next.Some? then Bridging(next.value) else Idle
  }

  function Happen(vm: nat, s: View, e: Event): View
    requires Proper(vm, s) && CanHappen(vm, s, e)
  {
    match e
    case CallStart(_, info) => s.(job := if s.saved.Some? then TakingDown(Some(info)) else Bridging(info))
    case CallStop(_) => s.(job := if s.saved.Some? then TakingDown(None) else Idle)
    case Fail(_) => s.(job := Idle)
    case Missed(_) => s.(job := Clearing(0, false, s.job.next))
    case Step(_) =>
      match s.job {
        case TakingDown(next) => s.(bridge := false, job := Clearing(0, false, next))
        case Clearing(k, removing, next) =>
          var r := StopList(vm, s.saved.value)[k];
          if removing then s.(rules := RemoveFirst(s.rules, r), job := Clearing(k, false, next))
          else if r in s.rules then s.(job := Clearing(k, true, next))
          else if k + 1 < |StopList(vm, s.saved.value)| then s.(job := Clearing(k + 1, false, next))
          else s.(job := Forgetting(next))
        case Forgetting(next) => s.(saved := None, job := Then(next))
        case Bridging(info) => s.(bridge := true, job := Adding(info, 0, false))
        case Adding(info, k, appending) =>
          var r := RulesOf(vm, info)[k];
          var next := if k + 1 < |RulesOf(vm, info)| then Adding(info, k + 1, false) else Saving(info);
          if appending then s.(rules := s.rules + [r], job := next)
          else if r in s.rules then s.(job := next)
          else s.(job := Adding(info, k, true))
        case Saving(info) => s.(saved := Some(info), job := Finishing(info))
        case Finishing(_) => s.(job := Idle)
      }
  }

  // ---------- The rules of one machine ----------

  function Own(rules: seq<Rule>, vm: nat): seq<Rule> {
    if rules == [] then []
    else (if Owns(vm, rules[0]) then [rules[0]] else []) + Own(rules[1..], vm)
  }

  lemma {:induction false} OwnMember(rules: seq<Rule>, vm: nat, r: Rule)
    ensures r in Own(rules, vm) <==> r in rules && Owns(vm, r)
  {
    if rules != [] { OwnMember(rules[1..], vm, r); }
  }

  lemma {:induction false} OwnAppend(rules: seq<Rule>, vm: nat, r: Rule)
    ensures Own(rules + [r], vm) == Own(rules, vm) + (if Owns(vm, r) then [r] else [])
  {
    if rules != [] {
      assert (rules + [r])[1..] == rules[1..] + [r];
      OwnAppend(rules[1..], vm, r);
    }
  }

  lemma {:induction false} OwnRemove(rules: seq<Rule>, vm: nat, r: Rule)
    ensures Own(RemoveFirst(rules, r), vm) == if Owns(vm, r) then RemoveFirst(Own(rules, vm), r) else Own(rules, vm)
  {
    if rules != [] {
      var x, rest := rules[0], rules[1..];
      var own := Own(rest, vm);
      assert Own(rules, vm) == if Owns(vm, x) then [x] + own else own;
      assert ([x] + own)[1..] == own;
      if x != r {
        OwnRemove(rest, vm, r);
        var left := RemoveFirst(rest, r);
        assert ([x] + left)[1..] == left;
        assert Own([x] + left, vm) == if Owns(vm, x) then [x] + Own(left, vm) else Own(left, vm);
      }
    }
  }

  lemma StopRules(vm: nat, info: NetworkInfo, v: nat, k: nat)
    requires info.outInterface.External? && k < |StopList(vm, info)|
    ensures Owns(v, StopList(vm, info)[k]) <==> v == vm
  {
  }

  /** The order of a machine's rules can be seen from its own rules alone. */
  lemma {:induction false} OwnOrder(rules: seq<Rule>, vm: nat)
    requires DropsLast(Own(rules, vm), vm)
    ensures DropsLast(rules, vm)
  {
    if rules != [] {
      var rest := rules[1..];
      var own := Own(rules, vm);
      assert if Owns(vm, rules[0]) then own[1..] == Own(rest, vm) else own == Own(rest, vm);
      DropsLastTail(own, vm);
      OwnOrder(rest, vm);
      forall j | 0 < j < |rules| && rules[0] == DropAll(Bridge(vm))
        ensures rules[j] != AcceptDhcp(Bridge(vm)) && rules[j] != AcceptDns(Bridge(vm))
      {
        OwnMember(rest, vm, rules[j]);
        assert rules[j] == rest[j - 1];
        if rules[j] in own[1..] {
          var i :| 0 <= i < |own[1..]| && own[1..][i] == rules[j];
          assert own[0] == rules[0] && own[i + 1] == rules[j];
        }
      }
      forall i, j | 0 < i < j < |rules| && rules[i] == DropAll(Bridge(vm))
        ensures rules[j] != AcceptDhcp(Bridge(vm)) && rules[j] != AcceptDns(Bridge(vm))
      {
        assert rules[i] == rest[i - 1] && rules[j] == rest[j - 1];
      }
    }
  }

  lemma DropsLastTail(rules: seq<Rule>, vm: nat)
    requires DropsLast(rules, vm)
    ensures rules != [] ==> DropsLast(rules[1..], vm)
  {
    if rules != [] {
      forall i, j | 0 <= i < j < |rules[1..]| && rules[1..][i] == DropAll(Bridge(vm))
        ensures rules[1..][j] != AcceptDhcp(Bridge(vm)) && rules[1..][j] != AcceptDns(Bridge(vm))
      {
        assert rules[1..][i] == rules[i + 1] && rules[1..][j] == rules[j + 1];
      }
    }
  }

  // ---------- One machine ----------

  function Alone(vm: nat, s: View): View {
    s.(rules := Own(s.rules, vm))
  }

  /** A machine runs among the others' rules as it would run alone. */
  lemma HappensAlone(vm: nat, s: View, e: Event)
    requires Proper(vm, s)
    ensures Proper(vm, Alone(vm, s)) && (CanHappen(vm, s, e) <==> CanHappen(vm, Alone(vm, s), e))
    ensures CanHappen(vm, s, e) ==> Alone(vm, Happen(vm, s, e)) == Happen(vm, Alone(vm, s), e)
  {
    match s.job {
      case Clearing(k, _, _) =>
        var r := StopList(vm, s.saved.value)[k];
        OwnMember(s.rules, vm, r);
        OwnRemove(s.rules, vm, r);
      case Adding(info, k, _) =>
        var r := RulesOf(vm, info)[k];
        assert Owns(vm, r);
        OwnMember(s.rules, vm, r);
        OwnAppend(s.rules, vm, r);
      case _ =>
    }
  }

  /** What a machine does leaves the rules of another one alone. */
  lemma OthersUntouched(vm: nat, s: View, e: Event, v: nat)
    requires Proper(vm, s) && CanHappen(vm, s, e) && v != vm
    requires s.saved.Some? ==> s.saved.value.outInterface.External?
    requires s.job.Adding? ==> s.job.info.outInterface.External?
    ensures Own(Happen(vm, s, e).rules, v) == Own(s.rules, v)
  {
    match s.job {
      case Clearing(k, _, _) =>
        StopRules(vm, s.saved.value, v, k);
        OwnRemove(s.rules, v, StopList(vm, s.saved.value)[k]);
      case Adding(info, k, _) =>
        OwnRules(vm, info, v);
        OwnAppend(s.rules, v, RulesOf(vm, info)[k]);
      case _ =>
    }
  }

  /** What holds of a machine, alone with its rules, between any two commands. */
  ghost predicate Kept(vm: nat, s: View) {
    && Proper(vm, s)
    && InOrder(s.rules, vm, s.bridge, s.saved)
    && (forall r :: r in s.rules ==> Owns(vm, r))
    && match s.job {
         case Idle => true
         case TakingDown(next) => Outward(next)
         case Clearing(k, removing, next) =>
           && Outward(next)
           && (forall i :: 0 <= i < k ==> StopList(vm, s.saved.value)[i] !in s.rules)
           && (removing ==> StopList(vm, s.saved.value)[k] in s.rules)
         case Forgetting(next) => Outward(next) && s.saved.Some? && s.rules == []
         case Bridging(info) => Outward(Some(info)) && s.saved.None? && (!s.bridge ==> s.rules == [])
         case Adding(info, k, _) =>
           Outward(Some(info)) && s.saved.None? && s.bridge && s.rules == RulesOf(vm, info)[..k]
         case Saving(info) => Outward(Some(info)) && s.saved.None? && s.bridge && s.rules == RulesOf(vm, info)
         case Finishing(info) => s.bridge && s.saved == Some(info) && s.rules == RulesOf(vm, info)
       }
  }

  predicate Outward(info: Option<NetworkInfo>) {
    info.Some? ==> info.value.outInterface.External?
  }

  /** Stopping: descriptions and bridges, then rule by rule. */
  lemma StoppingKeeps(vm: nat, s: View, e: Event)
    requires Kept(vm, s) && CanHappen(vm, s, e) && (s.job.TakingDown? || s.job.Clearing? || s.job.Forgetting?)
    ensures Kept(vm, Happen(vm, s, e))
  {
    if s.job.Clearing? {
      var k, info := s.job.k, s.saved.value;
      var r := StopList(vm, info)[k];
      if e.Step? && s.job.removing {
        RemoveFirstKeeps(s.rules, r, vm);
      } else if e.Step? && r !in s.rules && k + 1 == |StopList(vm, info)| {
        NothingLeft(s.rules, s.rules, vm, info);
        assert forall x :: x in s.rules ==> Owns(vm, x) && !Owns(vm, x);
      }
    }
  }

  lemma RulesSoFar(vm: nat, info: NetworkInfo, k: nat)
    requires info.outInterface.External? && k <= |RulesOf(vm, info)|
    ensures var rules := RulesOf(vm, info)[..k];
            && InOrder(rules, vm, true, None) && InOrder(rules, vm, true, Some(info))
            && forall r :: r in rules ==> Owns(vm, r)
  {
    PartlyAdded([], vm, info, k);
    var rules := RulesOf(vm, info)[..k];
    assert [] + rules == rules;
    OwnRules(vm, info, vm);
    assert forall r :: r in rules ==> r in RulesOf(vm, info);
  }

  lemma AddingKeeps(vm: nat, s: View, e: Event)
    requires Kept(vm, s) && CanHappen(vm, s, e) && s.job.Adding?
    ensures Kept(vm, Happen(vm, s, e))
  {
    var info, k := s.job.info, s.job.k;
    NotYet([], vm, info, k);
    RulesSoFar(vm, info, k + 1);
    var all := RulesOf(vm, info);
    assert [] + all[..k] == all[..k] && [] + all[..k + 1] == all[..k + 1] && all[..|all|] == all;
  }

  lemma SavingKeeps(vm: nat, s: View, e: Event)
    requires Kept(vm, s) && CanHappen(vm, s, e) && (s.job.Bridging? || s.job.Saving? || s.job.Finishing? || s.job.Idle?)
    ensures Kept(vm, Happen(vm, s, e))
  {
    if s.job.Bridging? {
      RulesSoFar(vm, s.job.info, 0);
    } else if s.job.Saving? {
      RulesSoFar(vm, s.job.info, |RulesOf(vm, s.job.info)|);
    } else if s.job.Idle? && s.rules != [] {
      assert s.rules[0] in s.rules && Owns(vm, s.rules[0]);
    }
  }

  /** Whatever a machine does, and whatever fails, it stays in order. */
  lemma HappenKeeps(vm: nat, s: View, e: Event)
    requires Kept(vm, s) && CanHappen(vm, s, e)
    ensures Kept(vm, Happen(vm, s, e))
  {
    match s.job {
      case TakingDown(_) => StoppingKeeps(vm, s, e);
      case Clearing(_, _, _) => StoppingKeeps(vm, s, e);
      case Forgetting(_) => StoppingKeeps(vm, s, e);
      case Adding(_, _, _) => AddingKeeps(vm, s, e);
      case _ => SavingKeeps(vm, s, e);
    }
  }

  // ---------- All machines ----------

  datatype Worker = Worker(bridge: bool, saved: Option<NetworkInfo>, job: Job)

  datatype Host = Host(rules: seq<Rule>, workers: map<nat, Worker>)

  /** A machine never seen before has no bridge, no description and nothing under way. */
  function Of(h: Host, vm: nat): View {
    if vm in h.workers then
      var w := h.workers[vm];
      View(h.rules, w.bridge, w.saved, w.job)
    else View(h.rules, false, None, Idle)
  }

  predicate Possible(h: Host, e: Event) {
    Proper(e.vm, Of(h, e.vm)) && CanHappen(e.vm, Of(h, e.vm), e)
  }

  function Apply(h: Host, e: Event): Host
    requires Possible(h, e)
  {
    var s := Happen(e.vm, Of(h, e.vm), e);
    Host(s.rules, h.workers[e.vm := Worker(s.bridge, s.saved, s.job)])
  }

  /** The events of the run are possible one after the other. */
  predicate Runs(h: Host, es: seq<Event>)
    decreases |es|
  {
    es == [] || (Possible(h, es[0]) && Runs(Apply(h, es[0]), es[1..]))
  }

  function After(h: Host, es: seq<Event>): Host
    requires Runs(h, es)
    decreases |es|
  {
    if es == [] then h else After(Apply(h, es[0]), es[1..])
  }

  ghost predicate AllKept(h: Host) {
    forall vm: nat :: Kept(vm, Alone(vm, Of(h, vm)))
  }

  /** Before the first start: no machine is known and no rule is about one. */
  lemma FreshHost(rules: seq<Rule>)
    requires forall vm: nat :: OwnsNone(rules, vm)
    ensures AllKept(Host(rules, map[]))
  {
    forall vm: nat ensures Own(rules, vm) == [] {
      assert OwnsNone(rules, vm);
      if Own(rules, vm) != [] { OwnMember(rules, vm, Own(rules, vm)[0]); }
    }
  }

  lemma StepProjects(h: Host, e: Event, vm: nat)
    requires AllKept(h) && Possible(h, e)
    ensures e.vm == vm ==>
      CanHappen(vm, Alone(vm, Of(h, vm)), e) && Alone(vm, Of(Apply(h, e), vm)) == Happen(vm, Alone(vm, Of(h, vm)), e)
    ensures e.vm != vm ==> Alone(vm, Of(Apply(h, e), vm)) == Alone(vm, Of(h, vm))
  {
    if e.vm == vm {
      HappensAlone(vm, Of(h, vm), e);
    } else {
      assert Kept(e.vm, Alone(e.vm, Of(h, e.vm)));
      OthersUntouched(e.vm, Of(h, e.vm), e, vm);
    }
  }

  lemma StepKeepsAll(h: Host, e: Event)
    requires AllKept(h) && Possible(h, e)
    ensures AllKept(Apply(h, e))
  {
    forall vm: nat ensures Kept(vm, Alone(vm, Of(Apply(h, e), vm))) {
      StepProjects(h, e, vm);
      assert Kept(vm, Alone(vm, Of(h, vm)));
      if e.vm == vm { HappenKeeps(vm, Alone(vm, Of(h, vm)), e); }
    }
  }

  /** At every moment of every interleaving every machine is in order. */
  lemma {:induction false} AlwaysInOrder(h: Host, es: seq<Event>, vm: nat)
    requires AllKept(h) && Runs(h, es)
    ensures AllKept(After(h, es))
    ensures var s := Of(After(h, es), vm); InOrder(s.rules, vm, s.bridge, s.saved)
    decreases |es|
  {
    if es == [] {
      var s := Of(h, vm);
      assert Kept(vm, Alone(vm, s));
      OwnOrder(h.rules, vm);
      forall r ensures r in Own(h.rules, vm) <==> r in h.rules && Owns(vm, r) {
        OwnMember(h.rules, vm, r);
      }
    } else {
      StepKeepsAll(h, es[0]);
      AlwaysInOrder(Apply(h, es[0]), es[1..], vm);
    }
  }

  function Only(es: seq<Event>, vm: nat): seq<Event> {
    if es == [] then [] else (if es[0].vm == vm then [es[0]] else []) + Only(es[1..], vm)
  }

  predicate RunsAlone(vm: nat, s: View, es: seq<Event>)
    decreases |es|
  {
    es == [] || (Proper(vm, s) && CanHappen(vm, s, es[0]) && RunsAlone(vm, Happen(vm, s, es[0]), es[1..]))
  }

  function AfterAlone(vm: nat, s: View, es: seq<Event>): View
    requires RunsAlone(vm, s, es)
    decreases |es|
  {
    if es == [] then s else AfterAlone(vm, Happen(vm, s, es[0]), es[1..])
  }

  /** Interleaving changes nothing: each machine ends where its own events alone would have taken it. */
  lemma {:induction false} Isolated(h: Host, es: seq<Event>, vm: nat)
    requires AllKept(h) && Runs(h, es)
    ensures RunsAlone(vm, Alone(vm, Of(h, vm)), Only(es, vm))
    ensures Alone(vm, Of(After(h, es), vm)) == AfterAlone(vm, Alone(vm, Of(h, vm)), Only(es, vm))
    decreases |es|
  {
    if es != [] {
      var e, rest := es[0], es[1..];
      StepKeepsAll(h, e);
      StepProjects(h, e, vm);
      assert Kept(vm, Alone(vm, Of(h, vm)));
      Isolated(Apply(h, e), rest, vm);
      assert Only(es, vm) == if e.vm == vm then [e] + Only(rest, vm) else Only(rest, vm);
      assert ([e] + Only(rest, vm))[1..] == Only(rest, vm);
    }
  }

  /** A completed start leaves exactly the rules of the network, a completed stop none. */
  lemma Completed(h: Host, es: seq<Event>, vm: nat)
    requires AllKept(h) && Runs(h, es) && Possible(After(h, es), Step(vm))
    ensures var s, t := Of(After(h, es), vm), Of(Apply(After(h, es), Step(vm)), vm);
            && (s.job.Finishing? ==>
                  && Own(t.rules, vm) == RulesOf(vm, s.job.info) && HasNetwork(t.rules, vm, s.job.info)
                  && t.saved == Some(s.job.info) && t.bridge)
            && (s.job.Forgetting? ==> OwnsNone(t.rules, vm) && NoneAbout(t.rules, vm) && t.saved.None?)
  {
    AlwaysInOrder(h, es, vm);
    var h' := After(h, es);
    assert Kept(vm, Alone(vm, Of(h', vm)));
    StepProjects(h', Step(vm), vm);
    if Of(h', vm).job.Forgetting? {
      forall r | r in h'.rules ensures !Owns(vm, r) {
        OwnMember(h'.rules, vm, r);
      }
      OwnsNoneExactly(Of(Apply(h', Step(vm)), vm).rules, vm);
    } else if Of(h', vm).job.Finishing? {
      OwnNetwork(h'.rules, vm, Of(h', vm).job.info);
    }
  }

  /** A network that is complete among the machine's own rules is complete. */
  lemma OwnNetwork(rules: seq<Rule>, vm: nat, info: NetworkInfo)
    requires info.outInterface.External? && Own(rules, vm) == RulesOf(vm, info)
    ensures HasNetwork(rules, vm, info)
  {
    AddedNetwork([], vm, info);
    assert [] + RulesOf(vm, info) == RulesOf(vm, info);
    forall r ensures r in RulesOf(vm, info) <==> r in rules && Owns(vm, r) {
      OwnMember(rules, vm, r);
    }
  }

  lemma AppendKeepsRest(rules: seq<Rule>, r: Rule, vm: nat)
    requires Owns(vm, r)
    ensures Without(rules + [r], vm) == Without(rules, vm)
  {
    WithoutSplit(rules, [r], vm);
    WithoutAll([r], vm);
  }

  /** A machine touches no rule that is not about it. */
  lemma HappenKeepsRest(vm: nat, s: View, e: Event)
    requires Proper(vm, s) && CanHappen(vm, s, e)
    ensures Without(Happen(vm, s, e).rules, vm) == Without(s.rules, vm)
  {
    if s.job.Clearing? && e.Step? && s.job.removing {
      RemoveFirstKeeps(s.rules, StopList(vm, s.saved.value)[s.job.k], vm);
    } else if s.job.Adding? && e.Step? && s.job.appending {
      AppendKeepsRest(s.rules, RulesOf(vm, s.job.info)[s.job.k], vm);
    }
  }

  /** A machine that owned no rule, and after its own starts and stops owns none again, has restored the chains. */
  lemma {:induction false} Restored(h: Host, es: seq<Event>, vm: nat)
    requires AllKept(h) && Runs(h, es) && forall e :: e in es ==> e.vm == vm
    ensures Without(After(h, es).rules, vm) == Without(h.rules, vm)
    ensures OwnsNone(h.rules, vm) && OwnsNone(After(h, es).rules, vm) ==> After(h, es).rules == h.rules
    decreases |es|
  {
    if es != [] {
      assert es[0] in es;
      HappenKeepsRest(vm, Of(h, vm), es[0]);
      StepKeepsAll(h, es[0]);
      assert forall e :: e in es[1..] ==> e in es;
      Restored(Apply(h, es[0]), es[1..], vm);
    }
    if OwnsNone(h.rules, vm) && OwnsNone(After(h, es).rules, vm) {
      WithoutNone(h.rules, vm);
      WithoutNone(After(h, es).rules, vm);
    }
  }

  // ---------- When a start can complete ----------

  /** Somewhere in the run, of whatever events, a start of the network completes. */
  predicate Completes(vm: nat, s: View, info: NetworkInfo, es: seq<Event>)
    decreases |es|
  {
    && es != [] && Proper(vm, s) && CanHappen(vm, s, es[0])
    && ((s.job == Finishing(info) && es[0].Step?) || Completes(vm, Happen(vm, s, es[0]), info, es[1..]))
  }

  ghost predicate CanComplete(vm: nat, s: View, info: NetworkInfo) {
    exists es :: Completes(vm, s, info, es)
  }

  lemma OneStep(vm: nat, s: View, e: Event, info: NetworkInfo)
    requires Proper(vm, s) && CanHappen(vm, s, e) && CanComplete(vm, Happen(vm, s, e), info)
    ensures CanComplete(vm, s, info)
  {
    var es :| Completes(vm, Happen(vm, s, e), info, es);
    assert ([e] + es)[1..] == es;
    assert Completes(vm, s, info, [e] + es);
  }

  lemma {:induction false} AddingCompletes(vm: nat, s: View, info: NetworkInfo)
    requires Proper(vm, s)
    requires s.job == Finishing(info) || s.job == Saving(info) || (s.job.Adding? && s.job.info == info)
    ensures CanComplete(vm, s, info)
    decreases if s.job.Adding? then 2 + |RulesOf(vm, info)| - s.job.k else if s.job.Saving? then 1 else 0,
              s.job.Adding? && !s.job.appending
  {
    if s.job.Finishing? {
      assert Completes(vm, s, info, [Step(vm)]);
    } else {
      AddingCompletes(vm, Happen(vm, s, Step(vm)), info);
      OneStep(vm, s, Step(vm), info);
    }
  }

  lemma BridgingCompletes(vm: nat, s: View, info: NetworkInfo)
    requires s.job == Bridging(info) && !s.bridge
    ensures CanComplete(vm, s, info)
  {
    AddingCompletes(vm, Happen(vm, s, Step(vm)), info);
    OneStep(vm, s, Step(vm), info);
  }

  /** Clearing a rule ends, as every deletion leaves fewer rules. */
  lemma {:induction false} ClearingCompletes(vm: nat, s: View, info: NetworkInfo)
    requires Proper(vm, s) && !s.bridge
    requires s.job == Forgetting(Some(info)) || (s.job.Clearing? && s.job.next == Some(info))
    requires s.job.Clearing? && s.job.removing ==> StopList(vm, s.saved.value)[s.job.k] in s.rules
    ensures CanComplete(vm, s, info)
    decreases if s.job.Clearing? then 1 + |StopList(vm, s.saved.value)| - s.job.k else 0,
              |s.rules|, s.job.Clearing? && !s.job.removing
  {
    var next := Happen(vm, s, Step(vm));
    if s.job.Forgetting? {
      BridgingCompletes(vm, next, info);
    } else {
      if s.job.removing { RemoveFirstKeeps(s.rules, StopList(vm, s.saved.value)[s.job.k], vm); }
      ClearingCompletes(vm, next, info);
    }
    OneStep(vm, s, Step(vm), info);
  }

  /** A bridge without a description, and nothing more than an attempt at a start under way. */
  predicate Stuck(s: View) {
    s.bridge && s.saved.None? && (s.job.Idle? || s.job.Bridging?)
  }

  lemma {:induction false} StuckNeverCompletes(vm: nat, s: View, info: NetworkInfo, es: seq<Event>)
    requires Stuck(s)
    ensures !Completes(vm, s, info, es)
    decreases |es|
  {
    if es != [] && CanHappen(vm, s, es[0]) {
      StuckNeverCompletes(vm, Happen(vm, s, es[0]), info, es[1..]);
    }
  }

  /**
   An idle machine can be started exactly when it has a saved description or no bridge: what
   a failed start leaves behind without a description no later start or stop repairs.
   */
  lemma StartableExactly(vm: nat, s: View, info: NetworkInfo)
    requires s.job.Idle? && info.outInterface.External?
    ensures CanComplete(vm, s, info) <==> s.saved.Some? || !s.bridge
  {
    if s.saved.Some? {
      var down := Happen(vm, s, CallStart(vm, info));
      ClearingCompletes(vm, Happen(vm, down, Step(vm)), info);
      OneStep(vm, down, Step(vm), info);
      OneStep(vm, s, CallStart(vm, info), info);
    } else if !s.bridge {
      BridgingCompletes(vm, Happen(vm, s, CallStart(vm, info)), info);
      OneStep(vm, s, CallStart(vm, info), info);
    } else {
      forall es ensures !Completes(vm, s, info, es) {
        StuckNeverCompletes(vm, s, info, es);
      }
    }
  }
}
