/**
 Whole starts and stops of a machine (drakrun/lib/networking.py:246-368) as runs of single
 commands.
 */
module NetworkOperations {
  import opened Common
  import opened Network
  import opened NetworkSteps

  /** A fresh host is one failed start away from a machine that cannot be started. */
  lemma StuckExample(vm: nat, info: NetworkInfo)
    requires info.outInterface.External?
    ensures var h, es := Host([], map[]), [CallStart(vm, info), Step(vm), Fail(vm)];
            && AllKept(h) && Runs(h, es)
            && Of(After(h, es), vm) == View([], true, None, Idle)
            && !CanComplete(vm, Of(After(h, es), vm), info)
  {
    var h := Host([], map[]);
    FreshHost([]);
    var called := Apply(h, CallStart(vm, info));
    assert Of(called, vm) == View([], false, None, Bridging(info));
    var bridged := Apply(called, Step(vm));
    assert Of(bridged, vm) == View([], true, None, Adding(info, 0, false));
    var failed := Apply(bridged, Fail(vm));
    assert Of(failed, vm) == View([], true, None, Idle);
    RunOf(bridged, Fail(vm), []);
    assert [Fail(vm)] == [Fail(vm)] + [];
    RunOf(called, Step(vm), [Fail(vm)]);
    assert [Step(vm), Fail(vm)] == [Step(vm)] + [Fail(vm)];
    RunOf(h, CallStart(vm, info), [Step(vm), Fail(vm)]);
    assert [CallStart(vm, info), Step(vm), Fail(vm)] == [CallStart(vm, info)] + [Step(vm), Fail(vm)];
    StartableExactly(vm, View([], true, None, Idle), info);
  }

  lemma RunOf(h: Host, e: Event, es: seq<Event>)
    requires Possible(h, e) && Runs(Apply(h, e), es)
    ensures Runs(h, [e] + es) && After(h, [e] + es) == After(Apply(h, e), es)
  {
    assert ([e] + es)[1..] == es;
  }

  // ---------- Whole operations ----------

  /** Some run of commands of the machine leads from s to t. */
  ghost predicate Leads(vm: nat, s: View, t: View) {
    exists es :: RunsAlone(vm, s, es) && AfterAlone(vm, s, es) == t
  }

  lemma LeadsThere(vm: nat, s: View)
    ensures Leads(vm, s, s)
  {
    assert RunsAlone(vm, s, []) && AfterAlone(vm, s, []) == s;
  }

  lemma LeadsOn(vm: nat, s: View, e: Event, t: View)
    requires Proper(vm, s) && CanHappen(vm, s, e) && Leads(vm, Happen(vm, s, e), t)
    ensures Leads(vm, s, t)
  {
    var es :| RunsAlone(vm, Happen(vm, s, e), es) && AfterAlone(vm, Happen(vm, s, e), es) == t;
    assert ([e] + es)[1..] == es;
    assert RunsAlone(vm, s, [e] + es) && AfterAlone(vm, s, [e] + es) == t;
  }

  /** The commands behind the new bridge, if none fails. */
  lemma {:induction false} AddingLeads(vm: nat, s: View, base: seq<Rule>, info: NetworkInfo)
    requires info.outInterface.External? && OwnsNone(base, vm) && s.bridge
    requires || s == View(base + RulesOf(vm, info), true, Some(info), Finishing(info))
             || (s.rules == base + RulesOf(vm, info) && s.job == Saving(info))
             || (s.job.Adding? && s.job.info == info && s.job.k < |RulesOf(vm, info)|
                 && s.rules == base + RulesOf(vm, info)[..s.job.k])
    ensures Leads(vm, s, View(base + RulesOf(vm, info), true, Some(info), Idle))
    decreases if s.job.Adding? then 2 + |RulesOf(vm, info)| - s.job.k else if s.job.Saving? then 1 else 0,
              s.job.Adding? && !s.job.appending
  {
    var t := View(base + RulesOf(vm, info), true, Some(info), Idle);
    var next := Happen(vm, s, Step(vm));
    if s.job.Finishing? {
      LeadsThere(vm, t);
    } else {
      if s.job.Adding? {
        NotYet(base, vm, info, s.job.k);
        assert RulesOf(vm, info)[..|RulesOf(vm, info)|] == RulesOf(vm, info);
      }
      AddingLeads(vm, next, base, info);
    }
    LeadsOn(vm, s, Step(vm), t);
  }

  /** The deletions of a stop, and what follows from there. */
  lemma {:induction false} ClearingLeads(vm: nat, s: View, t: View)
    requires Proper(vm, s) && s.job.Clearing? && OnlyOwns(s.rules, vm, RulesOf(vm, s.saved.value))
    requires forall i :: 0 <= i < s.job.k ==> StopList(vm, s.saved.value)[i] !in s.rules
    requires s.job.removing ==> StopList(vm, s.saved.value)[s.job.k] in s.rules
    requires Leads(vm, View(Without(s.rules, vm), s.bridge, None, Then(s.job.next)), t)
    ensures Leads(vm, s, t)
    decreases |StopList(vm, s.saved.value)| - s.job.k, |s.rules|, !s.job.removing
  {
    var k, info := s.job.k, s.saved.value;
    var rule := StopList(vm, info)[k];
    var next := Happen(vm, s, Step(vm));
    if s.job.removing {
      RemoveFirstKeeps(s.rules, rule, vm);
      ClearingLeads(vm, next, t);
    } else if next.job.Forgetting? {
      NothingLeft(s.rules, s.rules, vm, info);
      LeadsOn(vm, next, Step(vm), t);
    } else {
      ClearingLeads(vm, next, t);
    }
    LeadsOn(vm, s, Step(vm), t);
  }

  /** Taking down what was described; the deletion of the bridge may fail unnoticed. */
  lemma TakingDownLeads(vm: nat, s: View, missed: bool, t: View)
    requires s.job.TakingDown? && InOrder(s.rules, vm, s.bridge, s.saved) && s.saved.Some?
    requires Leads(vm, View(Without(s.rules, vm), s.bridge && missed, None, Then(s.job.next)), t)
    ensures Leads(vm, s, t)
  {
    var e := if missed then Missed(vm) else Step(vm);
    ClearingLeads(vm, Happen(vm, s, e), t);
    LeadsOn(vm, s, e, t);
  }

  /** What the rules, bridges and descriptions are for one machine, between its operations. */
  function ViewOf(rules: seq<Rule>, bridges: set<nat>, saved: map<nat, NetworkInfo>, vm: nat): View {
    View(rules, vm in bridges, if vm in saved then Some(saved[vm]) else None, Idle)
  }

  lemma StopLeads(vm: nat, s: View, missed: bool)
    requires s.job.Idle? && InOrder(s.rules, vm, s.bridge, s.saved) && s.saved.Some?
    ensures Leads(vm, s, View(Without(s.rules, vm), s.bridge && missed, None, Idle))
  {
    var t := View(Without(s.rules, vm), s.bridge && missed, None, Idle);
    LeadsThere(vm, t);
    TakingDownLeads(vm, Happen(vm, s, CallStop(vm)), missed, t);
    LeadsOn(vm, s, CallStop(vm), t);
  }

  lemma BridgingLeads(vm: nat, base: seq<Rule>, info: NetworkInfo)
    requires info.outInterface.External? && OwnsNone(base, vm)
    ensures Leads(vm, View(base, false, None, Bridging(info)), View(base + RulesOf(vm, info), true, Some(info), Idle))
  {
    var s := View(base, false, None, Bridging(info));
    assert base + RulesOf(vm, info)[..0] == base;
    AddingLeads(vm, Happen(vm, s, Step(vm)), base, info);
    LeadsOn(vm, s, Step(vm), View(base + RulesOf(vm, info), true, Some(info), Idle));
  }

  lemma StartLeads(vm: nat, s: View, info: NetworkInfo)
    requires s.job.Idle? && InOrder(s.rules, vm, s.bridge, s.saved) && info.outInterface.External?
    requires s.saved.Some? || !s.bridge
    ensures Leads(vm, s, View(Without(s.rules, vm) + RulesOf(vm, info), true, Some(info), Idle))
  {
    var base := Without(s.rules, vm);
    var t := View(base + RulesOf(vm, info), true, Some(info), Idle);
    WithoutOwnsNone(s.rules, vm);
    BridgingLeads(vm, base, info);
    if s.saved.Some? {
      TakingDownLeads(vm, Happen(vm, s, CallStart(vm, info)), false, t);
    } else {
      WithoutNone(s.rules, vm);
    }
    LeadsOn(vm, s, CallStart(vm, info), t);
  }

  /** A whole start that completes leads where a run of single commands leads. */
  method StartBySteps(m: Machine, vm: nat, info: NetworkInfo) returns (ok: bool)
    requires m.Valid() && info.outInterface.External?
    modifies m
    ensures m.Valid()
    ensures ok ==> Leads(vm, old(ViewOf(m.rules, m.bridges, m.saved, vm)), ViewOf(m.rules, m.bridges, m.saved, vm))
  {
    ghost var s := ViewOf(m.rules, m.bridges, m.saved, vm);
    assert m.Orderly(vm);
    if vm in m.saved || vm !in m.bridges {
      StartLeads(vm, s, info);
    }
    ok := m.Start(vm, info);
  }

  /** So does a whole stop. */
  method StopBySteps(m: Machine, vm: nat) returns (ok: bool)
    requires m.Valid()
    modifies m
    ensures m.Valid()
    ensures ok ==> Leads(vm, old(ViewOf(m.rules, m.bridges, m.saved, vm)), ViewOf(m.rules, m.bridges, m.saved, vm))
  {
    ghost var s := ViewOf(m.rules, m.bridges, m.saved, vm);
    assert m.Orderly(vm);
    LeadsThere(vm, s);
    if vm in m.saved {
      StopLeads(vm, s, true);
      StopLeads(vm, s, false);
    }
    ok := m.Stop(vm);
  }
}
