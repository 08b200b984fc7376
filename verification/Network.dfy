/**
 The networks of the virtual machines (drakrun/lib/networking.py): bridges, saved network
 descriptions and firewall rules, changed by commands any of which may fail.
 */
module Network {
  import opened Common

  datatype Interface = Bridge(vm: nat) | External(name: string)

  /**
   A rule of DRAKRUN_INP (the first three), of DRAKRUN_FWD and of DRAKRUN_PRT. The rules of
   all chains are kept in one list; the order of rules in different chains means nothing.
   */
  datatype Rule =
    | AcceptDhcp(bridge: Interface)
    | AcceptDns(bridge: Interface)
    | DropAll(bridge: Interface)
    | Forward(source: Interface, target: Interface)
    | Masquerade(network: nat, out: Interface)

  /** dnsOnGateway: the VM is told to use its gateway as DNS server. */
  datatype NetworkInfo = NetworkInfo(netEnable: bool, outInterface: Interface, dnsOnGateway: bool)

  /** The rule is about the VM: it names its bridge or its network. */
  predicate Owns(vm: nat, r: Rule) {
    match r
    case AcceptDhcp(b) => b == Bridge(vm)
    case AcceptDns(b) => b == Bridge(vm)
    case DropAll(b) => b == Bridge(vm)
    case Forward(i, o) => i == Bridge(vm) || o == Bridge(vm)
    case Masquerade(n, _) => n == vm
  }

  /** The rules that are not about the VM. */
  function Without(rules: seq<Rule>, vm: nat): seq<Rule> {
    if rules == [] then []
    else Without(rules[..|rules| - 1], vm) + (if Owns(vm, rules[|rules| - 1]) then [] else [rules[|rules| - 1]])
  }

  predicate OwnsNone(rules: seq<Rule>, vm: nat) {
    forall r :: r in rules ==> !Owns(vm, r)
  }

  function ForwardingRules(vm: nat, info: NetworkInfo): seq<Rule> {
    [Masquerade(vm, info.outInterface)]
    + [Forward(Bridge(vm), info.outInterface), Forward(info.outInterface, Bridge(vm))]
  }

  /** What a network needs, in the order in which start_vm_network asks for it. */
  function RulesOf(vm: nat, info: NetworkInfo): seq<Rule> {
    [AcceptDhcp(Bridge(vm))]
    + (if info.netEnable && info.dnsOnGateway then [AcceptDns(Bridge(vm))] else [])
    + [DropAll(Bridge(vm))]
    + (if info.netEnable then ForwardingRules(vm, info) else [])
  }

  /**
   What a running network has: DHCP is accepted from its machine, and DNS when the machine
   asks its gateway; everything else from it is dropped; and when it is enabled, traffic is
   forwarded both ways and masqueraded. No other rule is about the machine.
   */
  ghost predicate HasNetwork(rules: seq<Rule>, vm: nat, info: NetworkInfo) {
    && AcceptDhcp(Bridge(vm)) in rules && DropAll(Bridge(vm)) in rules
    && (AcceptDns(Bridge(vm)) in rules <==> info.netEnable && info.dnsOnGateway)
    && (Masquerade(vm, info.outInterface) in rules <==> info.netEnable)
    && (Forward(Bridge(vm), info.outInterface) in rules <==> info.netEnable)
    && (Forward(info.outInterface, Bridge(vm)) in rules <==> info.netEnable)
    && forall r :: r in rules ==> Through(r, vm, info.outInterface)
  }

  /** A rule that forwards or masquerades for the machine does so through its outgoing interface. */
  predicate Through(r: Rule, vm: nat, out: Interface) {
    match r
    case Forward(i, o) => (i == Bridge(vm) ==> o == out) && (o == Bridge(vm) ==> i == out)
    case Masquerade(n, o) => n == vm ==> o == out
    case _ => true
  }

  /** No rule names the machine's bridge or its network. */
  ghost predicate NoneAbout(rules: seq<Rule>, vm: nat) {
    && AcceptDhcp(Bridge(vm)) !in rules && AcceptDns(Bridge(vm)) !in rules && DropAll(Bridge(vm)) !in rules
    && forall other :: Forward(Bridge(vm), other) !in rules && Forward(other, Bridge(vm)) !in rules
                       && Masquerade(vm, other) !in rules
  }

  /** No rule that accepts comes behind the rule that drops everything from the VM. */
  ghost predicate DropsLast(rules: seq<Rule>, vm: nat) {
    forall i, j :: 0 <= i < j < |rules| && rules[i] == DropAll(Bridge(vm)) ==>
      rules[j] != AcceptDhcp(Bridge(vm)) && rules[j] != AcceptDns(Bridge(vm))
  }

  lemma OwnsNoneExactly(rules: seq<Rule>, vm: nat)
    ensures OwnsNone(rules, vm) <==> NoneAbout(rules, vm)
  {
    if NoneAbout(rules, vm) {
      forall r | r in rules ensures !Owns(vm, r) {
        match r
        case Forward(i, o) => assert Forward(i, o) in rules;
        case Masquerade(n, o) => assert Masquerade(n, o) in rules;
        case _ =>
      }
    }
  }

  // ---------- Rule lists ----------

  function RemoveFirst(rules: seq<Rule>, r: Rule): seq<Rule> {
    if rules == [] then []
    else if rules[0] == r then rules[1..]
    else [rules[0]] + RemoveFirst(rules[1..], r)
  }

  /** Without any copy of one rule. */
  function WithoutRule(rules: seq<Rule>, r: Rule): seq<Rule> {
    if rules == [] then []
    else if rules[0] == r then WithoutRule(rules[1..], r)
    else [rules[0]] + WithoutRule(rules[1..], r)
  }

  lemma {:induction false} RemoveFirstKeepsOthers(rules: seq<Rule>, r: Rule)
    ensures WithoutRule(RemoveFirst(rules, r), r) == WithoutRule(rules, r)
  {
    if rules != [] && rules[0] != r {
      RemoveFirstKeepsOthers(rules[1..], r);
      assert ([rules[0]] + RemoveFirst(rules[1..], r))[1..] == RemoveFirst(rules[1..], r);
    }
  }

  lemma {:induction false} NoCopyLeft(rules: seq<Rule>, r: Rule)
    requires r !in rules
    ensures WithoutRule(rules, r) == rules
  {
    if rules != [] { NoCopyLeft(rules[1..], r); }
  }

  lemma {:induction false} WithoutSplit(a: seq<Rule>, b: seq<Rule>, vm: nat)
    ensures Without(a + b, vm) == Without(a, vm) + Without(b, vm)
  {
    if b == [] {
      assert a + b == a;
    } else {
      var k := |b| - 1;
      assert (a + b)[..|a| + k] == a + b[..k];
      WithoutSplit(a, b[..k], vm);
    }
  }

  lemma {:induction false} WithoutNone(rules: seq<Rule>, vm: nat)
    requires OwnsNone(rules, vm)
    ensures Without(rules, vm) == rules
  {
    if rules != [] { WithoutNone(rules[..|rules| - 1], vm); }
  }

  lemma {:induction false} WithoutAll(rules: seq<Rule>, vm: nat)
    requires forall i :: 0 <= i < |rules| ==> Owns(vm, rules[i])
    ensures Without(rules, vm) == []
  {
    if rules != [] { WithoutAll(rules[..|rules| - 1], vm); }
  }

  lemma {:induction false} WithoutOwnsNone(rules: seq<Rule>, vm: nat)
    ensures OwnsNone(Without(rules, vm), vm)
  {
    if rules != [] { WithoutOwnsNone(rules[..|rules| - 1], vm); }
  }

  lemma {:induction false} RemoveFirstExact(rules: seq<Rule>, r: Rule) returns (k: nat)
    requires r in rules
    ensures k < |rules| && rules[k] == r && RemoveFirst(rules, r) == rules[..k] + rules[k + 1..]
  {
    if rules[0] == r {
      k := 0;
    } else {
      assert rules == [rules[0]] + rules[1..];
      var j := RemoveFirstExact(rules[1..], r);
      k := j + 1;
      assert rules[..k] == [rules[0]] + rules[1..][..j];
      assert rules[1..][j + 1..] == rules[k + 1..];
    }
  }

  /** Deleting one rule of a VM. */
  lemma RemoveFirstKeeps(rules: seq<Rule>, r: Rule, vm: nat)
    requires r in rules && Owns(vm, r)
    ensures Without(RemoveFirst(rules, r), vm) == Without(rules, vm)
    ensures |RemoveFirst(rules, r)| < |rules|
    ensures forall x :: x in RemoveFirst(rules, r) ==> x in rules
    ensures forall x :: x in rules && x != r ==> x in RemoveFirst(rules, r)
    ensures forall v :: DropsLast(rules, v) ==> DropsLast(RemoveFirst(rules, r), v)
  {
    var k := RemoveFirstExact(rules, r);
    var a, b := rules[..k], rules[k + 1..];
    assert rules == a + [r] + b;
    WithoutSplit(a + [r], b, vm);
    WithoutSplit(a, [r], vm);
    WithoutAll([r], vm);
    WithoutSplit(a, b, vm);
    forall v: nat | DropsLast(rules, v) ensures DropsLast(a + b, v) {
      StillLast(rules, a, r, b, v);
    }
  }

  lemma StillLast(rules: seq<Rule>, a: seq<Rule>, r: Rule, b: seq<Rule>, v: nat)
    requires rules == a + [r] + b && DropsLast(rules, v)
    ensures DropsLast(a + b, v)
  {
    forall i, j | 0 <= i < j < |a + b| && (a + b)[i] == DropAll(Bridge(v))
      ensures (a + b)[j] != AcceptDhcp(Bridge(v)) && (a + b)[j] != AcceptDns(Bridge(v))
    {
      var i', j' := if i < |a| then i else i + 1, if j < |a| then j else j + 1;
      assert rules[i'] == (a + b)[i] && rules[j'] == (a + b)[j];
    }
  }

  // ---------- The machine ----------

  ghost predicate OnlyOwns(rules: seq<Rule>, vm: nat, allowed: seq<Rule>) {
    forall r :: r in rules && Owns(vm, r) ==> r in allowed
  }

  /**
   What holds for a VM between any two commands: without a bridge and a saved description
   it owns no rule; a description names all its rules; its accepting rules come before the
   dropping one.
   */
  ghost predicate InOrder(rules: seq<Rule>, vm: nat, hasBridge: bool, saved: Option<NetworkInfo>) {
    && DropsLast(rules, vm)
    && (saved.Some? ==> saved.value.outInterface.External? && OnlyOwns(rules, vm, RulesOf(vm, saved.value)))
    && (saved.None? && !hasBridge ==> OwnsNone(rules, vm))
  }

  class Machine {
    var rules: seq<Rule>
    var bridges: set<nat>
    var saved: map<nat, NetworkInfo>

    ghost predicate Orderly(vm: nat)
      reads this
    {
      InOrder(rules, vm, vm in bridges, if vm in saved then Some(saved[vm]) else None)
    }

    ghost predicate Valid()
      reads this
    {
      forall vm: nat :: Orderly(vm)
    }

    constructor ()
      ensures Valid() && rules == []
    {
      rules, bridges, saved := [], {}, map[];
    }

    /** iptables -C: right, or an error. */
    method RuleExists(r: Rule) returns (ok: bool, exists': bool)
      ensures ok ==> (exists' <==> r in rules)
    {
      ok := *;
      exists' := r in rules;
    }

    method AddRule(r: Rule) returns (ok: bool)
      modifies this`rules
      ensures rules == if ok && r !in old(rules) then old(rules) + [r] else old(rules)
    {
      var found;
      ok, found := RuleExists(r);
      if ok && !found {
        ok := *;
        if ok { rules := rules + [r]; }
      }
    }

    /** Deletes every copy of the rule, or fails behind some of them. */
    method DelRule(r: Rule, ghost vm: nat) returns (ok: bool)
      requires Owns(vm, r)
      modifies this`rules
      ensures ok ==> r !in rules
      ensures Without(rules, vm) == Without(old(rules), vm)
      ensures forall x :: x in rules ==> x in old(rules)
      ensures WithoutRule(rules, r) == WithoutRule(old(rules), r)
      ensures ok ==> rules == WithoutRule(old(rules), r)
      ensures forall v :: DropsLast(old(rules), v) ==> DropsLast(rules, v)
    {
      var allCleared := false;
      while !allCleared
        invariant allCleared ==> r !in rules
        invariant Without(rules, vm) == Without(old(rules), vm)
        invariant forall x :: x in rules ==> x in old(rules)
        invariant WithoutRule(rules, r) == WithoutRule(old(rules), r)
        invariant forall v :: DropsLast(old(rules), v) ==> DropsLast(rules, v)
        decreases |rules|, !allCleared
      {
        var checked, found := RuleExists(r);
        if !checked {
          return false;
        }
        if found {
          var deleted: bool := *;
          if !deleted {
            return false;
          }
          RemoveFirstKeeps(rules, r, vm);
          RemoveFirstKeepsOthers(rules, r);
          rules := RemoveFirst(rules, r);
        } else {
          allCleared := true;
        }
      }
      NoCopyLeft(rules, r);
      ok := true;
    }

    /**
     Takes the bridge down and deletes it. It fails exactly when a bridge that is there
     cannot be taken down; missed: the bridge stays, as its deletion fails unnoticed.
     */
    method DeleteBridge(vm: nat) returns (ok: bool, ghost missed: bool)
      modifies this`bridges
      ensures !ok ==> vm in old(bridges)
      ensures bridges == if ok && !missed then old(bridges) - {vm} else old(bridges)
    {
      missed := false;
      var down: bool := *;
      if !down {
        // the device cannot be found, or the bridge stays as it is and the stop fails
        return vm !in bridges, false;
      }
      var deleted: bool := *;
      missed := !deleted;
      if deleted { bridges := bridges - {vm}; }
      ok := true;
    }

    /** Deletes the rules one after the other. */
    method DelRules(rs: seq<Rule>, vm: nat) returns (ok: bool)
      requires forall i :: 0 <= i < |rs| ==> Owns(vm, rs[i])
      modifies this`rules
      ensures ok ==> forall x :: x in rs ==> x !in rules
      ensures Without(rules, vm) == Without(old(rules), vm)
      ensures forall x :: x in rules ==> x in old(rules)
      ensures forall v :: DropsLast(old(rules), v) ==> DropsLast(rules, v)
    {
      for i := 0 to |rs|
        invariant forall x :: x in rs[..i] ==> x !in rules
        invariant Without(rules, vm) == Without(old(rules), vm)
        invariant forall x :: x in rules ==> x in old(rules)
        invariant forall v :: DropsLast(old(rules), v) ==> DropsLast(rules, v)
      {
        ok := DelRule(rs[i], vm);
        if !ok { return; }
        assert rs[..i + 1] == rs[..i] + [rs[i]];
      }
      assert rs[..|rs|] == rs;
      ok := true;
    }

    /**
     stop_vm_network. Whatever fails, the other VMs keep their rules and the VM stays in
     order; a stop that completes leaves no rule of the VM behind, whatever the
     configuration is by then.
     */
    method Stop(vm: nat) returns (ok: bool)
      requires Valid()
      modifies this
      ensures Valid() && Without(rules, vm) == Without(old(rules), vm)
      ensures vm !in old(saved) ==> ok && rules == old(rules) && bridges == old(bridges) && saved == old(saved)
      ensures vm in old(saved) && ok ==>
                OwnsNone(rules, vm) && rules == Without(old(rules), vm) && saved == old(saved) - {vm}
      ensures !ok ==> saved == old(saved)
      ensures bridges == old(bridges) || bridges == old(bridges) - {vm}
    {
      if vm !in saved {
        return true;
      }
      var info := saved[vm];
      assert Orderly(vm);
      var dnsmasq: bool := *;
      if !dnsmasq {
        return false;
      }
      ghost var missed;
      ok, missed := DeleteBridge(vm);
      if ok {
        ok := DelRules(StopList(vm, info), vm);
      }
      forall v: nat ensures Orderly(v) {
        assert old(Orderly(v));
      }
      if ok {
        NothingLeft(old(rules), rules, vm, info);
        var removed: bool := *;
        if !removed {
          return false;
        }
        saved := saved - {vm};
        forall v: nat ensures Orderly(v) {
          assert old(Orderly(v));
        }
      }
    }

    /**
     start_vm_network. A start that fails anywhere leaves every VM in order and the rules of
     the other VMs alone; one that completes adds exactly the rules of the new network.
     */
    method Start(vm: nat, info: NetworkInfo) returns (ok: bool)
      requires Valid() && info.outInterface.External?
      modifies this
      ensures Valid() && Without(rules, vm) == Without(old(rules), vm)
      ensures vm !in old(saved) && vm in old(bridges) ==>
        !ok && rules == old(rules) && bridges == old(bridges) && saved == old(saved)
      ensures ok ==> rules == Without(old(rules), vm) + RulesOf(vm, info)
                     && bridges == old(bridges) + {vm} && saved == old(saved)[vm := info]
      ensures ok ==> HasNetwork(rules, vm, info)
      ensures !ok ==> saved == old(saved) || saved == old(saved) - {vm} || saved == old(saved)[vm := info]
    {
      ok := *;      // setting up the chains
      if !ok { return; }
      if vm in saved {
        ok := Stop(vm);
        if !ok { return; }
      }
      ok := BringUp(vm, info);
    }

    /** The start of a machine without a description. */
    method BringUp(vm: nat, info: NetworkInfo) returns (ok: bool)
      requires Valid() && info.outInterface.External? && vm !in saved
      modifies this
      ensures Valid() && Without(rules, vm) == Without(old(rules), vm)
      ensures vm in old(bridges) ==>
        !ok && rules == old(rules) && bridges == old(bridges) && saved == old(saved)
      ensures ok ==> rules == Without(old(rules), vm) + RulesOf(vm, info)
                     && bridges == old(bridges) + {vm} && saved == old(saved)[vm := info]
      ensures ok ==> HasNetwork(rules, vm, info)
      ensures !ok ==> saved == old(saved) || saved == old(saved)[vm := info]
    {
      assert Orderly(vm);
      ok := *;      // the script before, and the command that creates the bridge
      if !ok || vm in bridges {
        return false;
      }
      WithoutNone(rules, vm);
      AddedNetwork(rules, vm, info);
      ok := SetUp(vm, info);
    }

    /** From the new bridge to the script behind. */
    method SetUp(vm: nat, info: NetworkInfo) returns (ok: bool)
      requires Valid() && info.outInterface.External?
      requires vm !in bridges && vm !in saved && OwnsNone(rules, vm)
      modifies this
      ensures Valid() && Without(rules, vm) == old(rules)
      ensures ok ==> rules == old(rules) + RulesOf(vm, info) && saved == old(saved)[vm := info]
      ensures bridges == old(bridges) + {vm}
      ensures !ok ==> saved == old(saved) || saved == old(saved)[vm := info]
    {
      ghost var base, n := rules, 0;
      bridges := bridges + {vm};
      ok := *;      // its address and its state
      if ok {
        ok, n := AddRules(vm, info, base);
      }
      assert rules == base + RulesOf(vm, info)[..n];
      PartlyAdded(base, vm, info, n);
      if ok {
        ok := *;      // dnsmasq and writing the description
        if ok {
          saved := saved[vm := info];
          ok := *;      // the script behind
        }
      }
      forall v: nat ensures Orderly(v) {
        assert old(Orderly(v));
        if v != vm { OtherInOrder(base, vm, info, n, v, v in bridges, if v in saved then Some(saved[v]) else None); }
      }
    }

    /** One more of the rules. */
    method AddNext(r: Rule, vm: nat, info: NetworkInfo, ghost base: seq<Rule>, ghost n: nat) returns (ok: bool)
      requires info.outInterface.External? && OwnsNone(base, vm)
      requires n < |RulesOf(vm, info)| && r == RulesOf(vm, info)[n] && rules == base + RulesOf(vm, info)[..n]
      modifies this`rules
      ensures rules == base + RulesOf(vm, info)[..if ok then n + 1 else n]
    {
      NotYet(base, vm, info, n);
      ok := AddRule(r);
    }

    /** The rules of a network, in order; n of them were added. */
    method AddRules(vm: nat, info: NetworkInfo, ghost base: seq<Rule>) returns (ok: bool, ghost n: nat)
      requires info.outInterface.External? && OwnsNone(base, vm) && rules == base
      modifies this`rules
      ensures n <= |RulesOf(vm, info)| && rules == base + RulesOf(vm, info)[..n]
      ensures ok ==> n == |RulesOf(vm, info)|
    {
      n := 0;
      ok := AddNext(AcceptDhcp(Bridge(vm)), vm, info, base, n);
      if !ok { return; }
      n := n + 1;
      if info.netEnable && info.dnsOnGateway {
        ok := AddNext(AcceptDns(Bridge(vm)), vm, info, base, n);
        if !ok { return; }
        n := n + 1;
      }
      ok := AddNext(DropAll(Bridge(vm)), vm, info, base, n);
      if !ok { return; }
      n := n + 1;
      if info.netEnable {
        ok := *;      // the interface exists, and forwarding can be switched on
        if !ok { return; }
        ok := AddNext(Masquerade(vm, info.outInterface), vm, info, base, n);
        if !ok { return; }
        n := n + 1;
        ok := AddNext(Forward(Bridge(vm), info.outInterface), vm, info, base, n);
        if !ok { return; }
        n := n + 1;
        ok := AddNext(Forward(info.outInterface, Bridge(vm)), vm, info, base, n);
        if !ok { return; }
        n := n + 1;
      }
    }

    /**
     A network that is started and, after any other starts and stops, stopped again: when
     both complete, nothing of it is left, and the rest is as the others left it.
     */
    method StartOthersStop(vm: nat, info: NetworkInfo, others: seq<Operation>)
      returns (completed: bool, ghost left: seq<Rule>)
      requires Valid() && info.outInterface.External?
      requires forall o :: o in others ==> LeavesByExternal(o) && o.vm != vm
      modifies this
      ensures Valid() && Outside(left, Vms(others) + {vm}) == Outside(old(rules), Vms(others) + {vm})
      ensures completed ==> OwnsNone(rules, vm) && rules == Without(left, vm)
      ensures completed && others == [] ==> rules == Without(old(rules), vm)
      ensures completed && others == [] && OwnsNone(old(rules), vm) ==> rules == old(rules)
    {
      if OwnsNone(rules, vm) { WithoutNone(rules, vm); }
      completed := Start(vm, info);
      ghost var vms := Vms(others) + {vm};
      OutsideWithout(old(rules), rules, vm, vms);
      Run(others, vms);
      left := rules;
      if completed && vm in saved {
        if others == [] { WithoutTwice(old(rules), RulesOf(vm, info), vm, info); }
        completed := Stop(vm);
      } else {
        completed := false;
      }
    }

    /** Any sequence of starts and stops, completed or not, keeps every VM in order and touches no rule but theirs. */
    method Run(ops: seq<Operation>, ghost vms: set<nat>)
      requires Valid() && forall o :: o in ops ==> LeavesByExternal(o) && o.vm in vms
      modifies this
      ensures Valid() && Outside(rules, vms) == Outside(old(rules), vms)
      ensures ops == [] ==> rules == old(rules) && saved == old(saved)
    {
      for i := 0 to |ops|
        invariant Valid() && Outside(rules, vms) == Outside(old(rules), vms)
        invariant i == 0 ==> rules == old(rules) && saved == old(saved)
      {
        assert ops[i] in ops;
        ghost var before := rules;
        match ops[i] {
          case StartOp(vm, info) => var _ := Start(vm, info);
          case StopOp(vm) => var _ := Stop(vm);
        }
        OutsideWithout(before, rules, ops[i].vm, vms);
      }
    }
  }

  datatype Operation = StartOp(vm: nat, info: NetworkInfo) | StopOp(vm: nat)

  predicate LeavesByExternal(o: Operation) {
    o.StartOp? ==> o.info.outInterface.External?
  }

  function Vms(ops: seq<Operation>): set<nat> {
    set o | o in ops :: o.vm
  }

  ghost predicate Concerns(vms: set<nat>, r: Rule) {
    exists vm :: vm in vms && Owns(vm, r)
  }

  /** The rules that are about none of the VMs. */
  ghost function Outside(rules: seq<Rule>, vms: set<nat>): seq<Rule> {
    if rules == [] then []
    else
      var last := rules[|rules| - 1];
      Outside(rules[..|rules| - 1], vms) + (if Concerns(vms, last) then [] else [last])
  }

  lemma {:induction false} OutsideOfWithout(rules: seq<Rule>, vm: nat, vms: set<nat>)
    requires vm in vms
    ensures Outside(Without(rules, vm), vms) == Outside(rules, vms)
  {
    if rules != [] {
      var k := |rules| - 1;
      OutsideOfWithout(rules[..k], vm, vms);
      if Owns(vm, rules[k]) {
        assert Concerns(vms, rules[k]);
        assert Without(rules, vm) == Without(rules[..k], vm);
      } else {
        var w := Without(rules[..k], vm);
        assert (w + [rules[k]])[..|w|] == w;
      }
    }
  }

  lemma OutsideWithout(before: seq<Rule>, rules: seq<Rule>, vm: nat, vms: set<nat>)
    requires Without(before, vm) == Without(rules, vm) && vm in vms
    ensures Outside(before, vms) == Outside(rules, vms)
  {
    OutsideOfWithout(before, vm, vms);
    OutsideOfWithout(rules, vm, vms);
  }

  /** Removing a network's rules from a list they were just added to. */
  lemma WithoutTwice(before: seq<Rule>, added: seq<Rule>, vm: nat, info: NetworkInfo)
    requires added == RulesOf(vm, info) && info.outInterface.External?
    ensures Without(Without(before, vm) + added, vm) == Without(before, vm)
  {
    OwnRules(vm, info, vm);
    assert forall i :: 0 <= i < |added| ==> added[i] in added;
    WithoutSplit(Without(before, vm), added, vm);
    WithoutAll(added, vm);
    WithoutOwnsNone(before, vm);
    WithoutNone(Without(before, vm), vm);
  }

  /** The rules of a network are its own, and different from each other. */
  lemma OwnRules(vm: nat, info: NetworkInfo, v: nat)
    requires info.outInterface.External?
    ensures forall r :: r in RulesOf(vm, info) ==> (Owns(v, r) <==> v == vm)
    ensures Distinct(RulesOf(vm, info))
  {
  }

  lemma AddedNetwork(base: seq<Rule>, vm: nat, info: NetworkInfo)
    requires info.outInterface.External? && OwnsNone(base, vm)
    ensures HasNetwork(base + RulesOf(vm, info), vm, info)
  {
    var rules := base + RulesOf(vm, info);
    assert forall r :: r in rules <==> r in base || r in RulesOf(vm, info);
    assert forall r :: r in base ==> !Owns(vm, r);
  }

  lemma NotYet(base: seq<Rule>, vm: nat, info: NetworkInfo, n: nat)
    requires info.outInterface.External? && OwnsNone(base, vm) && n < |RulesOf(vm, info)|
    ensures RulesOf(vm, info)[n] !in base + RulesOf(vm, info)[..n]
    ensures base + RulesOf(vm, info)[..n] + [RulesOf(vm, info)[n]] == base + RulesOf(vm, info)[..n + 1]
  {
    OwnRules(vm, info, vm);
    assert RulesOf(vm, info)[n] in RulesOf(vm, info);
  }

  /** With some of its rules added, the VM is in order, with its description saved or not. */
  lemma PartlyAdded(base: seq<Rule>, vm: nat, info: NetworkInfo, n: nat)
    requires info.outInterface.External? && OwnsNone(base, vm) && n <= |RulesOf(vm, info)|
    ensures var rules := base + RulesOf(vm, info)[..n];
            Without(rules, vm) == base && InOrder(rules, vm, true, None) && InOrder(rules, vm, true, Some(info))
  {
    var added := RulesOf(vm, info)[..n];
    OwnRules(vm, info, vm);
    assert forall r :: r in added ==> r in RulesOf(vm, info);
    WithoutSplit(base, added, vm);
    WithoutNone(base, vm);
    WithoutAll(added, vm);
    RulesDropLast(base, vm, info, n);
  }

  lemma RulesDropLast(base: seq<Rule>, vm: nat, info: NetworkInfo, n: nat)
    requires OwnsNone(base, vm) && n <= |RulesOf(vm, info)|
    ensures DropsLast(base + RulesOf(vm, info)[..n], vm)
  {
    var all := RulesOf(vm, info);
    var rules := base + all[..n];
    assert forall k, l :: 0 <= k < l < |all| && all[k] == DropAll(Bridge(vm)) ==>
        all[l] != AcceptDhcp(Bridge(vm)) && all[l] != AcceptDns(Bridge(vm));
    forall i | 0 <= i < |base| ensures base[i] != DropAll(Bridge(vm)) {
      assert base[i] in base && !Owns(vm, base[i]);
    }
    forall i, j | 0 <= i < j < |rules| && rules[i] == DropAll(Bridge(vm))
      ensures rules[j] != AcceptDhcp(Bridge(vm)) && rules[j] != AcceptDns(Bridge(vm))
    {
      assert all[i - |base|] == rules[i] && all[j - |base|] == rules[j];
    }
  }

  /** The rules of one network leave another VM in order. */
  lemma OtherInOrder(base: seq<Rule>, vm: nat, info: NetworkInfo, n: nat, v: nat, hasBridge: bool,
                     saved: Option<NetworkInfo>)
    requires info.outInterface.External? && n <= |RulesOf(vm, info)| && v != vm
    requires InOrder(base, v, hasBridge, saved)
    ensures InOrder(base + RulesOf(vm, info)[..n], v, hasBridge, saved)
  {
    var added := RulesOf(vm, info)[..n];
    OwnRules(vm, info, v);
    assert forall r :: r in added ==> r in RulesOf(vm, info);
    var rules := base + added;
    forall i, j | 0 <= i < j < |rules| && rules[i] == DropAll(Bridge(v))
      ensures rules[j] != AcceptDhcp(Bridge(v)) && rules[j] != AcceptDns(Bridge(v))
    {
      assert j >= |base| ==> rules[j] in added;
    }
  }

  lemma NothingLeft(before: seq<Rule>, rules: seq<Rule>, vm: nat, info: NetworkInfo)
    requires OnlyOwns(before, vm, RulesOf(vm, info)) && forall x :: x in rules ==> x in before
    requires forall x :: x in StopList(vm, info) ==> x !in rules
    ensures OwnsNone(rules, vm) && Without(rules, vm) == rules
  {
    assert forall r :: r in RulesOf(vm, info) ==> r in StopList(vm, info);
    WithoutNone(rules, vm);
  }

  /** The rules a stop deletes. */
  function StopList(vm: nat, info: NetworkInfo): (r: seq<Rule>)
    ensures forall i :: 0 <= i < |r| ==> Owns(vm, r[i])
  {
    [AcceptDhcp(Bridge(vm)), AcceptDns(Bridge(vm)), DropAll(Bridge(vm))]
    + (if info.netEnable then ForwardingRules(vm, info) else [])
  }
}
