/**
When the program arrays agree with the id hashes: every loaded service that has a slot sits in it
(src/daemon/loader.cc:96-116, src/ebpf/pinned_prog_map.cc:300-353).
*/
module ChainAgreement {
  import opened Chain
  import opened ChainSpec
  import opened Configs
  import opened Hooks
  import opened LoaderSpec
  import opened PinnedProgMap
  import opened Wrappers

  /**
  A service whose name agrees with its library's and which, for a hook that has chain maps, comes with a main
  program compiled with the registered id.
  */
  predicate Genuine(env: Env, name: string, prog: Option<Prog>, hook: HookType, path: string) {
    var official := env.scheme.official(hook, path);
    && env.scheme.program(hook, name) == official
    && (ProgMap.HasMaps(hook) ==>
          prog.Some? && (Known(env.reg, hook, official) ==> prog.value.id == env.reg[official].id))
  }

  ghost predicate WellBuilt(env: Env, lib: string, hook: HookType) {
    forall k | env.factory(env.scheme.file(lib), k).Some? ::
      var svc := env.factory(env.scheme.file(lib), k).value;
      Genuine(env, svc.name, svc.prog, hook, env.scheme.file(lib))
  }

  /** Ids of one hook are given out once. */
  ghost predicate IdsUnique(reg: Registry) {
    forall a, b | a in reg && b in reg && reg[a] == reg[b] :: a == b
  }

  ghost predicate Injective(hash: IdHash) {
    forall k, l | k in hash && l in hash && hash[k] == hash[l] :: k == l
  }

  ghost predicate EnvOk(env: Env, hook: HookType) {
    SchemeOk(env.scheme) && IdsUnique(env.reg) && Injective(env.HashOf(hook)) && ProgMap.HasMaps(hook)
  }

  /** A service that has a slot sits in it. */
  ghost predicate Seated(env: Env, slots: Slots, h: Handle) {
    h.prog.Some? && env.SlotOf(h).Some? ==> env.SlotOf(h).value < |slots| && slots[env.SlotOf(h).value] == h.prog
  }

  ghost predicate AllGenuine(env: Env, s: LoaderState) {
    forall lib | lib in s.services ::
      Genuine(env, s.services[lib].name, s.services[lib].prog, s.services[lib].hook, env.scheme.file(lib))
  }

  ghost predicate AllSeated(env: Env, hook: HookType, s: LoaderState) {
    forall lib | lib in s.services && s.services[lib].hook == hook :: Seated(env, s.SlotsOf(hook), s.services[lib])
  }

  ghost predicate Agree(env: Env, hook: HookType, s: LoaderState) {
    |s.SlotsOf(hook)| == MAX_CHAIN_PROGS && AllGenuine(env, s) && AllSeated(env, hook, s)
  }

  /** No program stands in a slot that the hash does not name. */
  ghost predicate OnlyListed(env: Env, hook: HookType, s: LoaderState) {
    forall i | 0 <= i < |s.SlotsOf(hook)| && s.SlotsOf(hook)[i].Some? :: i in env.HashOf(hook).Values
  }

  /** One slot means one NIC and one name. */
  lemma SameSlot(env: Env, hook: HookType, h: Handle, h': Handle)
    requires EnvOk(env, hook) && h.hook == h'.hook == hook
    requires env.SlotOf(h).Some? && env.SlotOf(h) == env.SlotOf(h')
    ensures h.nic == h'.nic && env.scheme.program(hook, h.name) == env.scheme.program(hook, h'.name)
  {
    var a, b := env.scheme.program(hook, h.name), env.scheme.program(hook, h'.name);
    ChainKeyInjective(h.nic, env.reg[a].id, h'.nic, env.reg[b].id);
  }

  /** No loaded service has the hook, the NIC and the name that a library is about to be loaded with. */
  ghost predicate SeatFree(env: Env, s: LoaderState, lib: string, hook: HookType, nic: Ifindex) {
    forall l | l in s.services && s.services[l].hook == hook && s.services[l].nic == nic ::
      env.scheme.official(hook, env.scheme.file(l)) != env.scheme.official(hook, env.scheme.file(lib))
  }

  lemma InsertedSlots(env: Env, hook: HookType, s: LoaderState, h: Handle)
    requires ProgMap.HasMaps(hook) && |s.SlotsOf(hook)| == MAX_CHAIN_PROGS
    ensures var s' := Inserted(env, s, h);
            && s'.services == s.services && s'.watched == s.watched && s'.loads == s.loads
            && s'.SlotsOf(hook) ==
               if h.hook == hook && h.prog.Some? && env.SlotOf(h).Some?
               then s.SlotsOf(hook)[env.SlotOf(h).value := h.prog]
               else s.SlotsOf(hook)
  {
  }

  /** A load adds one service and otherwise changes configurations only. */
  lemma LoadAdds(env: Env, s: LoaderState, lib: string, at: HookType, nic: Ifindex, config: string)
    requires lib !in s.services && env.factory(env.scheme.file(lib), s.loads).Some?
    ensures var svc := env.factory(env.scheme.file(lib), s.loads).value;
            var s' := ApplyLoad(env, s, lib, at, nic, config);
            && s'.services.Keys == s.services.Keys + {lib}
            && s'.services[lib] == Handle(svc.name, s'.services[lib].config, at, nic, svc.prog)
            && forall l | l in s.services :: s'.services[l] == s.services[l].(config := s'.services[l].config)
  {
    var svc := env.factory(env.scheme.file(lib), s.loads).value;
    var h := Handle(svc.name, "", at, nic, svc.prog);
    InsertedLeavesServices(env, Registered(env, Added(s, lib, h), lib, config), h);
  }

  lemma LoadSlots(env: Env, hook: HookType, s: LoaderState, lib: string, at: HookType, nic: Ifindex, config: string)
    requires ProgMap.HasMaps(hook) && |s.SlotsOf(hook)| == MAX_CHAIN_PROGS && lib !in s.services
    requires env.factory(env.scheme.file(lib), s.loads).Some?
    ensures var svc := env.factory(env.scheme.file(lib), s.loads).value;
            var h := Handle(svc.name, "", at, nic, svc.prog);
            ApplyLoad(env, s, lib, at, nic, config).SlotsOf(hook) ==
            if at == hook && svc.prog.Some? && env.SlotOf(h).Some?
            then s.SlotsOf(hook)[env.SlotOf(h).value := svc.prog]
            else s.SlotsOf(hook)
  {
    var svc := env.factory(env.scheme.file(lib), s.loads).value;
    var h := Handle(svc.name, "", at, nic, svc.prog);
    var s1 := Registered(env, Added(s, lib, h), lib, config);
    assert s1.SlotsOf(hook) == s.SlotsOf(hook);
    InsertedSlots(env, hook, s1, h);
  }

  /** Writing one seat leaves every other seated service seated. */
  lemma OthersStaySeated(env: Env, hook: HookType, slots: Slots, h: Handle, l: Handle)
    requires EnvOk(env, hook) && |slots| == MAX_CHAIN_PROGS && l.hook == hook && Seated(env, slots, l)
    requires h.hook == hook && h.prog.Some? && env.SlotOf(h).Some?
    requires l.nic == h.nic ==> env.scheme.program(hook, l.name) != env.scheme.program(hook, h.name)
    ensures Seated(env, slots[env.SlotOf(h).value := h.prog], l)
  {
    if env.SlotOf(h) == env.SlotOf(l) {
      SameSlot(env, hook, h, l);
    }
  }

  lemma LoadAgrees(env: Env, hook: HookType, s: LoaderState, lib: string, at: HookType, nic: Ifindex, config: string)
    requires EnvOk(env, hook) && Agree(env, hook, s) && WellBuilt(env, lib, at)
    requires lib in s.services || SeatFree(env, s, lib, at, nic)
    ensures Agree(env, hook, ApplyLoad(env, s, lib, at, nic, config))
  {
    var made := env.factory(env.scheme.file(lib), s.loads);
    var s' := ApplyLoad(env, s, lib, at, nic, config);
    if made.Some? && lib !in s.services {
      var svc := made.value;
      assert Genuine(env, svc.name, svc.prog, at, env.scheme.file(lib));
      LoadAdds(env, s, lib, at, nic, config);
      LoadSlots(env, hook, s, lib, at, nic, config);
      var h := Handle(svc.name, "", at, nic, svc.prog);
      assert env.SlotOf(s'.services[lib]) == env.SlotOf(h);
      forall l | l in s.services && s.services[l].hook == hook ensures Seated(env, s'.SlotsOf(hook), s'.services[l]) {
        assert env.SlotOf(s'.services[l]) == env.SlotOf(s.services[l]);
        if at == hook && svc.prog.Some? && env.SlotOf(h).Some? {
          OthersStaySeated(env, hook, s.SlotsOf(hook), h, s.services[l]);
        }
      }
    }
  }

  /** Unloading and re-registering never disturb the agreement: the arrays are written by loads alone. */
  lemma OtherCallsAgree(env: Env, hook: HookType, s: LoaderState, op: Op)
    requires Agree(env, hook, s) && !op.Load?
    ensures Agree(env, hook, Apply(env, s, op)) && Apply(env, s, op).SlotsOf(hook) == s.SlotsOf(hook)
  {
    var s' := Apply(env, s, op);
    forall lib | lib in s'.services
      ensures lib in s.services && s'.services[lib] == s.services[lib].(config := s'.services[lib].config)
    {
    }
    forall lib | lib in s'.services ensures env.SlotOf(s'.services[lib]) == env.SlotOf(s.services[lib]) {
    }
  }

  ghost predicate SeatsFree(env: Env, s: LoaderState, ops: seq<Op>)
    decreases |ops|
  {
    ops == [] ||
    (&& (ops[0].Load? ==>
           && WellBuilt(env, ops[0].lib, ops[0].hook)
           && (ops[0].lib in s.services || SeatFree(env, s, ops[0].lib, ops[0].hook, ops[0].nic)))
     && SeatsFree(env, Apply(env, s, ops[0]), ops[1..]))
  }

  /** Over every run of calls in which no load takes the seat of a loaded service, array and hash agree. */
  lemma {:induction false} RunAgrees(env: Env, hook: HookType, s: LoaderState, ops: seq<Op>)
    requires EnvOk(env, hook) && Agree(env, hook, s) && SeatsFree(env, s, ops)
    ensures Agree(env, hook, ApplyAll(env, s, ops))
    decreases |ops|
  {
    if ops != [] {
      match ops[0]
      case Load(lib, at, nic, config) =>
        LoadAgrees(env, hook, s, lib, at, nic, config);
        RunAgrees(env, hook, Apply(env, s, ops[0]), ops[1..]);
      case _ =>
        OtherCallsAgree(env, hook, s, ops[0]);
        RunAgrees(env, hook, Apply(env, s, ops[0]), ops[1..]);
    }
  }

  lemma CallKeepsListed(env: Env, hook: HookType, s: LoaderState, op: Op)
    requires ProgMap.HasMaps(hook) && |s.SlotsOf(hook)| == MAX_CHAIN_PROGS && OnlyListed(env, hook, s)
    ensures OnlyListed(env, hook, Apply(env, s, op)) && |Apply(env, s, op).SlotsOf(hook)| == MAX_CHAIN_PROGS
  {
    match op
    case Load(lib, at, nic, config) =>
      if lib !in s.services && env.factory(env.scheme.file(lib), s.loads).Some? {
        LoadSlots(env, hook, s, lib, at, nic, config);
      }
    case _ =>
  }

  /** Over every run of calls a program only ever gets into a slot that the hash names. */
  lemma {:induction false} RunKeepsListed(env: Env, hook: HookType, s: LoaderState, ops: seq<Op>)
    requires ProgMap.HasMaps(hook) && |s.SlotsOf(hook)| == MAX_CHAIN_PROGS && OnlyListed(env, hook, s)
    ensures OnlyListed(env, hook, ApplyAll(env, s, ops))
    decreases |ops|
  {
    if ops != [] {
      CallKeepsListed(env, hook, s, ops[0]);
      RunKeepsListed(env, hook, Apply(env, s, ops[0]), ops[1..]);
    }
  }
}
