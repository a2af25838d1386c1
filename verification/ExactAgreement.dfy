/**
Exactly when hash and array agree after an arbitrary update: the array is never cleared, so programs that are not
loaded anew stay where they are (src/daemon/daemon.cc:153-213, src/ebpf/pinned_prog_map.cc:300-353).
*/
module ExactAgreement {
  import opened Chain
  import opened ChainAgreement
  import opened Configs
  import opened Hooks
  import opened LoaderSpec
  import opened PinnedProgMap
  import opened Wrappers

  // ---------------------------------------------------------------- every instance has its own program

  /** `start` loads a program of its own into the kernel each time. */
  ghost predicate OwnPrograms(env: Env) {
    forall p, k: nat, q, l: nat | SameProgram(env, p, k, q, l) :: p == q && k == l
  }

  ghost predicate SameProgram(env: Env, p: string, k: nat, q: string, l: nat) {
    exists prog :: MakesProg(env, p, k, prog) && MakesProg(env, q, l, prog)
  }

  predicate MakesProg(env: Env, path: string, k: nat, prog: Prog) {
    env.factory(path, k).Some? && env.factory(path, k).value.prog == Some(prog)
  }

  /** One of the loads so far made the program. */
  ghost predicate LoadedBefore(env: Env, loads: nat, prog: Prog) {
    exists path, k: nat :: k < loads && MakesProg(env, path, k, prog)
  }

  /** The programs of the services and those in the array come from loads made so far, and no two services share one. */
  ghost predicate FromLoads(env: Env, hook: HookType, s: LoaderState) {
    && (forall lib | lib in s.services && s.services[lib].prog.Some? ::
          LoadedBefore(env, s.loads, s.services[lib].prog.value))
    && (forall i | 0 <= i < |s.SlotsOf(hook)| && s.SlotsOf(hook)[i].Some? ::
          LoadedBefore(env, s.loads, s.SlotsOf(hook)[i].value))
    && forall a, b | a in s.services && b in s.services && a != b && s.services[a].prog.Some? ::
         s.services[a].prog != s.services[b].prog
  }

  lemma NewProgram(env: Env, loads: nat, path: string, prog: Prog)
    requires OwnPrograms(env) && MakesProg(env, path, loads, prog)
    ensures !LoadedBefore(env, loads, prog)
  {
    if q, k: nat :| k < loads && MakesProg(env, q, k, prog) {
      assert SameProgram(env, q, k, path, loads);
    }
  }

  lemma MoreLoads(env: Env, loads: nat, loads': nat, prog: Prog)
    requires loads <= loads' && LoadedBefore(env, loads, prog)
    ensures LoadedBefore(env, loads', prog)
  {
    var path, k: nat :| k < loads && MakesProg(env, path, k, prog);
    assert k < loads' && MakesProg(env, path, k, prog);
  }

  // ---------------------------------------------------------------- one call

  /** A load that starts a service, with the handle it gets. */
  ghost predicate Starts(env: Env, s: LoaderState, op: Op, h: Handle) {
    && op.Load? && op.lib !in s.services && env.factory(env.scheme.file(op.lib), s.loads).Some?
    && var svc := env.factory(env.scheme.file(op.lib), s.loads).value;
       h == Handle(svc.name, "", op.hook, op.nic, svc.prog)
  }

  /** Any other call leaves the array alone, and adds no service. */
  lemma OtherCalls(env: Env, hook: HookType, s: LoaderState, op: Op)
    requires ProgMap.HasMaps(hook) && forall h :: !Starts(env, s, op, h)
    ensures var s' := Apply(env, s, op);
            && s'.SlotsOf(hook) == s.SlotsOf(hook) && s.loads <= s'.loads
            && (forall lib | lib in s'.services ::
                  lib in s.services && s'.services[lib] == s.services[lib].(config := s'.services[lib].config))
            && forall lib | lib in s.services :: lib in s'.services <==> op != Unload(lib)
  {
    if op.Load? && op.lib !in s.services && env.factory(env.scheme.file(op.lib), s.loads).Some? {
      var svc := env.factory(env.scheme.file(op.lib), s.loads).value;
      assert Starts(env, s, op, Handle(svc.name, "", op.hook, op.nic, svc.prog));
    }
  }

  /** What a load that starts a service does to table and array. */
  lemma StartedCall(env: Env, hook: HookType, s: LoaderState, op: Op, h: Handle)
    requires ProgMap.HasMaps(hook) && |s.SlotsOf(hook)| == MAX_CHAIN_PROGS && Starts(env, s, op, h)
    ensures var s' := Apply(env, s, op);
            && s'.loads == s.loads + 1
            && s'.services.Keys == s.services.Keys + {op.lib}
            && s'.services[op.lib] == h.(config := s'.services[op.lib].config)
            && (forall lib | lib in s.services ::
                  s'.services[lib] == s.services[lib].(config := s'.services[lib].config))
            && s'.SlotsOf(hook) ==
               if h.hook == hook && h.prog.Some? && env.SlotOf(h).Some?
               then s.SlotsOf(hook)[env.SlotOf(h).value := h.prog] else s.SlotsOf(hook)
  {
    LoadAdds(env, s, op.lib, op.hook, op.nic, op.config);
    LoadSlots(env, hook, s, op.lib, op.hook, op.nic, op.config);
    LoadServices(env, s, op.lib, op.hook, op.nic, op.config);
    InsertedLeavesServices(env, Registered(env, Added(s, op.lib, h), op.lib, op.config), h);
  }

  lemma CallKeepsFromLoads(env: Env, hook: HookType, s: LoaderState, op: Op)
    requires ProgMap.HasMaps(hook) && |s.SlotsOf(hook)| == MAX_CHAIN_PROGS
    requires OwnPrograms(env) && FromLoads(env, hook, s)
    ensures FromLoads(env, hook, Apply(env, s, op)) && |Apply(env, s, op).SlotsOf(hook)| == MAX_CHAIN_PROGS
  {
    var s' := Apply(env, s, op);
    if h :| Starts(env, s, op, h) {
      StartedCall(env, hook, s, op, h);
      if h.prog.Some? {
        assert MakesProg(env, env.scheme.file(op.lib), s.loads, h.prog.value);
        assert LoadedBefore(env, s'.loads, h.prog.value);
        NewProgram(env, s.loads, env.scheme.file(op.lib), h.prog.value);
      }
    } else {
      OtherCalls(env, hook, s, op);
    }
    forall prog | LoadedBefore(env, s.loads, prog) ensures LoadedBefore(env, s'.loads, prog) {
      MoreLoads(env, s.loads, s'.loads, prog);
    }
  }

  // ---------------------------------------------------------------- runs

  /** A service of the hook that no later call unloads. */
  predicate Stays(hook: HookType, s: LoaderState, lib: string, ops: seq<Op>) {
    lib in s.services && s.services[lib].hook == hook && s.services[lib].prog.Some? && Unload(lib) !in ops
  }

  /** The services that stay sit in their slots. */
  ghost predicate StayersSeated(env: Env, hook: HookType, s: LoaderState, ops: seq<Op>) {
    forall lib | Stays(hook, s, lib, ops) :: Seated(env, s.SlotsOf(hook), s.services[lib])
  }

  /** The call starts a service whose slot is that of `lib`. */
  ghost predicate TakesSeat(env: Env, hook: HookType, s: LoaderState, op: Op, lib: string)
    requires lib in s.services
  {
    exists h :: Starts(env, s, op, h) && h.hook == hook && h.prog.Some? && env.SlotOf(h).Some?
                && env.SlotOf(h) == env.SlotOf(s.services[lib])
  }

  /** No call of the run takes the seat of a service that stays. */
  ghost predicate NoSeatTaken(env: Env, hook: HookType, s: LoaderState, ops: seq<Op>)
    decreases |ops|
  {
    ops == [] ||
    (&& (forall lib | Stays(hook, s, lib, ops) :: !TakesSeat(env, hook, s, ops[0], lib))
     && NoSeatTaken(env, hook, Apply(env, s, ops[0]), ops[1..]))
  }

  lemma StaysAfter(env: Env, hook: HookType, s: LoaderState, ops: seq<Op>, lib: string)
    requires ops != [] && ProgMap.HasMaps(hook) && |s.SlotsOf(hook)| == MAX_CHAIN_PROGS && lib in s.services
    ensures var s' := Apply(env, s, ops[0]);
            && (Stays(hook, s, lib, ops) <==> Stays(hook, s', lib, ops[1..]))
            && (lib in s'.services ==> env.SlotOf(s'.services[lib]) == env.SlotOf(s.services[lib])
                                       && s'.services[lib].prog == s.services[lib].prog)
  {
    assert ops == [ops[0]] + ops[1..];
    if h :| Starts(env, s, ops[0], h) {
      StartedCall(env, hook, s, ops[0], h);
    } else {
      OtherCalls(env, hook, s, ops[0]);
    }
  }

  /** One call: those that stay sit afterwards exactly if they sat before and none lost its seat. */
  lemma StayersStep(env: Env, hook: HookType, s: LoaderState, ops: seq<Op>)
    requires ops != [] && ProgMap.HasMaps(hook) && |s.SlotsOf(hook)| == MAX_CHAIN_PROGS
    requires OwnPrograms(env) && FromLoads(env, hook, s)
    ensures StayersSeated(env, hook, Apply(env, s, ops[0]), ops[1..]) <==>
            && StayersSeated(env, hook, s, ops)
            && forall lib | Stays(hook, s, lib, ops) :: !TakesSeat(env, hook, s, ops[0], lib)
  {
    var s' := Apply(env, s, ops[0]);
    forall lib | lib in s.services
      ensures Stays(hook, s, lib, ops) <==> Stays(hook, s', lib, ops[1..])
      ensures Stays(hook, s, lib, ops) ==>
                (Seated(env, s'.SlotsOf(hook), s'.services[lib]) <==>
                 Seated(env, s.SlotsOf(hook), s.services[lib]) && !TakesSeat(env, hook, s, ops[0], lib))
    {
      StaysAfter(env, hook, s, ops, lib);
      if Stays(hook, s, lib, ops) {
        SeatAfter(env, hook, s, ops, lib);
      }
    }
    forall lib | lib !in s.services && Stays(hook, s', lib, ops[1..])
      ensures Seated(env, s'.SlotsOf(hook), s'.services[lib])
    {
      NewcomerSits(env, hook, s, ops[0], lib);
    }
  }

  lemma NewcomerSits(env: Env, hook: HookType, s: LoaderState, op: Op, lib: string)
    requires ProgMap.HasMaps(hook) && |s.SlotsOf(hook)| == MAX_CHAIN_PROGS
    requires lib !in s.services && lib in Apply(env, s, op).services && Apply(env, s, op).services[lib].hook == hook
    ensures Seated(env, Apply(env, s, op).SlotsOf(hook), Apply(env, s, op).services[lib])
  {
    if h :| Starts(env, s, op, h) {
      StartedCall(env, hook, s, op, h);
    } else {
      OtherCalls(env, hook, s, op);
    }
  }

  lemma SeatAfter(env: Env, hook: HookType, s: LoaderState, ops: seq<Op>, lib: string)
    requires ops != [] && ProgMap.HasMaps(hook) && |s.SlotsOf(hook)| == MAX_CHAIN_PROGS
    requires OwnPrograms(env) && FromLoads(env, hook, s) && Stays(hook, s, lib, ops)
    requires Stays(hook, Apply(env, s, ops[0]), lib, ops[1..])
    ensures var s' := Apply(env, s, ops[0]);
            Seated(env, s'.SlotsOf(hook), s'.services[lib]) <==>
            Seated(env, s.SlotsOf(hook), s.services[lib]) && !TakesSeat(env, hook, s, ops[0], lib)
  {
    StaysAfter(env, hook, s, ops, lib);
    if h :| Starts(env, s, ops[0], h) {
      StartedCall(env, hook, s, ops[0], h);
      if h.prog.Some? {
        assert MakesProg(env, env.scheme.file(ops[0].lib), s.loads, h.prog.value);
        NewProgram(env, s.loads, env.scheme.file(ops[0].lib), h.prog.value);
        assert h.prog != s.services[lib].prog;
      }
    } else {
      OtherCalls(env, hook, s, ops[0]);
    }
  }

  /**
  After any run of loader calls every service sits in its slot if and only if those that were loaded before and not
  since sat in theirs, and no load took the seat of a service that stays.
  */
  lemma {:induction false} SeatedExactly(env: Env, hook: HookType, s: LoaderState, ops: seq<Op>)
    requires ProgMap.HasMaps(hook) && |s.SlotsOf(hook)| == MAX_CHAIN_PROGS
    requires OwnPrograms(env) && FromLoads(env, hook, s)
    ensures AllSeated(env, hook, ApplyAll(env, s, ops)) <==>
            StayersSeated(env, hook, s, ops) && NoSeatTaken(env, hook, s, ops)
    decreases |ops|
  {
    if ops != [] {
      StayersStep(env, hook, s, ops);
      CallKeepsFromLoads(env, hook, s, ops[0]);
      SeatedExactly(env, hook, Apply(env, s, ops[0]), ops[1..]);
    } else {
      forall lib | lib in s.services && s.services[lib].hook == hook && s.services[lib].prog.Some?
        ensures Stays(hook, s, lib, ops)
      {
      }
    }
  }

  // ---------------------------------------------------------------- a new hash

  ghost predicate LoadsWellBuilt(env: Env, ops: seq<Op>) {
    forall op | op in ops && op.Load? :: WellBuilt(env, op.lib, op.hook)
  }

  lemma {:induction false} RunKeepsGenuine(env: Env, hook: HookType, s: LoaderState, ops: seq<Op>)
    requires ProgMap.HasMaps(hook) && |s.SlotsOf(hook)| == MAX_CHAIN_PROGS
    requires AllGenuine(env, s) && LoadsWellBuilt(env, ops)
    ensures AllGenuine(env, ApplyAll(env, s, ops))
    ensures |ApplyAll(env, s, ops).SlotsOf(hook)| == MAX_CHAIN_PROGS
    decreases |ops|
  {
    if ops != [] {
      assert ops[0] in ops;
      if h :| Starts(env, s, ops[0], h) {
        StartedCall(env, hook, s, ops[0], h);
        assert WellBuilt(env, ops[0].lib, ops[0].hook);
      } else {
        OtherCalls(env, hook, s, ops[0]);
      }
      RunKeepsGenuine(env, hook, Apply(env, s, ops[0]), ops[1..]);
    }
  }

  /** The program of a service stands nowhere but in its slot. */
  ghost predicate OnlyInSlot(env: Env, hook: HookType, s: LoaderState) {
    forall lib, i | lib in s.services && s.services[lib].hook == hook && s.services[lib].prog.Some?
                    && 0 <= i < |s.SlotsOf(hook)| && s.SlotsOf(hook)[i] == s.services[lib].prog ::
      env.SlotOf(s.services[lib]) == Some(i)
  }

  /** Over every run under one hash it stays so. */
  lemma {:induction false} RunKeepsOnlyInSlot(env: Env, hook: HookType, s: LoaderState, ops: seq<Op>)
    requires ProgMap.HasMaps(hook) && |s.SlotsOf(hook)| == MAX_CHAIN_PROGS
    requires OwnPrograms(env) && FromLoads(env, hook, s) && OnlyInSlot(env, hook, s)
    ensures OnlyInSlot(env, hook, ApplyAll(env, s, ops)) && FromLoads(env, hook, ApplyAll(env, s, ops))
    decreases |ops|
  {
    if ops != [] {
      CallKeepsFromLoads(env, hook, s, ops[0]);
      CallKeepsOnlyInSlot(env, hook, s, ops[0]);
      RunKeepsOnlyInSlot(env, hook, Apply(env, s, ops[0]), ops[1..]);
    }
  }

  lemma CallKeepsOnlyInSlot(env: Env, hook: HookType, s: LoaderState, op: Op)
    requires ProgMap.HasMaps(hook) && |s.SlotsOf(hook)| == MAX_CHAIN_PROGS
    requires OwnPrograms(env) && FromLoads(env, hook, s) && OnlyInSlot(env, hook, s)
    ensures OnlyInSlot(env, hook, Apply(env, s, op))
  {
    if h :| Starts(env, s, op, h) {
      StartKeepsOnlyInSlot(env, hook, s, op, h);
    } else {
      OtherCalls(env, hook, s, op);
      var s' := Apply(env, s, op);
      forall lib | lib in s'.services ensures env.SlotOf(s'.services[lib]) == env.SlotOf(s.services[lib]) {
      }
    }
  }

  lemma StartKeepsOnlyInSlot(env: Env, hook: HookType, s: LoaderState, op: Op, h: Handle)
    requires ProgMap.HasMaps(hook) && |s.SlotsOf(hook)| == MAX_CHAIN_PROGS && Starts(env, s, op, h)
    requires OwnPrograms(env) && FromLoads(env, hook, s) && OnlyInSlot(env, hook, s)
    ensures OnlyInSlot(env, hook, Apply(env, s, op))
  {
    var s' := Apply(env, s, op);
    StartedCall(env, hook, s, op, h);
    if h.prog.Some? {
      assert MakesProg(env, env.scheme.file(op.lib), s.loads, h.prog.value);
      NewProgram(env, s.loads, env.scheme.file(op.lib), h.prog.value);
    }
    assert env.SlotOf(s'.services[op.lib]) == env.SlotOf(h);
    forall lib, i | lib in s'.services && s'.services[lib].hook == hook && s'.services[lib].prog.Some?
                    && 0 <= i < |s'.SlotsOf(hook)| && s'.SlotsOf(hook)[i] == s'.services[lib].prog
      ensures env.SlotOf(s'.services[lib]) == Some(i)
    {
      if lib != op.lib {
        assert env.SlotOf(s'.services[lib]) == env.SlotOf(s.services[lib]);
        assert s'.services[lib].prog != h.prog;
        assert s'.SlotsOf(hook)[i] == s.SlotsOf(hook)[i];
      }
    }
  }

  /** The slot of the service under the new hash, if it has one, is the one it had. */
  predicate KeepsSlot(env: Env, env': Env, h: Handle) {
    env'.SlotOf(h).None? || env'.SlotOf(h) == env.SlotOf(h)
  }

  /**
  After the hash was rebuilt and any calls were made, hash and array agree if and only if every service not loaded
  anew keeps its slot and no load takes the seat of a service that stays.
  */
  lemma AgreesExactly(env: Env, env': Env, hook: HookType, s: LoaderState, ops: seq<Op>)
    requires ProgMap.HasMaps(hook) && env' == env.(tcHash := env'.tcHash, xdpHash := env'.xdpHash)
    requires OwnPrograms(env) && FromLoads(env, hook, s) && OnlyInSlot(env, hook, s) && Agree(env, hook, s)
    requires LoadsWellBuilt(env, ops)
    ensures Agree(env', hook, ApplyAll(env', s, ops)) <==>
            && (forall lib | Stays(hook, s, lib, ops) :: KeepsSlot(env, env', s.services[lib]))
            && NoSeatTaken(env', hook, s, ops)
  {
    SameUnderNewHash(env, env', hook, s, ops);
    RunKeepsGenuine(env', hook, s, ops);
    SeatedExactly(env', hook, s, ops);
    forall lib | Stays(hook, s, lib, ops)
      ensures Seated(env', s.SlotsOf(hook), s.services[lib]) <==> KeepsSlot(env, env', s.services[lib])
    {
    }
  }

  lemma SameUnderNewHash(env: Env, env': Env, hook: HookType, s: LoaderState, ops: seq<Op>)
    requires env' == env.(tcHash := env'.tcHash, xdpHash := env'.xdpHash)
    requires OwnPrograms(env) && FromLoads(env, hook, s) && AllGenuine(env, s) && LoadsWellBuilt(env, ops)
    ensures OwnPrograms(env') && FromLoads(env', hook, s) && AllGenuine(env', s) && LoadsWellBuilt(env', ops)
  {
    forall p, k: nat, q, l: nat | SameProgram(env', p, k, q, l) ensures p == q && k == l {
      var prog :| MakesProg(env', p, k, prog) && MakesProg(env', q, l, prog);
      assert MakesProg(env, p, k, prog) && MakesProg(env, q, l, prog);
      assert SameProgram(env, p, k, q, l);
    }
    forall prog | LoadedBefore(env, s.loads, prog) ensures LoadedBefore(env', s.loads, prog) {
      var path, k: nat :| k < s.loads && MakesProg(env, path, k, prog);
      assert MakesProg(env', path, k, prog);
    }
    forall op | op in ops && op.Load? ensures WellBuilt(env', op.lib, op.hook) {
      assert WellBuilt(env, op.lib, op.hook);
    }
  }
}
