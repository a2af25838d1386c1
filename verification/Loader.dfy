/**
The table of loaded services (src/daemon/loader.cc), working in place on the watch table and the chain maps.
*/
module Loader {
  import opened Chain
  import opened ChainSpec
  import opened Configs
  import opened Hooks
  import opened InotifyManager
  import opened LoaderSpec
  import opened PinnedProgMap
  import opened Wrappers

  class Loader {
    const scheme: Scheme
    /** dlopen, the exported factory and `start`: None when one of them throws. */
    const factory: (string, nat) -> Option<Service>
    const watches: Manager
    const chains: ProgMap
    var services: map<string, Handle>
    var loads: nat
    /** The public calls that returned, in order. */
    ghost var calls: seq<Op>

    constructor (scheme: Scheme, factory: (string, nat) -> Option<Service>, watches: Manager, chains: ProgMap)
      requires watches.Valid() && watches.Sound() && chains.Valid() && chains.initialized
      ensures Valid() && services == map[] && calls == [] && loads == 0
      ensures this.scheme == scheme && this.factory == factory && this.watches == watches && this.chains == chains
    {
      this.scheme, this.factory, this.watches, this.chains := scheme, factory, watches, chains;
      services, loads, calls := map[], 0, [];
    }

    ghost predicate Valid()
      reads this, watches, watches.inotify, chains, chains.tcHash, chains.tcArray, chains.xdpHash, chains.xdpArray
    {
      WatchesOk() && ChainsOk()
    }

    ghost predicate WatchesOk()
      reads watches, watches.inotify
    {
      watches.Valid() && watches.Sound()
    }

    ghost predicate ChainsOk()
      reads chains, chains.tcHash, chains.tcArray, chains.xdpHash, chains.xdpArray
    {
      chains.Valid() && chains.initialized
    }

    ghost function TheEnv(): Env
      reads chains.tcHash, chains.xdpHash
    {
      Env(scheme, factory, chains.registry, chains.tcHash.entries, chains.xdpHash.entries)
    }

    ghost function State(): LoaderState
      reads this, watches, chains.tcArray, chains.xdpArray
    {
      LoaderState(services, Files(watches.table), chains.tcArray.slots, chains.xdpArray.slots, loads)
    }

    /** Real path of a library key: what precedes the last ';'. */
    function RealFile(lib: string): string {
      scheme.file(lib)
    }

    predicate IsSchedulerFile(file: string) {
      file == scheme.path(TC) || file == scheme.path(XDP_GENERIC)
    }

    /** The keys of the table, in the order in which it happens to enumerate them. */
    method GetAllService() returns (libs: seq<string>)
      requires Valid()
      ensures forall lib :: lib in libs <==> lib in services
    {
      libs := [];
      var todo := services.Keys;
      while todo != {}
        invariant todo <= services.Keys && forall lib :: lib in libs <==> lib in services && lib !in todo
        decreases todo
      {
        var lib :| lib in todo;
        libs, todo := libs + [lib], todo - {lib};
      }
    }

    /**
    Watches the file and hands it to the service.  Where the service is missing the watch is undone; where the service
    refuses the file it stays.
    */
    method WatchForService(lib: string, config: string) returns (r: Outcome<()>)
      requires WatchesOk()
      modifies watches, watches.inotify
      ensures WatchesOk()
      ensures r.Returned? ==> lib in services && Files(watches.table) == old(Files(watches.table)) + {config}
      ensures r.Thrown? ==> WatchLeft(old(Files(watches.table)), lib in services, config, Files(watches.table))
    {
      var watched := watches.WatchConfig(config);
      if !watched {
        return Thrown;
      }
      if lib !in services {
        var _ := watches.GoodbyeConfig(config);
        return Thrown;
      }
      if * {
        return Thrown;
      }
      return Returned(());
    }

    /** Watches the file, and notes it with the service. */
    method Register(lib: string, config: string) returns (r: Outcome<()>)
      requires Valid()
      modifies this`services, watches, watches.inotify
      ensures Valid()
      ensures r.Returned? ==>
                State() == ApplyRegister(old(State()), lib, config) && (config == "" || lib in old(services))
      ensures r.Thrown? ==> RegisterThrew(old(State()), lib, config, State())
    {
      if config == "" {
        return Returned(());
      }
      var _ :- WatchForService(lib, config);
      services := services[lib := services[lib].(config := config)];
      return Returned(());
    }

    /** Stops watching the file; throws afterwards where the service is missing. */
    method Unregister(lib: string, config: string) returns (r: Outcome<()>)
      requires Valid()
      modifies this`services, watches, watches.inotify
      ensures Valid()
      ensures r.Returned? ==> State() == ApplyUnregister(old(State()), lib, config)
      ensures r.Returned? <==> config == "" || lib in old(services)
      ensures r.Thrown? ==> State() == old(State()).(watched := old(State()).watched - {config})
    {
      if config == "" {
        return Returned(());
      }
      var _ := watches.GoodbyeConfig(config);
      if lib !in services {
        return Thrown;
      }
      services := services[lib := services[lib].(config := "")];
      return Returned(());
    }

    method RegisterServiceConfig(lib: string, hook: HookType, nic: Ifindex, config: string) returns (r: Outcome<()>)
      requires Valid() && hook != UNKNOWN
      modifies this, watches, watches.inotify
      ensures Valid()
      ensures r.Returned? ==> State() == ApplyRegister(old(State()), lib, config)
      ensures r.Returned? ==> calls == old(calls) + [Op.Register(lib, hook, nic, config)]
      ensures r.Thrown? ==> Threw(TheEnv(), old(State()), Op.Register(lib, hook, nic, config), State())
    {
      var _ :- Register(lib, config);
      calls := calls + [Op.Register(lib, hook, nic, config)];
      return Returned(());
    }

    method UnregisterServiceConfig(lib: string, config: string) returns (r: Outcome<()>)
      requires Valid()
      modifies this, watches, watches.inotify
      ensures Valid()
      ensures r.Returned? ==> State() == ApplyUnregister(old(State()), lib, config)
      ensures r.Returned? ==> calls == old(calls) + [Op.Unregister(lib, config)]
      ensures r.Returned? <==> config == "" || lib in old(services)
      ensures r.Thrown? ==> Threw(TheEnv(), old(State()), Op.Unregister(lib, config), State())
    {
      var _ :- Unregister(lib, config);
      calls := calls + [Op.Unregister(lib, config)];
      return Returned(());
    }

    method UnloadServices(lib: string) returns (ok: bool)
      requires Valid()
      modifies this, watches, watches.inotify
      ensures Valid()
      ensures ok <==> lib in old(services)
      ensures State() == ApplyUnload(old(State()), lib) && calls == old(calls) + [Op.Unload(lib)]
    {
      calls := calls + [Op.Unload(lib)];
      if lib !in services {
        return false;
      }
      ghost var before := State();
      var config := services[lib].config;
      if config != "" {
        var _ := Unregister(lib, config);
      }
      UnloadUnfolds(before, State(), lib);
      services := services - {lib};
      return true;
    }

    /** The handle of a service just started. */
    function NewHandle(svc: Service, hook: HookType, nic: Ifindex): Handle {
      Handle(svc.name, "", hook, nic, svc.prog)
    }

    method LoadService(lib: string, hook: HookType, nic: Ifindex, config: string) returns (r: Outcome<bool>)
      requires Valid() && lib != "" && hook != UNKNOWN
      modifies this, watches, watches.inotify, chains.tcArray, chains.xdpArray
      ensures Valid()
      ensures r.Returned? ==> State() == ApplyLoad(TheEnv(), old(State()), lib, hook, nic, config)
      ensures r.Returned? ==> calls == old(calls) + [Op.Load(lib, hook, nic, config)]
      ensures r.Returned? ==> r.value == (lib !in old(services)) && factory(RealFile(lib), old(loads)).Some?
      ensures r.Thrown? ==> Threw(TheEnv(), old(State()), Op.Load(lib, hook, nic, config), State())
    {
      var made := factory(RealFile(lib), loads);
      if made.None? {
        return Thrown;
      }
      if lib in services {
        loads := loads + 1;
        calls := calls + [Op.Load(lib, hook, nic, config)];
        return Returned(false);
      }
      var _ :- EnterService(lib, made.value, hook, nic, config);
      calls := calls + [Op.Load(lib, hook, nic, config)];
      return Returned(true);
    }

    /** Counts the service just started, and enters it. */
    method EnterService(lib: string, svc: Service, hook: HookType, nic: Ifindex, config: string)
      returns (r: Outcome<()>)
      requires Valid() && lib !in services && factory(RealFile(lib), loads) == Some(svc)
      modifies this`services, this`loads, watches, watches.inotify, chains.tcArray, chains.xdpArray
      ensures Valid()
      ensures if r.Returned? then State() == ApplyLoad(TheEnv(), old(State()), lib, hook, nic, config)
              else Threw(TheEnv(), old(State()), Op.Load(lib, hook, nic, config), State())
    {
      ghost var before := State();
      loads := loads + 1;
      r := AddService(lib, NewHandle(svc, hook, nic), config);
      LoadEnds(TheEnv(), before, lib, hook, nic, config, svc, r.Returned?, State());
    }

    /** The new entry stays in the table when its configuration cannot be watched or is refused. */
    method AddService(lib: string, h: Handle, config: string) returns (r: Outcome<()>)
      requires Valid()
      modifies this`services, watches, watches.inotify, chains.tcArray, chains.xdpArray
      ensures Valid()
      ensures LoadEnded(TheEnv(), old(State()), lib, h, config, r.Returned?, State())
    {
      services := services[lib := h];
      var _ :- RegisterUnlessScheduler(lib, config);
      InsertInChain(h);
      return Returned(());
    }

    /**
    A scheduler gets no configuration file but is attached, which may fail; any other service is registered under its
    real path.
    */
    method RegisterUnlessScheduler(lib: string, config: string) returns (r: Outcome<()>)
      requires Valid()
      modifies this`services, watches, watches.inotify
      ensures Valid()
      ensures if r.Returned? then State() == Registered(TheEnv(), old(State()), lib, config)
              else RegisteredThrew(TheEnv(), old(State()), lib, config, State())
    {
      if IsSchedulerFile(RealFile(lib)) {
        if * {
          return Thrown;
        }
        return Returned(());
      }
      r := Register(RealFile(lib), config);
    }

    /** The last step of a load: the program goes where the id hash says. */
    method InsertInChain(h: Handle)
      requires Valid()
      modifies chains.tcArray, chains.xdpArray
      ensures Valid() && State() == LoaderSpec.Inserted(TheEnv(), old(State()), h)
    {
      if h.prog.Some? {
        var _ := chains.InsertProg(h.hook, scheme.program(h.hook, h.name), h.prog.value, h.nic);
      }
    }

    /** The region's start, cast to bool: 0 reads as failure and -1 as success. */
    method AllocateChain(hook: HookType, nic: Ifindex) returns (ok: bool)
      requires Valid()
      modifies chains`regions
      ensures Valid()
      ensures exists start: int ::
                Allocates(old(chains.RegionsOf(hook)), nic, chains.RegionsOf(hook), start) && (ok <==> start != 0)
      ensures chains.regions == old(chains.regions)
              || chains.regions == old(chains.regions)[hook := chains.RegionsOf(hook)]
    {
      var start := chains.AllocateRegion(hook, nic);
      return start != 0;
    }

    /** A NIC without a region fails an assertion, which ends the program where assertions do. */
    method UpdateProgChain(hook: HookType, ordered: NamesIfindex) returns (r: Outcome<bool>)
      requires Valid()
      modifies chains.HashOf(hook)
      ensures Valid()
      ensures r.Thrown? <==>
                && chains.strict && (hook == TC || hook == XDP_GENERIC)
                && !chains.RebuildOf(hook, ordered).Placed()
      ensures r.Returned? && hook == TC ==> chains.RebuildOf(hook, ordered).Ended(r.value, chains.tcHash.entries)
      ensures r.Returned? && hook == XDP_GENERIC ==>
                chains.RebuildOf(hook, ordered).Ended(r.value, chains.xdpHash.entries)
      ensures hook != TC ==> chains.tcHash.entries == old(chains.tcHash.entries)
      ensures hook != XDP_GENERIC ==> chains.xdpHash.entries == old(chains.xdpHash.entries)
      ensures r.Returned? && hook != TC && hook != XDP_GENERIC ==> !r.value
    {
      if chains.strict && ProgMap.HasMaps(hook)
         && exists nic :: nic in NicsOf(ordered) && nic !in chains.RegionsOf(hook)
      {
        return Thrown;
      }
      var ok := chains.UpdateChain(hook, ordered);
      return Returned(ok);
    }
  }

  /** The rest of a load once the service is started and counted. */
  ghost predicate LoadEnded(env: Env, s: LoaderState, lib: string, h: Handle, config: string, returned: bool,
                            s': LoaderState) {
    var s1 := s.(services := s.services[lib := h]);
    if returned then s' == LoaderSpec.Inserted(env, Registered(env, s1, lib, config), h)
    else RegisteredThrew(env, s1, lib, config, s')
  }

  /** It completes the load. */
  lemma LoadEnds(env: Env, s: LoaderState, lib: string, hook: HookType, nic: Ifindex, config: string, svc: Service,
                 returned: bool, s': LoaderState)
    requires env.factory(env.scheme.file(lib), s.loads) == Some(svc) && lib !in s.services
    requires var h := Handle(svc.name, "", hook, nic, svc.prog);
             LoadEnded(env, s.(loads := s.loads + 1), lib, h, config, returned, s')
    ensures if returned then s' == ApplyLoad(env, s, lib, hook, nic, config)
            else Threw(env, s, Op.Load(lib, hook, nic, config), s')
  {
  }

  /** Forgetting the service after its file is no longer watched. */
  lemma UnloadUnfolds(before: LoaderState, mid: LoaderState, lib: string)
    requires lib in before.services
    requires mid == ApplyUnregister(before, lib, before.services[lib].config)
    ensures mid.(services := mid.services - {lib}) == ApplyUnload(before, lib)
  {
  }
}
