/**
The effect of each loader call on the table of loaded services, the watched configuration files and the program
arrays (src/daemon/loader.cc), as functions on values.
*/
module LoaderSpec {
  import opened Chain
  import opened ChainSpec
  import opened Configs
  import opened Hooks
  import opened PinnedProgMap
  import opened Wrappers

  /** What the library's factory yields: the service's name and, once started, its main program. */
  datatype Service = Service(name: string, prog: Option<Prog>)

  datatype Handle = Handle(name: string, config: string, hook: HookType, nic: Ifindex, prog: Option<Prog>)

  /**
  What stays fixed while services are loaded.  `factory` stands for dlopen, the exported factory and `start`:
  None when one of them throws; the count of earlier loads makes every instance its own.
  */
  datatype Env = Env(
    scheme: Scheme,
    factory: (string, nat) -> Option<Service>,
    reg: Registry,
    tcHash: IdHash,
    xdpHash: IdHash)
  {
    function HashOf(hook: HookType): IdHash {
      if hook.TC? then tcHash else xdpHash
    }

    /** The slot that insertProg finds for a service. */
    function SlotOf(h: Handle): Option<nat> {
      var name := scheme.program(h.hook, h.name);
      if ProgMap.HasMaps(h.hook) && Insertable(reg, h.hook, HashOf(h.hook), name, h.nic) then
        Some(HashOf(h.hook)[ChainKey(h.nic, reg[name].id)])
      else None
    }

    predicate IsScheduler(lib: string) {
      scheme.file(lib) == scheme.path(TC) || scheme.file(lib) == scheme.path(XDP_GENERIC)
    }
  }

  datatype LoaderState = LoaderState(
    services: map<string, Handle>,
    watched: set<string>,
    tcSlots: Slots,
    xdpSlots: Slots,
    loads: nat)
  {
    function SlotsOf(hook: HookType): Slots {
      if hook.TC? then tcSlots else xdpSlots
    }

    function WithSlots(hook: HookType, slots: Slots): LoaderState {
      if hook.TC? then this.(tcSlots := slots) else this.(xdpSlots := slots)
    }
  }

  /** A configuration path as a set: empty paths are not watched. */
  function Paths(config: string): set<string> {
    if config == "" then {} else {config}
  }

  /** insertProg for a freshly loaded service. */
  function Inserted(env: Env, s: LoaderState, h: Handle): LoaderState {
    match (env.SlotOf(h), h.prog)
    case (Some(slot), Some(prog)) =>
      if slot < |s.SlotsOf(h.hook)| then s.WithSlots(h.hook, s.SlotsOf(h.hook)[slot := Some(prog)]) else s
    case _ => s
  }

  /**
  loadService when nothing throws: a library already loaded stays as it is.  The configuration is registered for
  the library's file, which is its key unless the library carries a mark.
  */
  function ApplyLoad(env: Env, s: LoaderState, lib: string, hook: HookType, nic: Ifindex, config: string): LoaderState {
    match env.factory(env.scheme.file(lib), s.loads)
    case None => s
    case Some(svc) =>
      if lib in s.services then s.(loads := s.loads + 1)
      else
        var h := Handle(svc.name, "", hook, nic, svc.prog);
        Inserted(env, Registered(env, Added(s, lib, h), lib, config), h)
  }

  function Added(s: LoaderState, lib: string, h: Handle): LoaderState {
    s.(loads := s.loads + 1, services := s.services[lib := h])
  }

  /** A scheduler has no configuration file. */
  function Registered(env: Env, s: LoaderState, lib: string, config: string): LoaderState {
    if env.IsScheduler(lib) then s else ApplyRegister(s, env.scheme.file(lib), config)
  }

  /** unloadServices: forgets the service and stops watching its configuration. */
  function ApplyUnload(s: LoaderState, lib: string): LoaderState {
    if lib in s.services then
      s.(services := s.services - {lib}, watched := s.watched - Paths(s.services[lib].config))
    else s
  }

  function ApplyRegister(s: LoaderState, lib: string, config: string): LoaderState {
    if config != "" && lib in s.services then
      s.(services := s.services[lib := s.services[lib].(config := config)], watched := s.watched + {config})
    else s
  }

  function ApplyUnregister(s: LoaderState, lib: string, config: string): LoaderState {
    if config != "" && lib in s.services then
      s.(services := s.services[lib := s.services[lib].(config := "")], watched := s.watched - {config})
    else s
  }

  /**
  A registration that threw leaves the table alone.  The file is watched as before if the watch failed, not any more
  where the service is missing, and from now on where the service refused it.
  */
  ghost predicate RegisterThrew(s: LoaderState, lib: string, config: string, s': LoaderState) {
    config != "" && s' == s.(watched := s'.watched) && WatchLeft(s.watched, lib in s.services, config, s'.watched)
  }

  ghost predicate WatchLeft(was: set<string>, loaded: bool, config: string, watched: set<string>) {
    watched == was || watched == if loaded then was + {config} else was - {config}
  }

  ghost predicate RegisteredThrew(env: Env, s: LoaderState, lib: string, config: string, s': LoaderState) {
    if env.IsScheduler(lib) then s' == s else RegisterThrew(s, env.scheme.file(lib), config, s')
  }

  /** What a call that throws leaves: a load that got as far as its configuration leaves the service without one. */
  ghost predicate Threw(env: Env, s: LoaderState, op: Op, s': LoaderState) {
    match op
    case Load(lib, hook, nic, config) => (
      match env.factory(env.scheme.file(lib), s.loads)
      case None => s' == s
      case Some(svc) =>
        && lib !in s.services
        && RegisteredThrew(env, Added(s, lib, Handle(svc.name, "", hook, nic, svc.prog)), lib, config, s'))
    case Unload(_) => false
    case Register(lib, _, _, config) => RegisterThrew(s, lib, config, s')
    case Unregister(lib, config) =>
      config != "" && lib !in s.services && s' == s.(watched := s.watched - {config})
  }

  function Apply(env: Env, s: LoaderState, op: Op): LoaderState {
    match op
    case Load(lib, hook, nic, config) => ApplyLoad(env, s, lib, hook, nic, config)
    case Unload(lib) => ApplyUnload(s, lib)
    case Register(lib, _, _, config) => ApplyRegister(s, lib, config)
    case Unregister(lib, config) => ApplyUnregister(s, lib, config)
  }

  function ApplyAll(env: Env, s: LoaderState, ops: seq<Op>): LoaderState
    decreases |ops|
  {
    if ops == [] then s else ApplyAll(env, Apply(env, s, ops[0]), ops[1..])
  }

  lemma {:induction false} ApplyConcat(env: Env, s: LoaderState, a: seq<Op>, b: seq<Op>)
    ensures ApplyAll(env, s, a + b) == ApplyAll(env, ApplyAll(env, s, a), b)
    decreases |a|
  {
    if a == [] {
      assert a + b == b;
    } else {
      assert (a + b)[1..] == a[1..] + b;
      ApplyConcat(env, Apply(env, s, a[0]), a[1..], b);
    }
  }

  lemma ApplySnoc(env: Env, s: LoaderState, ops: seq<Op>, op: Op)
    ensures ApplyAll(env, s, ops + [op]) == Apply(env, ApplyAll(env, s, ops), op)
  {
    ApplyConcat(env, s, ops, [op]);
    assert [op][1..] == [];
  }

  // ---------------------------------------------------------------- services follow a configuration

  predicate Matches(h: Handle, cfg: ConfigEbpf) {
    h.hook == cfg.hook && h.nic == cfg.ifindex && h.config == cfg.config
  }

  /** A scheduler that stays loaded although no configured entry needs it any more. */
  ghost predicate Leftover(scheme: Scheme, lib: string, h: Handle) {
    lib == scheme.lib(h.hook, h.nic) && h.config == ""
  }

  /**
  The loaded services are those of `view`, each with its hook, NIC and configuration, plus at most schedulers
  that are no longer needed.
  */
  ghost predicate Tracks(scheme: Scheme, view: EbpfMap, s: LoaderState) {
    && LibsInjective(view)
    && (forall n | n in view :: view[n].lib in s.services && Matches(s.services[view[n].lib], view[n]))
    && (forall lib | lib in s.services ::
          Leftover(scheme, lib, s.services[lib]) || exists n :: n in view && view[n].lib == lib)
  }

  /** The watched files are the main configuration and the distinct configurations of the services. */
  ghost predicate WatchInv(main: string, s: LoaderState) {
    && main in s.watched && "" !in s.watched
    && (forall p | p in s.watched && p != main :: exists lib :: lib in s.services && s.services[lib].config == p)
    && (forall lib | lib in s.services && s.services[lib].config != "" ::
          s.services[lib].config in s.watched && s.services[lib].config != main)
    && (forall a, b | a in s.services && b in s.services && a != b && s.services[a].config != "" ::
          s.services[a].config != s.services[b].config)
  }

  /** Loading the library never throws, however often it is done. */
  ghost predicate CanLoad(env: Env, lib: string) {
    forall n :: env.factory(env.scheme.file(lib), n).Some?
  }

  ghost predicate AllLoad(env: Env, cfgs: EbpfMap) {
    forall n | n in cfgs :: CanLoad(env, cfgs[n].lib)
  }

  lemma UnloadTracks(scheme: Scheme, view: EbpfMap, s: LoaderState, n: string)
    requires Tracks(scheme, view, s) && n in view
    ensures Tracks(scheme, view - {n}, ApplyUnload(s, view[n].lib))
  {
    var s' := ApplyUnload(s, view[n].lib);
    forall lib | lib in s'.services && !Leftover(scheme, lib, s'.services[lib])
      ensures exists m :: m in view - {n} && (view - {n})[m].lib == lib
    {
      var m :| m in view && view[m].lib == lib;
      assert m in view - {n};
    }
  }

  /** An entry may be loaded when no other entry of the view has its library. */
  predicate Loadable(scheme: Scheme, cfg: ConfigEbpf) {
    if Marked(cfg.lib) then cfg.lib == scheme.lib(cfg.hook, cfg.ifindex) && cfg.config == "" else true
  }

  lemma InsertedLeavesServices(env: Env, s: LoaderState, h: Handle)
    ensures var s' := Inserted(env, s, h); s'.services == s.services && s'.watched == s.watched && s'.loads == s.loads
  {
  }

  /** What a load does to the table and the watches, for a library registered under its own key. */
  lemma LoadServices(env: Env, s: LoaderState, lib: string, hook: HookType, nic: Ifindex, config: string)
    requires env.factory(env.scheme.file(lib), s.loads).Some?
    ensures var s' := ApplyLoad(env, s, lib, hook, nic, config);
            && s'.services.Keys == s.services.Keys + {lib}
            && (lib in s.services ==> s'.services == s.services && s'.watched == s.watched)
            && (lib !in s.services && (env.scheme.file(lib) == lib || config == "" || env.IsScheduler(lib)) ==>
                  var kept := if env.IsScheduler(lib) then "" else config;
                  && s'.services == s.services[lib := s'.services[lib]]
                  && s'.services[lib].hook == hook && s'.services[lib].nic == nic && s'.services[lib].config == kept
                  && s'.watched == s.watched + Paths(kept))
  {
    if lib !in s.services {
      var svc := env.factory(env.scheme.file(lib), s.loads).value;
      var h := Handle(svc.name, "", hook, nic, svc.prog);
      InsertedLeavesServices(env, Registered(env, Added(s, lib, h), lib, config), h);
    }
  }

  /** Adding a service for a library that no entry of the view has. */
  lemma AddTracks(scheme: Scheme, view: EbpfMap, s: LoaderState, n: string, cfg: ConfigEbpf, s': LoaderState)
    requires Tracks(scheme, view, s) && n !in view
    requires forall m | m in view :: view[m].lib != cfg.lib
    requires cfg.lib in s'.services && Matches(s'.services[cfg.lib], cfg)
    requires s'.services == s.services[cfg.lib := s'.services[cfg.lib]]
    ensures Tracks(scheme, view[n := cfg], s')
  {
    var view' := view[n := cfg];
    forall lib | lib in s'.services && !Leftover(scheme, lib, s'.services[lib])
      ensures exists m :: m in view' && view'[m].lib == lib
    {
      if lib == cfg.lib {
        assert view'[n].lib == lib;
      } else {
        var m :| m in view && view[m].lib == lib;
        assert view'[m].lib == lib;
      }
    }
  }

  lemma LoadTracks(env: Env, view: EbpfMap, s: LoaderState, n: string, cfg: ConfigEbpf)
    requires SchemeOk(env.scheme) && CanLoad(env, cfg.lib)
    requires Tracks(env.scheme, view, s) && n !in view
    requires forall m | m in view :: view[m].lib != cfg.lib
    requires Loadable(env.scheme, cfg) && (cfg.config != "" ==> !env.IsScheduler(cfg.lib))
    ensures Tracks(env.scheme, view[n := cfg], ApplyLoad(env, s, cfg.lib, cfg.hook, cfg.ifindex, cfg.config))
  {
    LoadServices(env, s, cfg.lib, cfg.hook, cfg.ifindex, cfg.config);
    if cfg.lib in s.services {
      assert Leftover(env.scheme, cfg.lib, s.services[cfg.lib]);
      LeftoverMatches(env.scheme, cfg, s.services[cfg.lib]);
    }
    AddTracks(env.scheme, view, s, n, cfg, ApplyLoad(env, s, cfg.lib, cfg.hook, cfg.ifindex, cfg.config));
  }

  /** A scheduler found still loaded is the one asked for. */
  lemma LeftoverMatches(scheme: Scheme, cfg: ConfigEbpf, h: Handle)
    requires SchemeOk(scheme) && Loadable(scheme, cfg) && Leftover(scheme, cfg.lib, h)
    ensures Matches(h, cfg)
  {
    assert Marked(scheme.lib(h.hook, h.nic));
  }

  /** Changing only the configuration path of an entry. */
  lemma ReregisterTracks(scheme: Scheme, view: EbpfMap, s: LoaderState, n: string, cfg: ConfigEbpf)
    requires Tracks(scheme, view, s) && n in view && cfg == view[n].(config := cfg.config, order := cfg.order)
    requires !Marked(cfg.lib) && SchemeOk(scheme)
    ensures var s1 := ApplyUnregister(s, view[n].lib, view[n].config);
            Tracks(scheme, view[n := cfg], ApplyRegister(s1, cfg.lib, cfg.config))
  {
    var s1 := ApplyUnregister(s, view[n].lib, view[n].config);
    NewConfigTracks(scheme, view, s, n, cfg, ApplyRegister(s1, cfg.lib, cfg.config));
  }

  /** One service differs, in its configuration. */
  lemma NewConfigTracks(scheme: Scheme, view: EbpfMap, s: LoaderState, n: string, cfg: ConfigEbpf, s': LoaderState)
    requires Tracks(scheme, view, s) && n in view && cfg == view[n].(config := cfg.config, order := cfg.order)
    requires !Marked(cfg.lib) && SchemeOk(scheme)
    requires s'.services == s.services[cfg.lib := s.services[cfg.lib].(config := cfg.config)]
    ensures Tracks(scheme, view[n := cfg], s')
  {
    var view' := view[n := cfg];
    forall lib | lib in s'.services && !Leftover(scheme, lib, s'.services[lib])
      ensures exists m :: m in view' && view'[m].lib == lib
    {
      if lib == cfg.lib {
        assert view'[n].lib == lib;
      } else {
        var m :| m in view && view[m].lib == lib;
        assert view'[m].lib == lib;
      }
    }
  }
}
