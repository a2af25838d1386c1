/**
The configuration files under watch follow the loaded services: over every run of loader calls, and exactly when
over an update of the daemon (src/daemon/loader.cc:26-288, src/daemon/daemon.cc:100-219).
*/
module WatchedFiles {
  import opened Chain
  import opened Configs
  import opened Hooks
  import opened LoaderSpec
  import opened NameOrder
  import opened Reconcile

  // ---------------------------------------------------------------- runs of loader calls

  /** A configuration file that no loaded service uses, nor the main program. */
  ghost predicate Unused(main: string, s: LoaderState, config: string) {
    config == "" || (config != main && forall lib | lib in s.services :: s.services[lib].config != config)
  }

  /** A call that brings in no file already in use, and gives up only a file its service has. */
  ghost predicate Respects(env: Env, main: string, s: LoaderState, op: Op) {
    match op
    case Load(lib, _, _, config) =>
      lib in s.services || env.IsScheduler(lib) || config == ""
      || (env.scheme.file(lib) == lib && Unused(main, s, config))
    case Unload(_) => true
    case Register(lib, _, _, config) => lib in s.services ==> s.services[lib].config == "" && Unused(main, s, config)
    case Unregister(lib, config) => lib in s.services ==> s.services[lib].config == config
  }

  ghost predicate RespectfulRun(env: Env, main: string, s: LoaderState, ops: seq<Op>)
    decreases |ops|
  {
    ops == [] || (Respects(env, main, s, ops[0]) && RespectfulRun(env, main, Apply(env, s, ops[0]), ops[1..]))
  }

  lemma LoadKeepsWatch(env: Env, main: string, s: LoaderState, lib: string, hook: HookType, nic: Ifindex,
                       config: string)
    requires WatchInv(main, s) && Respects(env, main, s, Load(lib, hook, nic, config))
    ensures WatchInv(main, ApplyLoad(env, s, lib, hook, nic, config))
  {
    if env.factory(env.scheme.file(lib), s.loads).Some? {
      LoadServices(env, s, lib, hook, nic, config);
      var s' := ApplyLoad(env, s, lib, hook, nic, config);
      forall p | p in s'.watched && p != main
        ensures exists l :: l in s'.services && s'.services[l].config == p
      {
        if p in s.watched {
          var l :| l in s.services && s.services[l].config == p;
          assert s'.services[l].config == p;
        } else {
          assert s'.services[lib].config == p;
        }
      }
    }
  }

  lemma UnloadKeepsWatch(main: string, s: LoaderState, lib: string)
    requires WatchInv(main, s)
    ensures WatchInv(main, ApplyUnload(s, lib))
  {
    var s' := ApplyUnload(s, lib);
    forall p | p in s'.watched && p != main
      ensures exists l :: l in s'.services && s'.services[l].config == p
    {
      var l :| l in s.services && s.services[l].config == p;
      assert l in s'.services;
    }
  }

  lemma RegisterKeepsWatch(main: string, s: LoaderState, lib: string, config: string)
    requires WatchInv(main, s) && Unused(main, s, config) && (lib in s.services ==> s.services[lib].config == "")
    ensures WatchInv(main, ApplyRegister(s, lib, config))
  {
    var s' := ApplyRegister(s, lib, config);
    forall p | p in s'.watched && p != main && s' != s
      ensures exists l :: l in s'.services && s'.services[l].config == p
    {
      if p == config {
        assert s'.services[lib].config == p;
      } else {
        var l :| l in s.services && s.services[l].config == p;
        assert l in s'.services;
      }
    }
  }

  lemma UnregisterKeepsWatch(main: string, s: LoaderState, lib: string, config: string)
    requires WatchInv(main, s) && (lib in s.services ==> s.services[lib].config == config)
    ensures WatchInv(main, ApplyUnregister(s, lib, config))
  {
    var s' := ApplyUnregister(s, lib, config);
    forall p | p in s'.watched && p != main && s' != s
      ensures exists l :: l in s'.services && s'.services[l].config == p
    {
      var l :| l in s.services && s.services[l].config == p;
      assert l in s'.services;
    }
  }

  lemma CallKeepsWatch(env: Env, main: string, s: LoaderState, op: Op)
    requires WatchInv(main, s) && Respects(env, main, s, op)
    ensures WatchInv(main, Apply(env, s, op))
  {
    match op
    case Load(lib, hook, nic, config) => LoadKeepsWatch(env, main, s, lib, hook, nic, config);
    case Unload(lib) => UnloadKeepsWatch(main, s, lib);
    case Register(lib, _, _, config) =>
      if lib in s.services { RegisterKeepsWatch(main, s, lib, config); }
    case Unregister(lib, config) => UnregisterKeepsWatch(main, s, lib, config);
  }

  /** Over every run of calls the watched files are the main one and those of the loaded services. */
  lemma {:induction false} RunKeepsWatch(env: Env, main: string, s: LoaderState, ops: seq<Op>)
    requires WatchInv(main, s) && RespectfulRun(env, main, s, ops)
    ensures WatchInv(main, ApplyAll(env, s, ops))
    decreases |ops|
  {
    if ops != [] {
      CallKeepsWatch(env, main, s, ops[0]);
      RunKeepsWatch(env, main, Apply(env, s, ops[0]), ops[1..]);
    }
  }

  lemma {:induction false} RespectfulConcat(env: Env, main: string, s: LoaderState, a: seq<Op>, b: seq<Op>)
    requires RespectfulRun(env, main, s, a) && RespectfulRun(env, main, ApplyAll(env, s, a), b)
    ensures RespectfulRun(env, main, s, a + b)
    decreases |a|
  {
    if a == [] {
      assert a + b == b;
    } else {
      assert (a + b)[1..] == a[1..] + b;
      RespectfulConcat(env, main, Apply(env, s, a[0]), a[1..], b);
    }
  }

  lemma RespectfulPair(env: Env, main: string, s: LoaderState, a: Op, b: Op)
    requires Respects(env, main, s, a) && Respects(env, main, Apply(env, s, a), b)
    ensures RespectfulRun(env, main, s, [a, b])
  {
    assert [a, b][1..] == [b] && [b][1..] == [];
  }

  // ---------------------------------------------------------------- the calls for one entry

  /** Services follow the view, so a file that no entry has is in use nowhere. */
  lemma UnusedByView(scheme: Scheme, main: string, view: EbpfMap, s: LoaderState, n: string, cfg: ConfigEbpf)
    requires Tracks(scheme, view, s) && n !in view && ConfigFree(main, view, n, cfg)
    ensures Unused(main, s, cfg.config)
  {
  }

  lemma ReplaceRespects(env: Env, main: string, view: EbpfMap, s: LoaderState, n: string, cfg: ConfigEbpf)
    requires Tracks(env.scheme, view, s) && n in view && ConfigFree(main, view, n, cfg)
    requires SchemeOk(env.scheme) && Loadable(env.scheme, cfg)
    ensures RespectfulRun(env, main, s, [Unload(view[n].lib), Load(cfg.lib, cfg.hook, cfg.ifindex, cfg.config)])
  {
    UnloadTracks(env.scheme, view, s, n);
    UnusedByView(env.scheme, main, view - {n}, ApplyUnload(s, view[n].lib), n, cfg);
    LoadRespects(env, main, ApplyUnload(s, view[n].lib), cfg);
    RespectfulPair(env, main, s, Unload(view[n].lib), Load(cfg.lib, cfg.hook, cfg.ifindex, cfg.config));
  }

  lemma ReregisterRespects(env: Env, main: string, view: EbpfMap, s: LoaderState, n: string, cfg: ConfigEbpf)
    requires Tracks(env.scheme, view, s) && n in view && ConfigFree(main, view, n, cfg)
    requires cfg.lib == view[n].lib
    ensures RespectfulRun(env, main, s,
              [Unregister(view[n].lib, view[n].config), Register(cfg.lib, cfg.hook, cfg.ifindex, cfg.config)])
  {
    var s1 := ApplyUnregister(s, view[n].lib, view[n].config);
    forall lib | lib in s1.services && cfg.config != ""
      ensures s1.services[lib].config != cfg.config
    {
      assert lib != cfg.lib ==> s1.services[lib] == s.services[lib];
    }
    assert Unused(main, s1, cfg.config);
    RespectfulPair(env, main, s, Unregister(view[n].lib, view[n].config),
                   Register(cfg.lib, cfg.hook, cfg.ifindex, cfg.config));
  }

  lemma LoadRespects(env: Env, main: string, s: LoaderState, cfg: ConfigEbpf)
    requires SchemeOk(env.scheme) && Loadable(env.scheme, cfg) && Unused(main, s, cfg.config)
    ensures Respects(env, main, s, Load(cfg.lib, cfg.hook, cfg.ifindex, cfg.config))
  {
  }

  lemma EntryRespects(env: Env, main: string, current: EbpfMap, view: EbpfMap, s: LoaderState, n: string,
                      cfg: ConfigEbpf)
    requires Tracks(env.scheme, view, s) && EntryReady(env, current, view, n, cfg) && ConfigFree(main, view, n, cfg)
    requires SchemeOk(env.scheme)
    ensures RespectfulRun(env, main, s, EntryOps(current, n, cfg))
  {
    if n !in current {
      UnusedByView(env.scheme, main, view, s, n, cfg);
      LoadRespects(env, main, s, cfg);
      assert EntryOps(current, n, cfg)[1..] == [];
    } else if Replaces(current[n], cfg) {
      ReplaceRespects(env, main, view, s, n, cfg);
    } else if current[n].config != cfg.config {
      ReregisterRespects(env, main, view, s, n, cfg);
    }
  }

  // ---------------------------------------------------------------- the calls of an update

  lemma {:induction false} UnloadsRespect(env: Env, main: string, s: LoaderState, names: seq<string>, bare: EbpfMap,
                                          supplied: EbpfMap)
    requires forall n | n in names :: n in bare
    ensures RespectfulRun(env, main, s, UnloadOps(names, bare, supplied))
    decreases |names|
  {
    if names != [] {
      var ops := UnloadOps(names, bare, supplied);
      var tail := UnloadOps(names[1..], bare, supplied);
      if names[0] in supplied {
        assert ops == tail;
        UnloadsRespect(env, main, s, names[1..], bare, supplied);
      } else {
        assert ops[1..] == tail;
        UnloadsRespect(env, main, ApplyUnload(s, bare[names[0]].lib), names[1..], bare, supplied);
      }
    }
  }

  ghost predicate NextIsFree(main: string, kept: EbpfMap, target: EbpfMap) {
    forall todo, n | Processed(target, todo) && IsLeast(n, todo) ::
      ConfigFree(main, Halfway(kept, target, todo), n, target[n])
  }

  lemma {:induction false} LoadsRespect(
      env: Env, main: string, current: EbpfMap, kept: EbpfMap, target: EbpfMap, s: LoaderState, todo: set<string>)
    requires SchemeOk(env.scheme) && AllLoad(env, target)
    requires Processed(target, todo) && Tracks(env.scheme, Halfway(kept, target, todo), s)
    requires NextIsReady(env, current, kept, target) && NextIsFree(main, kept, target)
    ensures RespectfulRun(env, main, s, LoadOps(Ascending(todo), current, target))
    decreases |todo|
  {
    if todo != {} {
      var n := Least(todo);
      var view := Halfway(kept, target, todo);
      EntryTracks(env, current, view, s, n, target[n]);
      EntryRespects(env, main, current, view, s, n, target[n]);
      EntryEffects(env, s, current, n, target[n]);
      HalfwayStep(kept, target, todo, n);
      var s' := EntryEffect(env, s, current, n, target[n]);
      LoadsRespect(env, main, current, kept, target, s', todo - {n});
      assert Ascending(todo)[1..] == Ascending(todo - {n});
      RespectfulConcat(env, main, s, EntryOps(current, n, target[n]), LoadOps(Ascending(todo - {n}), current, target));
    }
  }

  /** The file of the entry being processed is not in use by another stored or already processed entry. */
  lemma NextFileFree(u: Update, main: string, todo: set<string>, n: string)
    requires u.Ok() && ConfigMovesGoUp(u.was, u.supplied) && ConfigFilesDistinct(u.supplied, main)
    requires Processed(u.Target(), todo) && IsLeast(n, todo)
    ensures ConfigFree(main, Halfway(u.Kept(), u.Target(), todo), n, u.Target()[n])
  {
    u.SchedulerEntries(n);
    var view := Halfway(u.Kept(), u.Target(), todo);
    forall m | m in view && m != n && u.Target()[n].config != ""
      ensures view[m].config != u.Target()[n].config
    {
      u.SchedulerEntries(m);
      LessTotal(n, m);
    }
  }

  lemma AllFree(u: Update, main: string)
    requires u.Ok() && ConfigMovesGoUp(u.was, u.supplied) && ConfigFilesDistinct(u.supplied, main)
    ensures NextIsFree(main, u.Kept(), u.Target())
  {
    forall todo, n | Processed(u.Target(), todo) && IsLeast(n, todo)
      ensures ConfigFree(main, Halfway(u.Kept(), u.Target(), todo), n, u.Target()[n])
    {
      NextFileFree(u, main, todo, n);
    }
  }

  /** With moves that go up, the watched files follow the services through the whole update. */
  lemma UpdateKeepsWatch(u: Update, env: Env, main: string, s: LoaderState)
    requires u.Ok() && env.scheme == u.scheme && AllLoad(env, u.Target())
    requires Tracks(u.scheme, u.Current(), s) && WatchInv(main, s)
    requires MovesGoUp(u.was, u.supplied) && ConfigMovesGoUp(u.was, u.supplied) && ConfigFilesDistinct(u.supplied, main)
    ensures WatchInv(main, u.Result(env, s))
  {
    u.TwoPhases(env, s);
    u.UnloadsTrack(env, s);
    UnloadsRespect(env, main, s, Ascending(u.was.Keys), u.was, u.supplied);
    RunKeepsWatch(env, main, s, UnloadOps(Ascending(u.was.Keys), u.was, u.supplied));
    LoadsKeepWatch(u, env, main, u.AfterUnloads(env, s));
  }

  lemma LoadsKeepWatch(u: Update, env: Env, main: string, s: LoaderState)
    requires u.Ok() && env.scheme == u.scheme && AllLoad(env, u.Target())
    requires Tracks(u.scheme, u.Kept(), s) && WatchInv(main, s)
    requires MovesGoUp(u.was, u.supplied) && ConfigMovesGoUp(u.was, u.supplied) && ConfigFilesDistinct(u.supplied, main)
    ensures WatchInv(main, ApplyAll(env, s, LoadOps(Ascending(u.Target().Keys), u.Current(), u.Target())))
  {
    HalfwayStart(u.Kept(), u.Target());
    u.AllReady(env);
    AllFree(u, main);
    LoadsRespect(env, main, u.Current(), u.Kept(), u.Target(), s, u.Target().Keys);
    RunKeepsWatch(env, main, s, LoadOps(Ascending(u.Target().Keys), u.Current(), u.Target()));
  }

  // ---------------------------------------------------------------- and when the moves do not go up

  lemma LoadWatchesNoOther(env: Env, s: LoaderState, cfg: ConfigEbpf, file: string)
    requires file !in s.watched && cfg.config != file
    ensures file !in ApplyLoad(env, s, cfg.lib, cfg.hook, cfg.ifindex, cfg.config).watched
  {
    var made := env.factory(env.scheme.file(cfg.lib), s.loads);
    if made.Some? && cfg.lib !in s.services {
      var h := Handle(made.value.name, "", cfg.hook, cfg.ifindex, made.value.prog);
      InsertedLeavesServices(env, Registered(env, Added(s, cfg.lib, h), cfg.lib, cfg.config), h);
    }
  }

  /** What one entry's calls do to the watch on a file that the entry does not have in the new configuration. */
  lemma EntryWatch(env: Env, scheme: Scheme, current: EbpfMap, view: EbpfMap, s: LoaderState, n: string,
                   cfg: ConfigEbpf, file: string)
    requires Tracks(scheme, view, s) && (n in view <==> n in current) && (n in view ==> view[n] == current[n])
    requires file != "" && cfg.config != file
    ensures file !in s.watched ==> file !in EntryEffect(env, s, current, n, cfg).watched
    ensures n in current && current[n].config == file ==> file !in EntryEffect(env, s, current, n, cfg).watched
  {
    if n !in current {
      if file !in s.watched {
        LoadWatchesNoOther(env, s, cfg, file);
      }
    } else if Replaces(current[n], cfg) && file !in ApplyUnload(s, current[n].lib).watched {
      LoadWatchesNoOther(env, ApplyUnload(s, current[n].lib), cfg, file);
    }
  }

  /** `n` takes over the configuration file of `m`, a name that stays and comes later. */
  ghost predicate FileDownward(u: Update, n: string, m: string) {
    && n in u.supplied && m in u.supplied && m in u.was && n != m
    && u.supplied[n].config == u.was[m].config != "" && Less(n, m)
  }

  /** Of the new configuration only `n` has the file, and `m`, which comes later, had it. */
  ghost predicate TakesOver(current: EbpfMap, target: EbpfMap, n: string, m: string, file: string) {
    && m in current && current[m].config == file && file != "" && m in target && Less(n, m)
    && forall x | x in target && x != n :: target[x].config != file
  }

  lemma DownwardTakesOver(u: Update, main: string, n: string, m: string)
    requires u.Ok() && FileDownward(u, n, m) && ConfigFilesDistinct(u.supplied, main)
    ensures TakesOver(u.Current(), u.Target(), n, m, u.was[m].config)
  {
    u.SchedulerEntries(m);
    forall x | x in u.Target() && x != n ensures u.Target()[x].config != u.was[m].config {
      u.SchedulerEntries(x);
    }
  }

  lemma StillUnwatched(env: Env, current: EbpfMap, view: EbpfMap, target: EbpfMap, s: LoaderState, todo: set<string>,
                       least: string, n: string, m: string, file: string)
    requires AllLoad(env, target) && TakesOver(current, target, n, m, file)
    requires IsLeast(least, todo) && Processed(target, todo)
    requires Tracks(env.scheme, view, s) && EntryReady(env, current, view, least, target[least])
    requires m in todo || file !in s.watched
    ensures m in todo - {least} || file !in EntryEffect(env, s, current, least, target[least]).watched
  {
    LessTotal(n, m);
    if least != n {
      EntryWatch(env, env.scheme, current, view, s, least, target[least], file);
    }
  }

  lemma {:induction false} UnwatchedOnTheWay(env: Env, current: EbpfMap, kept: EbpfMap, target: EbpfMap, s: LoaderState,
                                             todo: set<string>, n: string, m: string, file: string)
    requires SchemeOk(env.scheme) && AllLoad(env, target) && TakesOver(current, target, n, m, file)
    requires Processed(target, todo) && Tracks(env.scheme, Halfway(kept, target, todo), s)
    requires NextIsReady(env, current, kept, target)
    requires m in todo || file !in s.watched
    ensures file !in ApplyAll(env, s, LoadOps(Ascending(todo), current, target)).watched
    decreases |todo|
  {
    if todo != {} {
      var least := Least(todo);
      var view := Halfway(kept, target, todo);
      LoadFirst(env, s, todo, current, target);
      EntryTracks(env, current, view, s, least, target[least]);
      StillUnwatched(env, current, view, target, s, todo, least, n, m, file);
      HalfwayStep(kept, target, todo, least);
      var s' := EntryEffect(env, s, current, least, target[least]);
      UnwatchedOnTheWay(env, current, kept, target, s', todo - {least}, n, m, file);
    }
  }

  lemma FileDownwardMoveBreaks(u: Update, env: Env, main: string, s: LoaderState, n: string, m: string)
    requires u.Ok() && env.scheme == u.scheme && AllLoad(env, u.Target()) && MovesGoUp(u.was, u.supplied)
    requires Tracks(u.scheme, u.Current(), s) && ConfigFilesDistinct(u.supplied, main) && FileDownward(u, n, m)
    ensures !WatchInv(main, u.Result(env, s))
  {
    u.TwoPhases(env, s);
    u.UnloadsTrack(env, s);
    HalfwayStart(u.Kept(), u.Target());
    u.AllReady(env);
    DownwardTakesOver(u, main, n, m);
    UnwatchedOnTheWay(env, u.Current(), u.Kept(), u.Target(), u.AfterUnloads(env, s), u.Target().Keys, n, m,
                      u.was[m].config);
    u.Reconciles(env, s);
    u.SchedulerEntries(n);
  }

  /**
  An update leaves services and watched files matching the new configuration exactly when neither libraries nor
  configuration files move down, from a name that stays to an earlier one.
  */
  lemma UpdateIsRightExactly(u: Update, env: Env, main: string, s: LoaderState)
    requires u.Ok() && env.scheme == u.scheme && AllLoad(env, u.Target())
    requires Tracks(u.scheme, u.Current(), s) && WatchInv(main, s) && ConfigFilesDistinct(u.supplied, main)
    ensures Tracks(u.scheme, u.Target(), u.Result(env, s)) && WatchInv(main, u.Result(env, s)) <==>
            MovesGoUp(u.was, u.supplied) && ConfigMovesGoUp(u.was, u.supplied)
  {
    u.ReconcilesExactly(env, s);
    if MovesGoUp(u.was, u.supplied) {
      if ConfigMovesGoUp(u.was, u.supplied) {
        UpdateKeepsWatch(u, env, main, s);
      } else {
        var n, m :| n in u.supplied && m in u.supplied && m in u.was && n != m
          && u.supplied[n].config == u.was[m].config != "" && !Less(m, n);
        LessTotal(n, m);
        FileDownwardMoveBreaks(u, env, main, s, n, m);
      }
    }
  }

  /** Read off the configuration: the watched files are the main one and the configured ones. */
  lemma WatchedExactly(u: Update, main: string, s: LoaderState, file: string)
    requires u.Ok() && Tracks(u.scheme, u.Target(), s) && WatchInv(main, s)
    ensures file in s.watched <==>
            file == main || (file != "" && exists n :: n in u.supplied && u.supplied[n].config == file)
  {
    if file in s.watched && file != main {
      var lib :| lib in s.services && s.services[lib].config == file;
      var n :| n in u.Target() && u.Target()[n].lib == lib;
      u.SchedulerEntries(n);
    }
    if n :| n in u.supplied && u.supplied[n].config == file && file != "" {
      u.SchedulerEntries(n);
      assert s.services[u.Target()[n].lib].config == file;
    }
  }

  // ---------------------------------------------------------------- stop

  /** `Daemon::stop` unloads every listed library, whatever order they are listed in. */
  ghost function StopOps(libs: seq<string>): seq<Op> {
    if libs == [] then [] else [Unload(libs[0])] + StopOps(libs[1..])
  }

  /** Afterwards no service is loaded, schedulers included, and only the main file is watched. */
  lemma {:induction false} StopUnloadsAll(env: Env, main: string, s: LoaderState, libs: seq<string>)
    requires WatchInv(main, s) && forall lib | lib in s.services :: lib in libs
    ensures var s' := ApplyAll(env, s, StopOps(libs)); s'.services == map[] && s'.watched == {main}
    decreases |libs|
  {
    if libs == [] {
      assert s.watched == {main};
    } else {
      assert StopOps(libs)[1..] == StopOps(libs[1..]);
      UnloadKeepsWatch(main, s, libs[0]);
      StopUnloadsAll(env, main, ApplyUnload(s, libs[0]), libs[1..]);
    }
  }
}
