/**
What the calls of one `Daemon::update` amount to: exactly when the loaded services end up matching the new
configuration, and that the watched files follow (src/daemon/daemon.cc:100-219).
*/
module Reconcile {
  import opened Configs
  import opened LoaderSpec
  import opened NameOrder

  /**
  A library that changes hands between a configured name that stays and another name goes to a later name, in
  the order in which the map of the configuration is enumerated.
  */
  ghost predicate MovesGoUp(was: EbpfMap, supplied: EbpfMap) {
    forall n, m | n in supplied && m in supplied && m in was && n != m && supplied[n].lib == was[m].lib :: Less(m, n)
  }

  /** The same for configuration files. */
  ghost predicate ConfigMovesGoUp(was: EbpfMap, supplied: EbpfMap) {
    forall n, m | n in supplied && m in supplied && m in was && n != m && supplied[n].config == was[m].config != "" ::
      Less(m, n)
  }

  ghost predicate ConfigFilesDistinct(cfgs: EbpfMap, main: string) {
    && (forall n | n in cfgs :: cfgs[n].config != main)
    && (forall n, m | n in cfgs && m in cfgs && n != m && cfgs[n].config != "" :: cfgs[n].config != cfgs[m].config)
  }

  // ---------------------------------------------------------------- one entry

  /** No other entry of the view has this library. */
  ghost predicate LibFree(view: EbpfMap, n: string, cfg: ConfigEbpf) {
    forall m | m in view && m != n :: view[m].lib != cfg.lib
  }

  /** No other entry of the view, nor the main program, has this configuration file. */
  ghost predicate ConfigFree(main: string, view: EbpfMap, n: string, cfg: ConfigEbpf) {
    cfg.config != "" ==> cfg.config != main && forall m | m in view && m != n :: view[m].config != cfg.config
  }

  ghost predicate EntryReady(env: Env, current: EbpfMap, view: EbpfMap, n: string, cfg: ConfigEbpf) {
    && (n in view <==> n in current) && (n in view ==> view[n] == current[n])
    && LibFree(view, n, cfg) && Loadable(env.scheme, cfg) && (cfg.config != "" ==> !env.IsScheduler(cfg.lib))
    && (Marked(cfg.lib) && n in view ==> view[n] == cfg)
  }

  lemma SameButOrder(scheme: Scheme, view: EbpfMap, s: LoaderState, n: string, cfg: ConfigEbpf)
    requires Tracks(scheme, view, s) && n in view && cfg == view[n].(order := cfg.order)
    ensures Tracks(scheme, view[n := cfg], s)
  {
    var view' := view[n := cfg];
    forall lib | lib in s.services && !Leftover(scheme, lib, s.services[lib])
      ensures exists m :: m in view' && view'[m].lib == lib
    {
      var m :| m in view && view[m].lib == lib;
      assert view'[m].lib == lib;
    }
  }

  lemma OneOp(env: Env, s: LoaderState, a: Op)
    ensures ApplyAll(env, s, [a]) == Apply(env, s, a)
  {
    assert [a][1..] == [];
    assert ApplyAll(env, Apply(env, s, a), []) == Apply(env, s, a);
  }

  lemma TwoOps(env: Env, s: LoaderState, a: Op, b: Op)
    ensures ApplyAll(env, s, [a, b]) == Apply(env, Apply(env, s, a), b)
  {
    assert [a, b][1..] == [b];
    OneOp(env, Apply(env, s, a), b);
  }

  /** Whether an entry makes the loader drop and reload its service. */
  predicate Replaces(was: ConfigEbpf, cfg: ConfigEbpf) {
    was.lib != cfg.lib || was.hook != cfg.hook || was.ifindex != cfg.ifindex
  }

  /** The effect of the calls made for one entry. */
  function EntryEffect(env: Env, s: LoaderState, current: EbpfMap, n: string, cfg: ConfigEbpf): LoaderState {
    if n !in current then ApplyLoad(env, s, cfg.lib, cfg.hook, cfg.ifindex, cfg.config)
    else if Replaces(current[n], cfg) then
      ApplyLoad(env, ApplyUnload(s, current[n].lib), cfg.lib, cfg.hook, cfg.ifindex, cfg.config)
    else if current[n].config != cfg.config then
      ApplyRegister(ApplyUnregister(s, current[n].lib, current[n].config), cfg.lib, cfg.config)
    else s
  }

  lemma EntryEffects(env: Env, s: LoaderState, current: EbpfMap, n: string, cfg: ConfigEbpf)
    ensures ApplyAll(env, s, EntryOps(current, n, cfg)) == EntryEffect(env, s, current, n, cfg)
  {
    var load := Load(cfg.lib, cfg.hook, cfg.ifindex, cfg.config);
    if n !in current {
      OneOp(env, s, load);
    } else if Replaces(current[n], cfg) {
      TwoOps(env, s, Unload(current[n].lib), load);
    } else if current[n].config != cfg.config {
      TwoOps(env, s, Unregister(current[n].lib, current[n].config),
             Register(cfg.lib, cfg.hook, cfg.ifindex, cfg.config));
    }
  }

  lemma ReplaceTracks(env: Env, view: EbpfMap, s: LoaderState, n: string, cfg: ConfigEbpf)
    requires SchemeOk(env.scheme) && CanLoad(env, cfg.lib)
    requires Tracks(env.scheme, view, s) && n in view && LibFree(view, n, cfg)
    requires Loadable(env.scheme, cfg) && (cfg.config != "" ==> !env.IsScheduler(cfg.lib))
    ensures Tracks(env.scheme, view[n := cfg],
                   ApplyLoad(env, ApplyUnload(s, view[n].lib), cfg.lib, cfg.hook, cfg.ifindex, cfg.config))
  {
    var rest, s1 := view - {n}, ApplyUnload(s, view[n].lib);
    assert rest[n := cfg] == view[n := cfg];
    UnloadTracks(env.scheme, view, s, n);
    LoadTracks(env, rest, s1, n, cfg);
  }

  lemma EntryTracks(env: Env, current: EbpfMap, view: EbpfMap, s: LoaderState, n: string, cfg: ConfigEbpf)
    requires SchemeOk(env.scheme) && CanLoad(env, cfg.lib)
    requires Tracks(env.scheme, view, s) && EntryReady(env, current, view, n, cfg)
    ensures Tracks(env.scheme, view[n := cfg], EntryEffect(env, s, current, n, cfg))
  {
    if n !in current {
      LoadTracks(env, view, s, n, cfg);
    } else if Replaces(current[n], cfg) {
      ReplaceTracks(env, view, s, n, cfg);
    } else if current[n].config != cfg.config {
      ReregisterTracks(env.scheme, view, s, n, cfg);
    } else {
      SameButOrder(env.scheme, view, s, n, cfg);
    }
  }

  /** Which libraries one entry's calls leave loaded. */
  lemma EntryKeys(env: Env, s: LoaderState, current: EbpfMap, n: string, cfg: ConfigEbpf, lib: string)
    requires CanLoad(env, cfg.lib)
    ensures lib in EntryEffect(env, s, current, n, cfg).services <==>
            if n !in current then lib in s.services || lib == cfg.lib
            else if Replaces(current[n], cfg) then (lib in s.services && lib != current[n].lib) || lib == cfg.lib
            else lib in s.services
  {
    if n !in current {
      LoadServices(env, s, cfg.lib, cfg.hook, cfg.ifindex, cfg.config);
    } else {
      LoadServices(env, ApplyUnload(s, current[n].lib), cfg.lib, cfg.hook, cfg.ifindex, cfg.config);
    }
  }

  // ---------------------------------------------------------------- the unload loop

  function Pruned(view: EbpfMap, todo: set<string>, supplied: EbpfMap): EbpfMap {
    map n | n in view && (n !in todo || n in supplied) :: view[n]
  }

  /** The unload loop acts on the least name first. */
  lemma UnloadFirst(env: Env, s: LoaderState, todo: set<string>, bare: EbpfMap, supplied: EbpfMap)
    requires todo != {} && todo <= bare.Keys
    ensures var n := Least(todo);
            var s' := if n in supplied then s else ApplyUnload(s, bare[n].lib);
            ApplyAll(env, s, UnloadOps(Ascending(todo), bare, supplied)) ==
            ApplyAll(env, s', UnloadOps(Ascending(todo - {n}), bare, supplied))
  {
    var n := Least(todo);
    assert Ascending(todo)[1..] == Ascending(todo - {n});
    var tail := UnloadOps(Ascending(todo - {n}), bare, supplied);
    if n in supplied {
      assert UnloadOps(Ascending(todo), bare, supplied) == [] + tail;
      assert [] + tail == tail;
    } else {
      OneOp(env, s, Unload(bare[n].lib));
      ApplyConcat(env, s, [Unload(bare[n].lib)], tail);
    }
  }

  lemma PrunedStep(view: EbpfMap, todo: set<string>, n: string, supplied: EbpfMap)
    requires n in todo
    ensures n in supplied ==> Pruned(view, todo, supplied) == Pruned(view, todo - {n}, supplied)
    ensures n !in supplied ==> Pruned(view, todo, supplied) == Pruned(view - {n}, todo - {n}, supplied)
    ensures Pruned(view, {}, supplied) == view
  {
  }

  lemma {:induction false} UnloadPhase(env: Env, view: EbpfMap, s: LoaderState, todo: set<string>, bare: EbpfMap,
                                       supplied: EbpfMap)
    requires Tracks(env.scheme, view, s)
    requires forall n | n in todo :: n in bare && n in view && view[n] == bare[n]
    ensures Tracks(env.scheme, Pruned(view, todo, supplied),
                   ApplyAll(env, s, UnloadOps(Ascending(todo), bare, supplied)))
    decreases |todo|
  {
    if todo == {} {
      assert Pruned(view, todo, supplied) == view;
    } else {
      var n := Least(todo);
      UnloadFirst(env, s, todo, bare, supplied);
      PrunedStep(view, todo, n, supplied);
      if n in supplied {
        UnloadPhase(env, view, s, todo - {n}, bare, supplied);
      } else {
        UnloadTracks(env.scheme, view, s, n);
        UnloadPhase(env, view - {n}, ApplyUnload(s, view[n].lib), todo - {n}, bare, supplied);
      }
    }
  }

  // ---------------------------------------------------------------- the load loop

  /** The configuration in force when the names in `todo` are still to be processed. */
  function Halfway(kept: EbpfMap, target: EbpfMap, todo: set<string>): EbpfMap {
    map n | n in kept.Keys + (target.Keys - todo) :: if n in target && n !in todo then target[n] else kept[n]
  }

  /** Everything outside `todo` comes before everything in it. */
  ghost predicate Processed(target: EbpfMap, todo: set<string>) {
    todo <= target.Keys && forall d, t | d in target && d !in todo && t in todo :: Less(d, t)
  }

  /** The next name meets no other entry of the half-way configuration that has its library. */
  ghost predicate NextIsReady(env: Env, current: EbpfMap, kept: EbpfMap, target: EbpfMap) {
    forall todo, n | Processed(target, todo) && IsLeast(n, todo) ::
      EntryReady(env, current, Halfway(kept, target, todo), n, target[n])
  }

  lemma HalfwayStep(kept: EbpfMap, target: EbpfMap, todo: set<string>, n: string)
    requires Processed(target, todo) && IsLeast(n, todo)
    ensures Halfway(kept, target, todo)[n := target[n]] == Halfway(kept, target, todo - {n})
    ensures Processed(target, todo - {n})
  {
  }

  lemma HalfwayStart(kept: EbpfMap, target: EbpfMap)
    ensures Halfway(kept, target, target.Keys) == kept && Processed(target, target.Keys)
  {
  }

  /** The load loop acts on the least name first. */
  lemma LoadFirst(env: Env, s: LoaderState, todo: set<string>, current: EbpfMap, target: EbpfMap)
    requires todo != {} && todo <= target.Keys
    ensures var n := Least(todo);
            ApplyAll(env, s, LoadOps(Ascending(todo), current, target)) ==
            ApplyAll(env, EntryEffect(env, s, current, n, target[n]), LoadOps(Ascending(todo - {n}), current, target))
  {
    var n := Least(todo);
    assert Ascending(todo)[1..] == Ascending(todo - {n});
    EntryEffects(env, s, current, n, target[n]);
    ApplyConcat(env, s, EntryOps(current, n, target[n]), LoadOps(Ascending(todo - {n}), current, target));
  }

  lemma {:induction false} LoadPhase(env: Env, current: EbpfMap, kept: EbpfMap, target: EbpfMap, s: LoaderState,
                                     todo: set<string>)
    requires SchemeOk(env.scheme) && AllLoad(env, target)
    requires Processed(target, todo) && Tracks(env.scheme, Halfway(kept, target, todo), s)
    requires NextIsReady(env, current, kept, target)
    ensures Tracks(env.scheme, Halfway(kept, target, {}), ApplyAll(env, s, LoadOps(Ascending(todo), current, target)))
    decreases |todo|
  {
    if todo != {} {
      var n := Least(todo);
      LoadFirst(env, s, todo, current, target);
      EntryTracks(env, current, Halfway(kept, target, todo), s, n, target[n]);
      HalfwayStep(kept, target, todo, n);
      LoadPhase(env, current, kept, target, EntryEffect(env, s, current, n, target[n]), todo - {n});
    }
  }

  // ---------------------------------------------------------------- why the next name is ready

  /** What one update starts from: the stored configuration, what the unload loop leaves of it, and the target. */
  datatype Update = Update(scheme: Scheme, was: EbpfMap, supplied: EbpfMap) {

    ghost predicate Ok() {
      SchemeOk(scheme) && ConfigOk(scheme, was) && ConfigOk(scheme, supplied)
    }

    ghost function Current(): EbpfMap
      requires Ok()
    {
      WithSchedulers(scheme, was)
    }

    ghost function Target(): EbpfMap
      requires Ok()
    {
      WithSchedulers(scheme, supplied)
    }

    ghost function Kept(): EbpfMap
      requires Ok()
    {
      Pruned(Current(), was.Keys, supplied)
    }

    /** An entry of the stored or the new configuration that is not a supplied one is a scheduler's. */
    lemma SchedulerEntries(n: string)
      requires Ok()
      ensures n in Current() && n !in was ==>
                exists h, i :: n == scheme.id(h, i) && Current()[n] == SchedulerEntry(scheme, h, i)
      ensures n in Target() && n !in supplied ==>
                exists h, i :: n == scheme.id(h, i) && Target()[n] == SchedulerEntry(scheme, h, i)
      ensures n in was ==> n in Current() && Current()[n] == was[n]
      ensures n in supplied ==> n in Target() && Target()[n] == supplied[n]
      ensures n in was ==> n !in Target() || n in supplied
      ensures n in supplied ==> n !in Current() || n in was
    {
      if n in Current() && n !in was {
        var p :| p in Pairs(was) && n == scheme.id(p.0, p.1) && Current()[n] == SchedulerEntry(scheme, p.0, p.1);
      }
      if n in Target() && n !in supplied {
        var p :| p in Pairs(supplied) && n == scheme.id(p.0, p.1) && Target()[n] == SchedulerEntry(scheme, p.0, p.1);
      }
    }

    /** Only schedulers have marked libraries. */
    lemma OnlySchedulersMarked(n: string)
      requires Ok()
      ensures n in Current() ==> (Marked(Current()[n].lib) <==> n !in was)
      ensures n in Target() ==> (Marked(Target()[n].lib) <==> n !in supplied)
    {
      SchedulerEntries(n);
    }

    /** The same scheduler has the same name before and after. */
    lemma SameScheduler(n: string, m: string)
      requires Ok() && n in Target() && n !in supplied && m in Current() && m !in was
      requires Target()[n].lib == Current()[m].lib
      ensures n == m
    {
      SchedulerEntries(n);
      SchedulerEntries(m);
    }

    lemma NextPlainLibFree(todo: set<string>, n: string, m: string)
      requires Ok() && MovesGoUp(was, supplied) && IsLeast(n, todo)
      requires n in supplied && m in was && m in supplied && m in todo && m != n
      ensures was[m].lib != supplied[n].lib
    {
      LessTotal(n, m);
    }

    /** The library of the entry being processed is not in use by another stored or already processed entry. */
    lemma NextLibFree(todo: set<string>, n: string, m: string)
      requires Ok() && MovesGoUp(was, supplied)
      requires Processed(Target(), todo) && IsLeast(n, todo)
      requires m in Halfway(Kept(), Target(), todo) && m != n
      ensures Halfway(Kept(), Target(), todo)[m].lib != Target()[n].lib
    {
      SchedulerEntries(n);
      SchedulerEntries(m);
      OnlySchedulersMarked(n);
      OnlySchedulersMarked(m);
      if m in Target() && m !in todo {
        AllLibsInjective(scheme, supplied);
      } else if m in was && n in supplied {
        NextPlainLibFree(todo, n, m);
      } else if m !in was && n !in supplied && Target()[n].lib == Current()[m].lib {
        SameScheduler(n, m);
      }
    }

    lemma NextReady(env: Env, todo: set<string>, n: string)
      requires Ok() && env.scheme == scheme && MovesGoUp(was, supplied)
      requires Processed(Target(), todo) && IsLeast(n, todo)
      ensures EntryReady(env, Current(), Halfway(Kept(), Target(), todo), n, Target()[n])
    {
      SchedulerEntries(n);
      forall m | m in Halfway(Kept(), Target(), todo) && m != n
        ensures Halfway(Kept(), Target(), todo)[m].lib != Target()[n].lib
      {
        NextLibFree(todo, n, m);
      }
      if n in supplied {
        assert env.scheme.file(supplied[n].lib) == supplied[n].lib;
      }
    }

    lemma ForgetOne(s: LoaderState, m: string)
      requires Ok() && Tracks(scheme, Halfway(Kept(), Target(), {}), s) && m in Halfway(Kept(), Target(), {})
      ensures var lib := Halfway(Kept(), Target(), {})[m].lib;
              if m in Target() then Target()[m].lib == lib else Leftover(scheme, lib, s.services[lib])
    {
      SchedulerEntries(m);
    }

    /** Schedulers that no entry needs any more may stay loaded without being configured. */
    lemma ForgetLeftovers(s: LoaderState)
      requires Ok() && Tracks(scheme, Halfway(Kept(), Target(), {}), s)
      ensures Tracks(scheme, Target(), s)
    {
      var view := Halfway(Kept(), Target(), {});
      AllLibsInjective(scheme, supplied);
      forall lib | lib in s.services
        ensures Leftover(scheme, lib, s.services[lib]) || exists m :: m in Target() && Target()[m].lib == lib
      {
        if m :| m in view && view[m].lib == lib {
          ForgetOne(s, m);
        }
      }
      forall n | n in Target()
        ensures Target()[n].lib in s.services && Matches(s.services[Target()[n].lib], Target()[n])
      {
        assert view[n] == Target()[n];
      }
    }

    /** The state after the calls of the update. */
    ghost function Result(env: Env, s: LoaderState): LoaderState
      requires Ok()
    {
      ApplyAll(env, s, Plan(scheme, Current(), supplied))
    }

    ghost function AfterUnloads(env: Env, s: LoaderState): LoaderState
      requires Ok()
    {
      ApplyAll(env, s, UnloadOps(Ascending(was.Keys), was, supplied))
    }

    lemma TwoPhases(env: Env, s: LoaderState)
      requires Ok()
      ensures Result(env, s) ==
              ApplyAll(env, AfterUnloads(env, s), LoadOps(Ascending(Target().Keys), Current(), Target()))
    {
      StripUndoesSynthesis(scheme, was);
      ApplyConcat(env, s, UnloadOps(Ascending(was.Keys), was, supplied),
                  LoadOps(Ascending(Target().Keys), Current(), Target()));
    }

    lemma AllReady(env: Env)
      requires Ok() && env.scheme == scheme && MovesGoUp(was, supplied)
      ensures NextIsReady(env, Current(), Kept(), Target())
    {
      forall todo, n | Processed(Target(), todo) && IsLeast(n, todo)
        ensures EntryReady(env, Current(), Halfway(Kept(), Target(), todo), n, Target()[n])
      {
        NextReady(env, todo, n);
      }
    }

    lemma UnloadsTrack(env: Env, s: LoaderState)
      requires Ok() && env.scheme == scheme && Tracks(scheme, Current(), s)
      ensures Tracks(scheme, Kept(), AfterUnloads(env, s))
    {
      forall n | n in was ensures n in Current() && Current()[n] == was[n] {
        SchedulerEntries(n);
      }
      UnloadPhase(env, Current(), s, was.Keys, was, supplied);
    }

    lemma LoadsTrack(env: Env, s: LoaderState)
      requires Ok() && env.scheme == scheme && AllLoad(env, Target()) && MovesGoUp(was, supplied)
      requires Tracks(scheme, Kept(), s)
      ensures Tracks(scheme, Target(), ApplyAll(env, s, LoadOps(Ascending(Target().Keys), Current(), Target())))
    {
      HalfwayStart(Kept(), Target());
      AllReady(env);
      LoadPhase(env, Current(), Kept(), Target(), s, Target().Keys);
      ForgetLeftovers(ApplyAll(env, s, LoadOps(Ascending(Target().Keys), Current(), Target())));
    }

    /** With moves that go up, the update leaves exactly the new configuration loaded, old schedulers aside. */
    lemma Reconciles(env: Env, s: LoaderState)
      requires Ok() && env.scheme == scheme && AllLoad(env, Target())
      requires Tracks(scheme, Current(), s) && MovesGoUp(was, supplied)
      ensures Tracks(scheme, Target(), Result(env, s))
    {
      TwoPhases(env, s);
      UnloadsTrack(env, s);
      LoadsTrack(env, AfterUnloads(env, s));
    }

    // ---------------------------------------------------------------- and when the moves do not go up

    /** `n` takes over the library of `m`, a name that stays and comes later. */
    ghost predicate Downward(n: string, m: string) {
      && n in supplied && m in supplied && m in was && n != m
      && supplied[n].lib == was[m].lib && Less(n, m)
    }

    lemma DownwardFacts(n: string, m: string)
      requires Ok() && Downward(n, m)
      ensures m in Current() && m in Target() && n in Target()
      ensures Current()[m].lib == Target()[n].lib != Target()[m].lib
      ensures LibsInjective(Current()) && LibsInjective(Target())
    {
      SchedulerEntries(n);
      SchedulerEntries(m);
      AllLibsInjective(scheme, was);
      AllLibsInjective(scheme, supplied);
    }

    /** Processing the names in order, the library is loaded only until `m` is reached: `n` had its turn before. */
    lemma {:induction false} LostOnTheWay(env: Env, s: LoaderState, todo: set<string>, n: string, m: string)
      requires Ok() && Downward(n, m) && AllLoad(env, Target()) && Processed(Target(), todo)
      requires was[m].lib in s.services <==> m in todo
      ensures was[m].lib !in ApplyAll(env, s, LoadOps(Ascending(todo), Current(), Target())).services
      decreases |todo|
    {
      if todo != {} {
        var least := Least(todo);
        DownwardFacts(n, m);
        LoadFirst(env, s, todo, Current(), Target());
        EntryKeys(env, s, Current(), least, Target()[least], was[m].lib);
        LessTotal(n, m);
        HalfwayStep(Kept(), Target(), todo, least);
        LostOnTheWay(env, EntryEffect(env, s, Current(), least, Target()[least]), todo - {least}, n, m);
      }
    }

    lemma DownwardMoveBreaks(env: Env, s: LoaderState, n: string, m: string)
      requires Ok() && env.scheme == scheme && AllLoad(env, Target())
      requires Tracks(scheme, Current(), s) && Downward(n, m)
      ensures supplied[n].lib !in Result(env, s).services && !Tracks(scheme, Target(), Result(env, s))
    {
      TwoPhases(env, s);
      UnloadsTrack(env, s);
      DownwardFacts(n, m);
      assert m in Kept() && Kept()[m] == Current()[m];
      HalfwayStart(Kept(), Target());
      LostOnTheWay(env, AfterUnloads(env, s), Target().Keys, n, m);
    }

    /** The update reconciles exactly when no library moves down to an earlier name from a name that stays. */
    lemma ReconcilesExactly(env: Env, s: LoaderState)
      requires Ok() && env.scheme == scheme && AllLoad(env, Target()) && Tracks(scheme, Current(), s)
      ensures Tracks(scheme, Target(), Result(env, s)) <==> MovesGoUp(was, supplied)
    {
      if MovesGoUp(was, supplied) {
        Reconciles(env, s);
      } else {
        var n, m :| n in supplied && m in supplied && m in was && n != m
          && supplied[n].lib == was[m].lib && !Less(m, n);
        LessTotal(n, m);
        DownwardMoveBreaks(env, s, n, m);
      }
    }
  }
}
