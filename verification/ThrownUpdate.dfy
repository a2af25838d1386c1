/**
After an update that threw: a service whose file could not be registered is loaded but not stored, and later updates
pass it by (src/daemon/loader.cc:60-92, src/daemon/daemon.cc:153-213).
*/
module ThrownUpdate {
  import opened Configs
  import opened LoaderSpec
  import opened NameOrder
  import opened Reconcile

  /** The call leaves the service of `lib` as it is, given that it is loaded. */
  predicate PassesBy(scheme: Scheme, lib: string, op: Op) {
    match op
    case Load(l, _, _, config) => l == lib || config == "" || scheme.file(l) != lib
    case Unload(l) => l != lib
    case Register(l, _, _, _) => l != lib
    case Unregister(l, _) => l != lib
  }

  lemma CallPassesBy(env: Env, s: LoaderState, lib: string, op: Op)
    requires lib in s.services && PassesBy(env.scheme, lib, op)
    ensures var s' := Apply(env, s, op); lib in s'.services && s'.services[lib] == s.services[lib]
  {
    if op.Load? && op.lib !in s.services && env.factory(env.scheme.file(op.lib), s.loads).Some? {
      var svc := env.factory(env.scheme.file(op.lib), s.loads).value;
      var h := Handle(svc.name, "", op.hook, op.nic, svc.prog);
      InsertedLeavesServices(env, Registered(env, Added(s, op.lib, h), op.lib, op.config), h);
    }
  }

  lemma {:induction false} RunPassesBy(env: Env, s: LoaderState, lib: string, ops: seq<Op>)
    requires lib in s.services && forall op | op in ops :: PassesBy(env.scheme, lib, op)
    ensures var s' := ApplyAll(env, s, ops); lib in s'.services && s'.services[lib] == s.services[lib]
    decreases |ops|
  {
    if ops != [] {
      CallPassesBy(env, s, lib, ops[0]);
      RunPassesBy(env, Apply(env, s, ops[0]), lib, ops[1..]);
    }
  }

  lemma {:induction false} UnloadsPassBy(scheme: Scheme, lib: string, names: seq<string>, bare: EbpfMap,
                                         supplied: EbpfMap)
    requires forall n | n in names :: n in bare && bare[n].lib != lib
    ensures forall op | op in UnloadOps(names, bare, supplied) :: PassesBy(scheme, lib, op)
  {
    if names != [] {
      assert names[0] in names;
      UnloadsPassBy(scheme, lib, names[1..], bare, supplied);
    }
  }

  lemma {:induction false} LoadsPassBy(scheme: Scheme, lib: string, names: seq<string>, current: EbpfMap,
                                       target: EbpfMap)
    requires forall n | n in current :: current[n].lib != lib
    requires forall n | n in names :: n in target && PassesBy(scheme, lib, LoadOf(target[n]))
    ensures forall op | op in LoadOps(names, current, target) :: PassesBy(scheme, lib, op)
  {
    if names != [] {
      assert names[0] in names;
      LoadsPassBy(scheme, lib, names[1..], current, target);
      forall op | op in EntryOps(current, names[0], target[names[0]]) ensures PassesBy(scheme, lib, op) {
      }
    }
  }

  lemma PlanPassesBy(u: Update, lib: string)
    requires u.Ok() && forall n | n in u.Current() :: u.Current()[n].lib != lib
    ensures forall op | op in Plan(u.scheme, u.Current(), u.supplied) :: PassesBy(u.scheme, lib, op)
  {
    var bare := WithoutSchedulers(u.scheme, u.Current());
    UnloadsPassBy(u.scheme, lib, Ascending(bare.Keys), bare, u.supplied);
    forall n | n in u.Target() ensures PassesBy(u.scheme, lib, LoadOf(u.Target()[n])) {
      u.SchedulerEntries(n);
      if n in u.supplied {
        assert u.scheme.file(u.supplied[n].lib) == u.supplied[n].lib;
      }
    }
    LoadsPassBy(u.scheme, lib, Ascending(u.Target().Keys), u.Current(), u.Target());
  }

  /**
  A loaded service of which the stored configuration knows nothing stays as it is, whatever is configured next; the
  services follow the new configuration only if that asks for just this service, with its hook, its NIC and its file.
  */
  lemma UnknownStays(u: Update, env: Env, s: LoaderState, lib: string)
    requires u.Ok() && env.scheme == u.scheme && forall n | n in u.Current() :: u.Current()[n].lib != lib
    requires lib in s.services && !Marked(lib)
    ensures var s' := u.Result(env, s);
            && lib in s'.services && s'.services[lib] == s.services[lib]
            && (Tracks(u.scheme, u.Target(), s') ==>
                  exists n :: n in u.Target() && u.Target()[n].lib == lib && Matches(s.services[lib], u.Target()[n]))
  {
    PlanPassesBy(u, lib);
    RunPassesBy(env, s, lib, Plan(u.scheme, u.Current(), u.supplied));
    var s' := u.Result(env, s);
    assert Marked(u.scheme.lib(s.services[lib].hook, s.services[lib].nic));
    if Tracks(u.scheme, u.Target(), s') {
      assert !Leftover(u.scheme, lib, s'.services[lib]);
      var n :| n in u.Target() && u.Target()[n].lib == lib;
      assert Matches(s'.services[lib], u.Target()[n]);
    }
  }

  /** A load that throws after its service was started leaves it without a file. */
  lemma ThrownLoadHasNoFile(env: Env, s: LoaderState, op: Op, s': LoaderState)
    requires op.Load? && Threw(env, s, op, s') && env.factory(env.scheme.file(op.lib), s.loads).Some?
    ensures op.lib in s'.services && s'.services[op.lib].config == ""
  {
  }

  /**
  In an update `u` the load of an entry with a file, whose library is not stored, throws in state `s` once its service
  is started.  The next update, from the same stored configuration, may well return, but leaves the service without
  the file that both ask for.
  */
  lemma RetryRegistersNothing(u: Update, env: Env, s: LoaderState, n: string, s1: LoaderState, u': Update, env': Env)
    requires u.Ok() && n in u.supplied && forall m | m in u.Current() :: u.Current()[m].lib != u.supplied[n].lib
    requires env.factory(env.scheme.file(u.supplied[n].lib), s.loads).Some?
    requires Threw(env, s, LoadOf(u.supplied[n]), s1)
    requires u'.Ok() && u'.scheme == u.scheme && u'.was == u.was && env'.scheme == u.scheme
    requires n in u'.supplied && u'.supplied[n].lib == u.supplied[n].lib && u'.supplied[n].config != ""
    ensures var lib, s' := u.supplied[n].lib, u'.Result(env', s1);
            lib in s'.services && s'.services[lib].config == "" && !Tracks(u'.scheme, u'.Target(), s')
  {
    var lib := u.supplied[n].lib;
    ThrownLoadHasNoFile(env, s, LoadOf(u.supplied[n]), s1);
    assert !Marked(u.supplied[n].lib);
    assert u'.Current() == u.Current();
    UnknownStays(u', env', s1, lib);
    u'.SchedulerEntries(n);
    AllLibsInjective(u'.scheme, u'.supplied);
  }
}
