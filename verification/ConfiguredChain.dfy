/**
The chains of a configuration: what an update from empty maps makes a packet visit, and that updates which only
append to the chains keep hash and array in agreement (src/daemon/daemon.cc:123-213, src/ebpf/ebpf_chain.h:55-66).
*/
module ConfiguredChain {
  import opened ChainAgreement
  import opened Configs
  import opened Hooks
  import opened LoaderSpec
  import opened NameOrder
  import opened Reconcile

  // ---------------------------------------------------------------- updates that only add

  ghost predicate AllWellBuilt(env: Env, cfgs: EbpfMap) {
    forall n | n in cfgs :: WellBuilt(env, cfgs[n].lib, cfgs[n].hook)
  }

  /** The official name of an entry's library. */
  function Official(scheme: Scheme, cfg: ConfigEbpf): string {
    scheme.official(cfg.hook, scheme.file(cfg.lib))
  }

  /** On each hook and NIC every entry has its own official name. */
  ghost predicate NamesDistinct(scheme: Scheme, cfgs: EbpfMap) {
    forall n, m | n in cfgs && m in cfgs && n != m &&
                  cfgs[n].hook == cfgs[m].hook && cfgs[n].ifindex == cfgs[m].ifindex ::
      Official(scheme, cfgs[n]) != Official(scheme, cfgs[m])
  }

  /** Every entry of `was` keeps its library, hook and NIC. */
  ghost predicate Extends(was: EbpfMap, supplied: EbpfMap) {
    forall n | n in was :: n in supplied && !Replaces(was[n], supplied[n])
  }

  /** Every loaded service is one of the view: no scheduler was left over. */
  ghost predicate Exactly(view: EbpfMap, s: LoaderState) {
    forall lib | lib in s.services :: exists n :: n in view && view[n].lib == lib
  }

  lemma SchedulersExtend(u: Update)
    requires u.Ok() && Extends(u.was, u.supplied)
    ensures Extends(u.Current(), u.Target()) && MovesGoUp(u.was, u.supplied)
  {
    forall n | n in u.Current() ensures n in u.Target() && !Replaces(u.Current()[n], u.Target()[n]) {
      u.SchedulerEntries(n);
      if n !in u.was {
        var entry := u.Current()[n];
        var p :| p in Pairs(u.was) && n == u.scheme.id(p.0, p.1) && entry == SchedulerEntry(u.scheme, p.0, p.1);
        assert p in Pairs(u.supplied);
      }
    }
  }

  lemma {:induction false} NoUnloads(names: seq<string>, bare: EbpfMap, supplied: EbpfMap)
    requires forall n | n in names :: n in bare && n in supplied
    ensures UnloadOps(names, bare, supplied) == []
  {
    if names != [] {
      NoUnloads(names[1..], bare, supplied);
    }
  }

  /** A new entry finds its seat free, an old one keeps its service. */
  lemma EntrySeats(env: Env, current: EbpfMap, view: EbpfMap, target: EbpfMap, s: LoaderState, n: string)
    requires Tracks(env.scheme, view, s) && Exactly(view, s) && Extends(view, target)
    requires NamesDistinct(env.scheme, target) && n in target && WellBuilt(env, target[n].lib, target[n].hook)
    requires n in view <==> n in current
    requires n in current ==> !Replaces(current[n], target[n])
    ensures SeatsFree(env, s, EntryOps(current, n, target[n]))
  {
    if n !in current {
      var cfg := target[n];
      forall l | l in s.services && s.services[l].hook == cfg.hook && s.services[l].nic == cfg.ifindex
        ensures env.scheme.official(cfg.hook, env.scheme.file(l)) != Official(env.scheme, cfg)
      {
        var m :| m in view && view[m].lib == l;
        assert m in target && Official(env.scheme, target[m]) != Official(env.scheme, cfg);
      }
      assert EntryOps(current, n, cfg)[1..] == [];
    } else if current[n].config != target[n].config {
      var ops := EntryOps(current, n, target[n]);
      assert ops[1..][1..] == [];
    }
  }

  lemma EntryExactly(env: Env, current: EbpfMap, view: EbpfMap, target: EbpfMap, s: LoaderState, n: string)
    requires Exactly(view, s) && n in target && CanLoad(env, target[n].lib)
    requires (n in view <==> n in current) && (n in view ==> view[n].lib == target[n].lib)
    requires n in current ==> !Replaces(current[n], target[n])
    ensures Exactly(view[n := target[n]], EntryEffect(env, s, current, n, target[n]))
  {
    var s', view' := EntryEffect(env, s, current, n, target[n]), view[n := target[n]];
    forall lib | lib in s'.services ensures exists m :: m in view' && view'[m].lib == lib {
      EntryKeys(env, s, current, n, target[n], lib);
      if lib in s.services {
        var m :| m in view && view[m].lib == lib;
        assert view'[m].lib == lib;
      } else {
        assert view'[n].lib == lib;
      }
    }
  }

  lemma {:induction false} SeatsConcat(env: Env, s: LoaderState, a: seq<Op>, b: seq<Op>)
    requires SeatsFree(env, s, a) && SeatsFree(env, ApplyAll(env, s, a), b)
    ensures SeatsFree(env, s, a + b)
    decreases |a|
  {
    if a == [] {
      assert a + b == b;
    } else {
      assert (a + b)[1..] == a[1..] + b;
      SeatsConcat(env, Apply(env, s, a[0]), a[1..], b);
    }
  }

  /** Services follow the half-way configuration, and every entry keeps what it has. */
  ghost predicate Appending(env: Env, current: EbpfMap, target: EbpfMap, s: LoaderState, todo: set<string>) {
    && Processed(target, todo) && Extends(current, target)
    && Tracks(env.scheme, Halfway(current, target, todo), s) && Exactly(Halfway(current, target, todo), s)
  }

  ghost predicate TargetOk(env: Env, target: EbpfMap) {
    SchemeOk(env.scheme) && AllLoad(env, target) && AllWellBuilt(env, target) && NamesDistinct(env.scheme, target)
  }

  lemma AppendStep(env: Env, current: EbpfMap, target: EbpfMap, s: LoaderState, todo: set<string>, n: string)
    requires TargetOk(env, target) && NextIsReady(env, current, current, target)
    requires Appending(env, current, target, s, todo) && IsLeast(n, todo)
    ensures SeatsFree(env, s, EntryOps(current, n, target[n]))
    ensures Appending(env, current, target, EntryEffect(env, s, current, n, target[n]), todo - {n})
  {
    var view := Halfway(current, target, todo);
    assert EntryReady(env, current, view, n, target[n]);
    EntryTracks(env, current, view, s, n, target[n]);
    EntrySeats(env, current, view, target, s, n);
    EntryExactly(env, current, view, target, s, n);
    HalfwayStep(current, target, todo, n);
  }

  lemma {:induction false} LoadsSeat(env: Env, current: EbpfMap, target: EbpfMap, s: LoaderState, todo: set<string>)
    requires TargetOk(env, target) && NextIsReady(env, current, current, target)
    requires Appending(env, current, target, s, todo)
    ensures SeatsFree(env, s, LoadOps(Ascending(todo), current, target))
    ensures Exactly(Halfway(current, target, {}), ApplyAll(env, s, LoadOps(Ascending(todo), current, target)))
    decreases |todo|
  {
    if todo != {} {
      var n := Least(todo);
      AppendStep(env, current, target, s, todo, n);
      var s' := EntryEffect(env, s, current, n, target[n]);
      LoadsSeat(env, current, target, s', todo - {n});
      EntryEffects(env, s, current, n, target[n]);
      LoadFirst(env, s, todo, current, target);
      assert Ascending(todo)[1..] == Ascending(todo - {n});
      SeatsConcat(env, s, EntryOps(current, n, target[n]), LoadOps(Ascending(todo - {n}), current, target));
    }
  }

  /** What an update that only adds does: it unloads nothing and takes no service's seat. */
  lemma AppendSeats(u: Update, env: Env, s: LoaderState)
    requires u.Ok() && env.scheme == u.scheme && Extends(u.was, u.supplied)
    requires TargetOk(env, u.Target())
    requires Tracks(u.scheme, u.Current(), s) && Exactly(u.Current(), s)
    ensures SeatsFree(env, s, Plan(u.scheme, u.Current(), u.supplied))
    ensures Exactly(u.Target(), u.Result(env, s)) && Tracks(u.scheme, u.Target(), u.Result(env, s))
  {
    SchedulersExtend(u);
    u.Reconciles(env, s);
    StripUndoesSynthesis(u.scheme, u.was);
    NoUnloads(Ascending(u.was.Keys), u.was, u.supplied);
    u.AllReady(env);
    NothingPruned(u.Current(), u.Target(), u.was.Keys, u.supplied);
    HalfwayStart(u.Current(), u.Target());
    LoadsSeat(env, u.Current(), u.Target(), s, u.Target().Keys);
    var loads := LoadOps(Ascending(u.Target().Keys), u.Current(), u.Target());
    assert Plan(u.scheme, u.Current(), u.supplied) == [] + loads == loads;
  }

  lemma NothingPruned(current: EbpfMap, target: EbpfMap, names: set<string>, supplied: EbpfMap)
    requires Extends(current, target) && names <= supplied.Keys
    ensures Pruned(current, names, supplied) == current && Halfway(current, target, {}) == target
  {
  }

  /** Such an update keeps array and hash in agreement. */
  lemma AppendAgrees(u: Update, env: Env, hook: HookType, s: LoaderState)
    requires u.Ok() && env.scheme == u.scheme && Extends(u.was, u.supplied) && EnvOk(env, hook)
    requires TargetOk(env, u.Target())
    requires Tracks(u.scheme, u.Current(), s) && Exactly(u.Current(), s) && Agree(env, hook, s)
    ensures Agree(env, hook, u.Result(env, s))
  {
    AppendSeats(u, env, s);
    RunAgrees(env, hook, s, Plan(u.scheme, u.Current(), u.supplied));
  }

  /** What it leaves. */
  lemma AppendKeeps(u: Update, env: Env, hook: HookType, s: LoaderState)
    requires u.Ok() && env.scheme == u.scheme && Extends(u.was, u.supplied) && EnvOk(env, hook)
             && TargetOk(env, u.Target())
    requires Tracks(u.scheme, u.Current(), s) && Exactly(u.Current(), s) && Agree(env, hook, s)
             && OnlyListed(env, hook, s)
    ensures var s' := u.Result(env, s);
            Tracks(u.scheme, u.Target(), s') && Exactly(u.Target(), s') && Agree(env, hook, s')
            && OnlyListed(env, hook, s')
  {
    AppendSeats(u, env, s);
    AppendAgrees(u, env, hook, s);
    RunKeepsListed(env, hook, s, Plan(u.scheme, u.Current(), u.supplied));
  }
}
