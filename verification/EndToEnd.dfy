/**
What `Daemon.Update` guarantees when it is called on an empty system: its contract, turned into a statement about
packets.
*/
module EndToEnd {
  import opened Chain
  import opened ChainAgreement
  import opened ChainSpec
  import opened Configs
  import opened ConfiguredChain
  import opened Daemon
  import opened ExactAgreement
  import opened Hooks
  import opened KernelMaps
  import opened LoaderSpec
  import opened PacketPath
  import opened PinnedProgMap
  import opened SharedSlots
  import opened Wrappers

  lemma {:induction false} NoMoreThan(names: seq<string>, all: set<string>)
    requires NoRepeats(names) && forall n | n in names :: n in all
    ensures |names| <= |all|
    decreases |names|
  {
    if names != [] {
      var front, last := names[..|names| - 1], names[|names| - 1];
      NoMoreThan(front, all - {last});
    }
  }

  lemma {:induction false} NamesNoLonger(ordered: NamesIfindex, nic: Ifindex)
    ensures |NamesOf(ordered, nic)| <= |ordered|
    decreases |ordered|
  {
    if ordered != [] {
      NamesNoLonger(ordered[..|ordered| - 1], nic);
    }
  }

  /** Either guard keeps the chains of a configuration apart, the shipped one as long as they fit the array. */
  ghost predicate GuardFits(guard: Guard, cfgs: EbpfMap) {
    guard == INTENDED_GUARD || (guard == SHIPPED_GUARD && |cfgs| < MAX_CHAIN_PROGS)
  }

  lemma GuardSeparates(rb: Rebuild, scheme: Scheme, cfgs: EbpfMap, names: seq<string>)
    requires RegionsOk(rb.regions) && rb.Placed() && Orders(scheme, cfgs, rb.hook, names, rb.ordered)
    requires GuardFits(rb.guard, cfgs)
    ensures Separate(rb)
  {
    if rb.guard == INTENDED_GUARD {
      IntendedGuardSeparates(rb);
    } else {
      NoMoreThan(names, cfgs.Keys);
      forall nic | rb.Accepted(nic) ensures |rb.Chain(nic)| <= MAX_CHAIN_PROGS {
        NamesNoLonger(rb.ordered, nic);
        IdsNoLonger(rb.reg, rb.hook, rb.Names(nic));
      }
      ShippedGuardSeparates(rb);
    }
  }

  /** The chain maps belong to the environment in which services were loaded, and are sound. */
  ghost predicate MapsOf(maps: ChainMaps, env: Env, hook: HookType) {
    && maps.reg == env.reg && maps.tcHash == env.tcHash && maps.xdpHash == env.xdpHash
    && maps.scheduler(hook) == env.scheme.official(hook, env.scheme.path(hook))
    && Known(env.reg, hook, maps.scheduler(hook))
    && hook in maps.regions && RegionsOk(maps.regions[hook])
  }

  /** A configuration that may be deployed in an environment. */
  ghost predicate Deployable(env: Env, supplied: EbpfMap) {
    && IdsUnique(env.reg) && SchemeOk(env.scheme) && ConfigOk(env.scheme, supplied)
    && TargetOk(env, WithSchedulers(env.scheme, supplied))
  }

  /** A rebuild that either guard allows finishes and keeps the chains apart. */
  lemma BuiltIsFinished(rb: Rebuild, scheme: Scheme, cfgs: EbpfMap, names: seq<string>, hash: IdHash)
    requires ChainBuilt(rb, scheme, cfgs, names, hash) && RegionsOk(rb.regions) && rb.Placed()
    requires GuardFits(rb.guard, cfgs)
    ensures Separate(rb) && rb.IsHash(hash) && Orders(scheme, cfgs, rb.hook, names, rb.ordered)
  {
    GuardSeparates(rb, scheme, cfgs, names);
    SeparateFits(rb);
  }

  /** `d` is a deployment of the configuration that uses these maps. */
  ghost predicate DeploymentOf(d: Deployment, maps: ChainMaps, env: Env, supplied: EbpfMap, hook: HookType) {
    && d.env == env && d.supplied == supplied && d.hook == hook && hook in maps.regions
    && d.rb.regions == maps.regions[hook] && d.rb.guard == maps.guard
  }

  /** What MapsBuilt says of one hook. */
  lemma BuiltForHook(maps: ChainMaps, env: Env, supplied: EbpfMap, hook: HookType) returns (d: Deployment)
    requires MapsBuilt(maps, env.scheme, supplied) && MapsOf(maps, env, hook)
    requires hook in HooksOf(supplied) && ProgMap.HasMaps(hook)
    ensures DeploymentOf(d, maps, env, supplied, hook)
    ensures ChainBuilt(d.rb, env.scheme, supplied, d.names, env.HashOf(hook))
    ensures d.rb.reg == env.reg && d.rb.hook == hook && d.rb.scheduler == maps.scheduler(hook)
  {
    assert HookBuilt(maps, env.scheme, supplied, hook);
    assert HashBuilt(maps.reg, hook, maps.scheduler(hook), maps.regions[hook], maps.guard, env.scheme, supplied,
                     env.HashOf(hook));
    var names, ordered :|
      ChainBuilt(Rebuild(maps.reg, hook, maps.scheduler(hook), ordered, maps.regions[hook], maps.guard),
                 env.scheme, supplied, names, env.HashOf(hook));
    d := Deployment(env, supplied, hook, names,
                    Rebuild(maps.reg, hook, maps.scheduler(hook), ordered, maps.regions[hook], maps.guard));
  }

  lemma DeployableIsOk(d: Deployment)
    requires Deployable(d.env, d.supplied) && d.RebuildIs() && ProgMap.HasMaps(d.hook)
    ensures d.Planned()
  {
    assert ConfigOk(d.env.scheme, map[]);
  }

  lemma FirstPlanIsDeployment(d: Deployment, s: LoaderState)
    requires d.TheUpdate().Ok()
    ensures ApplyAll(d.env, s, Plan(d.env.scheme, map[], d.supplied)) == d.After(s)
  {
    assert d.TheUpdate().Current() == map[];
  }

  /** Packets are treated as the deployment says, on every NIC in use. */
  ghost predicate ServedExactly(d: Deployment, s: LoaderState)
    requires d.TheUpdate().Ok()
  {
    && (forall nic | nic in NicsOn(d.supplied, d.hook) :: d.Serves(s, nic) <==> d.ServedIn(nic))
    && (d.rb.guard == SHIPPED_GUARD ==>
          forall nic | nic in NicsOn(d.supplied, d.hook) && d.Members(nic) != [] ::
            d.Serves(s, nic) <==> nic in d.rb.regions && d.rb.regions[nic] == 0)
  }

  lemma HoldingServesExactly(d: Deployment, s: LoaderState)
    requires d.Ok() && d.Holds(s) && RegionsOk(d.rb.regions) && d.rb.Placed()
    ensures ServedExactly(d, s)
  {
    OrderedNics(d.env.scheme, d.supplied, d.hook, d.names, d.rb.ordered);
    forall nic | nic in NicsOn(d.supplied, d.hook) ensures d.Serves(s, nic) <==> d.ServedIn(nic) {
      d.ServesExactly(s, nic);
    }
    if d.rb.guard == SHIPPED_GUARD {
      forall nic | nic in NicsOn(d.supplied, d.hook) && d.Members(nic) != []
        ensures d.Serves(s, nic) <==> nic in d.rb.regions && d.rb.regions[nic] == 0
      {
        d.ShippedServesExactly(s, nic);
      }
    }
  }

  /**
  The NICs served are those the guard accepts with a free place behind their chain, and those that have nothing to
  serve.  With the guard as shipped, of all with registered programs just the one whose region is the first.
  */
  ghost predicate HookServes(maps: ChainMaps, env: Env, supplied: EbpfMap, hook: HookType, s: LoaderState) {
    exists d: Deployment :: DeploymentOf(d, maps, env, supplied, hook) && InPlace(d, s) && ServedExactly(d, s)
  }

  /** Every NIC has its region, and services, hash and array are as the deployment asks. */
  ghost predicate InPlace(d: Deployment, s: LoaderState) {
    d.Ok() && d.rb.Placed() && d.Holds(s) && Exactly(d.TheUpdate().Target(), s)
  }

  /**
  After the first update, whose calls turned a blank loader into `s'`, there is for every hook in use an order of
  its entries, ascending, such that exactly those NICs serve the chain in that order.
  */
  lemma FirstUpdateServesPackets(maps: ChainMaps, env: Env, supplied: EbpfMap, hook: HookType, s: LoaderState,
                                 s': LoaderState)
    requires MapsBuilt(maps, env.scheme, supplied) && MapsOf(maps, env, hook) && Deployable(env, supplied)
    requires hook in HooksOf(supplied) && ProgMap.HasMaps(hook) && GuardFits(maps.guard, supplied)
    requires HookPlaced(maps, supplied, hook)
    requires Blank(s) && s' == ApplyAll(env, s, Plan(env.scheme, map[], supplied))
    ensures HookServes(maps, env, supplied, hook, s')
  {
    var d := BuiltForHook(maps, env, supplied, hook);
    OrderedNics(env.scheme, supplied, hook, d.names, d.rb.ordered);
    BuiltIsFinished(d.rb, env.scheme, supplied, d.names, env.HashOf(hook));
    DeployableIsOk(d);
    FirstPlanIsDeployment(d, s);
    d.Installed(s);
    HoldingServesExactly(d, s');
  }

  /**
  With more NICs than regions, the NICs left over take the slots of the first region: unless the rebuild failed for
  want of entries, none of them is served along with the NIC that has it.
  */
  ghost predicate HookSpills(maps: ChainMaps, env: Env, supplied: EbpfMap, hook: HookType, s: LoaderState) {
    exists d: Deployment :: DeploymentOf(d, maps, env, supplied, hook) && Spilled(d, s)
  }

  ghost predicate Spilled(d: Deployment, s: LoaderState) {
    && d.TheUpdate().Ok() && !d.rb.Placed()
    && (|d.rb.Keys()| <= MAX_CHAIN_PROGS && OwnPrograms(d.env) ==>
          d.rb.IsHash(d.env.HashOf(d.hook)) && NoTwoServed(d, s))
  }

  lemma DeploymentSpills(d: Deployment, s: LoaderState, s': LoaderState)
    requires Deployable(d.env, d.supplied) && ProgMap.HasMaps(d.hook) && !d.rb.Placed()
    requires d.RebuildIs() || |d.rb.Keys()| > MAX_CHAIN_PROGS
    requires Blank(s) && s' == ApplyAll(d.env, s, Plan(d.env.scheme, map[], d.supplied))
    ensures Spilled(d, s')
  {
    assert ConfigOk(d.env.scheme, map[]);
    if |d.rb.Keys()| <= MAX_CHAIN_PROGS && OwnPrograms(d.env) {
      DeployableIsOk(d);
      NoTwoServedAfter(d, s, s');
    }
  }

  lemma NoTwoServedAfter(d: Deployment, s: LoaderState, s': LoaderState)
    requires d.Planned() && Blank(s) && OwnPrograms(d.env)
    requires s' == ApplyAll(d.env, s, Plan(d.env.scheme, map[], d.supplied))
    ensures NoTwoServed(d, s')
  {
    FirstPlanIsDeployment(d, s);
    InstalledSharesSlots(d, s);
  }

  lemma FirstUpdateSpills(maps: ChainMaps, env: Env, supplied: EbpfMap, hook: HookType, s: LoaderState,
                          s': LoaderState)
    requires MapsBuilt(maps, env.scheme, supplied) && MapsOf(maps, env, hook) && Deployable(env, supplied)
    requires hook in HooksOf(supplied) && ProgMap.HasMaps(hook) && !HookPlaced(maps, supplied, hook)
    requires Blank(s) && s' == ApplyAll(env, s, Plan(env.scheme, map[], supplied))
    ensures HookSpills(maps, env, supplied, hook, s')
  {
    var d := BuiltForHook(maps, env, supplied, hook);
    OrderedNics(env.scheme, supplied, hook, d.names, d.rb.ordered);
    DeploymentSpills(d, s, s');
  }

  // ---------------------------------------------------------------- the call itself

  /** The schedulers of the hooks with chain maps are registered under their official names. */
  ghost predicate SchedulersKnown(maps: ChainMaps, scheme: Scheme) {
    forall hook | ProgMap.HasMaps(hook) ::
      maps.scheduler(hook) == scheme.official(hook, scheme.path(hook)) && Known(maps.reg, hook, maps.scheduler(hook))
  }

  lemma DeployableWithNewHashes(env: Env, env': Env, supplied: EbpfMap)
    requires Deployable(env, supplied) && env' == env.(tcHash := env'.tcHash, xdpHash := env'.xdpHash)
    ensures Deployable(env', supplied)
  {
    var target := WithSchedulers(env.scheme, supplied);
    forall n | n in target ensures CanLoad(env', target[n].lib) && WellBuilt(env', target[n].lib, target[n].hook) {
      assert CanLoad(env, target[n].lib) && WellBuilt(env, target[n].lib, target[n].hook);
    }
  }

  /** From no regions on, the NICs of a hook all get theirs exactly if there are at most four. */
  lemma FourArePlaced(before: ChainMaps, maps: ChainMaps, supplied: EbpfMap, hook: HookType)
    requires before.regions == map[] && AllGrow(before.regions, maps.regions, supplied, {}) && hook in HooksOf(supplied)
    ensures HookPlaced(maps, supplied, hook) <==> |NicsOn(supplied, hook)| <= MAX_NIC_HOOK
    ensures hook in maps.regions && InTurn(RegionsFor(maps.regions, hook))
  {
    var n :| n in supplied && supplied[n].hook == hook;
    assert supplied[n].ifindex in NicsOn(supplied, hook);
    NoneInTurn();
    FourGetRegions(map[], RegionsFor(maps.regions, hook), NicsOn(supplied, hook));
    var none: Regions := map[];
    assert none.Keys + NicsOn(supplied, hook) == NicsOn(supplied, hook);
  }

  /** What the first update leaves of a hook with at most four NICs, and with more where assertions do not stop it. */
  ghost predicate FirstUpdateEnds(maps: ChainMaps, env: Env, supplied: EbpfMap, hook: HookType, s: LoaderState) {
    && InTurn(RegionsFor(maps.regions, hook))
    && if |NicsOn(supplied, hook)| <= MAX_NIC_HOOK then HookServes(maps, env, supplied, hook, s)
       else !maps.strict && HookSpills(maps, env, supplied, hook, s)
  }

  lemma HookIsServed(before: ChainMaps, maps: ChainMaps, env: Env, supplied: EbpfMap, hook: HookType,
                     s: LoaderState, s': LoaderState)
    requires MapsBuilt(maps, env.scheme, supplied) && AllGrow(before.regions, maps.regions, supplied, {})
    requires before.regions == map[]
    requires maps.reg == env.reg && maps.tcHash == env.tcHash && maps.xdpHash == env.xdpHash
    requires SchedulersKnown(maps, env.scheme) && forall h | h in maps.regions :: RegionsOk(maps.regions[h])
    requires Deployable(env, supplied) && GuardFits(maps.guard, supplied)
    requires hook in HooksOf(supplied) && ProgMap.HasMaps(hook)
    requires Blank(s) && s' == ApplyAll(env, s, Plan(env.scheme, map[], supplied))
    ensures FirstUpdateEnds(maps, env, supplied, hook, s')
  {
    FourArePlaced(before, maps, supplied, hook);
    assert HookBuilt(maps, env.scheme, supplied, hook);
    if |NicsOn(supplied, hook)| <= MAX_NIC_HOOK {
      FirstUpdateServesPackets(maps, env, supplied, hook, s, s');
    } else {
      FirstUpdateSpills(maps, env, supplied, hook, s, s');
    }
  }

  /** The first update of a daemon, and what its packets meet from then on. */
  method FirstUpdate(daemon: Daemon, supplied: EbpfMap) returns (r: Outcome<()>)
    requires daemon.Valid() && daemon.current == map[] && Blank(daemon.loader.State())
    requires daemon.loader.chains.regions == map[]
    requires forall n | n in supplied :: supplied[n].lib != "" && supplied[n].hook != UNKNOWN
    requires Deployable(daemon.loader.TheEnv(), supplied) && SchedulersKnown(daemon.Maps(), daemon.loader.scheme)
    requires GuardFits(daemon.loader.chains.guard, supplied)
    modifies daemon`current, daemon.loader, daemon.loader.watches, daemon.loader.watches.inotify,
             daemon.loader.chains`regions, daemon.loader.chains.tcHash, daemon.loader.chains.tcArray,
             daemon.loader.chains.xdpHash, daemon.loader.chains.xdpArray
    ensures r.Returned? ==>
              forall hook | hook in HooksOf(supplied) && (hook == TC || hook == XDP_GENERIC) ::
                FirstUpdateEnds(daemon.Maps(), daemon.loader.TheEnv(), supplied, hook, daemon.loader.State())
  {
    ghost var env, s, before := daemon.loader.TheEnv(), daemon.loader.State(), daemon.Maps();
    r := daemon.Update(supplied);
    ghost var env', s', maps := daemon.loader.TheEnv(), daemon.loader.State(), daemon.Maps();
    if r.Returned? {
      DeployableWithNewHashes(env, env', supplied);
      forall hook | hook in HooksOf(supplied) && (hook == TC || hook == XDP_GENERIC)
        ensures FirstUpdateEnds(maps, env', supplied, hook, s')
      {
        NotEmpty(env'.scheme, supplied, hook);
        HookIsServed(before, maps, env', supplied, hook, s, s');
      }
    }
  }

  lemma NotEmpty(scheme: Scheme, supplied: EbpfMap, hook: HookType)
    requires hook in HooksOf(supplied)
    ensures NeedsRebuild(scheme, map[], supplied)
  {
    assert WithoutSchedulers(scheme, map[]) == map[];
  }
}
