/**
One update more: entries that go behind the stored ones on their NICs extend the chains, and `Daemon.Update` takes the
system from one deployment to the next (src/daemon/daemon.cc:100-219).
*/
module NextUpdate {
  import opened Chain
  import opened ChainGrowth
  import opened ChainSpec
  import opened Configs
  import opened ConfiguredChain
  import opened Daemon
  import opened EndToEnd
  import opened Hooks
  import opened KernelMaps
  import opened LoaderSpec
  import opened PacketPath
  import opened Wrappers

  // ---------------------------------------------------------------- chains in order

  /** The entries of one NIC on a hook. */
  function EntriesOn(cfgs: EbpfMap, hook: HookType, nic: Ifindex): set<string> {
    set n | n in cfgs && cfgs[n].hook == hook && cfgs[n].ifindex == nic
  }

  ghost predicate Within(a: seq<string>, b: seq<string>) {
    forall n | n in a :: n in b
  }

  /** Two sorted lists: the orders of `a` differ, and what only `b` has comes behind all of `a`. */
  ghost predicate Extended(cfgs: EbpfMap, a: seq<string>, b: seq<string>) {
    && NoRepeats(a) && NoRepeats(b) && InOrder(cfgs, a) && InOrder(cfgs, b)
    && (forall n, m | n in a && m in a && n != m :: cfgs[n].order != cfgs[m].order)
    && Within(a, b)
    && forall n, m | n in a && m in b && m !in a :: cfgs[n].order < cfgs[m].order
  }

  /** If the last of `b` is one of `a`, it is the last of `a`, and `b` has no others. */
  lemma LastIsLast(cfgs: EbpfMap, a: seq<string>, b: seq<string>)
    requires Extended(cfgs, a, b) && a != [] && b != [] && b[|b| - 1] in a
    ensures a[|a| - 1] == b[|b| - 1] && Within(b, a)
  {
    var last := b[|b| - 1];
    forall m | m in b ensures cfgs[m].order <= cfgs[last].order && m in a {
      var i :| 0 <= i < |b| && b[i] == m;
    }
    var j :| 0 <= j < |a| && a[j] == last;
    assert cfgs[last].order <= cfgs[a[|a| - 1]].order;
    assert a[|a| - 1] in a && a[|a| - 1] in b;
  }

  lemma FrontOf(cfgs: EbpfMap, names: seq<string>)
    requires NoRepeats(names) && InOrder(cfgs, names) && names != []
    ensures var front := names[..|names| - 1];
            && NoRepeats(front) && InOrder(cfgs, front)
            && forall n :: n in front <==> n in names && n != names[|names| - 1]
  {
    assert names == names[..|names| - 1] + [names[|names| - 1]];
    InOrderSnoc(cfgs, names[..|names| - 1], names[|names| - 1]);
  }

  lemma ExtendedFronts(cfgs: EbpfMap, a: seq<string>, b: seq<string>)
    requires Extended(cfgs, a, b) && a != [] && b != [] && b[|b| - 1] in a
    ensures Extended(cfgs, a[..|a| - 1], b[..|b| - 1]) && Within(b[..|b| - 1], a[..|a| - 1])
  {
    LastIsLast(cfgs, a, b);
    FrontOf(cfgs, a);
    FrontOf(cfgs, b);
  }

  lemma ExtendedFront(cfgs: EbpfMap, a: seq<string>, b: seq<string>)
    requires Extended(cfgs, a, b) && b != [] && b[|b| - 1] !in a
    ensures Extended(cfgs, a, b[..|b| - 1])
  {
    FrontOf(cfgs, b);
  }

  /** Such lists begin alike. */
  lemma {:induction false} SortedPrefix(cfgs: EbpfMap, a: seq<string>, b: seq<string>)
    requires Extended(cfgs, a, b)
    ensures a <= b
    decreases |b|
  {
    if a != [] {
      assert a[0] in a && a[0] in b;
      var front := b[..|b| - 1];
      if b[|b| - 1] in a {
        LastIsLast(cfgs, a, b);
        ExtendedFronts(cfgs, a, b);
        SortedPrefix(cfgs, a[..|a| - 1], front);
        SameLength(a[..|a| - 1], front);
        SameWithLast(a, b);
      } else {
        ExtendedFront(cfgs, a, b);
        SortedPrefix(cfgs, a, front);
      }
    }
  }

  lemma SameWithLast(a: seq<string>, b: seq<string>)
    requires a != [] && b != [] && a[..|a| - 1] == b[..|b| - 1] && a[|a| - 1] == b[|b| - 1]
    ensures a == b
  {
    assert a == a[..|a| - 1] + [a[|a| - 1]];
    assert b == b[..|b| - 1] + [b[|b| - 1]];
  }

  lemma SameLength(a: seq<string>, b: seq<string>)
    requires a <= b && NoRepeats(a) && NoRepeats(b) && Within(b, a)
    ensures a == b
  {
    var all := set n | n in a;
    AsManyAs(a, all);
    AsManyAs(b, all);
  }

  /** Official names of entries. */
  function Officials(scheme: Scheme, cfgs: EbpfMap, hook: HookType, names: seq<string>): seq<string>
    requires forall n | n in names :: n in cfgs
  {
    seq(|names|, i requires 0 <= i < |names| => scheme.official(hook, cfgs[names[i]].lib))
  }

  lemma OfficialsSnoc(scheme: Scheme, cfgs: EbpfMap, hook: HookType, names: seq<string>, n: string)
    requires n in cfgs && forall m | m in names :: m in cfgs
    ensures Officials(scheme, cfgs, hook, names + [n]) ==
            Officials(scheme, cfgs, hook, names) + [scheme.official(hook, cfgs[n].lib)]
  {
  }

  /** The names of a NIC are those of its entries, in order. */
  lemma {:induction false} NamesAreOfficials(scheme: Scheme, cfgs: EbpfMap, hook: HookType, nic: Ifindex,
                                             names: seq<string>, ordered: NamesIfindex, keep: set<string>)
    requires |ordered| == |names|
    requires forall i | 0 <= i < |names| ::
               names[i] in cfgs && ordered[i] == (scheme.official(hook, cfgs[names[i]].lib), cfgs[names[i]].ifindex)
    requires forall n | n in names :: n in keep <==> cfgs[n].ifindex == nic
    ensures forall n | n in Only(names, keep) :: n in cfgs
    ensures NamesOf(ordered, nic) == Officials(scheme, cfgs, hook, Only(names, keep))
    decreases |names|
  {
    if names != [] {
      var k := |names| - 1;
      assert names[k] in names;
      NamesAreOfficials(scheme, cfgs, hook, nic, names[..k], ordered[..k], keep);
      if names[k] in keep {
        OfficialsSnoc(scheme, cfgs, hook, Only(names[..k], keep), names[k]);
      }
    }
  }

  /** The entries of a NIC, as the deployment orders them. */
  ghost function Listed(d: Deployment, nic: Ifindex): seq<string> {
    Only(d.names, EntriesOn(d.supplied, d.hook, nic))
  }

  lemma ListedAre(d: Deployment, nic: Ifindex)
    requires d.RebuildIs()
    ensures NoRepeats(Listed(d, nic)) && InOrder(d.supplied, Listed(d, nic))
    ensures forall n :: n in Listed(d, nic) <==> n in EntriesOn(d.supplied, d.hook, nic)
    ensures NamesOf(d.rb.ordered, nic) == Officials(d.env.scheme, d.supplied, d.hook, Listed(d, nic))
    ensures |d.rb.Names(nic)| == 1 + |EntriesOn(d.supplied, d.hook, nic)|
  {
    OnlyKept(d.names, EntriesOn(d.supplied, d.hook, nic));
    OnlyInOrder(d.supplied, d.names, EntriesOn(d.supplied, d.hook, nic));
    NamesAreOfficials(d.env.scheme, d.supplied, d.hook, nic, d.names, d.rb.ordered,
                      EntriesOn(d.supplied, d.hook, nic));
    AsManyAs(Listed(d, nic), EntriesOn(d.supplied, d.hook, nic));
  }

  // ---------------------------------------------------------------- appending

  /** New entries come behind the stored ones of their NIC, whose orders differ and do not change. */
  ghost predicate Appends(was: EbpfMap, supplied: EbpfMap, hook: HookType, nic: Ifindex) {
    var stored := EntriesOn(was, hook, nic);
    && (forall n | n in stored :: n in supplied && supplied[n].order == was[n].order)
    && (forall n, m | n in stored && m in stored && n != m :: was[n].order != was[m].order)
    && forall n, m | n in stored && m in EntriesOn(supplied, hook, nic) && m !in was ::
         was[n].order < supplied[m].order
  }

  /** The guard gives the NIC the same answer as before. */
  predicate SameAnswer(guard: Guard, start: Index, was: EbpfMap, supplied: EbpfMap, hook: HookType, nic: Ifindex) {
    guard(start, 1 + |EntriesOn(was, hook, nic)|) == guard(start, 1 + |EntriesOn(supplied, hook, nic)|)
  }

  lemma ListsExtend(was: EbpfMap, supplied: EbpfMap, hook: HookType, nic: Ifindex, a: seq<string>, b: seq<string>)
    requires Extends(was, supplied) && Appends(was, supplied, hook, nic)
    requires NoRepeats(a) && InOrder(was, a) && forall n :: n in a <==> n in EntriesOn(was, hook, nic)
    requires NoRepeats(b) && InOrder(supplied, b) && forall n :: n in b <==> n in EntriesOn(supplied, hook, nic)
    ensures Extended(supplied, a, b)
  {
    forall n | n in a ensures n in b && supplied[n].order == was[n].order {
      assert n in EntriesOn(was, hook, nic);
    }
    forall n, m | n in a && m in b && m !in a ensures supplied[n].order < supplied[m].order {
      assert m !in was;
    }
    assert InOrder(supplied, a);
    forall n, m | n in a && m in a && n != m ensures supplied[n].order != supplied[m].order {
      assert n in EntriesOn(was, hook, nic) && m in EntriesOn(was, hook, nic);
    }
  }

  lemma ListGrows(d: Deployment, d': Deployment, nic: Ifindex)
    requires d.RebuildIs() && d'.RebuildIs() && d'.hook == d.hook
    requires Extends(d.supplied, d'.supplied) && Appends(d.supplied, d'.supplied, d.hook, nic)
    ensures Listed(d, nic) <= Listed(d', nic)
  {
    ListedAre(d, nic);
    ListedAre(d', nic);
    ListsExtend(d.supplied, d'.supplied, d.hook, nic, Listed(d, nic), Listed(d', nic));
    SortedPrefix(d'.supplied, Listed(d, nic), Listed(d', nic));
  }

  lemma NamesGrow(d: Deployment, d': Deployment, nic: Ifindex)
    requires d.RebuildIs() && d'.RebuildIs() && d'.hook == d.hook && d'.env.scheme == d.env.scheme
    requires Extends(d.supplied, d'.supplied) && Appends(d.supplied, d'.supplied, d.hook, nic)
    ensures d.rb.Names(nic) <= d'.rb.Names(nic)
  {
    ListGrows(d, d', nic);
    ListedAre(d, nic);
    ListedAre(d', nic);
    var a, b := Listed(d, nic), Listed(d', nic);
    forall i | 0 <= i < |a| ensures a[i] in d.supplied && d'.supplied[b[i]].lib == d.supplied[a[i]].lib {
      assert a[i] in a;
    }
    assert NamesOf(d.rb.ordered, nic) <= NamesOf(d'.rb.ordered, nic);
  }

  /** Which updates follow a deployment. */
  ghost predicate AppendsTo(d: Deployment, supplied: EbpfMap) {
    && Extends(d.supplied, supplied)
    && forall nic | nic in NicsOn(d.supplied, d.hook) ::
         && Appends(d.supplied, supplied, d.hook, nic)
         && SameAnswer(d.rb.guard, d.rb.Start(nic), d.supplied, supplied, d.hook, nic)
  }

  lemma SameNics(d: Deployment, d': Deployment, nic: Ifindex)
    requires d.RebuildIs() && d'.RebuildIs() && d'.hook == d.hook
    requires Extends(d.supplied, d'.supplied) && nic in NicsOf(d.rb.ordered)
    ensures nic in NicsOn(d.supplied, d.hook) && nic in NicsOf(d'.rb.ordered)
  {
    OrderedNics(d.env.scheme, d.supplied, d.hook, d.names, d.rb.ordered);
    OrderedNics(d'.env.scheme, d'.supplied, d.hook, d'.names, d'.rb.ordered);
    var n :| n in d.supplied && d.supplied[n].hook == d.hook && d.supplied[n].ifindex == nic;
    assert n in d'.supplied && d'.supplied[n].hook == d.hook && d'.supplied[n].ifindex == nic;
  }

  lemma NicGrows(d: Deployment, d': Deployment, nic: Ifindex)
    requires d.RebuildIs() && d'.RebuildIs() && d'.hook == d.hook && d'.env.scheme == d.env.scheme
    requires d'.rb.guard == d.rb.guard && d'.rb.Start(nic) == d.rb.Start(nic)
    requires AppendsTo(d, d'.supplied) && nic in NicsOf(d.rb.ordered)
    ensures nic in NicsOf(d'.rb.ordered)
    ensures d.rb.Names(nic) <= d'.rb.Names(nic) && (d'.rb.Accepted(nic) <==> d.rb.Accepted(nic))
  {
    SameNics(d, d', nic);
    NamesGrow(d, d', nic);
    HowMany(d, nic);
    HowMany(d', nic);
  }

  lemma HowMany(d: Deployment, nic: Ifindex)
    requires d.RebuildIs()
    ensures |d.rb.Names(nic)| == 1 + |EntriesOn(d.supplied, d.hook, nic)|
  {
    ListedAre(d, nic);
  }

  lemma AppendingFollows(d: Deployment, d': Deployment)
    requires d.Ok() && d'.Ok() && d'.hook == d.hook
    requires d'.env == d.env.(tcHash := d'.env.tcHash, xdpHash := d'.env.xdpHash)
    requires d'.rb.guard == d.rb.guard && d.rb.Placed()
    requires forall nic | nic in d.rb.regions :: nic in d'.rb.regions && d'.rb.regions[nic] == d.rb.regions[nic]
    requires AppendsTo(d, d'.supplied)
    ensures Follows(d, d')
  {
    forall nic | nic in NicsOf(d.rb.ordered)
      ensures nic in NicsOf(d'.rb.ordered)
      ensures d.rb.Names(nic) <= d'.rb.Names(nic) && (d'.rb.Accepted(nic) <==> d.rb.Accepted(nic))
    {
      NicGrows(d, d', nic);
    }
  }

  // ---------------------------------------------------------------- the call

  /** The chain maps and the stored configuration are those of the deployment. */
  ghost predicate InForce(maps: ChainMaps, env: Env, current: EbpfMap, d: Deployment) {
    && d.Ok() && d.env == env && d.rb.guard == maps.guard && d.rb.regions == RegionsFor(maps.regions, d.hook)
    && d.rb.Placed() && InTurn(d.rb.regions) && current == d.TheUpdate().Target()
  }

  /** What a first update leaves of a hook it serves is a deployment to go on from. */
  lemma FirstIsInForce(maps: ChainMaps, env: Env, supplied: EbpfMap, hook: HookType, s: LoaderState)
    returns (d: Deployment)
    requires HookServes(maps, env, supplied, hook, s) && InTurn(RegionsFor(maps.regions, hook))
    ensures d.Ok() && d.supplied == supplied && d.hook == hook && InForce(maps, env, d.TheUpdate().Target(), d)
    ensures Deployed(d, s)
  {
    d :| DeploymentOf(d, maps, env, supplied, hook) && InPlace(d, s);
  }

  /** `d'` follows `d`, and services, hash and array are as it asks. */
  ghost predicate Advanced(d: Deployment, s: LoaderState, d': Deployment, s': LoaderState)
    requires d.Ok()
  {
    && d'.Ok() && Follows(d, d') && Step(d, d').Ok() && s' == Step(d, d').Result(d'.env, s)
    && Deployed(d', s') && ServedExactly(d', s')
  }

  lemma AdvancedBy(d: Deployment, s: LoaderState, d': Deployment, s': LoaderState)
    requires d.Ok() && Deployed(d, s) && d'.Ok() && Follows(d, d') && RegionsOk(d'.rb.regions) && d'.rb.Placed()
    requires s' == ApplyAll(d'.env, s, Plan(d'.env.scheme, d.TheUpdate().Target(), d'.supplied))
    ensures Advanced(d, s, d', s')
  {
    StepKeepsDeployed(d, d', s);
    HoldingServesExactly(d', s');
  }

  /** An equal configuration is followed by the same deployment. */
  lemma SameFollows(d: Deployment)
    requires d.Ok() && d.rb.Placed()
    ensures Follows(d, d)
  {
  }

  lemma RegionsKept(before: ChainMaps, after: ChainMaps, supplied: EbpfMap, hook: HookType)
    requires AllGrow(before.regions, after.regions, supplied, {}) && hook in HooksOf(supplied)
    requires InTurn(RegionsFor(before.regions, hook))
    ensures InTurn(RegionsFor(after.regions, hook)) && hook in after.regions
    ensures var was, now := RegionsFor(before.regions, hook), RegionsFor(after.regions, hook);
            && (forall nic | nic in was :: nic in now && now[nic] == was[nic])
            && (HookPlaced(after, supplied, hook) <==> |was.Keys + NicsOn(supplied, hook)| <= MAX_NIC_HOOK)
  {
    var n :| n in supplied && supplied[n].hook == hook;
    assert supplied[n].ifindex in NicsOn(supplied, hook);
    FourGetRegions(RegionsFor(before.regions, hook), RegionsFor(after.regions, hook), NicsOn(supplied, hook));
    assert RegionsGrow(RegionsFor(before.regions, hook), RegionsFor(after.regions, hook), NicsOn(supplied, hook));
  }

  /** What a rebuild for a configuration that appends makes of the deployment. */
  lemma RebuiltFollows(d: Deployment, before: ChainMaps, maps: ChainMaps, env: Env, supplied: EbpfMap)
    returns (d': Deployment)
    requires d.Ok() && InForce(before, d.env, d.TheUpdate().Target(), d) && maps.guard == before.guard
    requires MapsBuilt(maps, env.scheme, supplied) && AllGrow(before.regions, maps.regions, supplied, {})
    requires env == d.env.(tcHash := env.tcHash, xdpHash := env.xdpHash)
    requires maps.reg == env.reg && maps.tcHash == env.tcHash && maps.xdpHash == env.xdpHash
    requires SchedulersKnown(maps, env.scheme) && forall h | h in maps.regions :: RegionsOk(maps.regions[h])
    requires Deployable(env, supplied) && GuardFits(maps.guard, supplied) && AppendsTo(d, supplied)
    requires d.hook in HooksOf(supplied) && HookPlaced(maps, supplied, d.hook)
    ensures d'.Ok() && InForce(maps, env, d'.TheUpdate().Target(), d') && d'.supplied == supplied && Follows(d, d')
  {
    RegionsKept(before, maps, supplied, d.hook);
    d' := BuiltForHook(maps, env, supplied, d.hook);
    OrderedNics(env.scheme, supplied, d.hook, d'.names, d'.rb.ordered);
    BuiltIsFinished(d'.rb, env.scheme, supplied, d'.names, env.HashOf(d.hook));
    DeployableIsOk(d');
    AppendingFollows(d, d');
  }

  /** The deployment after an update that appends. */
  lemma NextDeployment(d: Deployment, before: ChainMaps, maps: ChainMaps, env: Env, supplied: EbpfMap)
    returns (d': Deployment)
    requires d.Ok() && InForce(before, d.env, d.TheUpdate().Target(), d)
    requires MapsEnded(before, maps, env.scheme, d.TheUpdate().Target(), supplied, true) && maps.guard == before.guard
    requires env == d.env.(tcHash := env.tcHash, xdpHash := env.xdpHash)
    requires maps.reg == env.reg && maps.tcHash == env.tcHash && maps.xdpHash == env.xdpHash
    requires before.tcHash == d.env.tcHash && before.xdpHash == d.env.xdpHash
    requires SchedulersKnown(maps, env.scheme) && forall h | h in maps.regions :: RegionsOk(maps.regions[h])
    requires Deployable(env, supplied) && GuardFits(maps.guard, supplied) && AppendsTo(d, supplied)
    requires d.hook in HooksOf(supplied) && |d.rb.regions.Keys + NicsOn(supplied, d.hook)| <= MAX_NIC_HOOK
    ensures d'.Ok() && InForce(maps, env, d'.TheUpdate().Target(), d') && d'.supplied == supplied && Follows(d, d')
  {
    StripUndoesSynthesis(d.env.scheme, d.supplied);
    if supplied == d.supplied {
      d' := d;
      SameFollows(d);
    } else {
      RegionsKept(before, maps, supplied, d.hook);
      d' := RebuiltFollows(d, before, maps, env, supplied);
    }
  }

  /** It has sound regions, so the update advances to it. */
  lemma InForceAdvances(d: Deployment, s: LoaderState, d': Deployment, s': LoaderState, maps: ChainMaps, env: Env)
    requires d.Ok() && Deployed(d, s) && d'.Ok() && InForce(maps, env, d'.TheUpdate().Target(), d') && Follows(d, d')
    requires forall h | h in maps.regions :: RegionsOk(maps.regions[h])
    requires s' == ApplyAll(env, s, Plan(env.scheme, d.TheUpdate().Target(), d'.supplied))
    ensures Advanced(d, s, d', s')
  {
    AdvancedBy(d, s, d', s');
  }

  /** One update more, where the NICs of the hook still find their regions. */
  method NextUpdate(daemon: Daemon, ghost d: Deployment, supplied: EbpfMap)
    returns (r: Outcome<()>, ghost d': Deployment)
    requires daemon.Valid() && InForce(daemon.Maps(), daemon.loader.TheEnv(), daemon.current, d)
    requires Deployed(d, daemon.loader.State())
    requires forall n | n in supplied :: supplied[n].lib != "" && supplied[n].hook != UNKNOWN
    requires Deployable(daemon.loader.TheEnv(), supplied) && SchedulersKnown(daemon.Maps(), daemon.loader.scheme)
    requires GuardFits(daemon.loader.chains.guard, supplied) && AppendsTo(d, supplied) && d.hook in HooksOf(supplied)
    requires |d.rb.regions.Keys + NicsOn(supplied, d.hook)| <= MAX_NIC_HOOK
    modifies daemon`current, daemon.loader, daemon.loader.watches, daemon.loader.watches.inotify,
             daemon.loader.chains`regions, daemon.loader.chains.tcHash, daemon.loader.chains.tcArray,
             daemon.loader.chains.xdpHash, daemon.loader.chains.xdpArray
    ensures daemon.Valid()
    ensures r.Returned? ==>
              && InForce(daemon.Maps(), daemon.loader.TheEnv(), daemon.current, d') && d'.supplied == supplied
              && Advanced(d, old(daemon.loader.State()), d', daemon.loader.State())
  {
    ghost var s, before := daemon.loader.State(), daemon.Maps();
    d' := d;
    r := daemon.Update(supplied);
    if r.Returned? {
      ghost var env := daemon.loader.TheEnv();
      DeployableWithNewHashes(d.env, env, supplied);
      d' := NextDeployment(d, before, daemon.Maps(), env, supplied);
      InForceAdvances(d, s, d', daemon.loader.State(), daemon.Maps(), env);
    }
  }

  lemma RunAppended(ds: seq<Deployment>, d': Deployment)
    requires AppendRun(ds) && d'.Ok() && Follows(ds[|ds| - 1], d')
    ensures AppendRun(ds + [d'])
  {
    var all := ds + [d'];
    forall k | 0 <= k < |all| ensures all[k].Ok() {
      assert k < |ds| ==> all[k] == ds[k];
    }
    forall k | 0 < k < |all| ensures Follows(all[k - 1], all[k]) {
      assert all[k - 1] == ds[k - 1];
    }
  }

  /** So a run of such updates is a run of the deployments. */
  lemma RunGrows(ds: seq<Deployment>, s: LoaderState, d': Deployment, s': LoaderState)
    requires AppendRun(ds) && Advanced(ds[|ds| - 1], AfterRun(ds, s), d', s')
    ensures AppendRun(ds + [d']) && s' == AfterRun(ds + [d'], s)
  {
    RunAppended(ds, d');
    assert (ds + [d'])[..|ds|] == ds;
  }
}
