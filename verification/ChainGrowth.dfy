/**
Over every run of updates that only append to the chains, array and hash stay in agreement and packets keep meeting
the configured programs (src/ebpf/pinned_prog_map.cc:228-346, src/daemon/daemon.cc:123-213).
*/
module ChainGrowth {
  import opened Chain
  import opened ChainAgreement
  import opened ChainSpec
  import opened Configs
  import opened ConfiguredChain
  import opened Hooks
  import opened KernelMaps
  import opened LoaderSpec
  import opened PacketPath
  import opened PinnedProgMap
  import opened Reconcile

  /** Every chain is a prefix of the new one, in the same region, and a NIC is served as before. */
  ghost predicate ChainsGrow(rb: Rebuild, rb': Rebuild) {
    && rb'.reg == rb.reg && rb'.hook == rb.hook && rb'.scheduler == rb.scheduler
    && forall nic | nic in NicsOf(rb.ordered) ::
         && nic in NicsOf(rb'.ordered) && nic in rb.regions && nic in rb'.regions && rb'.regions[nic] == rb.regions[nic]
         && rb.Names(nic) <= rb'.Names(nic) && (rb'.Accepted(nic) <==> rb.Accepted(nic))
  }

  lemma SameLastPosition(a: seq<ProgId>, b: seq<ProgId>, id: ProgId)
    requires a <= b && NoRepeats(b) && id in a
    ensures LastPosition(a, id) == LastPosition(b, id)
  {
    var p, q := LastPosition(a, id), LastPosition(b, id);
    assert b[p] == id && b[q] == id;
  }

  lemma GrownChain(rb: Rebuild, rb': Rebuild, nic: Ifindex)
    requires ChainsGrow(rb, rb') && nic in NicsOf(rb.ordered)
    ensures rb.Chain(nic) <= rb'.Chain(nic)
  {
    IdsPrefix(rb.reg, rb.hook, rb'.Names(nic), |rb.Names(nic)|);
    assert rb'.Names(nic)[..|rb.Names(nic)|] == rb.Names(nic);
  }

  /** Programs already in a chain keep their slots. */
  lemma GrownSlot(rb: Rebuild, rb': Rebuild, hash: IdHash, hash': IdHash, nic: Ifindex, id: ProgId)
    requires rb.IsHash(hash) && rb'.IsHash(hash') && ChainsGrow(rb, rb')
    requires nic in NicsOf(rb.ordered) && id in rb.Chain(nic) && (rb'.Accepted(nic) ==> NoRepeats(rb'.Chain(nic)))
    ensures var key := ChainKey(nic, id);
            (key in hash <==> key in hash') && (key in hash ==> hash[key] == hash'[key])
  {
    GrownChain(rb, rb', nic);
    var key := ChainKey(nic, id);
    if key in hash {
      var a, i := KeyOf(rb, hash, key);
      ChainKeyInjective(a, i, nic, id);
    }
    if key in hash' {
      var a, i := KeyOf(rb', hash', key);
      ChainKeyInjective(a, i, nic, id);
    }
    if rb.Accepted(nic) {
      SameLastPosition(rb.Chain(nic), rb'.Chain(nic), id);
    }
  }

  lemma {:induction false} NamedOnNic(ordered: NamesIfindex, i: nat)
    requires i < |ordered|
    ensures ordered[i].0 in NamesOf(ordered, ordered[i].1) && ordered[i].1 in NicsOf(ordered)
    decreases |ordered|
  {
    if i < |ordered| - 1 {
      NamedOnNic(ordered[..|ordered| - 1], i);
    }
  }

  lemma {:induction false} KnownHasId(reg: Registry, hook: HookType, names: seq<string>, name: string)
    requires name in names && Known(reg, hook, name)
    ensures reg[name].id in Ids(reg, hook, names)
    decreases |names|
  {
    if names[|names| - 1] != name {
      KnownHasId(reg, hook, names[..|names| - 1], name);
    }
  }

  /** Every entry of a deployed configuration is named in the chain of its NIC. */
  lemma EntryIsNamed(d: Deployment, n: string)
    requires d.Ok() && n in d.TheUpdate().Target() && d.TheUpdate().Target()[n].hook == d.hook
    ensures var cfg := d.TheUpdate().Target()[n];
            Official(d.env.scheme, cfg) in d.rb.Names(cfg.ifindex) && cfg.ifindex in NicsOf(d.rb.ordered)
  {
    var u := d.TheUpdate();
    u.SchedulerEntries(n);
    if n in d.supplied {
      SuppliedIsNamed(d, n);
    } else {
      var scheme := d.env.scheme;
      var p :| p in Pairs(d.supplied) && n == scheme.id(p.0, p.1) && u.Target()[n] == SchedulerEntry(scheme, p.0, p.1);
      var m :| m in d.supplied && (d.supplied[m].hook, d.supplied[m].ifindex) == p;
      SuppliedIsNamed(d, m);
    }
  }

  lemma SuppliedIsNamed(d: Deployment, n: string)
    requires d.RebuildOk() && SchemeOk(d.env.scheme) && ConfigOk(d.env.scheme, d.supplied)
    requires n in d.supplied && d.supplied[n].hook == d.hook
    ensures Official(d.env.scheme, d.supplied[n]) in d.rb.Names(d.supplied[n].ifindex)
    ensures d.supplied[n].ifindex in NicsOf(d.rb.ordered)
  {
    assert n in d.names;
    var i :| 0 <= i < |d.names| && d.names[i] == n;
    NamedOnNic(d.rb.ordered, i);
    assert d.env.scheme.file(d.supplied[n].lib) == d.supplied[n].lib;
  }

  // ---------------------------------------------------------------- one update

  /** `d'` follows `d` by an update that only appends. */
  ghost predicate Follows(d: Deployment, d': Deployment) {
    && d'.hook == d.hook && d'.env == d.env.(tcHash := d'.env.tcHash, xdpHash := d'.env.xdpHash)
    && Extends(d.supplied, d'.supplied) && ChainsGrow(d.rb, d'.rb)
  }

  /** Services, hash and array are as the deployment asks. */
  ghost predicate Deployed(d: Deployment, s: LoaderState)
    requires d.TheUpdate().Ok()
  {
    d.Holds(s) && Exactly(d.TheUpdate().Target(), s)
  }

  lemma DistinctIds(d: Deployment, nic: Ifindex)
    requires d.Ok() && d.rb.Accepted(nic)
    ensures NoRepeats(d.rb.Chain(nic))
  {
    d.EntriesListed(nic);
    ListedIdsDiffer(d.env, d.TheUpdate().Target(), d.hook, nic, d.Entries(nic), d.rb.Chain(nic));
  }

  lemma ServiceIsNamed(d: Deployment, s: LoaderState, lib: string)
    requires d.Ok() && Deployed(d, s) && lib in s.services && s.services[lib].hook == d.hook
    ensures var h := s.services[lib];
            d.env.scheme.program(d.hook, h.name) in d.rb.Names(h.nic) && h.nic in NicsOf(d.rb.ordered)
  {
    var target := d.TheUpdate().Target();
    var n :| n in target && target[n].lib == lib;
    assert Matches(s.services[lib], target[n]);
    EntryIsNamed(d, n);
  }

  /** A service named in the chains has the same slot under both hashes. */
  lemma SlotKept(env: Env, env': Env, rb: Rebuild, rb': Rebuild, h: Handle)
    requires env' == env.(tcHash := env'.tcHash, xdpHash := env'.xdpHash) && rb.reg == env.reg && rb.hook == h.hook
    requires rb.IsHash(env.HashOf(h.hook)) && rb'.IsHash(env'.HashOf(h.hook)) && ChainsGrow(rb, rb')
    requires env.scheme.program(h.hook, h.name) in rb.Names(h.nic) && h.nic in NicsOf(rb.ordered)
    requires rb'.Accepted(h.nic) ==> NoRepeats(rb'.Chain(h.nic))
    ensures env'.SlotOf(h) == env.SlotOf(h)
  {
    var name := env.scheme.program(h.hook, h.name);
    if Known(env.reg, h.hook, name) {
      KnownHasId(env.reg, h.hook, rb.Names(h.nic), name);
      GrownSlot(rb, rb', env.HashOf(h.hook), env'.HashOf(h.hook), h.nic, env.reg[name].id);
    }
  }

  lemma ServiceKeepsSlot(d: Deployment, d': Deployment, s: LoaderState, lib: string)
    requires d.Ok() && d'.Ok() && Follows(d, d') && Deployed(d, s) && lib in s.services
             && s.services[lib].hook == d.hook
    ensures d'.env.SlotOf(s.services[lib]) == d.env.SlotOf(s.services[lib])
  {
    ServiceIsNamed(d, s, lib);
    var h := s.services[lib];
    if d'.rb.Accepted(h.nic) {
      DistinctIds(d', h.nic);
    }
    SlotKept(d.env, d'.env, d.rb, d'.rb, h);
  }

  /** The new hash agrees with the arrays before any service is loaded. */
  lemma AgreeUnderNewHash(d: Deployment, d': Deployment, s: LoaderState)
    requires d.Ok() && d'.Ok() && Follows(d, d') && Deployed(d, s)
    ensures Agree(d'.env, d'.hook, s)
  {
    forall lib | lib in s.services
      ensures Genuine(d'.env, s.services[lib].name, s.services[lib].prog, s.services[lib].hook, d'.env.scheme.file(lib))
      ensures s.services[lib].hook == d.hook ==> Seated(d'.env, s.SlotsOf(d.hook), s.services[lib])
    {
      if s.services[lib].hook == d.hook {
        ServiceKeepsSlot(d, d', s, lib);
      }
    }
  }

  lemma ListedUnderNewHash(d: Deployment, d': Deployment, s: LoaderState)
    requires d.Ok() && d'.Ok() && Follows(d, d') && OnlyListed(d.env, d.hook, s)
    ensures OnlyListed(d'.env, d'.hook, s)
  {
    var hash, hash' := d.env.HashOf(d.hook), d'.env.HashOf(d.hook);
    forall k | k in hash ensures hash[k] in hash'.Values {
      var nic, id := KeyOf(d.rb, hash, k);
      DistinctIds(d', nic);
      GrownSlot(d.rb, d'.rb, hash, hash', nic, id);
    }
  }

  ghost function Step(d: Deployment, d': Deployment): Update {
    Update(d'.env.scheme, d.supplied, d'.supplied)
  }

  /** An update that only appends leads from one deployed state to the next. */
  lemma StepKeepsDeployed(d: Deployment, d': Deployment, s: LoaderState)
    requires d.Ok() && d'.Ok() && Follows(d, d') && Deployed(d, s)
    ensures Step(d, d').Ok() && Deployed(d', Step(d, d').Result(d'.env, s))
  {
    AgreeUnderNewHash(d, d', s);
    ListedUnderNewHash(d, d', s);
    SeparateIsInjective(d'.rb, d'.env.HashOf(d'.hook));
    AppendKeeps(Step(d, d'), d'.env, d'.hook, s);
  }

  // ---------------------------------------------------------------- runs

  ghost predicate AppendRun(ds: seq<Deployment>) {
    && |ds| > 0 && (forall k | 0 <= k < |ds| :: ds[k].Ok())
    && forall k | 0 < k < |ds| :: Follows(ds[k - 1], ds[k])
  }

  lemma RunSplits(ds: seq<Deployment>)
    requires AppendRun(ds) && |ds| > 1
    ensures var k := |ds| - 1;
            AppendRun(ds[..k]) && Follows(ds[k - 1], ds[k]) && Step(ds[k - 1], ds[k]).Ok() && ds[k].Ok()
  {
  }

  /** The state after the configurations of the run have been installed one after the other. */
  ghost function AfterRun(ds: seq<Deployment>, s: LoaderState): LoaderState
    requires AppendRun(ds)
    decreases |ds|
  {
    var k := |ds| - 1;
    if k == 0 then ds[0].After(s)
    else
      RunSplits(ds);
      Step(ds[k - 1], ds[k]).Result(ds[k].env, AfterRun(ds[..k], s))
  }

  lemma {:induction false} RunKeepsDeployed(ds: seq<Deployment>, s: LoaderState)
    requires AppendRun(ds) && Blank(s)
    ensures Deployed(ds[|ds| - 1], AfterRun(ds, s))
    decreases |ds|
  {
    var k := |ds| - 1;
    if k == 0 {
      FirstIsDeployed(ds[0], s);
    } else {
      RunSplits(ds);
      RunKeepsDeployed(ds[..k], s);
      StepKeepsDeployed(ds[k - 1], ds[k], AfterRun(ds[..k], s));
    }
  }

  lemma FirstIsDeployed(d: Deployment, s: LoaderState)
    requires d.Ok() && Blank(s)
    ensures Deployed(d, d.After(s))
  {
    d.Installed(s);
  }

  /** Which NICs serve their configured chains after any such run. */
  lemma RunServesPackets(ds: seq<Deployment>, s: LoaderState, nic: Ifindex)
    requires AppendRun(ds) && Blank(s) && nic in NicsOf(ds[|ds| - 1].rb.ordered)
    ensures ds[|ds| - 1].Serves(AfterRun(ds, s), nic) <==> ds[|ds| - 1].ServedIn(nic)
  {
    RunKeepsDeployed(ds, s);
    ds[|ds| - 1].ServesExactly(AfterRun(ds, s), nic);
  }
}
