/**
The smallest systems: one program on one NIC, for each of the two hooks with chains.  They meet the premises of the
theorems about packets under the program's own naming rules and ids.
*/
module OneProgram {
  import opened Chain
  import opened ChainAgreement
  import opened ChainSpec
  import opened Configs
  import opened ConfiguredChain
  import opened Hooks
  import opened LoaderSpec
  import opened Naming
  import opened PacketPath
  import opened PinnedProgMap
  import opened Programs
  import opened Wrappers

  /**
  A naming scheme, the registered ids, an entry's name with its library, hook and NIC, and the service names of the
  library and of the scheduler.
  */
  datatype Setting = Setting(
    scheme: Scheme, reg: Registry, hook: HookType, n: string, lib: string, nic: Ifindex, service: string,
    scheduler: string) {

    function Official(): string {
      scheme.official(hook, lib)
    }

    function Scheduler(): string {
      scheme.official(hook, scheme.path(hook))
    }

    ghost predicate Ok() {
      && (hook == TC || hook == XDP_GENERIC) && IdsUnique(reg)
      && SchemeOk(scheme) && ConfigOk(scheme, Supplied())
      && scheme.program(hook, service) == Official() && scheme.program(hook, scheduler) == Scheduler()
      && Official() != Scheduler() && Known(reg, hook, Official()) && Known(reg, hook, Scheduler())
    }

    function Entry(): ConfigEbpf {
      ConfigEbpf(lib, "", hook, nic, 1)
    }

    function Supplied(): EbpfMap {
      map[n := Entry()]
    }

    function IdOf(name: string): ProgId {
      if name in reg then reg[name].id else 0
    }

    function Made(path: string): Service {
      if path == lib then Service(service, Some(Prog(11, IdOf(Official()))))
      else Service(scheduler, Some(Prog(10, IdOf(Scheduler()))))
    }

    function Ids(): IdHash {
      map[ChainKey(nic, IdOf(Scheduler())) := 0, ChainKey(nic, IdOf(Official())) := 1]
    }

    function TheEnv(): Env {
      Env(scheme, (path: string, _: nat) => Some(Made(path)), reg, if hook == TC then Ids() else map[],
          if hook == TC then map[] else Ids())
    }

    function TheRebuild(): Rebuild {
      Rebuild(reg, hook, Scheduler(), [(Official(), nic)], map[nic := 0], INTENDED_GUARD)
    }

    function TheDeployment(): Deployment {
      Deployment(TheEnv(), Supplied(), hook, [n], TheRebuild())
    }

    lemma ChainIs()
      requires Ok()
      ensures TheRebuild().Accepted(nic) && TheRebuild().Chain(nic) == [IdOf(Scheduler()), IdOf(Official())]
      ensures forall other | TheRebuild().Accepted(other) :: other == nic
      ensures IdOf(Scheduler()) != IdOf(Official())
    {
      var rb := TheRebuild();
      assert rb.ordered[..0] == [];
      assert NamesOf([], nic) == [];
      assert NamesOf(rb.ordered, nic) == [Official()];
      assert rb.Names(nic) == [rb.scheduler, Official()];
      IdsAppend(rb.reg, hook, [], rb.scheduler);
      IdsAppend(rb.reg, hook, [rb.scheduler], Official());
      assert [] + [rb.scheduler] == [rb.scheduler];
      assert [rb.scheduler] + [Official()] == rb.Names(nic);
      assert ChainSpec.Ids(rb.reg, hook, []) == [];
    }

    lemma HashIs()
      requires Ok()
      ensures TheRebuild().IsHash(Ids()) && EndsFree(TheRebuild(), nic)
    {
      ChainIs();
      var rb := TheRebuild();
      var first, second := IdOf(Scheduler()), IdOf(Official());
      assert LastPosition([first, second], second) == 1;
      assert [first, second][..1] == [first];
      assert LastPosition([first, second], first) == 0;
      forall k ensures k in Ids() <==> k in rb.Keys() {
      }
    }

    lemma TargetIs()
      requires Ok()
      ensures var target := WithSchedulers(scheme, Supplied());
              target == map[n := Entry(), scheme.id(hook, nic) := SchedulerEntry(scheme, hook, nic)]
    {
      var target := WithSchedulers(scheme, Supplied());
      forall p | p in Pairs(Supplied()) ensures p == (hook, nic) {
      }
      assert Supplied()[n] == Entry();
      assert (hook, nic) in Pairs(Supplied());
      forall m | m in target && m !in Supplied()
        ensures m == scheme.id(hook, nic) && target[m] == SchedulerEntry(scheme, hook, nic)
      {
        var p :| p in Pairs(Supplied()) && m == scheme.id(p.0, p.1) && target[m] == SchedulerEntry(scheme, p.0, p.1);
      }
    }

    lemma Files()
      requires Ok()
      ensures scheme.file(lib) == lib != scheme.path(hook) && scheme.file(scheme.lib(hook, nic)) == scheme.path(hook)
    {
      assert n in Supplied() && Supplied()[n].lib == lib;
      assert Supplied()[n].lib != scheme.path(hook);
    }

    lemma BothWellBuilt()
      requires Ok()
      ensures WellBuilt(TheEnv(), lib, hook) && WellBuilt(TheEnv(), scheme.lib(hook, nic), hook)
    {
      Files();
    }

    lemma TargetIsOk()
      requires Ok()
      ensures TargetOk(TheEnv(), WithSchedulers(scheme, Supplied()))
    {
      TargetIs();
      Files();
      BothWellBuilt();
    }

    lemma OrderIs()
      requires Ok()
      ensures Orders(scheme, Supplied(), hook, [n], TheRebuild().ordered)
    {
    }

    lemma SchedulerIsKnown()
      requires Ok()
      ensures Known(reg, hook, TheRebuild().scheduler) && Separate(TheRebuild())
    {
      assert TheRebuild().Placed();
      IntendedGuardSeparates(TheRebuild());
    }

    lemma RebuildIsOk()
      requires Ok()
      ensures TheDeployment().RebuildOk() && EndsFree(TheRebuild(), nic)
    {
      HashIs();
      OrderIs();
      SchedulerIsKnown();
    }

    lemma UpdateIsOk()
      requires Ok()
      ensures TheDeployment().TheUpdate().Ok()
      ensures TheDeployment().TheUpdate().Target() == WithSchedulers(scheme, Supplied())
    {
      NothingIsConfigOk(scheme);
    }

    /** The deployment is a legitimate one, and its NIC is served. */
    lemma DeploymentIsOk()
      requires Ok()
      ensures TheDeployment().Ok() && EndsFree(TheDeployment().rb, nic)
    {
      RebuildIsOk();
      TargetIsOk();
      UpdateIsOk();
    }
  }

  lemma NothingIsConfigOk(scheme: Scheme)
    ensures ConfigOk(scheme, map[])
  {
  }

  /** So the packet theorem applies. */
  lemma ProgramIsServed(one: Setting, s: LoaderState)
    requires one.Ok() && Blank(s)
    ensures one.TheDeployment().TheUpdate().Ok()
    ensures one.TheDeployment().Serves(one.TheDeployment().After(s), one.nic)
  {
    one.DeploymentIsOk();
    OneNic(one);
    one.TheDeployment().FirstUpdateServesPackets(s, one.nic);
  }

  lemma OneNic(one: Setting)
    ensures one.nic in NicsOf(one.TheRebuild().ordered)
  {
    assert one.TheRebuild().ordered[0].1 == one.nic;
  }

  // ---------------------------------------------------------------- with the program's own names and ids

  /** A program of the repository, configured by its service name. */
  function Shipped(hook: HookType, name: string, lib: string, nic: Ifindex): Setting {
    Setting(HEBPF, EBPF_IDS, hook, name, lib, nic, name, "scheduler")
  }

  /** A file and a name that cannot be mistaken for a scheduler's. */
  predicate Plain(name: string, lib: string) {
    lib != "" && ';' !in lib && |lib| < 20 && |name| < 4
  }

  lemma PlainIsNoScheduler(name: string, lib: string, hook: HookType, nic: Ifindex)
    requires Plain(name, lib)
    ensures lib != SchedulerPath(hook) && name != SchedulerId(hook, nic)
  {
    assert |SchedulerPath(hook)| >= 20 && |SchedulerId(hook, nic)| >= 4;
  }

  lemma PlainConfigOk(hook: HookType, name: string, lib: string, nic: Ifindex)
    requires Plain(name, lib)
    ensures ConfigOk(HEBPF, Shipped(hook, name, lib, nic).Supplied())
  {
    forall h, i: Ifindex ensures lib != SchedulerPath(h) && name != SchedulerId(h, i) {
      PlainIsNoScheduler(name, lib, h, i);
    }
  }

  lemma ShippedIsOk(hook: HookType, name: string, lib: string, nic: Ifindex, official: string, scheduler: string)
    requires (hook == TC || hook == XDP_GENERIC) && Plain(name, lib) && official != scheduler
    requires HEBPF.official(hook, lib) == official == HEBPF.program(hook, name)
    requires HEBPF.official(hook, HEBPF.path(hook)) == scheduler == HEBPF.program(hook, "scheduler")
    requires Known(EBPF_IDS, hook, official) && Known(EBPF_IDS, hook, scheduler)
    ensures Shipped(hook, name, lib, nic).Ok()
  {
    HebpfSchemeOk();
    IdsGivenOutOnce();
    PlainConfigOk(hook, name, lib, nic);
  }

  /** The access control for TC. */
  function Acl(nic: Ifindex): Setting {
    Shipped(TC, "acl", "libhebpf_acl.so", nic)
  }

  /** The load balancer for XDP_GENERIC. */
  function LbXdp(nic: Ifindex): Setting {
    Shipped(XDP_GENERIC, "lb", "libhebpf_lb_xdp.so", nic)
  }

  lemma PlainFiles()
    ensures Plain("acl", "libhebpf_acl.so") && Plain("lb", "libhebpf_lb_xdp.so")
  {
  }

  lemma TcNames()
    ensures HEBPF.official(TC, "libhebpf_acl.so") == "ACL_TC" == HEBPF.program(TC, "acl")
    ensures HEBPF.official(TC, HEBPF.path(TC)) == "SCHEDULER_TC" == HEBPF.program(TC, "scheduler")
  {
    ProgramNames();
    AclLibrary("");
    NoDirectory("libhebpf_acl.so");
    SchedulerNames();
  }

  lemma XdpNames()
    ensures HEBPF.official(XDP_GENERIC, "libhebpf_lb_xdp.so") == "LB_XDP_GENERIC" == HEBPF.program(XDP_GENERIC, "lb")
    ensures HEBPF.official(XDP_GENERIC, HEBPF.path(XDP_GENERIC)) == "SCHEDULER_XDP_GENERIC"
    ensures HEBPF.program(XDP_GENERIC, "scheduler") == "SCHEDULER_XDP_GENERIC"
  {
    ProgramNames();
    LbXdpLibrary("");
    NoDirectory("libhebpf_lb_xdp.so");
    SchedulerNames();
  }

  lemma NoDirectory(file: string)
    ensures "" + file == file
  {
  }

  lemma TcIds()
    ensures Known(EBPF_IDS, TC, "ACL_TC") && EBPF_IDS["ACL_TC"].id == 2
    ensures Known(EBPF_IDS, TC, "SCHEDULER_TC") && EBPF_IDS["SCHEDULER_TC"].id == 4
    ensures "ACL_TC" != "SCHEDULER_TC"
  {
  }

  lemma XdpIds()
    ensures Known(EBPF_IDS, XDP_GENERIC, "LB_XDP_GENERIC") && EBPF_IDS["LB_XDP_GENERIC"].id == 7
    ensures Known(EBPF_IDS, XDP_GENERIC, "SCHEDULER_XDP_GENERIC") && EBPF_IDS["SCHEDULER_XDP_GENERIC"].id == 5
    ensures "LB_XDP_GENERIC" != "SCHEDULER_XDP_GENERIC"
  {
  }

  /** With `one` for a literal setting, what its names and ids make of the hash. */
  lemma IdsInHash(one: Setting, official: string, scheduler: string, p: ProgId, q: ProgId)
    requires one.Official() == official && one.Scheduler() == scheduler
    requires official in one.reg && one.reg[official].id == p && scheduler in one.reg && one.reg[scheduler].id == q
    ensures one.Ids() == map[ChainKey(one.nic, q) := 0, ChainKey(one.nic, p) := 1]
  {
  }

  lemma AclIsOk(nic: Ifindex)
    ensures Acl(nic).Ok() && Acl(nic).Ids() == map[ChainKey(nic, 4) := 0, ChainKey(nic, 2) := 1]
  {
    PlainFiles();
    TcNames();
    TcIds();
    ShippedIsOk(TC, "acl", "libhebpf_acl.so", nic, "ACL_TC", "SCHEDULER_TC");
    IdsInHash(Acl(nic), "ACL_TC", "SCHEDULER_TC", 2, 4);
  }

  lemma LbXdpIsOk(nic: Ifindex)
    ensures LbXdp(nic).Ok() && LbXdp(nic).Ids() == map[ChainKey(nic, 5) := 0, ChainKey(nic, 7) := 1]
  {
    PlainFiles();
    XdpNames();
    XdpIds();
    ShippedIsOk(XDP_GENERIC, "lb", "libhebpf_lb_xdp.so", nic, "LB_XDP_GENERIC", "SCHEDULER_XDP_GENERIC");
    IdsInHash(LbXdp(nic), "LB_XDP_GENERIC", "SCHEDULER_XDP_GENERIC", 7, 5);
  }

  /** On every NIC the scheduler and then the access control meet every packet, by way of slots 0 and 1. */
  lemma AclIsServed(nic: Ifindex, s: LoaderState)
    requires Blank(s)
    ensures var d := Acl(nic).TheDeployment();
            && d.TheUpdate().Ok() && d.Serves(d.After(s), nic)
            && d.env.tcHash == map[ChainKey(nic, 4) := 0, ChainKey(nic, 2) := 1] && d.env.xdpHash == map[]
  {
    AclIsOk(nic);
    ProgramIsServed(Acl(nic), s);
  }

  /** So do the other scheduler and the load balancer, in the maps of their own hook. */
  lemma LbIsServed(nic: Ifindex, s: LoaderState)
    requires Blank(s)
    ensures var d := LbXdp(nic).TheDeployment();
            && d.TheUpdate().Ok() && d.Serves(d.After(s), nic)
            && d.env.xdpHash == map[ChainKey(nic, 5) := 0, ChainKey(nic, 7) := 1] && d.env.tcHash == map[]
  {
    LbXdpIsOk(nic);
    ProgramIsServed(LbXdp(nic), s);
  }
}
