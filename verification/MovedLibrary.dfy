/**
A library changes hands: an actual pair of configurations, under the program's own naming rules, for which the update
loses a service (src/daemon/daemon.cc:186-213).
*/
module MovedLibrary {
  import opened Chain
  import opened Configs
  import opened Hooks
  import opened LoaderSpec
  import opened NameOrder
  import opened Naming
  import opened PacketPath
  import opened Reconcile

  const ACL_LIB := LibraryPath("", "acl", "")
  const LB_LIB := LibraryPath("", "lb", "")

  function Entry(lib: string, nic: Ifindex): ConfigEbpf {
    ConfigEbpf(lib, "", TC, nic, 1)
  }

  /** First the access control is configured as "b", */
  function Was(nic: Ifindex): EbpfMap {
    map["b" := Entry(ACL_LIB, nic)]
  }

  /** then as "a", and "b" becomes the load balancer. */
  function Supplied(nic: Ifindex): EbpfMap {
    map["a" := Entry(ACL_LIB, nic), "b" := Entry(LB_LIB, nic)]
  }

  function TheUpdate(nic: Ifindex): Update {
    Update(HEBPF, Was(nic), Supplied(nic))
  }

  lemma PlainLibraries(hook: HookType)
    ensures ACL_LIB != LB_LIB && ACL_LIB != "" && LB_LIB != ""
    ensures ';' !in ACL_LIB && ';' !in LB_LIB
    ensures ACL_LIB != SchedulerPath(hook) && LB_LIB != SchedulerPath(hook)
  {
    assert |ACL_LIB| == 15 && |LB_LIB| == 14 && |SchedulerPath(hook)| > 15;
  }

  lemma PlainName(name: string, hook: HookType, nic: Ifindex)
    requires |name| == 1
    ensures name != SchedulerId(hook, nic)
  {
    assert |SchedulerId(hook, nic)| > 1;
  }

  lemma ConfigsOk(nic: Ifindex)
    ensures ConfigOk(HEBPF, Was(nic)) && ConfigOk(HEBPF, Supplied(nic)) && ConfigOk(HEBPF, map[])
  {
    forall h {
      PlainLibraries(h);
    }
    PlainLibraries(TC);
    forall h, i: Ifindex ensures "a" != SchedulerId(h, i) && "b" != SchedulerId(h, i) {
      PlainName("a", h, i);
      PlainName("b", h, i);
    }
  }

  lemma UpdateOk(nic: Ifindex)
    ensures TheUpdate(nic).Ok() && TheUpdate(nic).Downward("a", "b")
  {
    HebpfSchemeOk();
    ConfigsOk(nic);
    assert Less("a", "b");
  }

  /** Whatever loads, the second update ends without the access control that both configurations ask for. */
  lemma LibraryIsLost(nic: Ifindex, env: Env, s: LoaderState)
    requires env.scheme == HEBPF && Blank(s)
    requires forall lib :: CanLoad(env, lib)
    ensures Update(HEBPF, map[], Was(nic)).Ok() && TheUpdate(nic).Ok()
    ensures var first := Update(HEBPF, map[], Was(nic)).Result(env, s);
            && ACL_LIB in first.services
            && ACL_LIB !in TheUpdate(nic).Result(env, first).services
  {
    UpdateOk(nic);
    ConfigsOk(nic);
    var install := Update(HEBPF, map[], Was(nic));
    assert install.Current() == map[];
    install.Reconciles(env, s);
    install.SchedulerEntries("b");
    assert install.Target()["b"].lib == ACL_LIB;
    TheUpdate(nic).DownwardMoveBreaks(env, install.Result(env, s), "a", "b");
  }
}
