/**
The programs of the repository: their ids (ebpf_id.map), libraries and service names.
*/
module Programs {
  import opened ChainAgreement
  import opened ChainSpec
  import opened Hooks
  import opened Naming
  import opened Text

  const EBPF_IDS: Registry := map[
    "HELLO" := ProgInfo(0, KProbe), "USERMODE" := ProgInfo(1, KProbe),
    "ACL_TC" := ProgInfo(2, TC), "ACL_XDP_GENERIC" := ProgInfo(3, XDP_GENERIC),
    "SCHEDULER_TC" := ProgInfo(4, TC), "SCHEDULER_XDP_GENERIC" := ProgInfo(5, XDP_GENERIC),
    "LB_TC" := ProgInfo(6, TC), "LB_XDP_GENERIC" := ProgInfo(7, XDP_GENERIC)]

  lemma IdsGivenOutOnce()
    ensures IdsUnique(EBPF_IDS)
  {
  }

  /** Upper case, letter by letter. */
  lemma Upper(name: string, upper: string)
    requires |name| == |upper|
    requires forall i | 0 <= i < |name| :: 'a' <= name[i] <= 'z' && upper[i] as int == name[i] as int - 32
    ensures ToUpper(name) == upper
  {
  }

  lemma UpperNames()
    ensures ToUpper("acl") == "ACL" && ToUpper("lb") == "LB" && ToUpper("scheduler") == "SCHEDULER"
  {
    Upper("acl", "ACL");
    Upper("lb", "LB");
    Upper("scheduler", "SCHEDULER");
  }

  /** The programs' official names are those of the id map. */
  lemma ProgramNames()
    ensures CanonicalName(TC, PROGRAM, "acl") == "ACL_TC"
    ensures CanonicalName(XDP_GENERIC, PROGRAM, "acl") == "ACL_XDP_GENERIC"
    ensures CanonicalName(XDP_GENERIC, PROGRAM, "lb") == "LB_XDP_GENERIC"
    ensures CanonicalName(TC, PROGRAM, "scheduler") == "SCHEDULER_TC"
    ensures CanonicalName(XDP_GENERIC, PROGRAM, "scheduler") == "SCHEDULER_XDP_GENERIC"
  {
    UpperNames();
  }

  lemma AclFile()
    ensures LibraryPath("", "acl", "") == "libhebpf_acl.so"
  {
  }

  lemma AclXdpFile()
    ensures LibraryPath("", "acl", "_xdp") == "libhebpf_acl_xdp.so"
  {
  }

  lemma LbXdpFile()
    ensures LibraryPath("", "lb", "_xdp") == "libhebpf_lb_xdp.so"
  {
  }

  lemma InDirectory(dir: string, name: string, tail: string)
    ensures LibraryPath(dir, name, tail) == dir + LibraryPath("", name, tail)
  {
    assert LibraryPath("", name, tail) == LIB_PREFIX + (name + tail) + ".so";
  }

  /** A library in whatever directory has the official name of its program. */
  lemma LibraryName(hook: HookType, dir: string, name: string, tail: string, file: string)
    requires WellFormedPieces(dir, name, tail) && file == LibraryPath("", name, tail)
    ensures CanonicalName(hook, LIBRARY, dir + file) == CanonicalName(hook, PROGRAM, name)
  {
    InDirectory(dir, name, tail);
    NamingAgreement(hook, dir, name, tail);
  }

  lemma AclLibrary(dir: string)
    requires dir == "" || dir[|dir| - 1] == '/'
    ensures CanonicalName(TC, LIBRARY, dir + "libhebpf_acl.so") == "ACL_TC"
  {
    ProgramNames();
    AclFile();
    LibraryName(TC, dir, "acl", "", "libhebpf_acl.so");
  }

  lemma AclXdpLibrary(dir: string)
    requires dir == "" || dir[|dir| - 1] == '/'
    ensures CanonicalName(XDP_GENERIC, LIBRARY, dir + "libhebpf_acl_xdp.so") == "ACL_XDP_GENERIC"
  {
    ProgramNames();
    AclXdpFile();
    LibraryName(XDP_GENERIC, dir, "acl", "_xdp", "libhebpf_acl_xdp.so");
  }

  lemma LbXdpLibrary(dir: string)
    requires dir == "" || dir[|dir| - 1] == '/'
    ensures CanonicalName(XDP_GENERIC, LIBRARY, dir + "libhebpf_lb_xdp.so") == "LB_XDP_GENERIC"
  {
    ProgramNames();
    LbXdpFile();
    LibraryName(XDP_GENERIC, dir, "lb", "_xdp", "libhebpf_lb_xdp.so");
  }

  /** Which library is the scheduler of which hook, */
  lemma TcScheduler()
    ensures SchedulerPath(TC) == "build/src/services/scheduler/libhebpf_scheduler.so"
  {
  }

  lemma XdpScheduler()
    ensures SchedulerPath(XDP_GENERIC) == "build/src/services/scheduler/libhebpf_scheduler_xdp.so"
  {
  }

  /** and under which name the id map has it. */
  lemma SchedulerNames()
    ensures CanonicalName(TC, LIBRARY, SchedulerPath(TC)) == "SCHEDULER_TC"
    ensures CanonicalName(XDP_GENERIC, LIBRARY, SchedulerPath(XDP_GENERIC)) == "SCHEDULER_XDP_GENERIC"
  {
    ProgramNames();
    SchedulerName(TC);
    SchedulerName(XDP_GENERIC);
  }
}
