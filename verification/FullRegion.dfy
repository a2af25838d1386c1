/**
A full region: seven programs and their scheduler on one NIC, and one program on the next.  With the guard that the
program's comment describes both NICs get their chains, and packets of the first go round in circles.
*/
module FullRegion {
  import opened Chain
  import opened ChainAgreement
  import opened ChainSpec
  import opened Configs
  import opened ConfiguredChain
  import opened Hooks
  import opened KernelMaps
  import opened LoaderSpec
  import opened Naming
  import opened PacketPath
  import opened PinnedProgMap
  import opened Text
  import opened Wrappers

  const LAST := 8

  predicate In(k: nat) {
    1 <= k <= LAST
  }

  /** The k-th entry with its library and service; 0 stands for the scheduler. */
  datatype Setting = Setting(
    scheme: Scheme, entry: nat -> string, lib: nat -> string, service: nat -> string, nic: Ifindex, next: Ifindex) {

    function Off(k: nat): string {
      scheme.official(TC, if k == 0 then scheme.path(TC) else lib(k))
    }

    ghost predicate OwnNames() {
      && (forall j, k | In(j) && In(k) && entry(j) == entry(k) :: j == k)
      && (forall j, k | In(j) && In(k) && lib(j) == lib(k) :: j == k)
      && (forall j: nat, k: nat | j <= LAST && k <= LAST && Off(j) == Off(k) :: j == k)
    }

    ghost predicate Ok() {
      && SchemeOk(scheme) && OwnNames() && ConfigOk(scheme, Supplied()) && nic != next
      && forall k: nat | k <= LAST :: scheme.program(TC, service(k)) == Off(k)
    }

    function NicOf(k: nat): Ifindex {
      if k == LAST then next else nic
    }

    function Entry(k: nat): ConfigEbpf {
      ConfigEbpf(lib(k), "", TC, NicOf(k), k)
    }

    ghost function Supplied(): EbpfMap {
      var all := set k: nat | 1 <= k <= LAST :: entry(k);
      map n | n in all :: (var k: nat :| In(k) && entry(k) == n; Entry(k))
    }

    ghost function Registered(): Registry {
      var all := set k: nat | k <= LAST :: Off(k);
      map o | o in all :: (var k: nat :| k <= LAST && Off(k) == o; ProgInfo(k, TC))
    }

    ghost function Made(path: string): Service {
      var k: nat := if k: nat :| In(k) && lib(k) == path then k else 0;
      Service(service(k), Some(Prog(10 + k, k)))
    }

    ghost function Names(): seq<string> {
      seq(LAST, i requires 0 <= i < LAST => entry(i + 1))
    }

    ghost function Ordered(): NamesIfindex {
      seq(LAST, i requires 0 <= i < LAST => (Off(i + 1), NicOf(i + 1)))
    }

    ghost function TheRebuild(): Rebuild {
      Rebuild(Registered(), TC, Off(0), Ordered(), map[nic := 0, next := MAX_PER_NIC_PROGS], INTENDED_GUARD)
    }

    ghost function TheEnv(): Env {
      Env(scheme, (path: string, _: nat) => Some(Made(path)), Registered(), TheRebuild().Built([nic, next]), map[])
    }

    ghost function TheDeployment(): Deployment {
      Deployment(TheEnv(), Supplied(), TC, Names(), TheRebuild())
    }

    lemma SuppliedIs(k: nat)
      requires OwnNames() && In(k)
      ensures entry(k) in Supplied() && Supplied()[entry(k)] == Entry(k)
    {
    }

    lemma RegisteredIs(k: nat)
      requires OwnNames() && k <= LAST
      ensures Off(k) in Registered() && Registered()[Off(k)] == ProgInfo(k, TC)
    {
    }

    lemma IdsAreUnique()
      requires OwnNames()
      ensures IdsUnique(Registered())
    {
    }

    // ---------------------------------------------------------------- the chains

    lemma {:induction false} FirstChain(i: nat)
      requires OwnNames() && nic != next && i < LAST
      ensures |NamesOf(Ordered()[..i], nic)| == i && NamesOf(Ordered()[..i], next) == []
      ensures forall name | name in NamesOf(Ordered()[..i], nic) :: Known(Registered(), TC, name)
    {
      if i > 0 {
        FirstChain(i - 1);
        NamesSnoc(Ordered(), i - 1, nic);
        NamesSnoc(Ordered(), i - 1, next);
        RegisteredIs(i);
      }
    }

    lemma BothChains()
      requires OwnNames() && nic != next
      ensures |NamesOf(Ordered(), nic)| == LAST - 1 && NamesOf(Ordered(), next) == [Off(LAST)]
      ensures forall name | name in NamesOf(Ordered(), nic) :: Known(Registered(), TC, name)
    {
      FirstChain(LAST - 1);
      NamesSnoc(Ordered(), LAST - 1, nic);
      NamesSnoc(Ordered(), LAST - 1, next);
      assert Ordered()[..LAST] == Ordered();
    }

    lemma NicsAre()
      ensures NicsOf(Ordered()) == {nic, next}
    {
      assert Ordered()[0].1 == nic && Ordered()[LAST - 1].1 == next;
    }

    lemma BothAccepted()
      requires OwnNames() && nic != next
      ensures forall a :: TheRebuild().Accepted(a) <==> a == nic || a == next
    {
      NicsAre();
      BothChains();
    }

    lemma FullChain()
      requires OwnNames() && nic != next
      ensures |TheRebuild().Chain(nic)| == MAX_PER_NIC_PROGS
    {
      var rb := TheRebuild();
      BothChains();
      RegisteredIs(0);
      AllKnown(rb.reg, TC, rb.Names(nic));
    }

    lemma KeepApart()
      requires nic != next
      ensures TheRebuild().Placed() && RegionsOk(TheRebuild().regions) && Separate(TheRebuild())
    {
      NicsAre();
      IntendedGuardSeparates(TheRebuild());
    }

    lemma HashIs()
      requires OwnNames() && nic != next
      ensures TheRebuild().IsHash(TheEnv().HashOf(TC))
    {
      NicsAre();
      TheRebuild().BuiltMeetsSpec([nic, next]);
    }

    // ---------------------------------------------------------------- the configuration

    lemma ConfigIsOk()
      requires OwnNames() && forall k | In(k) :: lib(k) != "" && !Marked(lib(k))
      requires forall k, h | In(k) :: lib(k) != scheme.path(h)
      requires forall k, h, i | In(k) :: entry(k) != scheme.id(h, i)
      ensures ConfigOk(scheme, Supplied())
    {
      forall n | n in Supplied() ensures exists k :: In(k) && n == entry(k) && Supplied()[n] == Entry(k) {
        var k :| In(k) && entry(k) == n;
        SuppliedIs(k);
      }
    }

    lemma NamesAre()
      requires OwnNames()
      ensures NoRepeats(Names()) && forall n :: n in Names() <==> n in Supplied()
      ensures forall i | 0 <= i < LAST :: Names()[i] in Supplied() && Supplied()[Names()[i]] == Entry(i + 1)
    {
      forall i | 0 <= i < LAST ensures Names()[i] in Supplied() && Supplied()[Names()[i]] == Entry(i + 1) {
        SuppliedIs(i + 1);
      }
      forall n | n in Supplied() ensures n in Names() {
        var k :| In(k) && entry(k) == n;
        assert Names()[k - 1] == n;
      }
    }

    lemma InOrderAre()
      requires Ok()
      ensures Orders(scheme, Supplied(), TC, Names(), Ordered())
    {
      NamesAre();
      forall i | 0 <= i < LAST
        ensures Ordered()[i] == (scheme.official(TC, Supplied()[Names()[i]].lib), Supplied()[Names()[i]].ifindex)
      {
        assert Supplied()[Names()[i]] == Entry(i + 1);
      }
      forall n | n in Supplied() ensures Supplied()[n].hook == TC {
        assert n in Names();
      }
    }

    lemma RebuildIsOk()
      requires Ok()
      ensures TheDeployment().RebuildOk()
    {
      RegisteredIs(0);
      InOrderAre();
      HashIs();
      KeepApart();
    }

    lemma FilesAre(k: nat)
      requires Ok() && In(k)
      ensures scheme.file(lib(k)) == lib(k) && Made(lib(k)).prog == Some(Prog(10 + k, k))
      ensures Made(lib(k)).name == service(k)
    {
      SuppliedIs(k);
    }

    lemma SchedulerIs()
      requires Ok()
      ensures Made(scheme.path(TC)) == Service(service(0), Some(Prog(10, 0)))
    {
      if k: nat :| In(k) && lib(k) == scheme.path(TC) {
        SuppliedIs(k);
        assert false;
      }
    }

    /** Which of the entries 0 to 8 an entry of the target is. */
    ghost predicate IsKth(n: string, cfg: ConfigEbpf, k: nat) {
      && k <= LAST && cfg.hook == TC && Official(scheme, cfg) == Off(k)
      && if k == 0 then n == scheme.id(TC, cfg.ifindex) && scheme.file(cfg.lib) == scheme.path(TC)
         else n == entry(k) && cfg == Entry(k)
    }

    lemma TargetKth(n: string) returns (k: nat)
      requires Ok() && n in WithSchedulers(scheme, Supplied())
      ensures IsKth(n, WithSchedulers(scheme, Supplied())[n], k)
    {
      var target := WithSchedulers(scheme, Supplied());
      if n in Supplied() {
        k :| In(k) && entry(k) == n;
        SuppliedIs(k);
        FilesAre(k);
      } else {
        k := 0;
        var p :| p in Pairs(Supplied()) && n == scheme.id(p.0, p.1) && target[n] == SchedulerEntry(scheme, p.0, p.1);
        assert p.0 == TC;
      }
    }

    lemma KthIsWellBuilt(n: string, cfg: ConfigEbpf, k: nat)
      requires Ok() && IsKth(n, cfg, k)
      ensures WellBuilt(TheEnv(), cfg.lib, TC) && CanLoad(TheEnv(), cfg.lib)
    {
      RegisteredIs(k);
      if k == 0 {
        SchedulerIs();
      } else {
        FilesAre(k);
      }
    }

    lemma TargetIsOk()
      requires Ok()
      ensures TargetOk(TheEnv(), WithSchedulers(scheme, Supplied()))
    {
      var target := WithSchedulers(scheme, Supplied());
      forall n | n in target ensures WellBuilt(TheEnv(), target[n].lib, TC) && CanLoad(TheEnv(), target[n].lib) {
        var k := TargetKth(n);
        KthIsWellBuilt(n, target[n], k);
      }
      forall n | n in target ensures target[n].hook == TC {
        var k := TargetKth(n);
      }
      forall n, m | n in target && m in target && n != m && target[n].ifindex == target[m].ifindex
        ensures Official(scheme, target[n]) != Official(scheme, target[m])
      {
        var j := TargetKth(n);
        var k := TargetKth(m);
      }
    }

    lemma DeploymentIsOk()
      requires Ok()
      ensures TheDeployment().Ok()
    {
      RebuildIsOk();
      TargetIsOk();
      IdsAreUnique();
      assert ConfigOk(scheme, map[]);
    }

    /** Packets that every program passes on go round the full chain, so its NIC is not served. */
    lemma Circles(s: LoaderState)
      requires Ok() && Blank(s)
      ensures var d := TheDeployment();
              && d.Ok()
              && (exists progs :: Serve(d.After(s), d.TheUpdate().Target(), d.Entries(nic), progs))
              && (forall progs | Serve(d.After(s), d.TheUpdate().Target(), d.Entries(nic), progs) ::
                    && |progs| == MAX_PER_NIC_PROGS && d.SchedulerProg(d.After(s), next).Some?
                    && PacketPath.Circles(d.env.HashOf(TC), d.After(s).SlotsOf(TC), nic, progs,
                                          d.SchedulerProg(d.After(s), next).value))
              && !d.Serves(d.After(s), nic)
    {
      var d := TheDeployment();
      DeploymentIsOk();
      d.Installed(s);
      BothAccepted();
      FullChain();
      d.ChainIsServed(d.After(s), nic);
      d.FullRegionCircles(d.After(s), nic, next);
      d.OccupiedEndDoesNot(d.After(s), nic);
    }
  }

  lemma {:induction false} AllKnown(reg: Registry, hook: HookType, names: seq<string>)
    requires forall name | name in names :: Known(reg, hook, name)
    ensures |Ids(reg, hook, names)| == |names|
    decreases |names|
  {
    if names != [] {
      assert names[|names| - 1] in names;
      AllKnown(reg, hook, names[..|names| - 1]);
    }
  }

  // ---------------------------------------------------------------- with the program's own names

  const LETTERS := "abcdefgh"

  function Letter(k: nat): string {
    if In(k) then [LETTERS[k - 1]] else "scheduler"
  }

  function Library(k: nat): string {
    LibraryPath("", Letter(k), "")
  }

  /** The programs a to g on one NIC and h on another, under the naming rules of the program. */
  function Eight(nic: Ifindex, next: Ifindex): Setting {
    Setting(HEBPF, (k: nat) => Letter(k), (k: nat) => Library(k), (k: nat) => Letter(k), nic, next)
  }

  lemma LettersDiffer(j: nat, k: nat)
    requires j <= LAST && k <= LAST
    ensures Letter(j) == Letter(k) || Library(j) == Library(k) || Stem(j) == Stem(k) ==> j == k
  {
    if In(j) && In(k) {
      assert Library(j)[|LIB_PREFIX|] == LETTERS[j - 1] && Library(k)[|LIB_PREFIX|] == LETTERS[k - 1];
      assert Stem(j)[0] == UpperChar(LETTERS[j - 1]) && Stem(k)[0] == UpperChar(LETTERS[k - 1]);
    } else if In(j) {
      assert |Letter(j)| == 1 && |Letter(k)| == 9;
    } else if In(k) {
      assert |Letter(k)| == 1 && |Letter(j)| == 9;
    }
  }

  /** What tells the official names apart. */
  function Stem(k: nat): string {
    ToUpper(Letter(k))
  }

  lemma OfficialIs(nic: Ifindex, next: Ifindex, k: nat)
    requires k <= LAST
    ensures Eight(nic, next).Off(k) == CanonicalName(TC, PROGRAM, Letter(k))
  {
    if k == 0 {
      SchedulerName(TC);
    } else {
      NamingAgreement(TC, "", Letter(k), "");
    }
  }

  lemma StemOfName(k: nat)
    ensures CanonicalName(TC, PROGRAM, Letter(k)) == Stem(k) + "_TC"
  {
    assert Stem(k) + "_" + "TC" == Stem(k) + "_TC";
  }

  lemma SameStem(a: string, b: string, tail: string)
    ensures a + tail == b + tail ==> a == b
  {
    if a + tail == b + tail {
      assert |a| == |b|;
      assert a == (a + tail)[..|a|] == (b + tail)[..|b|] == b;
    }
  }

  lemma OfficialsDiffer(nic: Ifindex, next: Ifindex, j: nat, k: nat)
    requires j <= LAST && k <= LAST && Eight(nic, next).Off(j) == Eight(nic, next).Off(k)
    ensures Stem(j) == Stem(k)
  {
    OfficialIs(nic, next, j);
    OfficialIs(nic, next, k);
    StemOfName(j);
    StemOfName(k);
    SameStem(Stem(j), Stem(k), "_TC");
  }

  lemma EightOwnNames(nic: Ifindex, next: Ifindex)
    ensures Eight(nic, next).OwnNames()
  {
    forall j: nat, k: nat | j <= LAST && k <= LAST
      ensures Eight(nic, next).Off(j) == Eight(nic, next).Off(k) ==> j == k
    {
      if Eight(nic, next).Off(j) == Eight(nic, next).Off(k) {
        OfficialsDiffer(nic, next, j, k);
        LettersDiffer(j, k);
      }
    }
    forall j, k | In(j) && In(k) ensures Letter(j) == Letter(k) || Library(j) == Library(k) ==> j == k {
      LettersDiffer(j, k);
    }
  }

  lemma PlainLibrary(k: nat, hook: HookType)
    requires In(k)
    ensures Library(k) != "" && ';' !in Library(k) && Library(k) != SchedulerPath(hook)
  {
    assert |Library(k)| == 13 && |SchedulerPath(hook)| > 13;
  }

  lemma PlainName(k: nat, hook: HookType, nic: Ifindex)
    requires In(k)
    ensures Letter(k) != SchedulerId(hook, nic)
  {
    assert |SchedulerId(hook, nic)| > 1;
  }

  lemma EightIsOk(nic: Ifindex, next: Ifindex)
    requires nic != next
    ensures Eight(nic, next).Ok()
  {
    HebpfSchemeOk();
    EightOwnNames(nic, next);
    EightConfigOk(nic, next);
    forall k: nat | k <= LAST ensures HEBPF.program(TC, Letter(k)) == Eight(nic, next).Off(k) {
      OfficialIs(nic, next, k);
    }
  }

  lemma EightConfigOk(nic: Ifindex, next: Ifindex)
    requires Eight(nic, next).OwnNames()
    ensures ConfigOk(HEBPF, Eight(nic, next).Supplied())
  {
    forall k, h | In(k) ensures Library(k) != "" && ';' !in Library(k) && Library(k) != SchedulerPath(h) {
      PlainLibrary(k, h);
    }
    forall k, h, i: Ifindex | In(k) ensures Letter(k) != SchedulerId(h, i) {
      PlainName(k, h, i);
    }
    Eight(nic, next).ConfigIsOk();
  }

  /** So with the program's names, too, and the intended guard, seven programs and a neighbour are too many. */
  lemma SevenCircle(nic: Ifindex, next: Ifindex, s: LoaderState)
    requires nic != next && Blank(s)
    ensures var d := Eight(nic, next).TheDeployment();
            && d.Ok() && d.rb.guard == INTENDED_GUARD && d.rb.Accepted(nic)
            && !d.Serves(d.After(s), nic)
            && exists progs, again ::
                 && Serve(d.After(s), d.TheUpdate().Target(), d.Entries(nic), progs)
                 && |progs| == MAX_PER_NIC_PROGS && d.SchedulerProg(d.After(s), next) == Some(again)
                 && Circles(d.env.HashOf(TC), d.After(s).SlotsOf(TC), nic, progs, again)
  {
    EightIsOk(nic, next);
    Eight(nic, next).Circles(s);
    Eight(nic, next).BothAccepted();
    var d := Eight(nic, next).TheDeployment();
    var progs :| Serve(d.After(s), d.TheUpdate().Target(), d.Entries(nic), progs);
    assert Circles(d.env.HashOf(TC), d.After(s).SlotsOf(TC), nic, progs, d.SchedulerProg(d.After(s), next).value);
  }
}
