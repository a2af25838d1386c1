/**
From configuration to packet: after an update from empty maps a packet meets the scheduler and then the programs
configured for its NIC, in ascending order (src/daemon/daemon.cc:123-213, src/ebpf/ebpf_chain.h:55-66).
*/
module PacketPath {
  import opened Chain
  import opened ChainAgreement
  import opened ChainSpec
  import opened Configs
  import opened ConfiguredChain
  import opened Hooks
  import opened KernelMaps
  import opened LoaderSpec
  import opened PinnedProgMap
  import opened Reconcile
  import opened Wrappers

  // ---------------------------------------------------------------- chains that keep apart

  /** The accepted chains have a region, lie inside the array and do not overlap. */
  ghost predicate Separate(rb: Rebuild) {
    && (forall nic | rb.Accepted(nic) ::
          nic in rb.regions && rb.regions[nic] + |rb.Chain(nic)| <= MAX_CHAIN_PROGS)
    && (forall a, b | rb.Accepted(a) && rb.Accepted(b) && a != b ::
          rb.regions[a] + |rb.Chain(a)| <= rb.regions[b] || rb.regions[b] + |rb.Chain(b)| <= rb.regions[a])
  }

  /** Eight names per NIC keep apart, which the intended guard sees to. */
  lemma FittingChainsAreSeparate(rb: Rebuild)
    requires RegionsOk(rb.regions) && rb.Placed()
    requires forall nic | rb.Accepted(nic) :: |rb.Chain(nic)| <= MAX_PER_NIC_PROGS
    ensures Separate(rb)
  {
    forall a, b | rb.Accepted(a) && rb.Accepted(b) && a != b
      ensures rb.regions[a] + |rb.Chain(a)| <= rb.regions[b] || rb.regions[b] + |rb.Chain(b)| <= rb.regions[a]
    {
      Apart(rb.regions[a], rb.regions[b]);
    }
  }

  lemma Apart(a: nat, b: nat)
    requires a % MAX_PER_NIC_PROGS == 0 == b % MAX_PER_NIC_PROGS && a != b
    ensures a + MAX_PER_NIC_PROGS <= b || b + MAX_PER_NIC_PROGS <= a
  {
  }

  lemma {:induction false} IdsNoLonger(reg: Registry, hook: HookType, names: seq<string>)
    ensures |Ids(reg, hook, names)| <= |names|
  {
    if names != [] {
      IdsNoLonger(reg, hook, names[..|names| - 1]);
    }
  }

  lemma IntendedGuardSeparates(rb: Rebuild)
    requires RegionsOk(rb.regions) && rb.Placed() && rb.guard == INTENDED_GUARD
    ensures Separate(rb)
  {
    forall nic | rb.Accepted(nic) ensures |rb.Chain(nic)| <= MAX_PER_NIC_PROGS {
      IdsNoLonger(rb.reg, rb.hook, rb.Names(nic));
    }
    FittingChainsAreSeparate(rb);
  }

  /** As shipped only one NIC gets a chain, which may fill the whole array. */
  lemma ShippedGuardSeparates(rb: Rebuild)
    requires RegionsOk(rb.regions) && rb.Placed() && rb.guard == SHIPPED_GUARD
    requires forall nic | rb.Accepted(nic) :: |rb.Chain(nic)| <= MAX_CHAIN_PROGS
    ensures Separate(rb)
  {
    forall a | rb.Accepted(a) ensures rb.regions[a] == 0 {
      rb.ShippedGuardServesFirstRegion(a);
    }
  }

  lemma SamePlace(rb: Rebuild, a: Ifindex, i: ProgId, b: Ifindex, j: ProgId)
    requires Separate(rb) && rb.Accepted(a) && rb.Accepted(b) && i in rb.Chain(a) && j in rb.Chain(b)
    requires rb.regions[a] + LastPosition(rb.Chain(a), i) == rb.regions[b] + LastPosition(rb.Chain(b), j)
    ensures a == b && i == j
  {
    var p, q := LastPosition(rb.Chain(a), i), LastPosition(rb.Chain(b), j);
    assert p < |rb.Chain(a)| && q < |rb.Chain(b)|;
  }

  lemma KeyOf(rb: Rebuild, hash: IdHash, k: nat) returns (nic: Ifindex, id: ProgId)
    requires rb.IsHash(hash) && k in hash
    ensures rb.Accepted(nic) && id in rb.Chain(nic) && k == ChainKey(nic, id)
    ensures rb.Files(hash, nic, id)
  {
    nic, id :| nic in NicsOf(rb.ordered) && rb.Accepted(nic) && id in rb.Chain(nic) && k == ChainKey(nic, id);
  }

  lemma SameValue(rb: Rebuild, hash: IdHash, k: nat, l: nat)
    requires rb.IsHash(hash) && Separate(rb) && k in hash && l in hash && hash[k] == hash[l]
    ensures k == l
  {
    var a, i := KeyOf(rb, hash, k);
    var b, j := KeyOf(rb, hash, l);
    SamePlace(rb, a, i, b, j);
  }

  /** In a finished hash no slot has two keys. */
  lemma SeparateIsInjective(rb: Rebuild, hash: IdHash)
    requires rb.IsHash(hash) && Separate(rb)
    ensures Injective(hash)
  {
    forall k, l | k in hash && l in hash && hash[k] == hash[l] ensures k == l {
      SameValue(rb, hash, k, l);
    }
  }

  /** Numbers below `n`, each used once, have at most `n` keys. */
  lemma {:induction false} FewEntries(hash: IdHash, n: nat)
    requires Injective(hash) && forall k | k in hash :: hash[k] < n
    ensures |hash| <= n
    decreases n
  {
    if hash != map[] {
      var n1 := n - 1;
      if k :| k in hash && hash[k] == n1 {
        FewEntries(hash - {k}, n1);
        FewerEntries(hash, k);
        assert |hash| == |hash - {k}| + 1 by {
          assert hash == (hash - {k})[k := hash[k]];
        }
      } else {
        FewEntries(hash, n1);
      }
    }
  }

  lemma {:induction false} Enumeration(s: set<Ifindex>) returns (e: seq<Ifindex>)
    ensures NoRepeats(e) && forall x :: x in e <==> x in s
    decreases |s|
  {
    if s == {} {
      e := [];
    } else {
      var x :| x in s;
      var rest := Enumeration(s - {x});
      e := rest + [x];
    }
  }

  /** Chains that keep apart never need more than the hash's 32 entries. */
  lemma SeparateFits(rb: Rebuild)
    requires Separate(rb)
    ensures |rb.Keys()| <= MAX_CHAIN_PROGS
  {
    var done := Enumeration(NicsOf(rb.ordered));
    rb.BuiltMeetsSpec(done);
    var hash := rb.Built(done);
    SeparateIsInjective(rb, hash);
    forall k | k in hash ensures hash[k] < MAX_CHAIN_PROGS {
      var nic, id := KeyOf(rb, hash, k);
      assert LastPosition(rb.Chain(nic), id) < |rb.Chain(nic)|;
    }
    FewEntries(hash, MAX_CHAIN_PROGS);
    assert |hash.Keys| == |hash|;
  }

  /** No other chain starts right behind the one of this NIC, which the guard accepted. */
  ghost predicate EndsFree(rb: Rebuild, nic: Ifindex) {
    rb.Accepted(nic) && forall a | rb.Accepted(a) :: rb.Start(a) != rb.Start(nic) + |rb.Chain(nic)|
  }

  lemma NotInside(start: nat, other: nat, count: nat)
    requires start % MAX_PER_NIC_PROGS == 0 == other % MAX_PER_NIC_PROGS && 0 < count < MAX_PER_NIC_PROGS
    ensures other != start + count
  {
  }

  /** Seven names leave the last slot of the region free. */
  lemma ShortChainEndsFree(rb: Rebuild, nic: Ifindex)
    requires RegionsOk(rb.regions) && rb.Placed()
    requires rb.Accepted(nic) && 0 < |rb.Chain(nic)| < MAX_PER_NIC_PROGS
    ensures EndsFree(rb, nic)
  {
    forall a | rb.Accepted(a) ensures rb.Start(a) != rb.Start(nic) + |rb.Chain(nic)| {
      NotInside(rb.regions[nic], rb.regions[a], |rb.Chain(nic)|);
    }
  }

  lemma EndNotNamed(rb: Rebuild, hash: IdHash, nic: Ifindex)
    requires rb.IsHash(hash) && Separate(rb) && EndsFree(rb, nic)
    ensures rb.regions[nic] + |rb.Chain(nic)| !in hash.Values
  {
    var end := rb.regions[nic] + |rb.Chain(nic)|;
    forall k | k in hash ensures hash[k] != end {
      var a, i := KeyOf(rb, hash, k);
      assert LastPosition(rb.Chain(a), i) < |rb.Chain(a)|;
    }
  }

  // ---------------------------------------------------------------- the configured order

  /**
  `ordered` is the list the daemon builds for a hook from the entries `names`: sorted by order, whatever std::sort
  does with equal ones.
  */
  ghost predicate Orders(scheme: Scheme, cfgs: EbpfMap, hook: HookType, names: seq<string>, ordered: NamesIfindex) {
    && NoRepeats(names) && |ordered| == |names|
    && (forall n :: n in names <==> n in cfgs && cfgs[n].hook == hook)
    && (forall i, j | 0 <= i < j < |names| :: cfgs[names[i]].order <= cfgs[names[j]].order)
    && (forall i | 0 <= i < |names| ::
          ordered[i] == (scheme.official(hook, cfgs[names[i]].lib), cfgs[names[i]].ifindex))
  }

  /** The entries of a NIC whose programs are registered for the hook. */
  function OnNic(scheme: Scheme, reg: Registry, cfgs: EbpfMap, hook: HookType, nic: Ifindex): set<string> {
    set n | && n in cfgs && cfgs[n].ifindex == nic
            && var name := scheme.official(hook, cfgs[n].lib);
               name in reg && reg[name].hook == hook
  }

  function Only(names: seq<string>, keep: set<string>): seq<string> {
    if names == [] then []
    else Only(names[..|names| - 1], keep) + if names[|names| - 1] in keep then [names[|names| - 1]] else []
  }

  ghost predicate InOrder(cfgs: EbpfMap, names: seq<string>) {
    && (forall n | n in names :: n in cfgs)
    && forall i, j | 0 <= i < j < |names| :: cfgs[names[i]].order <= cfgs[names[j]].order
  }

  lemma {:induction false} OnlyKept(names: seq<string>, keep: set<string>)
    ensures forall n :: n in Only(names, keep) <==> n in names && n in keep
    ensures NoRepeats(names) ==> NoRepeats(Only(names, keep))
    decreases |names|
  {
    if names != [] {
      var front, last := names[..|names| - 1], names[|names| - 1];
      OnlyKept(front, keep);
      assert names == front + [last];
    }
  }

  lemma InOrderSnoc(cfgs: EbpfMap, names: seq<string>, last: string)
    ensures InOrder(cfgs, names + [last]) <==>
            InOrder(cfgs, names) && last in cfgs && forall n | n in names :: cfgs[n].order <= cfgs[last].order
  {
    var all := names + [last];
    if InOrder(cfgs, all) {
      forall n | n in names ensures n in cfgs && cfgs[n].order <= cfgs[last].order {
        var p :| 0 <= p < |names| && names[p] == n;
        assert all[p] == n && all[|names|] == last;
      }
      assert forall i | 0 <= i < |names| :: names[i] == all[i];
    }
  }

  /** The programs of one NIC keep their ascending order. */
  lemma {:induction false} OnlyInOrder(cfgs: EbpfMap, names: seq<string>, keep: set<string>)
    requires InOrder(cfgs, names)
    ensures InOrder(cfgs, Only(names, keep))
    decreases |names|
  {
    if names != [] {
      var front, last := names[..|names| - 1], names[|names| - 1];
      assert names == front + [last];
      InOrderSnoc(cfgs, front, last);
      OnlyInOrder(cfgs, front, keep);
      OnlyKept(front, keep);
      InOrderSnoc(cfgs, Only(front, keep), last);
    }
  }

  /** `ids` lists the scheduler and then the registered programs of `members`. */
  ghost predicate ListsMembers(scheme: Scheme, reg: Registry, cfgs: EbpfMap, hook: HookType, scheduler: string,
                               members: seq<string>, ids: seq<ProgId>) {
    && Known(reg, hook, scheduler) && |ids| == |members| + 1 && ids[0] == reg[scheduler].id
    && forall j | 0 <= j < |members| ::
         && members[j] in cfgs && Known(reg, hook, scheme.official(hook, cfgs[members[j]].lib))
         && ids[j + 1] == reg[scheme.official(hook, cfgs[members[j]].lib)].id
  }

  lemma {:induction false} ChainOfMembers(
      scheme: Scheme, reg: Registry, cfgs: EbpfMap, hook: HookType, nic: Ifindex, scheduler: string,
      names: seq<string>, ordered: NamesIfindex)
    requires |ordered| == |names| && Known(reg, hook, scheduler)
    requires forall i | 0 <= i < |names| ::
               names[i] in cfgs && ordered[i] == (scheme.official(hook, cfgs[names[i]].lib), cfgs[names[i]].ifindex)
    ensures ListsMembers(scheme, reg, cfgs, hook, scheduler, Only(names, OnNic(scheme, reg, cfgs, hook, nic)),
                         Ids(reg, hook, [scheduler] + NamesOf(ordered, nic)))
    decreases |names|
  {
    if names == [] {
      IdsAppend(reg, hook, [], scheduler);
      assert [] + [scheduler] == [scheduler] + NamesOf(ordered, nic);
    } else {
      var k := |names| - 1;
      var (name, at) := ordered[k];
      ChainOfMembers(scheme, reg, cfgs, hook, nic, scheduler, names[..k], ordered[..k]);
      var before := [scheduler] + NamesOf(ordered[..k], nic);
      IdsAppend(reg, hook, before, name);
      assert [scheduler] + NamesOf(ordered, nic) == if at == nic then before + [name] else before;
    }
  }

  // ---------------------------------------------------------------- a configuration on empty maps

  /** Nothing loaded yet and nothing in the program arrays. */
  ghost predicate Blank(s: LoaderState) {
    && s.services == map[] && |s.tcSlots| == MAX_CHAIN_PROGS == |s.xdpSlots|
    && forall i | 0 <= i < MAX_CHAIN_PROGS :: s.tcSlots[i] == None && s.xdpSlots[i] == None
  }

  /** The program that serves an entry. */
  function ProgramOf(s: LoaderState, cfg: ConfigEbpf): Option<Prog> {
    if cfg.lib in s.services then s.services[cfg.lib].prog else None
  }

  lemma SeatOf(env: Env, hook: HookType, s: LoaderState, view: EbpfMap, n: string)
    requires EnvOk(env, hook) && Tracks(env.scheme, view, s) && Agree(env, hook, s)
    requires n in view && view[n].hook == hook && Known(env.reg, hook, Official(env.scheme, view[n]))
    requires var key := ChainKey(view[n].ifindex, env.reg[Official(env.scheme, view[n])].id);
             key in env.HashOf(hook) && env.HashOf(hook)[key] < MAX_CHAIN_PROGS
    ensures var id := env.reg[Official(env.scheme, view[n])].id;
            var prog := ProgramOf(s, view[n]);
            prog.Some? && prog.value.id == id
            && s.SlotsOf(hook)[env.HashOf(hook)[ChainKey(view[n].ifindex, id)]] == prog
  {
    var h := s.services[view[n].lib];
    assert Matches(h, view[n]);
    assert Seated(env, s.SlotsOf(hook), h);
  }

  /** `ids` are the ids of the distinct entries of one NIC, all of them registered. */
  ghost predicate Lists(env: Env, target: EbpfMap, hook: HookType, nic: Ifindex, entries: seq<string>,
                        ids: seq<ProgId>) {
    && NoRepeats(entries) && |entries| == |ids|
    && forall j | 0 <= j < |entries| :: EntryOf(env, target, hook, nic, entries[j], ids[j])
  }

  predicate EntryOf(env: Env, target: EbpfMap, hook: HookType, nic: Ifindex, n: string, id: ProgId) {
    && n in target && target[n].hook == hook && target[n].ifindex == nic
    && Known(env.reg, hook, Official(env.scheme, target[n])) && id == env.reg[Official(env.scheme, target[n])].id
  }

  /** As the names on one NIC are distinct, so are the ids. */
  lemma ListedIdsDiffer(env: Env, target: EbpfMap, hook: HookType, nic: Ifindex, entries: seq<string>, ids: seq<ProgId>)
    requires IdsUnique(env.reg) && NamesDistinct(env.scheme, target) && Lists(env, target, hook, nic, entries, ids)
    ensures NoRepeats(ids)
  {
    forall i, j | 0 <= i < j < |ids| ensures ids[i] != ids[j] {
      assert EntryOf(env, target, hook, nic, entries[i], ids[i]) && EntryOf(env, target, hook, nic, entries[j], ids[j]);
      assert Official(env.scheme, target[entries[i]]) != Official(env.scheme, target[entries[j]]);
    }
  }

  /** `progs` are the programs that serve the entries. */
  ghost predicate Serve(s: LoaderState, target: EbpfMap, entries: seq<string>, progs: seq<Prog>) {
    |progs| == |entries| && forall j | 0 <= j < |progs| ::
      entries[j] in target && ProgramOf(s, target[entries[j]]) == Some(progs[j])
  }

  lemma AloneServes(s: LoaderState, target: EbpfMap, n: string, prog: Prog)
    requires n in target && ProgramOf(s, target[n]) == Some(prog)
    ensures Serve(s, target, [n], [prog])
  {
  }

  /** The hash has the ids in consecutive slots. */
  ghost predicate Numbered(hash: IdHash, nic: Ifindex, ids: seq<ProgId>, start: nat) {
    start + |ids| <= MAX_CHAIN_PROGS
    && forall j | 0 <= j < |ids| :: ChainKey(nic, ids[j]) in hash && hash[ChainKey(nic, ids[j])] == start + j
  }

  /** Services that follow the configuration and sit in their slots link the whole chain. */
  lemma ServedChainIsLinked(env: Env, target: EbpfMap, hook: HookType, nic: Ifindex, s: LoaderState,
                            entries: seq<string>, ids: seq<ProgId>, start: nat, progs: seq<Prog>)
    requires EnvOk(env, hook) && Tracks(env.scheme, target, s) && Agree(env, hook, s)
    requires Lists(env, target, hook, nic, entries, ids) && Numbered(env.HashOf(hook), nic, ids, start)
    requires Serve(s, target, entries, progs)
    ensures Linked(env.HashOf(hook), s.SlotsOf(hook), nic, progs, start)
  {
    forall j | 0 <= j < |progs|
      ensures && ChainKey(nic, progs[j].id) in env.HashOf(hook)
              && env.HashOf(hook)[ChainKey(nic, progs[j].id)] == start + j
              && s.SlotsOf(hook)[start + j] == Some(progs[j])
    {
      assert EntryOf(env, target, hook, nic, entries[j], ids[j]);
      SeatOf(env, hook, s, target, entries[j]);
    }
  }

  lemma ProgramsExist(env: Env, target: EbpfMap, hook: HookType, nic: Ifindex, s: LoaderState,
                      entries: seq<string>, ids: seq<ProgId>, start: nat)
    requires EnvOk(env, hook) && Tracks(env.scheme, target, s) && Agree(env, hook, s)
    requires Lists(env, target, hook, nic, entries, ids) && Numbered(env.HashOf(hook), nic, ids, start)
    ensures exists progs :: Serve(s, target, entries, progs)
  {
    forall j | 0 <= j < |entries| ensures entries[j] in target && ProgramOf(s, target[entries[j]]).Some? {
      assert EntryOf(env, target, hook, nic, entries[j], ids[j]);
      SeatOf(env, hook, s, target, entries[j]);
    }
    var progs := seq(|entries|, j requires 0 <= j < |entries| => ProgramOf(s, target[entries[j]]).value);
    assert Serve(s, target, entries, progs);
  }

  /** Scheduler and members together, as entries of the target. */
  lemma SchedulerAndMembers(env: Env, supplied: EbpfMap, target: EbpfMap, hook: HookType, nic: Ifindex,
                            members: seq<string>, ids: seq<ProgId>)
    requires SchemeOk(env.scheme)
    requires forall n | n in supplied :: n in target && target[n] == supplied[n] && !Marked(supplied[n].lib)
    requires var id := env.scheme.id(hook, nic);
             id in target && target[id] == SchedulerEntry(env.scheme, hook, nic) && id !in supplied
    requires ListsMembers(env.scheme, env.reg, supplied, hook, env.scheme.official(hook, env.scheme.path(hook)),
                          members, ids)
    requires NoRepeats(members)
    requires forall n | n in members :: n in supplied && supplied[n].hook == hook && supplied[n].ifindex == nic
    ensures Lists(env, target, hook, nic, [env.scheme.id(hook, nic)] + members, ids)
  {
    var entries := [env.scheme.id(hook, nic)] + members;
    assert EntryOf(env, target, hook, nic, entries[0], ids[0]);
    forall j | 0 <= j < |members| ensures EntryOf(env, target, hook, nic, members[j], ids[j + 1]) {
      assert members[j] in members;
      assert env.scheme.file(supplied[members[j]].lib) == supplied[members[j]].lib;
    }
    forall j | 0 <= j < |entries| ensures EntryOf(env, target, hook, nic, entries[j], ids[j]) {
      if j > 0 {
        assert entries[j] == members[j - 1];
      }
    }
  }

  lemma TargetHasScheduler(u: Update, hook: HookType, nic: Ifindex)
    requires u.Ok() && (hook, nic) in Pairs(u.supplied)
    ensures var id := u.scheme.id(hook, nic);
            id in u.Target() && u.Target()[id] == SchedulerEntry(u.scheme, hook, nic) && id !in u.supplied
    ensures forall n | n in u.supplied ::
              n in u.Target() && u.Target()[n] == u.supplied[n] && !Marked(u.supplied[n].lib)
  {
    u.SchedulerEntries(u.scheme.id(hook, nic));
  }

  lemma ChainNumbered(rb: Rebuild, hash: IdHash, nic: Ifindex)
    requires rb.IsHash(hash) && Separate(rb) && rb.Accepted(nic) && NoRepeats(rb.Chain(nic))
    ensures Numbered(hash, nic, rb.Chain(nic), rb.regions[nic])
  {
    forall j | 0 <= j < |rb.Chain(nic)|
      ensures ChainKey(nic, rb.Chain(nic)[j]) in hash && hash[ChainKey(nic, rb.Chain(nic)[j])] == rb.regions[nic] + j
    {
      rb.ChainSlots(hash, nic, j);
    }
  }

  lemma NothingConfigured(u: Update)
    requires u.was == map[] && u.Ok()
    ensures u.Current() == map[]
  {
  }

  /** Where nothing is loaded, everything agrees. */
  lemma BlankAgrees(u: Update, env: Env, hook: HookType, s: LoaderState)
    requires u.was == map[] && u.Ok() && Blank(s)
    ensures Tracks(u.scheme, u.Current(), s) && Exactly(u.Current(), s)
    ensures Agree(env, hook, s) && OnlyListed(env, hook, s)
  {
    NothingConfigured(u);
  }

  lemma InstallOnBlank(u: Update, env: Env, hook: HookType, s: LoaderState)
    requires u.was == map[] && u.Ok() && env.scheme == u.scheme && EnvOk(env, hook) && TargetOk(env, u.Target())
    requires Blank(s)
    ensures Tracks(u.scheme, u.Target(), u.Result(env, s)) && Exactly(u.Target(), u.Result(env, s))
    ensures Agree(env, hook, u.Result(env, s)) && OnlyListed(env, hook, u.Result(env, s))
  {
    BlankAgrees(u, env, hook, s);
    AppendKeeps(u, env, hook, s);
  }

  /**
  Whatever the programs do with a packet, one that enters at the first of `progs` meets what running them in order
  would meet, with the same verdict, and needs at most 31 tail calls.
  */
  ghost predicate MeetsInOrder(hash: IdHash, slots: Slots, nic: Ifindex, progs: seq<Prog>) {
    progs != [] && forall behave, packet ::
      var t := Walk(hash, slots, behave, nic, progs[0], packet, TAIL_CALL_LIMIT);
      t == RunInOrder(behave, progs, packet) && |t.visited| - 1 <= MAX_CHAIN_PROGS - 1
  }

  ghost predicate LinkedAndEnds(hash: IdHash, slots: Slots, nic: Ifindex, progs: seq<Prog>) {
    progs != [] && exists start: nat :: Linked(hash, slots, nic, progs, start) && EndsAt(slots, start + |progs|)
  }

  lemma LinkedEnds(hash: IdHash, slots: Slots, nic: Ifindex, progs: seq<Prog>, start: nat)
    requires progs != [] && Linked(hash, slots, nic, progs, start) && EndsAt(slots, start + |progs|)
    ensures LinkedAndEnds(hash, slots, nic, progs)
  {
  }

  /** A slot that the hash does not name holds nothing. */
  lemma UnnamedIsEmpty(env: Env, hook: HookType, s: LoaderState, slot: nat)
    requires OnlyListed(env, hook, s) && slot !in env.HashOf(hook).Values
    ensures EndsAt(s.SlotsOf(hook), slot)
  {
  }

  lemma LinkedChainIsMet(hash: IdHash, slots: Slots, nic: Ifindex, progs: seq<Prog>)
    requires LinkedAndEnds(hash, slots, nic, progs)
    ensures MeetsInOrder(hash, slots, nic, progs)
  {
    var start: nat :| Linked(hash, slots, nic, progs, start) && EndsAt(slots, start + |progs|);
    forall behave, packet
      ensures var t := Walk(hash, slots, behave, nic, progs[0], packet, TAIL_CALL_LIMIT);
              t == RunInOrder(behave, progs, packet) && |t.visited| - 1 <= MAX_CHAIN_PROGS - 1
    {
      WalkFollowsChain(hash, slots, behave, nic, progs, start, packet, TAIL_CALL_LIMIT);
      RunInOrderMeaning(behave, progs, packet);
    }
  }

  /** Packets that all programs pass on go round the chain by way of `again`, for 33 tail calls. */
  ghost predicate Circles(hash: IdHash, slots: Slots, nic: Ifindex, progs: seq<Prog>, again: Prog) {
    progs != [] && forall behave, packet | PassesAll(behave) ::
      Walk(hash, slots, behave, nic, progs[0], packet, TAIL_CALL_LIMIT).visited ==
      [progs[0]] + Circle(progs, again, 0, TAIL_CALL_LIMIT)
  }

  /** Programs that pass packets on are all visited then, and a walk that circles visits more of them than 32. */
  lemma MetMeansVisited(hash: IdHash, slots: Slots, nic: Ifindex, progs: seq<Prog>)
    requires MeetsInOrder(hash, slots, nic, progs)
    ensures forall behave, packet | PassesAll(behave) ::
              Walk(hash, slots, behave, nic, progs[0], packet, TAIL_CALL_LIMIT).visited == progs
    ensures forall again :: !Circles(hash, slots, nic, progs, again)
  {
    forall behave, packet | PassesAll(behave)
      ensures Walk(hash, slots, behave, nic, progs[0], packet, TAIL_CALL_LIMIT).visited == progs
    {
      PassedOnByAll(behave, progs, packet);
    }
    var packet: Packet, verdict: Verdict := *, *;
    var pass: Behaviour := (_, _) => Next(verdict, packet);
    assert PassesAll(pass);
    var t := Walk(hash, slots, pass, nic, progs[0], packet, TAIL_CALL_LIMIT);
    assert t == RunInOrder(pass, progs, packet) && |t.visited| - 1 <= MAX_CHAIN_PROGS - 1;
  }

  /** A program without an entry for the NIC calls no other. */
  lemma NoEntryNoCall(hash: IdHash, slots: Slots, nic: Ifindex, progs: seq<Prog>)
    requires progs != [] && ChainKey(nic, progs[0].id) !in hash
    ensures MeetsInOrder(hash, slots, nic, progs) <==> |progs| == 1
  {
    if MeetsInOrder(hash, slots, nic, progs) {
      MetMeansVisited(hash, slots, nic, progs);
      var packet: Packet, verdict: Verdict := *, *;
      var pass: Behaviour := (_, _) => Next(verdict, packet);
      assert PassesAll(pass);
      assert |Walk(hash, slots, pass, nic, progs[0], packet, TAIL_CALL_LIMIT).visited| == 1;
    }
  }

  lemma ClosedChainCircles(hash: IdHash, slots: Slots, nic: Ifindex, progs: seq<Prog>, start: nat, again: Prog)
    requires Linked(hash, slots, nic, progs, start) && ClosesCircle(slots, progs, start, again)
    ensures Circles(hash, slots, nic, progs, again)
  {
    forall behave, packet | PassesAll(behave)
      ensures Walk(hash, slots, behave, nic, progs[0], packet, TAIL_CALL_LIMIT).visited ==
              [progs[0]] + Circle(progs, again, 0, TAIL_CALL_LIMIT)
    {
      WalkCircles(hash, slots, behave, nic, progs, start, again, 0, progs[0], packet, TAIL_CALL_LIMIT);
    }
  }

  predicate SitsAt(slots: Slots, slot: nat, prog: Option<Prog>) {
    slot < MAX_CHAIN_PROGS == |slots| && slots[slot] == prog
  }

  lemma TwoSchedulersClose(hash: IdHash, slots: Slots, nic: Ifindex, progs: seq<Prog>, start: nat, end: nat,
                           again: Prog)
    requires progs != [] && Linked(hash, slots, nic, progs, start) && again.id == progs[0].id
    requires end == start + |progs| && SitsAt(slots, end, Some(again))
    ensures Circles(hash, slots, nic, progs, again)
  {
    ClosedChainCircles(hash, slots, nic, progs, start, again);
  }

  /**
  `supplied` installed where nothing is loaded: `names` and `rb` are what the daemon builds for `hook` and hands
  to updateChain, whose finished hash is the one of `env`.
  */
  datatype Deployment = Deployment(env: Env, supplied: EbpfMap, hook: HookType, names: seq<string>, rb: Rebuild) {

    ghost predicate Ok() {
      Planned() && Separate(rb)
    }

    /** The configuration may be deployed, and its rebuild, which finished, is `rb`. */
    ghost predicate Planned() {
      && ProgMap.HasMaps(hook) && IdsUnique(env.reg) && TheUpdate().Ok() && TargetOk(env, TheUpdate().Target())
      && RebuildIs()
    }

    ghost predicate RebuildIs() {
      && rb.reg == env.reg && rb.hook == hook && rb.scheduler == env.scheme.official(hook, env.scheme.path(hook))
      && Known(env.reg, hook, rb.scheduler)
      && Orders(env.scheme, supplied, hook, names, rb.ordered) && rb.IsHash(env.HashOf(hook))
    }

    ghost predicate RebuildOk() {
      RebuildIs() && Separate(rb)
    }

    function TheUpdate(): Update {
      Update(env.scheme, map[], supplied)
    }

    /** The registered programs of a NIC, in ascending order. */
    ghost function Members(nic: Ifindex): seq<string> {
      Only(names, OnNic(env.scheme, env.reg, supplied, hook, nic))
    }

    /** The scheduler of the NIC, then its registered programs in ascending order. */
    ghost function Entries(nic: Ifindex): seq<string> {
      [env.scheme.id(hook, nic)] + Members(nic)
    }

    lemma MembersAre(nic: Ifindex)
      requires RebuildIs()
      ensures ListsMembers(env.scheme, env.reg, supplied, hook, rb.scheduler, Members(nic), rb.Chain(nic))
      ensures NoRepeats(Members(nic)) && InOrder(supplied, Members(nic))
      ensures forall n :: n in Members(nic) <==>
                n in supplied && supplied[n].hook == hook && n in OnNic(env.scheme, env.reg, supplied, hook, nic)
      ensures rb.Accepted(nic) ==> (hook, nic) in Pairs(supplied)
    {
      ChainOfMembers(env.scheme, env.reg, supplied, hook, nic, rb.scheduler, names, rb.ordered);
      OnlyKept(names, OnNic(env.scheme, env.reg, supplied, hook, nic));
      OnlyInOrder(supplied, names, OnNic(env.scheme, env.reg, supplied, hook, nic));
      if rb.Accepted(nic) {
        var i :| 0 <= i < |names| && rb.ordered[i].1 == nic;
        assert names[i] in names;
      }
    }

    lemma EntriesAre(nic: Ifindex)
      requires Planned() && rb.Accepted(nic)
      ensures Lists(env, TheUpdate().Target(), hook, nic, Entries(nic), rb.Chain(nic)) && NoRepeats(rb.Chain(nic))
    {
      MembersAre(nic);
      TargetHasScheduler(TheUpdate(), hook, nic);
      SchedulerAndMembers(env, supplied, TheUpdate().Target(), hook, nic, Members(nic), rb.Chain(nic));
      ListedIdsDiffer(env, TheUpdate().Target(), hook, nic, Entries(nic), rb.Chain(nic));
    }

    lemma EntriesListed(nic: Ifindex)
      requires Ok() && rb.Accepted(nic)
      ensures Lists(env, TheUpdate().Target(), hook, nic, Entries(nic), rb.Chain(nic))
      ensures Numbered(env.HashOf(hook), nic, rb.Chain(nic), rb.regions[nic])
    {
      EntriesAre(nic);
      ChainNumbered(rb, env.HashOf(hook), nic);
    }

    ghost function After(s: LoaderState): LoaderState
      requires TheUpdate().Ok()
    {
      TheUpdate().Result(env, s)
    }

    /** Services follow the configuration, array and hash agree, and nothing else is in the array. */
    ghost predicate Holds(s: LoaderState)
      requires TheUpdate().Ok()
    {
      Tracks(env.scheme, TheUpdate().Target(), s) && Agree(env, hook, s) && OnlyListed(env, hook, s)
    }

    lemma EnvIsOk()
      requires Ok()
      ensures EnvOk(env, hook)
    {
      SeparateIsInjective(rb, env.HashOf(hook));
    }

    /** The update from nothing leaves it so. */
    lemma Installed(s: LoaderState)
      requires Ok() && Blank(s)
      ensures Holds(After(s)) && Exactly(TheUpdate().Target(), After(s))
    {
      EnvIsOk();
      InstallOnBlank(TheUpdate(), env, hook, s);
    }

    /** Then every entry of the chain is served by a program, */
    lemma ChainIsServed(s: LoaderState, nic: Ifindex)
      requires Ok() && Holds(s) && rb.Accepted(nic)
      ensures exists progs :: Serve(s, TheUpdate().Target(), Entries(nic), progs)
    {
      EnvIsOk();
      EntriesListed(nic);
      ProgramsExist(env, TheUpdate().Target(), hook, nic, s, Entries(nic), rb.Chain(nic), rb.regions[nic]);
    }

    lemma ChainIsLinked(s: LoaderState, nic: Ifindex, progs: seq<Prog>)
      requires Ok() && Holds(s) && EndsFree(rb, nic) && Serve(s, TheUpdate().Target(), Entries(nic), progs)
      ensures LinkedAndEnds(env.HashOf(hook), s.SlotsOf(hook), nic, progs)
    {
      ChainLinks(s, nic, progs);
      NothingBehind(s, nic);
      LinkedEnds(env.HashOf(hook), s.SlotsOf(hook), nic, progs, rb.regions[nic]);
    }

    lemma NothingBehind(s: LoaderState, nic: Ifindex)
      requires RebuildOk() && OnlyListed(env, hook, s) && EndsFree(rb, nic)
      ensures EndsAt(s.SlotsOf(hook), rb.regions[nic] + |rb.Chain(nic)|)
    {
      EndNotNamed(rb, env.HashOf(hook), nic);
      UnnamedIsEmpty(env, hook, s, rb.regions[nic] + |rb.Chain(nic)|);
    }

    /** and a packet that enters at the scheduler of an accepted NIC meets the configured programs in order. */
    lemma PacketMeetsConfiguredPrograms(s: LoaderState, nic: Ifindex, progs: seq<Prog>)
      requires Ok() && Holds(s) && EndsFree(rb, nic) && Serve(s, TheUpdate().Target(), Entries(nic), progs)
      ensures MeetsInOrder(env.HashOf(hook), s.SlotsOf(hook), nic, progs)
    {
      ChainIsLinked(s, nic, progs);
      LinkedChainIsMet(env.HashOf(hook), s.SlotsOf(hook), nic, progs);
    }

    /** The program of a chain's j-th entry sits in the j-th slot, and has the j-th id. */
    lemma EntrySits(s: LoaderState, nic: Ifindex, j: nat, slot: nat)
      requires Ok() && Holds(s) && rb.Accepted(nic) && j < |rb.Chain(nic)| && slot == rb.regions[nic] + j
      ensures j < |Entries(nic)| && Entries(nic)[j] in TheUpdate().Target()
      ensures var prog := ProgramOf(s, TheUpdate().Target()[Entries(nic)[j]]);
              && prog.Some? && prog.value.id == rb.Chain(nic)[j]
              && SitsAt(s.SlotsOf(hook), slot, prog)
    {
      EnvIsOk();
      EntriesListed(nic);
      var target := TheUpdate().Target();
      assert EntryOf(env, target, hook, nic, Entries(nic)[j], rb.Chain(nic)[j]);
      SeatOf(env, hook, s, target, Entries(nic)[j]);
    }

    lemma ChainLinks(s: LoaderState, nic: Ifindex, progs: seq<Prog>)
      requires Ok() && Holds(s) && rb.Accepted(nic) && Serve(s, TheUpdate().Target(), Entries(nic), progs)
      ensures Linked(env.HashOf(hook), s.SlotsOf(hook), nic, progs, rb.regions[nic])
      ensures |progs| == |rb.Chain(nic)| > 0
    {
      EnvIsOk();
      EntriesListed(nic);
      var target := TheUpdate().Target();
      ServedChainIsLinked(env, target, hook, nic, s, Entries(nic), rb.Chain(nic), rb.regions[nic], progs);
    }

    /** The program of the NIC's scheduler. */
    ghost function SchedulerProg(s: LoaderState, nic: Ifindex): Option<Prog>
      requires TheUpdate().Ok()
    {
      var target, n := TheUpdate().Target(), env.scheme.id(hook, nic);
      if n in target then ProgramOf(s, target[n]) else None
    }

    lemma ChainStarts(nic: Ifindex)
      requires RebuildIs()
      ensures rb.Chain(nic) != [] && rb.Chain(nic)[0] == env.reg[rb.scheduler].id
    {
      MembersAre(nic);
    }

    /** It opens the chain, with the scheduler's id. */
    lemma SchedulerSits(s: LoaderState, nic: Ifindex)
      requires Ok() && Holds(s) && rb.Accepted(nic)
      ensures SchedulerProg(s, nic).Some? && SchedulerProg(s, nic).value.id == env.reg[rb.scheduler].id
      ensures SitsAt(s.SlotsOf(hook), rb.regions[nic], SchedulerProg(s, nic))
    {
      ChainStarts(nic);
      EntrySits(s, nic, 0, rb.regions[nic]);
      assert SchedulerProg(s, nic) == ProgramOf(s, TheUpdate().Target()[Entries(nic)[0]]);
    }

    lemma FirstIsScheduler(s: LoaderState, nic: Ifindex, progs: seq<Prog>)
      requires TheUpdate().Ok() && Serve(s, TheUpdate().Target(), Entries(nic), progs)
      ensures progs != [] && SchedulerProg(s, nic) == Some(progs[0])
    {
      assert Entries(nic)[0] == env.scheme.id(hook, nic);
    }

    /**
    Where the chain of `next` starts right behind that of `nic`, as it does behind a full region, packets that all
    programs pass on meet the scheduler of `next` and then their own chain again from the second program on, until
    their tail calls are used up.
    */
    lemma FullRegionCircles(s: LoaderState, nic: Ifindex, next: Ifindex)
      requires Ok() && Holds(s) && rb.Accepted(nic) && rb.Accepted(next)
      requires rb.regions[next] == rb.regions[nic] + |rb.Chain(nic)|
      ensures SchedulerProg(s, next).Some?
      ensures forall progs | Serve(s, TheUpdate().Target(), Entries(nic), progs) ::
                && |progs| == |rb.Chain(nic)|
                && Circles(env.HashOf(hook), s.SlotsOf(hook), nic, progs, SchedulerProg(s, next).value)
    {
      SchedulerSits(s, nic);
      SchedulerSits(s, next);
      forall progs | Serve(s, TheUpdate().Target(), Entries(nic), progs)
        ensures && |progs| == |rb.Chain(nic)|
                && Circles(env.HashOf(hook), s.SlotsOf(hook), nic, progs, SchedulerProg(s, next).value)
      {
        ChainCloses(s, nic, next, progs);
      }
    }

    lemma ChainCloses(s: LoaderState, nic: Ifindex, next: Ifindex, progs: seq<Prog>)
      requires Ok() && Holds(s) && rb.Accepted(nic) && rb.Accepted(next)
      requires rb.regions[next] == rb.regions[nic] + |rb.Chain(nic)|
      requires Serve(s, TheUpdate().Target(), Entries(nic), progs)
      requires SchedulerProg(s, nic).Some? && SchedulerProg(s, nic).value.id == env.reg[rb.scheduler].id
      requires SchedulerProg(s, next).Some? && SchedulerProg(s, next).value.id == env.reg[rb.scheduler].id
      requires SitsAt(s.SlotsOf(hook), rb.regions[next], SchedulerProg(s, next))
      ensures |progs| == |rb.Chain(nic)|
      ensures Circles(env.HashOf(hook), s.SlotsOf(hook), nic, progs, SchedulerProg(s, next).value)
    {
      FirstIsScheduler(s, nic, progs);
      ChainLinks(s, nic, progs);
      var again := SchedulerProg(s, next).value;
      TwoSchedulersClose(env.HashOf(hook), s.SlotsOf(hook), nic, progs, rb.regions[nic], rb.regions[next], again);
    }

    /** The entries of the NIC are served by programs that every packet meets in order. */
    ghost predicate Serves(s: LoaderState, nic: Ifindex)
      requires TheUpdate().Ok()
    {
      exists progs ::
        && Serve(s, TheUpdate().Target(), Entries(nic), progs)
        && MeetsInOrder(env.HashOf(hook), s.SlotsOf(hook), nic, progs)
    }

    lemma FreeEndServes(s: LoaderState, nic: Ifindex)
      requires Ok() && Holds(s) && EndsFree(rb, nic)
      ensures Serves(s, nic)
    {
      ChainIsServed(s, nic);
      var progs :| Serve(s, TheUpdate().Target(), Entries(nic), progs);
      PacketMeetsConfiguredPrograms(s, nic, progs);
    }

    lemma OccupiedEndDoesNot(s: LoaderState, nic: Ifindex)
      requires Ok() && Holds(s) && rb.Accepted(nic) && !EndsFree(rb, nic)
      ensures !Serves(s, nic)
    {
      var next :| rb.Accepted(next) && rb.Start(next) == rb.Start(nic) + |rb.Chain(nic)|;
      FullRegionCircles(s, nic, next);
      if Serves(s, nic) {
        var progs :| Serve(s, TheUpdate().Target(), Entries(nic), progs)
                     && MeetsInOrder(env.HashOf(hook), s.SlotsOf(hook), nic, progs);
        MetMeansVisited(env.HashOf(hook), s.SlotsOf(hook), nic, progs);
        assert false;
      }
    }

    /** A NIC that the guard refuses has no entries. */
    lemma RefusedHasNoKey(nic: Ifindex, id: ProgId)
      requires RebuildOk() && !rb.Accepted(nic)
      ensures ChainKey(nic, id) !in env.HashOf(hook)
    {
      if ChainKey(nic, id) in env.HashOf(hook) {
        var a, i := KeyOf(rb, env.HashOf(hook), ChainKey(nic, id));
        ChainKeyInjective(a, i, nic, id);
      }
    }

    /** Its scheduler is loaded all the same, */
    lemma SchedulerLoaded(s: LoaderState, nic: Ifindex)
      requires Ok() && Holds(s) && nic in NicsOf(rb.ordered)
      ensures SchedulerProg(s, nic).Some?
    {
      var i :| 0 <= i < |names| && rb.ordered[i].1 == nic;
      assert names[i] in names;
      TargetHasScheduler(TheUpdate(), hook, nic);
      var entry := TheUpdate().Target()[env.scheme.id(hook, nic)];
      assert Matches(s.services[entry.lib], entry);
    }

    /** and meets the packets alone. */
    lemma RefusedServesExactly(s: LoaderState, nic: Ifindex)
      requires Ok() && Holds(s) && nic in NicsOf(rb.ordered) && !rb.Accepted(nic)
      ensures Serves(s, nic) <==> Members(nic) == []
    {
      SchedulerLoaded(s, nic);
      var scheduler := SchedulerProg(s, nic).value;
      RefusedHasNoKey(nic, scheduler.id);
      if Members(nic) == [] {
        NoEntryNoCall(env.HashOf(hook), s.SlotsOf(hook), nic, [scheduler]);
        SchedulerServes(s, nic);
      }
      if Serves(s, nic) {
        var progs :| Serve(s, TheUpdate().Target(), Entries(nic), progs)
                     && MeetsInOrder(env.HashOf(hook), s.SlotsOf(hook), nic, progs);
        FirstIsScheduler(s, nic, progs);
        NoEntryNoCall(env.HashOf(hook), s.SlotsOf(hook), nic, progs);
      }
    }

    lemma SchedulerServes(s: LoaderState, nic: Ifindex)
      requires TheUpdate().Ok() && SchedulerProg(s, nic).Some? && Members(nic) == []
      requires MeetsInOrder(env.HashOf(hook), s.SlotsOf(hook), nic, [SchedulerProg(s, nic).value])
      ensures Serves(s, nic)
    {
      assert Entries(nic) == [env.scheme.id(hook, nic)];
      AloneServes(s, TheUpdate().Target(), env.scheme.id(hook, nic), SchedulerProg(s, nic).value);
    }

    /**
    A NIC with registered programs is served exactly if the guard accepts it and no other chain starts right behind
    its own; one with none has nothing but its scheduler to serve.
    */
    lemma ServesExactly(s: LoaderState, nic: Ifindex)
      requires Ok() && Holds(s) && nic in NicsOf(rb.ordered)
      ensures Serves(s, nic) <==> ServedIn(nic)
    {
      if EndsFree(rb, nic) {
        FreeEndServes(s, nic);
      } else if rb.Accepted(nic) {
        OccupiedEndDoesNot(s, nic);
      } else {
        RefusedServesExactly(s, nic);
      }
    }

    /** What `rb` says about a NIC being served. */
    ghost predicate ServedIn(nic: Ifindex) {
      EndsFree(rb, nic) || (!rb.Accepted(nic) && Members(nic) == [])
    }

    /** As shipped, of all NICs with registered programs just the one with the first region is served. */
    lemma ShippedServesExactly(s: LoaderState, nic: Ifindex)
      requires Ok() && Holds(s) && nic in NicsOf(rb.ordered) && Members(nic) != []
      requires rb.guard == SHIPPED_GUARD && RegionsOk(rb.regions) && rb.Placed()
      ensures Serves(s, nic) <==> rb.regions[nic] == 0
    {
      ServesExactly(s, nic);
      MembersAre(nic);
      forall a ensures rb.Accepted(a) <==> a in NicsOf(rb.ordered) && rb.regions[a] == 0 {
        rb.ShippedGuardServesFirstRegion(a);
      }
    }

    /** From empty maps to packets: which NICs serve their configured chains after one update. */
    lemma FirstUpdateServesPackets(s: LoaderState, nic: Ifindex)
      requires Ok() && Blank(s) && nic in NicsOf(rb.ordered)
      ensures Serves(After(s), nic) <==> ServedIn(nic)
    {
      Installed(s);
      ServesExactly(After(s), nic);
    }
  }
}
