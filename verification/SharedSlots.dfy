/**
A fifth NIC: it has no region, and where assertions do not end the program it takes the slots of the first region
(src/ebpf/pinned_prog_map.cc:247-281, src/common/assert.h).
*/
module SharedSlots {
  import opened Chain
  import opened ChainAgreement
  import opened ChainSpec
  import opened Configs
  import opened ConfiguredChain
  import opened ExactAgreement
  import opened Hooks
  import opened KernelMaps
  import opened LoaderSpec
  import opened PacketPath
  import opened PinnedProgMap
  import opened Wrappers

  /** Every program of the list calls the next one, and the last none. */
  ghost predicate Calls(hash: IdHash, slots: Slots, nic: Ifindex, progs: seq<Prog>) {
    && progs != []
    && (forall j | 0 <= j < |progs| - 1 :: NextProg(hash, slots, nic, progs[j].id) == Some(progs[j + 1]))
    && NextProg(hash, slots, nic, progs[|progs| - 1].id) == None
  }

  lemma CallsTail(hash: IdHash, slots: Slots, nic: Ifindex, progs: seq<Prog>)
    requires |progs| > 1
    ensures Calls(hash, slots, nic, progs) <==>
            NextProg(hash, slots, nic, progs[0].id) == Some(progs[1]) && Calls(hash, slots, nic, progs[1..])
  {
    if Calls(hash, slots, nic, progs[1..]) && NextProg(hash, slots, nic, progs[0].id) == Some(progs[1]) {
      forall j | 0 <= j < |progs| - 1 ensures NextProg(hash, slots, nic, progs[j].id) == Some(progs[j + 1]) {
        if j > 0 {
          assert progs[1..][j - 1] == progs[j];
        }
      }
    }
  }

  lemma {:induction false} CallsAreWalked(hash: IdHash, slots: Slots, nic: Ifindex, progs: seq<Prog>,
                                          behave: Behaviour, packet: Packet, budget: nat)
    requires Calls(hash, slots, nic, progs) && |progs| - 1 <= budget
    ensures Walk(hash, slots, behave, nic, progs[0], packet, budget) == RunInOrder(behave, progs, packet)
    decreases |progs|
  {
    if |progs| > 1 && behave(progs[0], packet).Next? {
      CallsTail(hash, slots, nic, progs);
      CallsAreWalked(hash, slots, nic, progs[1..], behave, behave(progs[0], packet).packet, budget - 1);
    }
  }

  lemma {:induction false} WalkedAreCalled(hash: IdHash, slots: Slots, nic: Ifindex, progs: seq<Prog>,
                                           behave: Behaviour, packet: Packet, budget: nat)
    requires progs != [] && PassesAll(behave) && |progs| <= budget
    requires Walk(hash, slots, behave, nic, progs[0], packet, budget).visited == progs
    ensures Calls(hash, slots, nic, progs)
    decreases |progs|
  {
    assert behave(progs[0], packet).Next?;
    var packet' := behave(progs[0], packet).packet;
    match NextProg(hash, slots, nic, progs[0].id)
    case None =>
    case Some(next) =>
      var rest := Walk(hash, slots, behave, nic, next, packet', budget - 1);
      WalkInAnyState(hash, slots, behave, nic, next, packet', budget - 1);
      assert progs == [progs[0]] + rest.visited;
      assert progs[1..] == rest.visited;
      WalkedAreCalled(hash, slots, nic, progs[1..], behave, packet', budget - 1);
      CallsTail(hash, slots, nic, progs);
  }

  /**
  Packets meet the programs of a list in order, whatever these do, exactly if they are at most 32, each calls the
  next, and the last none.
  */
  lemma MetExactly(hash: IdHash, slots: Slots, nic: Ifindex, progs: seq<Prog>)
    ensures MeetsInOrder(hash, slots, nic, progs) <==> Calls(hash, slots, nic, progs) && |progs| <= MAX_CHAIN_PROGS
  {
    if MeetsInOrder(hash, slots, nic, progs) {
      var packet: Packet, verdict: Verdict := *, *;
      var pass: Behaviour := (_, _) => Next(verdict, packet);
      assert PassesAll(pass);
      MetMeansVisited(hash, slots, nic, progs);
      var t := Walk(hash, slots, pass, nic, progs[0], packet, TAIL_CALL_LIMIT);
      assert t.visited == progs && |t.visited| - 1 <= MAX_CHAIN_PROGS - 1;
      WalkedAreCalled(hash, slots, nic, progs, pass, packet, TAIL_CALL_LIMIT);
    }
    if Calls(hash, slots, nic, progs) && |progs| <= MAX_CHAIN_PROGS {
      forall behave, packet
        ensures var t := Walk(hash, slots, behave, nic, progs[0], packet, TAIL_CALL_LIMIT);
                t == RunInOrder(behave, progs, packet) && |t.visited| - 1 <= MAX_CHAIN_PROGS - 1
      {
        CallsAreWalked(hash, slots, nic, progs, behave, packet, TAIL_CALL_LIMIT);
        RunInOrderMeaning(behave, progs, packet);
      }
    }
  }

  /** The programs have these ids. */
  ghost predicate Carry(progs: seq<Prog>, ids: seq<ProgId>) {
    |progs| == |ids| && forall j | 0 <= j < |progs| :: progs[j].id == ids[j]
  }

  /** Two lists of which one has its first, the other its second entry at 0 both want slot 1. */
  lemma OneNextProgram(hash: IdHash, slots: Slots, nic: Ifindex, progs: seq<Prog>, stray: Ifindex, progs': seq<Prog>)
    requires |progs| > 1 && |progs'| > 1 && progs[1] !in progs'
    requires var key := ChainKey(nic, progs[0].id); key in hash && hash[key] == 0
    requires var key := ChainKey(stray, progs'[1].id); key in hash && hash[key] == 0
    ensures !(Calls(hash, slots, nic, progs) && Calls(hash, slots, stray, progs'))
  {
    assert NextProg(hash, slots, nic, progs[0].id) == NextProg(hash, slots, stray, progs'[1].id);
    if |progs'| > 2 {
      assert progs'[2] in progs';
      CallsNext(hash, slots, stray, progs', 1);
    }
    CallsNext(hash, slots, nic, progs, 0);
  }

  lemma CallsNext(hash: IdHash, slots: Slots, nic: Ifindex, progs: seq<Prog>, j: nat)
    requires j + 1 < |progs|
    ensures Calls(hash, slots, nic, progs) ==> NextProg(hash, slots, nic, progs[j].id) == Some(progs[j + 1])
  {
  }

  /** A NIC without a region and the one with the first, both accepted and with a program besides the scheduler. */
  ghost predicate Rivals(rb: Rebuild, nic: Ifindex, stray: Ifindex) {
    && rb.Accepted(nic) && nic in rb.regions && rb.regions[nic] == 0
    && rb.Accepted(stray) && stray !in rb.regions
    && |rb.Chain(nic)| > 1 && NoRepeats(rb.Chain(nic)) && |rb.Chain(stray)| > 1 && NoRepeats(rb.Chain(stray))
  }

  /** They cannot both be served, whatever the array holds. */
  lemma RivalsAreNotBothMet(rb: Rebuild, hash: IdHash, slots: Slots, nic: Ifindex, progs: seq<Prog>,
                            stray: Ifindex, progs': seq<Prog>)
    requires rb.IsHash(hash) && Rivals(rb, nic, stray)
    requires Carry(progs, rb.Chain(nic)) && Carry(progs', rb.Chain(stray)) && progs[1] !in progs'
    ensures !(MeetsInOrder(hash, slots, nic, progs) && MeetsInOrder(hash, slots, stray, progs'))
  {
    MetExactly(hash, slots, nic, progs);
    MetExactly(hash, slots, stray, progs');
    RivalsShare(rb, hash, nic, stray);
    OneNextProgram(hash, slots, nic, progs, stray, progs');
  }

  lemma RivalsShare(rb: Rebuild, hash: IdHash, nic: Ifindex, stray: Ifindex)
    requires rb.IsHash(hash) && Rivals(rb, nic, stray)
    ensures var key := ChainKey(nic, rb.Chain(nic)[0]); key in hash && hash[key] == 0
    ensures var key := ChainKey(stray, rb.Chain(stray)[1]); key in hash && hash[key] == 0
  {
    rb.ChainSlots(hash, nic, 0);
    rb.ChainSlots(hash, stray, 1);
  }

  // ---------------------------------------------------------------- the deployment

  /** The programs that serve the entries of an accepted NIC carry the ids of its chain. */
  lemma ServingCarry(d: Deployment, s: LoaderState, nic: Ifindex, progs: seq<Prog>)
    requires d.Planned() && d.rb.Accepted(nic) && Tracks(d.env.scheme, d.TheUpdate().Target(), s)
    requires AllGenuine(d.env, s) && Serve(s, d.TheUpdate().Target(), d.Entries(nic), progs)
    ensures Carry(progs, d.rb.Chain(nic)) && NoRepeats(d.rb.Chain(nic))
  {
    d.EntriesAre(nic);
    var target := d.TheUpdate().Target();
    forall j | 0 <= j < |progs| ensures progs[j].id == d.rb.Chain(nic)[j] {
      assert EntryOf(d.env, target, d.hook, nic, d.Entries(nic)[j], d.rb.Chain(nic)[j]);
      GenuineId(d.env, d.hook, s, target, d.Entries(nic)[j], progs[j]);
    }
  }

  lemma GenuineId(env: Env, hook: HookType, s: LoaderState, target: EbpfMap, n: string, prog: Prog)
    requires ProgMap.HasMaps(hook) && Tracks(env.scheme, target, s) && AllGenuine(env, s)
    requires n in target && target[n].hook == hook && Known(env.reg, hook, Official(env.scheme, target[n]))
    requires ProgramOf(s, target[n]) == Some(prog)
    ensures prog.id == env.reg[Official(env.scheme, target[n])].id
  {
    assert Matches(s.services[target[n].lib], target[n]);
  }

  /** Entries of different NICs are served by different programs. */
  lemma NotShared(d: Deployment, s: LoaderState, nic: Ifindex, progs: seq<Prog>, stray: Ifindex, progs': seq<Prog>,
                  i: nat, j: nat)
    requires d.Planned() && d.rb.Accepted(nic) && d.rb.Accepted(stray) && nic != stray
    requires FromLoads(d.env, d.hook, s)
    requires Serve(s, d.TheUpdate().Target(), d.Entries(nic), progs) && i < |progs|
    requires Serve(s, d.TheUpdate().Target(), d.Entries(stray), progs') && j < |progs'|
    ensures progs[i] != progs'[j]
  {
    d.EntriesAre(nic);
    d.EntriesAre(stray);
    var target := d.TheUpdate().Target();
    var n, m := d.Entries(nic)[i], d.Entries(stray)[j];
    assert EntryOf(d.env, target, d.hook, nic, n, d.rb.Chain(nic)[i]);
    assert EntryOf(d.env, target, d.hook, stray, m, d.rb.Chain(stray)[j]);
    AllLibsInjective(d.env.scheme, d.supplied);
    assert target[n].lib != target[m].lib;
  }

  /** So a fifth NIC of a hook and the one with the first region are not both served. */
  lemma NotBothServed(d: Deployment, s: LoaderState, nic: Ifindex, stray: Ifindex)
    requires d.Planned() && Tracks(d.env.scheme, d.TheUpdate().Target(), s)
    requires AllGenuine(d.env, s) && FromLoads(d.env, d.hook, s)
    requires d.rb.Accepted(nic) && nic in d.rb.regions && d.rb.regions[nic] == 0 && d.Members(nic) != []
    requires d.rb.Accepted(stray) && stray !in d.rb.regions && d.Members(stray) != []
    ensures !(d.Serves(s, nic) && d.Serves(s, stray))
  {
    var target, hash, slots := d.TheUpdate().Target(), d.env.HashOf(d.hook), s.SlotsOf(d.hook);
    d.EntriesAre(nic);
    d.EntriesAre(stray);
    forall progs, progs' | Serve(s, target, d.Entries(nic), progs) && Serve(s, target, d.Entries(stray), progs')
      ensures !(MeetsInOrder(hash, slots, nic, progs) && MeetsInOrder(hash, slots, stray, progs'))
    {
      ServingCarry(d, s, nic, progs);
      ServingCarry(d, s, stray, progs');
      forall j | 0 <= j < |progs'| ensures progs[1] != progs'[j] {
        NotShared(d, s, nic, progs, stray, progs', 1, j);
      }
      RivalsAreNotBothMet(d.rb, hash, slots, nic, progs, stray, progs');
    }
  }

  // ---------------------------------------------------------------- after the first update

  lemma {:induction false} SeatedAreWellBuilt(env: Env, s: LoaderState, ops: seq<Op>)
    requires SeatsFree(env, s, ops)
    ensures LoadsWellBuilt(env, ops)
    decreases |ops|
  {
    if ops != [] {
      SeatedAreWellBuilt(env, Apply(env, s, ops[0]), ops[1..]);
      forall op | op in ops && op.Load? ensures WellBuilt(env, op.lib, op.hook) {
        assert op == ops[0] || op in ops[1..];
      }
    }
  }

  lemma RunFromBlank(env: Env, hook: HookType, s: LoaderState, ops: seq<Op>)
    requires ProgMap.HasMaps(hook) && Blank(s) && OwnPrograms(env) && SeatsFree(env, s, ops)
    ensures AllGenuine(env, ApplyAll(env, s, ops)) && FromLoads(env, hook, ApplyAll(env, s, ops))
  {
    SeatedAreWellBuilt(env, s, ops);
    RunKeepsGenuine(env, hook, s, ops);
    RunKeepsOnlyInSlot(env, hook, s, ops);
  }

  /** Whatever the hash, the services are those of the configuration, genuine, and with programs of their own. */
  lemma InstalledAnyhow(d: Deployment, s: LoaderState)
    requires d.Planned() && Blank(s) && OwnPrograms(d.env)
    ensures Tracks(d.env.scheme, d.TheUpdate().Target(), d.After(s))
    ensures AllGenuine(d.env, d.After(s)) && FromLoads(d.env, d.hook, d.After(s))
  {
    var u := d.TheUpdate();
    NothingConfigured(u);
    AppendSeats(u, d.env, s);
    RunFromBlank(d.env, d.hook, s, Plan(u.scheme, u.Current(), u.supplied));
  }

  /** No NIC without a region is served along with the one that has the first, where both have something to serve. */
  ghost predicate NoTwoServed(d: Deployment, s: LoaderState)
    requires d.TheUpdate().Ok()
  {
    forall nic, stray | d.rb.Accepted(nic) && d.rb.Start(nic) == 0 && d.Members(nic) != []
                        && d.rb.Accepted(stray) && d.rb.Start(stray) == -1 && d.Members(stray) != [] ::
      !(d.Serves(s, nic) && d.Serves(s, stray))
  }

  lemma InstalledSharesSlots(d: Deployment, s: LoaderState)
    requires d.Planned() && Blank(s) && OwnPrograms(d.env)
    ensures NoTwoServed(d, d.After(s))
  {
    InstalledAnyhow(d, s);
    forall nic, stray | d.rb.Accepted(nic) && d.rb.Start(nic) == 0 && d.Members(nic) != []
                        && d.rb.Accepted(stray) && d.rb.Start(stray) == -1 && d.Members(stray) != []
      ensures !(d.Serves(d.After(s), nic) && d.Serves(d.After(s), stray))
    {
      NotBothServed(d, d.After(s), nic, stray);
    }
  }
}
