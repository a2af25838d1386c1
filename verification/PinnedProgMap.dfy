/**
The manager of the shared chain maps (src/ebpf/pinned_prog_map.cc), working in place on the kernel maps.
*/
module PinnedProgMap {
  import opened Chain
  import opened ChainSpec
  import opened Hooks
  import opened KernelMaps
  import opened Wrappers

  /** The prefix of a name list gives a prefix of its ids. */
  lemma {:induction false} IdsPrefix(reg: Registry, hook: HookType, names: seq<string>, n: nat)
    requires n <= |names|
    ensures Ids(reg, hook, names[..n]) <= Ids(reg, hook, names)
    decreases |names|
  {
    if n < |names| {
      IdsPrefix(reg, hook, names[..|names| - 1], n);
      assert names[..|names| - 1][..n] == names[..n];
    } else {
      assert names[..n] == names;
    }
  }

  lemma NamesSnoc(ordered: NamesIfindex, i: nat, nic: Ifindex)
    requires i < |ordered|
    ensures NamesOf(ordered[..i + 1], nic) ==
            NamesOf(ordered[..i], nic) + if ordered[i].1 == nic then [ordered[i].0] else []
  {
    assert ordered[..i + 1][..i] == ordered[..i];
  }

  lemma NicsSnoc(ordered: NamesIfindex, i: nat)
    requires i < |ordered|
    ensures NicsOf(ordered[..i + 1]) == NicsOf(ordered[..i]) + {ordered[i].1}
  {
    assert ordered[..i + 1] == ordered[..i] + [ordered[i]];
  }

  /** Splits the names of a hook by NIC, keeping their order. */
  method GroupByNic(ordered: NamesIfindex) returns (orders: map<Ifindex, seq<string>>)
    ensures orders.Keys == NicsOf(ordered)
    ensures forall nic | nic in orders :: orders[nic] == NamesOf(ordered, nic)
  {
    orders := map[];
    for i := 0 to |ordered|
      invariant orders.Keys == NicsOf(ordered[..i])
      invariant forall nic | nic !in orders :: NamesOf(ordered[..i], nic) == []
      invariant forall nic | nic in orders :: orders[nic] == NamesOf(ordered[..i], nic)
    {
      var (name, nic) := ordered[i];
      NicsSnoc(ordered, i);
      forall n {
        NamesSnoc(ordered, i, n);
      }
      var names := if nic in orders then orders[nic] else [];
      orders := orders[nic := names + [name]];
    }
    assert ordered[..|ordered|] == ordered;
  }

  lemma MoreKeys(s: set<nat>, k: nat, t: set<nat>)
    requires k !in s && s + {k} <= t
    ensures |s| < |t|
  {
    var rest := t - (s + {k});
    assert t == (s + {k}) + rest;
  }

  predicate Known(reg: Registry, hook: HookType, name: string) {
    name in reg && reg[name].hook == hook
  }

  lemma IdsAppend(reg: Registry, hook: HookType, names: seq<string>, name: string)
    ensures Ids(reg, hook, names + [name]) ==
            Ids(reg, hook, names) + if Known(reg, hook, name) then [reg[name].id] else []
  {
    assert (names + [name])[..|names|] == names;
  }

  lemma WrittenAppend(base: IdHash, nic: Ifindex, ids: seq<ProgId>, id: ProgId, start: Index)
    ensures Written(base, nic, ids + [id], start) ==
            Written(base, nic, ids, start)[ChainKey(nic, id) := Slot(start + |ids|)]
  {
    assert (ids + [id])[..|ids|] == ids;
  }

  /** A known name takes the next slot under its own key; any other name takes none. */
  lemma NextName(reg: Registry, hook: HookType, nic: Ifindex, names: seq<string>, n: nat, base: IdHash, start: Index)
    requires n < |names|
    ensures var ids, ids' := Ids(reg, hook, names[..n]), Ids(reg, hook, names[..n + 1]);
            if Known(reg, hook, names[n]) then
              && |ids'| == |ids| + 1 && reg[names[n]].id in Ids(reg, hook, names)
              && Written(base, nic, ids', start) ==
                 Written(base, nic, ids, start)[ChainKey(nic, reg[names[n]].id) := Slot(start + |ids|)]
            else ids' == ids
  {
    assert names[..n + 1] == names[..n] + [names[n]];
    IdsAppend(reg, hook, names[..n], names[n]);
    if Known(reg, hook, names[n]) {
      var id := reg[names[n]].id;
      WrittenAppend(base, nic, Ids(reg, hook, names[..n]), id, start);
      IdsPrefix(reg, hook, names, n + 1);
      assert id in Ids(reg, hook, names[..n + 1]);
    }
  }

  /** One entry; the map is full only when more keys are asked for than it holds. */
  method WriteEntry(hash: BpfHash<nat, nat>, key: nat, index: Index, ghost allowed: set<nat>) returns (ok: bool)
    requires hash.Valid() && hash.capacity == MAX_CHAIN_PROGS && hash.entries.Keys <= allowed && key in allowed
    modifies hash
    ensures hash.Valid() && hash.entries.Keys <= allowed
    ensures hash.entries == if ok then old(hash.entries)[key := Slot(index)] else old(hash.entries)
    ensures !ok ==> |allowed| > MAX_CHAIN_PROGS
  {
    ok := hash.Update(key, Slot(index));
    if !ok {
      MoreKeys(hash.entries.Keys, key, allowed);
    }
  }

  /** What the inner loop has written when `n` names are done. */
  ghost predicate WrittenUpTo(entries: IdHash, base: IdHash, reg: Registry, hook: HookType, nic: Ifindex,
                              names: seq<string>, n: nat, start: Index, index: Index)
    requires n <= |names|
  {
    && entries == Written(base, nic, Ids(reg, hook, names[..n]), start)
    && index == start + |Ids(reg, hook, names[..n])|
  }

  lemma NextWritten(entries: IdHash, base: IdHash, reg: Registry, hook: HookType, nic: Ifindex, names: seq<string>,
                    n: nat, start: Index, index: Index)
    requires n < |names| && WrittenUpTo(entries, base, reg, hook, nic, names, n, start, index)
    ensures if Known(reg, hook, names[n]) then
              var id := reg[names[n]].id;
              && id in Ids(reg, hook, names)
              && WrittenUpTo(entries[ChainKey(nic, id) := Slot(index)], base, reg, hook, nic, names, n + 1, start,
                             index + 1)
            else WrittenUpTo(entries, base, reg, hook, nic, names, n + 1, start, index)
  {
    NextName(reg, hook, nic, names, n, base, start);
  }

  /** One round: a known name is written, any other passed over. */
  method WriteName(hash: BpfHash<nat, nat>, reg: Registry, hook: HookType, nic: Ifindex, names: seq<string>, n: nat,
                   start: Index, index: Index, ghost base: IdHash, ghost allowed: set<nat>)
    returns (ok: bool, index': Index)
    requires hash.Valid() && hash.capacity == MAX_CHAIN_PROGS && hash.entries.Keys <= allowed && n < |names|
    requires forall id | id in Ids(reg, hook, names) :: ChainKey(nic, id) in allowed
    requires WrittenUpTo(hash.entries, base, reg, hook, nic, names, n, start, index)
    modifies hash
    ensures hash.Valid() && hash.entries.Keys <= allowed
    ensures ok ==> WrittenUpTo(hash.entries, base, reg, hook, nic, names, n + 1, start, index')
    ensures !ok ==> |allowed| > MAX_CHAIN_PROGS
  {
    NextWritten(hash.entries, base, reg, hook, nic, names, n, start, index);
    if !Known(reg, hook, names[n]) {
      return true, index;
    }
    ok := WriteEntry(hash, ChainKey(nic, reg[names[n]].id), index, allowed);
    index' := index + 1;
  }

  /** The inner loop of updateChain: one slot after the other for the known names of one NIC. */
  method WriteChain(hash: BpfHash<nat, nat>, reg: Registry, hook: HookType, nic: Ifindex, names: seq<string>,
                    start: Index, ghost allowed: set<nat>)
    returns (ok: bool)
    requires hash.Valid() && hash.capacity == MAX_CHAIN_PROGS && hash.entries.Keys <= allowed
    requires forall id | id in Ids(reg, hook, names) :: ChainKey(nic, id) in allowed
    modifies hash
    ensures hash.Valid() && hash.entries.Keys <= allowed
    ensures ok ==> hash.entries == Written(old(hash.entries), nic, Ids(reg, hook, names), start)
    ensures !ok ==> |allowed| > MAX_CHAIN_PROGS
  {
    ghost var base := hash.entries;
    var index: Index := start;
    assert names[..0] == [];
    for n := 0 to |names|
      invariant hash.Valid() && hash.entries.Keys <= allowed
      invariant WrittenUpTo(hash.entries, base, reg, hook, nic, names, n, start, index)
    {
      ok, index := WriteName(hash, reg, hook, nic, names, n, start, index, base, allowed);
      if !ok {
        return;
      }
    }
    assert names[..|names|] == names;
    return true;
  }

  /** One step of the loop over the NICs. */
  lemma NextNic(rb: Rebuild, done: seq<Ifindex>, nic: Ifindex)
    requires nic in NicsOf(rb.ordered)
    ensures var before, after := rb.Built(done), rb.Built(done + [nic]);
            if rb.guard(rb.Start(nic), |rb.Names(nic)|) then
              && after == Written(before, nic, rb.Chain(nic), rb.Start(nic))
              && forall id | id in rb.Chain(nic) :: ChainKey(nic, id) in rb.Keys()
            else after == before
  {
    assert (done + [nic])[..|done|] == done;
  }

  /** One round of the loop over the NICs: the scheduler goes first, and a NIC the guard refuses is skipped. */
  method PlaceChain(hash: BpfHash<nat, nat>, rb: Rebuild, nic: Ifindex, order: seq<string>, ghost done: seq<Ifindex>)
    returns (ok: bool)
    requires hash.Valid() && hash.capacity == MAX_CHAIN_PROGS
    requires hash.entries == rb.Built(done) && hash.entries.Keys <= rb.Keys()
    requires nic in NicsOf(rb.ordered) && order == NamesOf(rb.ordered, nic)
    modifies hash
    ensures hash.Valid() && hash.entries.Keys <= rb.Keys()
    ensures ok ==> hash.entries == rb.Built(done + [nic])
    ensures !ok ==> |rb.Keys()| > MAX_CHAIN_PROGS
  {
    NextNic(rb, done, nic);
    var names := [rb.scheduler] + order;
    if !rb.guard(rb.Start(nic), |names|) {
      return true;
    }
    ok := WriteChain(hash, rb.reg, rb.hook, nic, names, rb.Start(nic), rb.Keys());
  }

  /** `done` are the NICs visited, each once, and `todo` those that are left. */
  ghost predicate Visited(all: set<Ifindex>, done: seq<Ifindex>, todo: set<Ifindex>) {
    NoRepeats(done) && todo <= all && forall nic :: nic in done <==> nic in all && nic !in todo
  }

  lemma VisitNext(all: set<Ifindex>, done: seq<Ifindex>, todo: set<Ifindex>, nic: Ifindex)
    requires Visited(all, done, todo) && nic in todo
    ensures Visited(all, done + [nic], todo - {nic})
  {
  }

  /** The body of updateChain on the hash it found: clear, split by NIC, write one chain per accepted NIC. */
  method RebuildHash(hash: BpfHash<nat, nat>, rb: Rebuild) returns (ok: bool)
    requires hash.Valid() && hash.capacity == MAX_CHAIN_PROGS && 0 !in hash.entries
    modifies hash
    ensures hash.Valid() && hash.entries.Keys <= rb.Keys()
    ensures ok <==> |rb.Keys()| <= MAX_CHAIN_PROGS
    ensures ok ==> rb.IsHash(hash.entries)
  {
    DeleteWhileIterating(hash);
    var orders := GroupByNic(rb.ordered);
    ghost var done: seq<Ifindex> := [];
    var todo := orders.Keys;
    while todo != {}
      invariant hash.Valid() && hash.entries == rb.Built(done) && hash.entries.Keys <= rb.Keys()
      invariant Visited(orders.Keys, done, todo)
      decreases todo
    {
      var nic :| nic in todo;
      ok := PlaceChain(hash, rb, nic, orders[nic], done);
      if !ok {
        return;
      }
      VisitNext(orders.Keys, done, todo, nic);
      done, todo := done + [nic], todo - {nic};
    }
    rb.BuiltMeetsSpec(done);
    return true;
  }

  lemma NoZeroKey(rb: Rebuild, hash: IdHash)
    requires hash.Keys <= rb.Keys()
    ensures 0 !in hash
  {
  }

  lemma AlignedBelow(a: nat, b: nat)
    requires a % MAX_PER_NIC_PROGS == 0 == b % MAX_PER_NIC_PROGS && a < b
    ensures a + MAX_PER_NIC_PROGS <= b
  {
  }

  lemma AlignedNext(a: nat)
    requires a % MAX_PER_NIC_PROGS == 0
    ensures (a + MAX_PER_NIC_PROGS) % MAX_PER_NIC_PROGS == 0
  {
  }

  /** One past the highest region, whatever order the table enumerates them in. */
  method NextStart(hookRegions: Regions) returns (nextStart: nat)
    requires RegionsOk(hookRegions)
    ensures IsNextStart(hookRegions, nextStart)
  {
    nextStart := 0;
    var todo := hookRegions.Keys;
    while todo != {}
      invariant todo <= hookRegions.Keys && nextStart % MAX_PER_NIC_PROGS == 0
      invariant forall a | a in hookRegions && a !in todo :: hookRegions[a] + MAX_PER_NIC_PROGS <= nextStart
      invariant nextStart == 0 || exists a :: a in hookRegions && hookRegions[a] + MAX_PER_NIC_PROGS == nextStart
      decreases todo
    {
      var a :| a in todo;
      if hookRegions[a] >= nextStart {
        nextStart := hookRegions[a] + MAX_PER_NIC_PROGS;
        AlignedNext(hookRegions[a]);
      } else {
        AlignedBelow(hookRegions[a], nextStart);
      }
      todo := todo - {a};
    }
  }

  class ProgMap {
    const registry: Registry
    const guard: Guard
    /** Whether a failed assertion ends the program, as in a debug build; others print a line and go on. */
    const strict: bool
    /** Official name of the scheduler of a hook. */
    const schedulerName: HookType -> string
    const tcHash: BpfHash<nat, nat>
    const tcArray: ProgArray<Prog>
    const xdpHash: BpfHash<nat, nat>
    const xdpArray: ProgArray<Prog>
    var regions: map<HookType, Regions>
    var initialized: bool

    ghost predicate Valid()
      reads this, tcHash, tcArray, xdpHash, xdpArray
    {
      && tcHash != xdpHash && tcArray != xdpArray
      && tcHash.Valid() && tcHash.capacity == MAX_CHAIN_PROGS && 0 !in tcHash.entries
      && xdpHash.Valid() && xdpHash.capacity == MAX_CHAIN_PROGS && 0 !in xdpHash.entries
      && |tcArray.slots| == MAX_CHAIN_PROGS == |xdpArray.slots|
      && forall hook | hook in regions :: RegionsOk(regions[hook])
    }

    /** `init` over maps that did not exist yet. */
    constructor (registry: Registry, guard: Guard, strict: bool, schedulerName: HookType -> string)
      ensures Valid() && initialized && regions == map[]
      ensures this.registry == registry && this.guard == guard && this.strict == strict
      ensures this.schedulerName == schedulerName
      ensures fresh(tcHash) && fresh(tcArray) && fresh(xdpHash) && fresh(xdpArray)
      ensures tcHash.entries == map[] && xdpHash.entries == map[]
      ensures forall i | 0 <= i < MAX_CHAIN_PROGS :: tcArray.slots[i] == None && xdpArray.slots[i] == None
    {
      this.registry, this.guard, this.strict, this.schedulerName := registry, guard, strict, schedulerName;
      tcHash := new BpfHash(MAX_CHAIN_PROGS);
      tcArray := new ProgArray(MAX_CHAIN_PROGS);
      xdpHash := new BpfHash(MAX_CHAIN_PROGS);
      xdpArray := new ProgArray(MAX_CHAIN_PROGS);
      regions, initialized := map[], true;
    }

    /** Only these hooks have chain maps. */
    static predicate HasMaps(hook: HookType) {
      hook.TC? || hook.XDP_GENERIC?
    }

    function HashOf(hook: HookType): BpfHash<nat, nat> {
      if hook.TC? then tcHash else xdpHash
    }

    function ArrayOf(hook: HookType): ProgArray<Prog> {
      if hook.TC? then tcArray else xdpArray
    }

    function RegionsOf(hook: HookType): Regions
      reads this
    {
      if hook in regions then regions[hook] else map[]
    }

    method AllocateRegion(hook: HookType, nic: Ifindex) returns (start: int)
      requires Valid()
      modifies this`regions
      ensures Valid()
      ensures Allocates(old(RegionsOf(hook)), nic, RegionsOf(hook), start)
      ensures regions == old(regions) || regions == old(regions)[hook := RegionsOf(hook)]
    {
      var hookRegions := RegionsOf(hook);
      if nic in hookRegions {
        return hookRegions[nic];
      }
      var nextStart := NextStart(hookRegions);
      NextStartIsFree(hookRegions, nextStart);
      if nextStart + MAX_PER_NIC_PROGS > MAX_CHAIN_PROGS {
        return -1;
      }
      start := nextStart;
      SetRegions(hook, nic, nextStart);
    }

    method SetRegions(hook: HookType, nic: Ifindex, start: nat)
      requires Valid() && nic !in RegionsOf(hook)
      requires IsNextStart(RegionsOf(hook), start) && start + MAX_PER_NIC_PROGS <= MAX_CHAIN_PROGS
      modifies this`regions
      ensures Valid()
      ensures regions == old(regions)[hook := old(RegionsOf(hook))[nic := start]]
    {
      var grown: Regions := RegionsOf(hook)[nic := start];
      AllocateKeepsRegions(RegionsOf(hook), nic, grown, start);
      regions := regions[hook := grown];
    }

    method ReleaseRegion(hook: HookType, nic: Ifindex)
      requires Valid()
      modifies this`regions
      ensures Valid()
      ensures regions == old(regions)[hook := old(RegionsOf(hook)) - {nic}]
    {
      var rest: Regions := RegionsOf(hook) - {nic};
      ReleaseKeepsRegions(RegionsOf(hook), nic);
      regions := regions[hook := rest];
    }

    function LookupProgInfo(name: string): Option<ProgInfo> {
      if name in registry then Some(registry[name]) else None
    }

    /** The array with the program in the slot that the hash names. */
    function Filled(hook: HookType, hash: IdHash, name: string, nic: Ifindex, prog: Prog, slots: Slots): Slots
      requires Insertable(registry, hook, hash, name, nic) && |slots| == MAX_CHAIN_PROGS
    {
      slots[hash[ChainKey(nic, registry[name].id)] := Some(prog)]
    }

    /** The rebuild that a call of updateChain asks for in the current state. */
    function RebuildOf(hook: HookType, ordered: NamesIfindex): Rebuild
      reads this
    {
      Rebuild(registry, hook, schedulerName(hook), ordered, RegionsOf(hook), guard)
    }

    /** TC and XDP_GENERIC have a hash and an array each; a call for any other hook is refused. */
    method UpdateChain(hook: HookType, ordered: NamesIfindex) returns (ok: bool)
      requires Valid()
      requires initialized && (hook == TC || hook == XDP_GENERIC) && strict ==> RebuildOf(hook, ordered).Placed()
      modifies HashOf(hook)
      ensures Valid()
      ensures hook == TC && initialized ==> RebuildOf(hook, ordered).Ended(ok, tcHash.entries)
      ensures hook == XDP_GENERIC && initialized ==> RebuildOf(hook, ordered).Ended(ok, xdpHash.entries)
      ensures hook != TC ==> tcHash.entries == old(tcHash.entries)
      ensures hook != XDP_GENERIC ==> xdpHash.entries == old(xdpHash.entries)
      ensures !initialized || (hook != TC && hook != XDP_GENERIC) ==>
                !ok && tcHash.entries == old(tcHash.entries) && xdpHash.entries == old(xdpHash.entries)
    {
      if !initialized || !HasMaps(hook) {
        return false;
      }
      ok := RebuildHash(HashOf(hook), RebuildOf(hook, ordered));
      NoZeroKey(RebuildOf(hook, ordered), HashOf(hook).entries);
    }

    method InsertProg(hook: HookType, name: string, prog: Prog, nic: Ifindex) returns (ok: bool)
      requires Valid()
      modifies ArrayOf(hook)
      ensures Valid()
      ensures hook == TC ==>
                && (ok <==> initialized && Insertable(registry, hook, tcHash.entries, name, nic))
                && (ok ==> name in registry && registry[name].hook == TC)
                && tcArray.slots == if ok then Filled(hook, tcHash.entries, name, nic, prog, old(tcArray.slots))
                                    else old(tcArray.slots)
      ensures hook == XDP_GENERIC ==>
                && (ok <==> initialized && Insertable(registry, hook, xdpHash.entries, name, nic))
                && (ok ==> name in registry && registry[name].hook == XDP_GENERIC)
                && xdpArray.slots == if ok then Filled(hook, xdpHash.entries, name, nic, prog, old(xdpArray.slots))
                                     else old(xdpArray.slots)
      ensures hook != TC ==> tcArray.slots == old(tcArray.slots)
      ensures hook != XDP_GENERIC ==> xdpArray.slots == old(xdpArray.slots)
      ensures hook != TC && hook != XDP_GENERIC ==> !ok
    {
      if !initialized || !HasMaps(hook) {
        return false;
      }
      var info := LookupProgInfo(name);
      if info.None? || info.value.hook != hook {
        return false;
      }
      var index := HashOf(hook).Lookup(ChainKey(nic, info.value.id));
      if index.None? {
        return false;
      }
      ok := ArrayOf(hook).Update(index.value, prog);
    }
  }

  /** The name is registered for the hook, and the hash holds a slot for it on this NIC. */
  predicate Insertable(reg: Registry, hook: HookType, hash: IdHash, name: string, nic: Ifindex) {
    && name in reg && reg[name].hook == hook
    && ChainKey(nic, reg[name].id) in hash && hash[ChainKey(nic, reg[name].id)] < MAX_CHAIN_PROGS
  }
}
