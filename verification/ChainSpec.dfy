/**
What `updateChain` must leave in the id hash, and the regions it places chains in
(src/ebpf/pinned_prog_map.cc:144-283).
*/
module ChainSpec {
  import opened Chain
  import opened Hooks
  import opened KernelMaps

  datatype ProgInfo = ProgInfo(id: ProgId, hook: HookType)
  type Registry = map<string, ProgInfo>
  type NamesIfindex = seq<(string, Ifindex)>
  type Regions = map<Ifindex, nat>

  // ---------------------------------------------------------------- regions

  /** Live regions start at multiples of eight, end within the array and do not overlap. */
  ghost predicate RegionsOk(regions: Regions) {
    && (forall nic | nic in regions ::
          regions[nic] % MAX_PER_NIC_PROGS == 0 && regions[nic] + MAX_PER_NIC_PROGS <= MAX_CHAIN_PROGS)
    && (forall a, b | a in regions && b in regions && a != b :: regions[a] != regions[b])
  }

  /** One past the highest live region. */
  ghost predicate IsNextStart(regions: Regions, next: nat) {
    && (forall nic | nic in regions :: regions[nic] + MAX_PER_NIC_PROGS <= next)
    && (next == 0 || exists nic :: nic in regions && regions[nic] + MAX_PER_NIC_PROGS == next)
  }

  /** What a call of allocateRegion may do: keep a live region, append a new one, or refuse. */
  ghost predicate Allocates(regions: Regions, nic: Ifindex, regions': Regions, start: int) {
    if nic in regions then regions' == regions && start == regions[nic]
    else if exists a :: a in regions && regions[a] == MAX_CHAIN_PROGS - MAX_PER_NIC_PROGS
    then regions' == regions && start == -1
    else start >= 0 && IsNextStart(regions, start) && regions' == regions[nic := start]
  }

  lemma NextStartIsFree(regions: Regions, next: nat)
    requires RegionsOk(regions) && IsNextStart(regions, next)
    ensures next % MAX_PER_NIC_PROGS == 0
    ensures next + MAX_PER_NIC_PROGS <= MAX_CHAIN_PROGS <==>
            !exists a :: a in regions && regions[a] == MAX_CHAIN_PROGS - MAX_PER_NIC_PROGS
  {
  }

  lemma AllocateKeepsRegions(regions: Regions, nic: Ifindex, regions': Regions, start: int)
    requires RegionsOk(regions) && Allocates(regions, nic, regions', start)
    ensures RegionsOk(regions')
    ensures forall a | a in regions :: a in regions' && regions'[a] == regions[a]
    ensures start == -1 <==> nic !in regions'
  {
    if nic !in regions && start != -1 {
      NextStartIsFree(regions, start);
    }
  }

  lemma ReleaseKeepsRegions(regions: Regions, nic: Ifindex)
    requires RegionsOk(regions)
    ensures RegionsOk(regions - {nic})
  {
  }

  datatype RegionCall = Allocate(nic: Ifindex) | Release(nic: Ifindex)

  /** `end` can result from the calls, for any order in which the hash tables enumerate their keys. */
  ghost predicate RegionRun(regions: Regions, calls: seq<RegionCall>, end: Regions)
    decreases |calls|
  {
    if calls == [] then end == regions
    else
      match calls[0]
      case Release(nic) => RegionRun(regions - {nic}, calls[1..], end)
      case Allocate(nic) =>
        exists regions', start :: Allocates(regions, nic, regions', start) && RegionRun(regions', calls[1..], end)
  }

  /** Over every sequence of calls the live regions stay aligned, inside the array and pairwise disjoint. */
  lemma {:induction false} RegionsStayDisjoint(regions: Regions, calls: seq<RegionCall>, end: Regions)
    requires RegionsOk(regions) && RegionRun(regions, calls, end)
    ensures RegionsOk(end)
    ensures forall a, b | a in end && b in end && a != b ::
              end[a] + MAX_PER_NIC_PROGS <= end[b] || end[b] + MAX_PER_NIC_PROGS <= end[a]
    decreases |calls|
  {
    if calls != [] {
      match calls[0]
      case Release(nic) =>
        ReleaseKeepsRegions(regions, nic);
        RegionsStayDisjoint(regions - {nic}, calls[1..], end);
      case Allocate(nic) =>
        var regions', start :| Allocates(regions, nic, regions', start) && RegionRun(regions', calls[1..], end);
        AllocateKeepsRegions(regions, nic, regions', start);
        RegionsStayDisjoint(regions', calls[1..], end);
    }
  }

  /** Regions handed out to `nics`, one after the other, without any release. */
  ghost predicate Compact(regions: Regions, nics: seq<Ifindex>) {
    && |nics| <= MAX_NIC_HOOK && NoRepeats(nics) && (forall nic :: nic in regions <==> nic in nics)
    && forall i | 0 <= i < |nics| :: regions[nics[i]] == MAX_PER_NIC_PROGS * i
  }

  /** Without releases the first four NICs get the four regions in turn, and only a fifth is refused. */
  lemma FirstFourSucceed(regions: Regions, nics: seq<Ifindex>, nic: Ifindex, regions': Regions, start: int)
    requires Compact(regions, nics) && Allocates(regions, nic, regions', start)
    ensures start == -1 <==> nic !in nics && |nics| == MAX_NIC_HOOK
    ensures nic !in nics && |nics| < MAX_NIC_HOOK ==> start == MAX_PER_NIC_PROGS * |nics|
    ensures Compact(regions', if nic in nics || start == -1 then nics else nics + [nic])
  {
    var n := |nics|;
    if nic !in nics {
      if n > 0 {
        assert nics[n - 1] in regions;
      }
      if start != -1 {
        assert start == MAX_PER_NIC_PROGS * n;
        forall i | 0 <= i < n + 1 ensures regions'[(nics + [nic])[i]] == MAX_PER_NIC_PROGS * i {
        }
      }
    }
  }

  // ---------------------------------------------------------------- the rebuilt id hash

  /** The names configured for one NIC, in configured order. */
  function NamesOf(ordered: NamesIfindex, nic: Ifindex): seq<string> {
    if ordered == [] then []
    else
      var last := ordered[|ordered| - 1];
      NamesOf(ordered[..|ordered| - 1], nic) + if last.1 == nic then [last.0] else []
  }

  function NicsOf(ordered: NamesIfindex): set<Ifindex> {
    set e | e in ordered :: e.1
  }

  /** The ids of the known names of the right hook: unknown and foreign names take no slot. */
  function Ids(reg: Registry, hook: HookType, names: seq<string>): seq<ProgId> {
    if names == [] then []
    else
      var name := names[|names| - 1];
      Ids(reg, hook, names[..|names| - 1]) + if name in reg && reg[name].hook == hook then [reg[name].id] else []
  }

  /** What getStartIndex yields: -1 for a NIC without a region. */
  type Index = i: int | i >= -1 witness -1

  /** An int as the hash stores it: an unsigned word of 32 bits, of which -1 is the largest. */
  function Slot(index: Index): nat {
    if index < 0 then TWO32 - 1 else index
  }

  /** The hash after writing the ids of one NIC to consecutive slots; a repeated id keeps its last slot. */
  function Written(hash: IdHash, nic: Ifindex, ids: seq<ProgId>, start: Index): IdHash {
    if ids == [] then hash
    else Written(hash, nic, ids[..|ids| - 1], start)[ChainKey(nic, ids[|ids| - 1]) := Slot(start + |ids| - 1)]
  }

  function LastPosition(ids: seq<ProgId>, id: ProgId): (p: nat)
    requires id in ids
    ensures p < |ids| && ids[p] == id
  {
    if ids[|ids| - 1] == id then |ids| - 1 else LastPosition(ids[..|ids| - 1], id)
  }

  /** The key is one of those written for the NIC. */
  ghost predicate OneOf(nic: Ifindex, ids: seq<ProgId>, k: nat) {
    exists id :: id in ids && k == ChainKey(nic, id)
  }

  lemma {:induction false} WrittenValue(hash: IdHash, nic: Ifindex, ids: seq<ProgId>, start: Index, id: ProgId)
    requires id in ids
    ensures var w := Written(hash, nic, ids, start);
            ChainKey(nic, id) in w && w[ChainKey(nic, id)] == Slot(start + LastPosition(ids, id))
    decreases |ids|
  {
    var front, last := ids[..|ids| - 1], ids[|ids| - 1];
    if id != last {
      assert id in front;
      WrittenValue(hash, nic, front, start, id);
      if ChainKey(nic, id) == ChainKey(nic, last) {
        ChainKeyInjective(nic, id, nic, last);
      }
    }
  }

  lemma {:induction false} WrittenKey(hash: IdHash, nic: Ifindex, ids: seq<ProgId>, start: Index, k: nat)
    ensures var w := Written(hash, nic, ids, start);
            && (k in w <==> k in hash || OneOf(nic, ids, k))
            && (k in hash && !OneOf(nic, ids, k) ==> w[k] == hash[k])
    decreases |ids|
  {
    if ids != [] {
      var front, last := ids[..|ids| - 1], ids[|ids| - 1];
      WrittenKey(hash, nic, front, start, k);
      assert forall id :: id in ids <==> id in front || id == last;
      assert OneOf(nic, ids, k) <==> OneOf(nic, front, k) || k == ChainKey(nic, last);
    }
  }

  /** Whether a region that starts at `start`, -1 for none, takes a chain of `count` names. */
  type Guard = (Index, nat) -> bool

  /** The guard as shipped compares the region's start, not the number of names, with the limit per NIC. */
  const SHIPPED_GUARD: Guard := (start: Index, _: nat) => start < MAX_PER_NIC_PROGS

  /** The guard its comment describes: at most eight programs per NIC. */
  const INTENDED_GUARD: Guard := (_: Index, count: nat) => count <= MAX_PER_NIC_PROGS

  /** Inputs of one rebuild; `scheduler` is the official name of the hook's scheduler. */
  datatype Rebuild = Rebuild(
    reg: Registry, hook: HookType, scheduler: string, ordered: NamesIfindex, regions: Regions, guard: Guard) {

    ghost predicate Placed() {
      forall nic | nic in NicsOf(ordered) :: nic in regions
    }

    /** getStartIndex: -1 for a NIC without a region. */
    function Start(nic: Ifindex): Index {
      if nic in regions then regions[nic] else -1
    }

    /** The guard is asked for NICs without a region, too, where assertions do not stop the program. */
    predicate Accepted(nic: Ifindex) {
      nic in NicsOf(ordered) && guard(Start(nic), |Names(nic)|)
    }

    /** The names of one chain: the scheduler, then the programs configured for the NIC. */
    function Names(nic: Ifindex): seq<string> {
      [scheduler] + NamesOf(ordered, nic)
    }

    function Chain(nic: Ifindex): seq<ProgId> {
      Ids(reg, hook, Names(nic))
    }

    /** The hash after the NICs of `done`, in that order. */
    function Built(done: seq<Ifindex>): IdHash {
      if done == [] then map[]
      else
        var nic := done[|done| - 1];
        var before := Built(done[..|done| - 1]);
        if Accepted(nic) then Written(before, nic, Chain(nic), Start(nic)) else before
    }

    /** All keys a complete rebuild writes. */
    ghost function Keys(): set<nat> {
      set nic, id | nic in NicsOf(ordered) && Accepted(nic) && id in Chain(nic) :: ChainKey(nic, id)
    }

    /** The simple specification: exactly the accepted chains, each id at its place in its own region. */
    ghost predicate IsHash(hash: IdHash) {
      && hash.Keys == Keys()
      && forall nic, id | Accepted(nic) && id in Chain(nic) :: Files(hash, nic, id)
    }

    /** What a rebuild leaves unless it needs more entries than the hash holds. */
    ghost predicate Finished(hash: IdHash) {
      |Keys()| <= MAX_CHAIN_PROGS ==> IsHash(hash)
    }

    /** How a rebuild ends: it fails exactly for want of entries. */
    ghost predicate Ended(ok: bool, hash: IdHash) {
      (ok <==> |Keys()| <= MAX_CHAIN_PROGS) && Finished(hash)
    }

    /** The id has its place in the chain, counted from the start of the region. */
    ghost predicate Files(hash: IdHash, nic: Ifindex, id: ProgId)
      requires id in Chain(nic)
    {
      ChainKey(nic, id) in hash && hash[ChainKey(nic, id)] == Slot(Start(nic) + LastPosition(Chain(nic), id))
    }

    ghost predicate Writes(done: seq<Ifindex>, k: nat) {
      exists nic, id :: nic in done && Accepted(nic) && id in Chain(nic) && k == ChainKey(nic, id)
    }

    /** `hash` holds exactly the accepted chains of the NICs in `done`. */
    ghost predicate Holds(hash: IdHash, done: seq<Ifindex>) {
      && (forall nic, id | nic in done && Accepted(nic) && id in Chain(nic) :: Files(hash, nic, id))
      && (forall k | k in hash :: Writes(done, k))
    }

    lemma ForeignKey(last: Ifindex, nic: Ifindex, id: ProgId)
      requires nic != last
      ensures !OneOf(last, Chain(last), ChainKey(nic, id))
    {
    }

    lemma HoldsAfter(hash: IdHash, done: seq<Ifindex>, last: Ifindex)
      requires Holds(hash, done) && last !in done && Accepted(last)
      ensures Holds(Written(hash, last, Chain(last), Start(last)), done + [last])
    {
      var w := Written(hash, last, Chain(last), Start(last));
      forall nic, id | nic in done + [last] && Accepted(nic) && id in Chain(nic)
        ensures Files(w, nic, id)
      {
        if nic == last {
          WrittenValue(hash, last, Chain(last), Start(last), id);
        } else {
          assert Files(hash, nic, id);
          ForeignKey(last, nic, id);
          WrittenKey(hash, last, Chain(last), Start(last), ChainKey(nic, id));
        }
      }
      forall k | k in w
        ensures Writes(done + [last], k)
      {
        WrittenKey(hash, last, Chain(last), Start(last), k);
        if k in hash {
          assert Writes(done, k);
          var nic, id :| nic in done && Accepted(nic) && id in Chain(nic) && k == ChainKey(nic, id);
          assert nic in done + [last];
        } else {
          assert last in done + [last];
        }
      }
    }

    lemma HoldsWithout(hash: IdHash, done: seq<Ifindex>, last: Ifindex)
      requires Holds(hash, done) && !Accepted(last)
      ensures Holds(hash, done + [last])
    {
      forall k | k in hash ensures Writes(done + [last], k) {
        assert Writes(done, k);
        var nic, id :| nic in done && Accepted(nic) && id in Chain(nic) && k == ChainKey(nic, id);
        assert nic in done + [last];
      }
    }

    lemma {:induction false} BuiltAt(done: seq<Ifindex>)
      requires NoRepeats(done)
      ensures Holds(Built(done), done)
      decreases |done|
    {
      if done != [] {
        var front, last := done[..|done| - 1], done[|done| - 1];
        BuiltAt(front);
        assert done == front + [last];
        if Accepted(last) {
          HoldsAfter(Built(front), front, last);
        } else {
          HoldsWithout(Built(front), front, last);
        }
      }
    }

    /** Whatever order the NICs are visited in, the finished hash meets the specification. */
    lemma BuiltMeetsSpec(done: seq<Ifindex>)
      requires NoRepeats(done) && forall nic :: nic in done <==> nic in NicsOf(ordered)
      ensures IsHash(Built(done))
    {
      BuiltAt(done);
    }

    /** Distinct ids take the slots start, start + 1, ... of their own region, in chain order and without gaps. */
    lemma ChainSlots(hash: IdHash, nic: Ifindex, j: nat)
      requires IsHash(hash) && Accepted(nic) && NoRepeats(Chain(nic)) && j < |Chain(nic)|
      ensures ChainKey(nic, Chain(nic)[j]) in hash && hash[ChainKey(nic, Chain(nic)[j])] == Slot(Start(nic) + j)
    {
      var p := LastPosition(Chain(nic), Chain(nic)[j]);
      assert p == j && Files(hash, nic, Chain(nic)[j]);
    }

    /** Chains that fit their regions: every slot lies in its owner's region and no slot is named twice. */
    lemma SlotsAreExclusive(hash: IdHash, nic: Ifindex, id: ProgId, nic': Ifindex, id': ProgId)
      requires IsHash(hash) && RegionsOk(regions) && nic in regions && nic' in regions
      requires Accepted(nic) && |Chain(nic)| <= MAX_PER_NIC_PROGS && id in Chain(nic)
      requires Accepted(nic') && |Chain(nic')| <= MAX_PER_NIC_PROGS && id' in Chain(nic')
      ensures regions[nic] <= hash[ChainKey(nic, id)] < regions[nic] + MAX_PER_NIC_PROGS <= MAX_CHAIN_PROGS
      ensures hash[ChainKey(nic, id)] == hash[ChainKey(nic', id')] ==> nic == nic' && id == id'
    {
      var p, p' := LastPosition(Chain(nic), id), LastPosition(Chain(nic'), id');
      assert Files(hash, nic, id) && Files(hash, nic', id');
      assert hash[ChainKey(nic, id)] == regions[nic] + p && hash[ChainKey(nic', id')] == regions[nic'] + p';
      if regions[nic] + p == regions[nic'] + p' {
        assert regions[nic] / MAX_PER_NIC_PROGS == regions[nic'] / MAX_PER_NIC_PROGS;
        assert nic == nic' && p == p';
      }
    }

    /** Every accepted chain lies in its NIC's own region, in order and without gaps. */
    ghost predicate InOwnRegions(hash: IdHash) {
      forall nic, id | Accepted(nic) && id in Chain(nic) ::
        && nic in regions && ChainKey(nic, id) in hash
        && hash[ChainKey(nic, id)] == regions[nic] + LastPosition(Chain(nic), id)
    }

    /** That is what a finished hash says if and only if every accepted NIC with a chain has a region. */
    lemma InOwnRegionsExactly(hash: IdHash)
      requires IsHash(hash)
      ensures InOwnRegions(hash) <==> forall nic | Accepted(nic) && Chain(nic) != [] :: nic in regions
    {
      forall nic | Accepted(nic) && Chain(nic) != [] && InOwnRegions(hash) ensures nic in regions {
        assert Chain(nic)[0] in Chain(nic);
      }
    }

    /**
    A NIC without a region takes the slots of the region that starts at 0: its second program is filed where the
    first program of that region is.
    */
    lemma RegionlessSharesSlots(hash: IdHash, stray: Ifindex, nic: Ifindex, j: nat)
      requires IsHash(hash) && Accepted(stray) && stray !in regions && NoRepeats(Chain(stray))
      requires Accepted(nic) && nic in regions && regions[nic] == 0 && NoRepeats(Chain(nic))
      requires j + 1 < |Chain(stray)| && j < |Chain(nic)|
      ensures ChainKey(stray, Chain(stray)[j + 1]) in hash && ChainKey(nic, Chain(nic)[j]) in hash
      ensures hash[ChainKey(stray, Chain(stray)[j + 1])] == j == hash[ChainKey(nic, Chain(nic)[j])]
    {
      ChainSlots(hash, stray, j + 1);
      ChainSlots(hash, nic, j);
    }

    /** As shipped, the guard lets through the NIC with the first region and those without any, whatever the chain. */
    lemma ShippedGuardServesFirstRegion(nic: Ifindex)
      requires guard == SHIPPED_GUARD && RegionsOk(regions)
      ensures Accepted(nic) <==> nic in NicsOf(ordered) && (nic in regions ==> regions[nic] == 0)
      ensures forall nic' | Accepted(nic) && Accepted(nic') && nic in regions && nic' in regions :: nic' == nic
    {
      assert forall n | n in regions :: regions[n] % MAX_PER_NIC_PROGS == 0;
    }

    /** So as shipped every chain lies in its own region if and only if every NIC in use has one. */
    lemma ShippedHashExactly(hash: IdHash)
      requires guard == SHIPPED_GUARD && RegionsOk(regions) && IsHash(hash)
      requires forall nic | Accepted(nic) :: Chain(nic) != []
      ensures InOwnRegions(hash) <==> Placed()
    {
      InOwnRegionsExactly(hash);
      forall nic | nic in NicsOf(ordered) && nic !in regions ensures Accepted(nic) {
        ShippedGuardServesFirstRegion(nic);
      }
    }
  }
}
