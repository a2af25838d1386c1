/**
The daemon's response to a new configuration and to shutdown (src/daemon/daemon.cc:42-219).
*/
module Daemon {
  import opened Chain
  import opened ChainSpec
  import opened Configs
  import opened Hooks
  import opened KernelMaps
  import opened Loader
  import opened LoaderSpec
  import opened NameOrder
  import opened PacketPath
  import opened PinnedProgMap
  import opened Reconcile
  import opened WatchedFiles
  import opened Wrappers

  function NamesOn(cfgs: EbpfMap, hook: HookType): set<string> {
    set n | n in cfgs && cfgs[n].hook == hook
  }

  function HooksOf(cfgs: EbpfMap): set<HookType> {
    set n | n in cfgs :: cfgs[n].hook
  }

  ghost predicate LowestOrder(cfgs: EbpfMap, n: string, names: set<string>) {
    n in names && forall m | m in names && m in cfgs && n in cfgs :: cfgs[n].order <= cfgs[m].order
  }

  lemma {:induction false} SomeLowestOrder(cfgs: EbpfMap, names: set<string>)
    requires names != {} && names <= cfgs.Keys
    ensures exists n :: LowestOrder(cfgs, n, names)
    decreases |names|
  {
    var a :| a in names;
    var rest := names - {a};
    if rest == {} {
      assert forall m | m in names :: m == a || m in rest;
      assert LowestOrder(cfgs, a, names);
    } else {
      SomeLowestOrder(cfgs, rest);
      var b :| LowestOrder(cfgs, b, rest);
      var n := if cfgs[a].order <= cfgs[b].order then a else b;
      assert forall m | m in names :: m == a || m in rest;
      assert LowestOrder(cfgs, n, names);
    }
  }

  /** The names of a hook sorted by order; nothing is promised about equal orders. */
  method SortByOrder(scheme: Scheme, cfgs: EbpfMap, hook: HookType) returns (names: seq<string>, ordered: NamesIfindex)
    ensures Orders(scheme, cfgs, hook, names, ordered)
  {
    names, ordered := [], [];
    var todo := NamesOn(cfgs, hook);
    while todo != {}
      invariant todo <= NamesOn(cfgs, hook) && NoRepeats(names) && |ordered| == |names|
      invariant forall i | 0 <= i < |names| :: names[i] in cfgs
      invariant forall n :: n in names <==> n in NamesOn(cfgs, hook) && n !in todo
      invariant forall i, j | 0 <= i < j < |names| :: cfgs[names[i]].order <= cfgs[names[j]].order
      invariant forall i, n | 0 <= i < |names| && n in todo :: cfgs[names[i]].order <= cfgs[n].order
      invariant forall i | 0 <= i < |names| ::
                  ordered[i] == (scheme.official(hook, cfgs[names[i]].lib), cfgs[names[i]].ifindex)
      decreases todo
    {
      SomeLowestOrder(cfgs, todo);
      assert exists n :: n in todo && forall m | m in todo :: cfgs[n].order <= cfgs[m].order;
      var n :| n in todo && forall m | m in todo :: cfgs[n].order <= cfgs[m].order;
      names, ordered := names + [n], ordered + [(scheme.official(hook, cfgs[n].lib), cfgs[n].ifindex)];
      todo := todo - {n};
    }
  }

  lemma WithSchedulersIs(scheme: Scheme, cfgs: EbpfMap, all: EbpfMap)
    requires SchemeOk(scheme)
    requires forall n | n in cfgs :: n in all && all[n] == cfgs[n]
    requires forall n | n in all && n !in cfgs ::
               exists p :: p in Pairs(cfgs) && n == scheme.id(p.0, p.1) && all[n] == SchedulerEntry(scheme, p.0, p.1)
    requires forall p | p in Pairs(cfgs) :: scheme.id(p.0, p.1) in all
    ensures all == WithSchedulers(scheme, cfgs)
  {
    var spec := WithSchedulers(scheme, cfgs);
    forall n | n in all && n !in cfgs ensures n in spec && spec[n] == all[n] {
      var p :| p in Pairs(cfgs) && n == scheme.id(p.0, p.1) && all[n] == SchedulerEntry(scheme, p.0, p.1);
      var q :| q in Pairs(cfgs) && n == scheme.id(q.0, q.1) && spec[n] == SchedulerEntry(scheme, q.0, q.1);
    }
    forall n | n in spec ensures n in all {
      if n !in cfgs {
        var q :| q in Pairs(cfgs) && n == scheme.id(q.0, q.1) && spec[n] == SchedulerEntry(scheme, q.0, q.1);
      }
    }
  }

  /** Scheduler entries name a library and a hook, too. */
  lemma TargetLoadable(scheme: Scheme, cfgs: EbpfMap)
    requires SchemeOk(scheme) && forall n | n in cfgs :: cfgs[n].lib != "" && cfgs[n].hook != UNKNOWN
    ensures forall n | n in WithSchedulers(scheme, cfgs) ::
              WithSchedulers(scheme, cfgs)[n].lib != "" && WithSchedulers(scheme, cfgs)[n].hook != UNKNOWN
  {
    var all := WithSchedulers(scheme, cfgs);
    forall n | n in all && n !in cfgs ensures all[n].lib != "" && all[n].hook != UNKNOWN {
      var p :| p in Pairs(cfgs) && n == scheme.id(p.0, p.1) && all[n] == SchedulerEntry(scheme, p.0, p.1);
      assert Marked(scheme.lib(p.0, p.1));
    }
  }

  /** One scheduler per hook and NIC in use, added like `emplace`: an entry of the same name stays. */
  method AddSchedulers(scheme: Scheme, cfgs: EbpfMap) returns (all: EbpfMap)
    requires SchemeOk(scheme)
    ensures all == WithSchedulers(scheme, cfgs)
  {
    all := cfgs;
    var todo := Pairs(cfgs);
    while todo != {}
      invariant todo <= Pairs(cfgs) && forall n | n in cfgs :: n in all && all[n] == cfgs[n]
      invariant forall n | n in all && n !in cfgs ::
                  exists p :: p in Pairs(cfgs) && n == scheme.id(p.0, p.1) && all[n] == SchedulerEntry(scheme, p.0, p.1)
      invariant forall p | p in Pairs(cfgs) && p !in todo :: scheme.id(p.0, p.1) in all
      decreases todo
    {
      var p :| p in todo;
      var id := scheme.id(p.0, p.1);
      if id !in all {
        all := all[id := SchedulerEntry(scheme, p.0, p.1)];
      }
      todo := todo - {p};
    }
    WithSchedulersIs(scheme, cfgs, all);
  }

  /** Erases the entries that carry the scheduler id of their own hook and NIC. */
  method StripSchedulers(scheme: Scheme, cfgs: EbpfMap) returns (bare: EbpfMap)
    ensures bare == WithoutSchedulers(scheme, cfgs)
  {
    bare := cfgs;
    var todo := cfgs.Keys;
    while todo != {}
      invariant todo <= cfgs.Keys
      invariant forall n :: n in bare <==> n in cfgs && (n in todo || n != scheme.id(cfgs[n].hook, cfgs[n].ifindex))
      invariant forall n | n in bare :: bare[n] == cfgs[n]
      decreases todo
    {
      var n :| n in todo;
      if n == scheme.id(cfgs[n].hook, cfgs[n].ifindex) {
        bare := bare - {n};
      }
      todo := todo - {n};
    }
  }

  /** `rb` is a rebuild for the configuration, and `hash` its result, unless it needs more than 32 entries. */
  ghost predicate ChainBuilt(rb: Rebuild, scheme: Scheme, cfgs: EbpfMap, names: seq<string>, hash: IdHash) {
    Orders(scheme, cfgs, rb.hook, names, rb.ordered) && rb.Finished(hash)
  }

  /** The hash is the one that `cfgs` asks for, in some order the sort allows. */
  ghost predicate HashBuilt(reg: Registry, hook: HookType, scheduler: string, regions: Regions, guard: Guard,
                            scheme: Scheme, cfgs: EbpfMap, hash: IdHash) {
    exists names, ordered ::
      ChainBuilt(Rebuild(reg, hook, scheduler, ordered, regions, guard), scheme, cfgs, names, hash)
  }

  /** The manager's fields and the entries of its hashes. */
  datatype ChainMaps = ChainMaps(
    reg: Registry, scheduler: HookType -> string, guard: Guard, strict: bool, regions: map<HookType, Regions>,
    tcHash: IdHash, xdpHash: IdHash)

  function RegionsFor(regions: map<HookType, Regions>, hook: HookType): Regions {
    if hook in regions then regions[hook] else map[]
  }

  function HashFor(maps: ChainMaps, hook: HookType): IdHash {
    if hook.TC? then maps.tcHash else maps.xdpHash
  }

  /** Every NIC of the hook has a region. */
  ghost predicate HookPlaced(maps: ChainMaps, cfgs: EbpfMap, hook: HookType) {
    NicsOn(cfgs, hook) <= RegionsFor(maps.regions, hook).Keys
  }

  ghost predicate AllPlaced(maps: ChainMaps, cfgs: EbpfMap) {
    forall hook | hook in HooksOf(cfgs) && ProgMap.HasMaps(hook) :: HookPlaced(maps, cfgs, hook)
  }

  /** The map of the hook is as `cfgs` asks, and where assertions end the program every NIC has its region. */
  ghost predicate HookBuilt(maps: ChainMaps, scheme: Scheme, cfgs: EbpfMap, hook: HookType) {
    && HashBuilt(maps.reg, hook, maps.scheduler(hook), RegionsFor(maps.regions, hook), maps.guard, scheme, cfgs,
                 HashFor(maps, hook))
    && (maps.strict ==> HookPlaced(maps, cfgs, hook))
  }

  /** A rebuild of the hook returns with its map built, or ends the program for want of a region. */
  ghost predicate HookEnded(maps: ChainMaps, scheme: Scheme, cfgs: EbpfMap, hook: HookType, returned: bool) {
    if returned then ProgMap.HasMaps(hook) ==> HookBuilt(maps, scheme, cfgs, hook)
    else ProgMap.HasMaps(hook) && maps.strict && !HookPlaced(maps, cfgs, hook)
  }

  lemma HookEndedBy(maps: ChainMaps, scheme: Scheme, cfgs: EbpfMap, hook: HookType, names: seq<string>,
                    ordered: NamesIfindex, returned: bool)
    requires Orders(scheme, cfgs, hook, names, ordered)
    requires var rb := Rebuild(maps.reg, hook, maps.scheduler(hook), ordered, RegionsFor(maps.regions, hook),
                               maps.guard);
             && (returned <==> !(maps.strict && ProgMap.HasMaps(hook) && !rb.Placed()))
             && (returned && ProgMap.HasMaps(hook) ==> rb.Finished(HashFor(maps, hook)))
    ensures HookEnded(maps, scheme, cfgs, hook, returned)
  {
    OrderedNics(scheme, cfgs, hook, names, ordered);
    var rb := Rebuild(maps.reg, hook, maps.scheduler(hook), ordered, RegionsFor(maps.regions, hook), maps.guard);
    if returned && ProgMap.HasMaps(hook) {
      assert ChainBuilt(rb, scheme, cfgs, names, HashFor(maps, hook));
    }
  }

  /** So are the maps of all hooks in use, those in `todo` excepted. */
  ghost predicate BuiltBut(maps: ChainMaps, scheme: Scheme, cfgs: EbpfMap, todo: set<HookType>) {
    forall hook | hook in HooksOf(cfgs) && ProgMap.HasMaps(hook) && hook !in todo :: HookBuilt(maps, scheme, cfgs, hook)
  }

  ghost predicate MapsBuilt(maps: ChainMaps, scheme: Scheme, cfgs: EbpfMap) {
    BuiltBut(maps, scheme, cfgs, {})
  }

  /** Nothing but the map of one hook differs. */
  ghost predicate SameBut(before: ChainMaps, after: ChainMaps, hook: HookType) {
    && after.reg == before.reg && after.scheduler == before.scheduler && after.guard == before.guard
    && after.strict == before.strict
    && (forall h | h != hook :: RegionsFor(after.regions, h) == RegionsFor(before.regions, h))
    && (forall h | h != hook && ProgMap.HasMaps(h) :: HashFor(after, h) == HashFor(before, h))
  }

  /** What writing one hook's regions, or its hash, leaves alone. */
  lemma OneHookWritten(before: ChainMaps, after: ChainMaps, hook: HookType)
    requires after == before.(regions := after.regions, tcHash := after.tcHash, xdpHash := after.xdpHash)
    requires after.regions == before.regions || after.regions == before.regions[hook := RegionsFor(after.regions, hook)]
    requires hook == TC || after.tcHash == before.tcHash
    requires hook == XDP_GENERIC || after.xdpHash == before.xdpHash
    ensures SameBut(before, after, hook)
  {
  }

  /** What a call of updateProgChain did. */
  lemma HookWritten(before: ChainMaps, after: ChainMaps, scheme: Scheme, cfgs: EbpfMap, hook: HookType,
                    names: seq<string>, ordered: NamesIfindex, r: Outcome<bool>)
    requires Orders(scheme, cfgs, hook, names, ordered)
    requires after == before.(tcHash := after.tcHash, xdpHash := after.xdpHash)
    requires hook != TC ==> after.tcHash == before.tcHash
    requires hook != XDP_GENERIC ==> after.xdpHash == before.xdpHash
    requires var rb := Rebuild(after.reg, hook, after.scheduler(hook), ordered, RegionsFor(after.regions, hook),
                               after.guard);
             && (r.Thrown? <==> after.strict && (hook == TC || hook == XDP_GENERIC) && !rb.Placed())
             && (r.Returned? && hook == TC ==> rb.Ended(r.value, after.tcHash))
             && (r.Returned? && hook == XDP_GENERIC ==> rb.Ended(r.value, after.xdpHash))
    ensures SameBut(before, after, hook) && HookEnded(after, scheme, cfgs, hook, r.Returned?)
  {
    OneHookWritten(before, after, hook);
    HookEndedBy(after, scheme, cfgs, hook, names, ordered, r.Returned?);
  }

  lemma SameButTwice(a: ChainMaps, b: ChainMaps, c: ChainMaps, hook: HookType)
    requires SameBut(a, b, hook) && SameBut(b, c, hook)
    ensures SameBut(a, c, hook)
  {
  }

  /** The maps of hooks not in use are left alone. */
  ghost predicate UnusedKept(before: ChainMaps, after: ChainMaps, cfgs: EbpfMap) {
    forall h | h !in HooksOf(cfgs) && ProgMap.HasMaps(h) :: HashFor(after, h) == HashFor(before, h)
  }

  lemma UnusedStay(first: ChainMaps, before: ChainMaps, after: ChainMaps, cfgs: EbpfMap, hook: HookType)
    requires UnusedKept(first, before, cfgs) && SameBut(before, after, hook) && hook in HooksOf(cfgs)
    ensures UnusedKept(first, after, cfgs)
  {
  }

  lemma HookDone(before: ChainMaps, after: ChainMaps, scheme: Scheme, cfgs: EbpfMap, todo: set<HookType>,
                 hook: HookType)
    requires BuiltBut(before, scheme, cfgs, todo) && SameBut(before, after, hook)
    requires HookEnded(after, scheme, cfgs, hook, true)
    ensures BuiltBut(after, scheme, cfgs, todo - {hook})
  {
    forall h | h in HooksOf(cfgs) && ProgMap.HasMaps(h) && h !in todo - {hook}
      ensures HookBuilt(after, scheme, cfgs, h)
    {
      assert h != hook ==> HookBuilt(before, scheme, cfgs, h);
    }
  }

  /** Regions handed out in turn. */
  ghost predicate InTurn(regions: Regions) {
    exists nics :: Compact(regions, nics)
  }

  /**
  Live regions stay, the NICs asked for are added, in turn if all before were, and one is refused only when the last
  region is live.
  */
  ghost predicate RegionsGrow(before: Regions, after: Regions, nics: set<Ifindex>) {
    && (InTurn(before) ==> InTurn(after))
    && (forall nic | nic in before :: nic in after && after[nic] == before[nic])
    && (forall nic | nic in after :: nic in before || nic in nics)
    && (forall nic | nic in nics && nic !in after ::
          exists a :: a in after && after[a] == MAX_CHAIN_PROGS - MAX_PER_NIC_PROGS)
  }

  function NicsOn(cfgs: EbpfMap, hook: HookType): set<Ifindex> {
    set n | n in cfgs && cfgs[n].hook == hook :: cfgs[n].ifindex
  }

  lemma OrderedNics(scheme: Scheme, cfgs: EbpfMap, hook: HookType, names: seq<string>, ordered: NamesIfindex)
    requires Orders(scheme, cfgs, hook, names, ordered)
    ensures NicsOf(ordered) == NicsOn(cfgs, hook)
  {
    forall nic | nic in NicsOf(ordered) ensures nic in NicsOn(cfgs, hook) {
      var i :| 0 <= i < |ordered| && ordered[i].1 == nic;
      assert names[i] in names;
    }
    forall nic | nic in NicsOn(cfgs, hook) ensures nic in NicsOf(ordered) {
      var n :| n in cfgs && cfgs[n].hook == hook && cfgs[n].ifindex == nic;
      var i :| 0 <= i < |names| && names[i] == n;
      assert ordered[i] in ordered;
    }
  }

  /** The hooks of the configuration, but for those in `todo`, got their regions; all others are as before. */
  ghost predicate AllGrow(before: map<HookType, Regions>, after: map<HookType, Regions>, cfgs: EbpfMap,
                          todo: set<HookType>) {
    forall hook ::
      if hook in HooksOf(cfgs) && hook !in todo
      then RegionsGrow(RegionsFor(before, hook), RegionsFor(after, hook), NicsOn(cfgs, hook))
      else RegionsFor(after, hook) == RegionsFor(before, hook)
  }

  lemma HookGrows(before: map<HookType, Regions>, mid: map<HookType, Regions>, after: map<HookType, Regions>,
                  cfgs: EbpfMap, todo: set<HookType>, hook: HookType)
    requires AllGrow(before, mid, cfgs, todo) && hook in todo && todo <= HooksOf(cfgs)
    requires RegionsGrow(RegionsFor(mid, hook), RegionsFor(after, hook), NicsOn(cfgs, hook))
    requires forall h | h != hook :: RegionsFor(after, h) == RegionsFor(mid, h)
    ensures AllGrow(before, after, cfgs, todo - {hook})
  {
  }

  lemma AllocateGrows(first: Regions, before: Regions, after: Regions, done: set<Ifindex>, nic: Ifindex, start: int)
    requires RegionsOk(before) && Allocates(before, nic, after, start) && RegionsGrow(first, before, done)
    ensures RegionsGrow(first, after, done + {nic})
  {
    AllocateKeepsRegions(before, nic, after, start);
    AllocateKeepsTurn(before, after, nic, start);
  }

  lemma AllocateKeepsTurn(before: Regions, after: Regions, nic: Ifindex, start: int)
    requires Allocates(before, nic, after, start)
    ensures InTurn(before) ==> InTurn(after)
  {
    if InTurn(before) {
      var nics :| Compact(before, nics);
      FirstFourSucceed(before, nics, nic, after, start);
    }
  }

  lemma {:induction false} AsManyAs<T>(items: seq<T>, all: set<T>)
    requires NoRepeats(items) && forall x :: x in items <==> x in all
    ensures |items| == |all|
    decreases |items|
  {
    if items != [] {
      var front, last := items[..|items| - 1], items[|items| - 1];
      assert items == front + [last];
      AsManyAs(front, all - {last});
    }
  }

  lemma NoMoreNics(a: set<Ifindex>, b: set<Ifindex>)
    requires a <= b
    ensures |a| <= |b| && (|a| == |b| ==> a == b)
  {
    assert b == a + (b - a);
    assert |b| == |a| + |b - a|;
  }

  /** Where regions are handed out in turn, every NIC gets its own exactly if there are no more than four in all. */
  lemma FourGetRegions(before: Regions, after: Regions, nics: set<Ifindex>)
    requires InTurn(before) && RegionsGrow(before, after, nics)
    ensures nics <= after.Keys <==> |before.Keys + nics| <= MAX_NIC_HOOK
  {
    var placed :| Compact(after, placed);
    AsManyAs(placed, after.Keys);
    assert after.Keys <= before.Keys + nics;
    NoMoreNics(after.Keys, before.Keys + nics);
    if nic :| nic in nics && nic !in after {
      var last :| last in after && after[last] == MAX_CHAIN_PROGS - MAX_PER_NIC_PROGS;
      assert last in placed;
      assert |placed| == MAX_NIC_HOOK;
    } else {
      assert after.Keys == before.Keys + nics;
    }
  }

  lemma NoneInTurn()
    ensures InTurn(map[])
  {
    assert Compact(map[], []);
  }

  /** All hooks in use were rebuilt, or one ended the program for want of a region. */
  ghost predicate Rebuilt(before: ChainMaps, after: ChainMaps, scheme: Scheme, cfgs: EbpfMap, returned: bool) {
    && UnusedKept(before, after, cfgs)
    && if returned then MapsBuilt(after, scheme, cfgs) && AllGrow(before.regions, after.regions, cfgs, {})
       else after.strict && !AllPlaced(after, cfgs)
  }

  /** The maps are rebuilt for a configuration that differs from the stored one. */
  ghost predicate MapsEnded(before: ChainMaps, after: ChainMaps, scheme: Scheme, current: EbpfMap, supplied: EbpfMap,
                            returned: bool) {
    if NeedsRebuild(scheme, current, supplied) then Rebuilt(before, after, scheme, supplied, returned)
    else returned && after == before
  }

  /** The maps are built for the configuration whose entries are stored with their schedulers. */
  ghost predicate MapsFollow(maps: ChainMaps, scheme: Scheme, current: EbpfMap)
    requires SchemeOk(scheme)
  {
    exists cfgs :: ConfigOk(scheme, cfgs) && current == WithSchedulers(scheme, cfgs) && MapsBuilt(maps, scheme, cfgs)
  }

  lemma NothingToFollow(maps: ChainMaps, scheme: Scheme)
    requires SchemeOk(scheme)
    ensures MapsFollow(maps, scheme, map[])
  {
    assert ConfigOk(scheme, map[]) && WithSchedulers(scheme, map[]) == map[];
  }

  /** Whatever was stored and whatever is supplied, maps that followed the one are built for the other. */
  ghost predicate KeepsUp(before: ChainMaps, after: ChainMaps, scheme: Scheme, current: EbpfMap, supplied: EbpfMap)
    requires SchemeOk(scheme)
  {
    MapsFollow(before, scheme, current) ==> MapsBuilt(after, scheme, supplied)
  }

  lemma MapsKeepUp(before: ChainMaps, after: ChainMaps, scheme: Scheme, current: EbpfMap, supplied: EbpfMap)
    requires SchemeOk(scheme) && MapsEnded(before, after, scheme, current, supplied, true)
    ensures KeepsUp(before, after, scheme, current, supplied)
  {
    if MapsFollow(before, scheme, current) {
      var cfgs :| ConfigOk(scheme, cfgs) && current == WithSchedulers(scheme, cfgs) && MapsBuilt(before, scheme, cfgs);
      StripUndoesSynthesis(scheme, cfgs);
    }
  }

  /**
  An update to `supplied` that throws in one of its calls leaves the maps of `supplied` and the old configuration
  stored; going back to that then rebuilds nothing.
  */
  lemma BackRebuildsNothing(before: ChainMaps, maps: ChainMaps, after: ChainMaps, scheme: Scheme, stored: EbpfMap,
                            supplied: EbpfMap)
    requires SchemeOk(scheme) && ConfigOk(scheme, stored) && supplied != stored
    requires MapsEnded(before, maps, scheme, WithSchedulers(scheme, stored), supplied, true)
    requires MapsEnded(maps, after, scheme, WithSchedulers(scheme, stored), stored, true)
    ensures after == maps && MapsBuilt(after, scheme, supplied)
  {
    StripUndoesSynthesis(scheme, stored);
  }

  /** Then the plan is carried out, up to a call that throws. */
  ghost predicate UpdateEnded(before: ChainMaps, after: ChainMaps, env: Env, current: EbpfMap, supplied: EbpfMap,
                              s: LoaderState, calls: seq<Op>, returned: bool, s': LoaderState, calls': seq<Op>)
    requires SchemeOk(env.scheme)
  {
    || (!returned && s' == s && MapsEnded(before, after, env.scheme, current, supplied, false))
    || (&& MapsEnded(before, after, env.scheme, current, supplied, true)
        && Ended(env, s, calls, Plan(env.scheme, current, supplied), returned, s', calls'))
  }

  /** `ops` were called, and lead from one state of the loader to the other. */
  ghost predicate Did(env: Env, s: LoaderState, calls: seq<Op>, ops: seq<Op>, s': LoaderState, calls': seq<Op>) {
    s' == ApplyAll(env, s, ops) && calls' == calls + ops
  }

  lemma DidMore(env: Env, s: LoaderState, calls: seq<Op>, done: seq<Op>, s1: LoaderState, calls1: seq<Op>,
                more: seq<Op>, s2: LoaderState, calls2: seq<Op>)
    requires Did(env, s, calls, done, s1, calls1) && Did(env, s1, calls1, more, s2, calls2)
    ensures Did(env, s, calls, done + more, s2, calls2)
  {
    ApplyConcat(env, s, done, more);
  }

  /** All of `ops` before one that threw were called. */
  ghost predicate Broke(env: Env, s: LoaderState, ops: seq<Op>, s': LoaderState) {
    exists k :: 0 <= k < |ops| && Threw(env, ApplyAll(env, s, ops[..k]), ops[k], s')
  }

  lemma BrokeAtFirst(env: Env, s: LoaderState, op: Op, s': LoaderState)
    requires Threw(env, s, op, s')
    ensures Broke(env, s, [op], s')
  {
    assert [op][..0] == [];
    assert Threw(env, ApplyAll(env, s, [op][..0]), [op][0], s');
  }

  lemma BrokeWithin(env: Env, s: LoaderState, calls: seq<Op>, done: seq<Op>, s1: LoaderState, calls1: seq<Op>,
                    ops: seq<Op>, more: seq<Op>, s': LoaderState)
    requires Did(env, s, calls, done, s1, calls1) && Broke(env, s1, ops, s')
    ensures Broke(env, s, done + ops + more, s')
  {
    var k :| 0 <= k < |ops| && Threw(env, ApplyAll(env, s1, ops[..k]), ops[k], s');
    var all := done + ops + more;
    assert all[..|done| + k] == done + ops[..k];
    ApplyConcat(env, s, done, ops[..k]);
    assert Threw(env, ApplyAll(env, s, all[..|done| + k]), all[|done| + k], s');
  }

  lemma BrokeEarly(env: Env, s: LoaderState, ops: seq<Op>, more: seq<Op>, s': LoaderState)
    requires Broke(env, s, ops, s')
    ensures Broke(env, s, ops + more, s')
  {
    var k :| 0 <= k < |ops| && Threw(env, ApplyAll(env, s, ops[..k]), ops[k], s');
    assert (ops + more)[..k] == ops[..k];
    assert Threw(env, ApplyAll(env, s, (ops + more)[..k]), (ops + more)[k], s');
  }

  /** `ops` were called, up to one that threw unless all returned. */
  ghost predicate Ended(env: Env, s: LoaderState, calls: seq<Op>, ops: seq<Op>, returned: bool, s': LoaderState,
                        calls': seq<Op>) {
    if returned then Did(env, s, calls, ops, s', calls') else Broke(env, s, ops, s')
  }

  lemma EndedEarly(env: Env, s: LoaderState, calls: seq<Op>, ops: seq<Op>, s': LoaderState, calls': seq<Op>,
                   more: seq<Op>)
    requires Ended(env, s, calls, ops, false, s', calls')
    ensures Ended(env, s, calls, ops + more, false, s', calls')
  {
    BrokeEarly(env, s, ops, more, s');
  }

  lemma EndedAfter(env: Env, s: LoaderState, calls: seq<Op>, done: seq<Op>, s1: LoaderState, calls1: seq<Op>,
                   ops: seq<Op>, returned: bool, s2: LoaderState, calls2: seq<Op>)
    requires Did(env, s, calls, done, s1, calls1) && Ended(env, s1, calls1, ops, returned, s2, calls2)
    ensures Ended(env, s, calls, done + ops, returned, s2, calls2)
  {
    if returned {
      DidMore(env, s, calls, done, s1, calls1, ops, s2, calls2);
    } else {
      BrokeWithin(env, s, calls, done, s1, calls1, ops, [], s2);
      assert done + ops + [] == done + ops;
    }
  }

  /** Unloads and then loads make up the plan. */
  lemma EndedPlan(env: Env, scheme: Scheme, current: EbpfMap, supplied: EbpfMap, bare: EbpfMap, target: EbpfMap,
                  s: LoaderState, calls: seq<Op>, s1: LoaderState, calls1: seq<Op>, returned: bool, s2: LoaderState,
                  calls2: seq<Op>)
    requires SchemeOk(scheme) && bare == WithoutSchedulers(scheme, current)
             && target == WithSchedulers(scheme, supplied)
    requires Did(env, s, calls, UnloadOps(Ascending(bare.Keys), bare, supplied), s1, calls1)
    requires Ended(env, s1, calls1, LoadOps(Ascending(target.Keys), current, target), returned, s2, calls2)
    ensures Ended(env, s, calls, Plan(scheme, current, supplied), returned, s2, calls2)
  {
    EndedAfter(env, s, calls, UnloadOps(Ascending(bare.Keys), bare, supplied), s1, calls1,
               LoadOps(Ascending(target.Keys), current, target), returned, s2, calls2);
  }

  /** The calls of the unload loop for one name. */
  function DropOps(n: string, bare: EbpfMap, supplied: EbpfMap): seq<Op>
    requires n in bare
  {
    if n in supplied then [] else [Op.Unload(bare[n].lib)]
  }

  /** The unload loop has made the calls `done` of `all`; those for the names in `todo` are left. */
  ghost predicate UnloadsLeft(all: seq<Op>, done: seq<Op>, todo: set<string>, bare: EbpfMap, supplied: EbpfMap) {
    todo <= bare.Keys && all == done + UnloadOps(Ascending(todo), bare, supplied)
  }

  lemma UnloadsStep(all: seq<Op>, done: seq<Op>, todo: set<string>, n: string, bare: EbpfMap, supplied: EbpfMap)
    requires UnloadsLeft(all, done, todo, bare, supplied) && todo != {} && n == Least(todo)
    ensures UnloadsLeft(all, done + DropOps(n, bare, supplied), todo - {n}, bare, supplied)
  {
    assert Ascending(todo)[1..] == Ascending(todo - {n});
  }

  lemma UnloadsDone(all: seq<Op>, done: seq<Op>, bare: EbpfMap, supplied: EbpfMap)
    requires UnloadsLeft(all, done, {}, bare, supplied)
    ensures done == all
  {
  }

  /** The same for the load loop. */
  ghost predicate LoadsLeft(all: seq<Op>, done: seq<Op>, todo: set<string>, current: EbpfMap, target: EbpfMap) {
    todo <= target.Keys && all == done + LoadOps(Ascending(todo), current, target)
  }

  lemma LoadsStep(all: seq<Op>, done: seq<Op>, todo: set<string>, n: string, current: EbpfMap, target: EbpfMap)
    requires LoadsLeft(all, done, todo, current, target) && todo != {} && n == Least(todo)
    ensures LoadsLeft(all, done + EntryOps(current, n, target[n]), todo - {n}, current, target)
  {
    LoadsHead(todo, n, current, target);
    assert done + (EntryOps(current, n, target[n]) + LoadOps(Ascending(todo - {n}), current, target)) == all;
  }

  /** An entry that broke breaks the loop. */
  lemma LoadsBreak(env: Env, s: LoaderState, calls: seq<Op>, all: seq<Op>, done: seq<Op>, s1: LoaderState,
                   calls1: seq<Op>, todo: set<string>, n: string, current: EbpfMap, target: EbpfMap, s': LoaderState)
    requires LoadsLeft(all, done, todo, current, target) && todo != {} && n == Least(todo)
    requires Did(env, s, calls, done, s1, calls1) && Broke(env, s1, EntryOps(current, n, target[n]), s')
    ensures Broke(env, s, all, s')
  {
    LoadsStep(all, done, todo, n, current, target);
    var more := LoadOps(Ascending(todo - {n}), current, target);
    BrokeInside(env, s, calls, all, done, s1, calls1, EntryOps(current, n, target[n]), more, s');
  }

  lemma BrokeInside(env: Env, s: LoaderState, calls: seq<Op>, all: seq<Op>, done: seq<Op>, s1: LoaderState,
                    calls1: seq<Op>, ops: seq<Op>, more: seq<Op>, s': LoaderState)
    requires Did(env, s, calls, done, s1, calls1) && Broke(env, s1, ops, s') && all == done + ops + more
    ensures Broke(env, s, all, s')
  {
    BrokeWithin(env, s, calls, done, s1, calls1, ops, more, s');
  }

  lemma LoadsHead(todo: set<string>, n: string, current: EbpfMap, target: EbpfMap)
    requires todo != {} && todo <= target.Keys && n == Least(todo)
    ensures LoadOps(Ascending(todo), current, target) ==
            EntryOps(current, n, target[n]) + LoadOps(Ascending(todo - {n}), current, target)
  {
    assert Ascending(todo)[1..] == Ascending(todo - {n});
  }

  lemma LoadsDone(all: seq<Op>, done: seq<Op>, current: EbpfMap, target: EbpfMap)
    requires LoadsLeft(all, done, {}, current, target)
    ensures done == all
  {
  }

  class Daemon {
    const loader: Loader
    var current: EbpfMap
    var running: bool

    constructor (loader: Loader)
      requires loader.Valid() && SchemeOk(loader.scheme)
      ensures Valid() && this.loader == loader && current == map[] && !running
    {
      this.loader, current, running := loader, map[], false;
    }

    /** Marks the daemon as running; it starts the producer's thread where there is a queue. */
    method Run()
      requires Valid()
      modifies this`running
      ensures Valid() && running
    {
      if !running {
        running := true;
      }
    }

    ghost predicate Valid()
      reads this, loader, loader.watches, loader.watches.inotify, loader.chains,
            loader.chains.tcHash, loader.chains.tcArray, loader.chains.xdpHash, loader.chains.xdpArray
    {
      loader.Valid() && SchemeOk(loader.scheme)
    }

    method UnloadIfDropped(n: string, bare: EbpfMap, supplied: EbpfMap)
      requires Valid() && n in bare
      modifies loader, loader.watches, loader.watches.inotify
      ensures Valid() && loader.TheEnv() == old(loader.TheEnv())
      ensures Did(old(loader.TheEnv()), old(loader.State()), old(loader.calls), DropOps(n, bare, supplied),
                  loader.State(), loader.calls)
    {
      ghost var env, s := loader.TheEnv(), loader.State();
      if n !in supplied {
        var _ := loader.UnloadServices(bare[n].lib);
        OneOp(env, s, Op.Unload(bare[n].lib));
      }
    }

    /** Names of the stored configuration that are gone are unloaded, schedulers excepted. */
    method UnloadDropped(bare: EbpfMap, supplied: EbpfMap)
      requires Valid()
      modifies loader, loader.watches, loader.watches.inotify
      ensures Valid() && loader.TheEnv() == old(loader.TheEnv())
      ensures Did(old(loader.TheEnv()), old(loader.State()), old(loader.calls),
                  UnloadOps(Ascending(bare.Keys), bare, supplied), loader.State(), loader.calls)
    {
      ghost var env, s, calls := loader.TheEnv(), loader.State(), loader.calls;
      ghost var all, done := UnloadOps(Ascending(bare.Keys), bare, supplied), [];
      var todo := bare.Keys;
      while todo != {}
        invariant Valid() && loader.TheEnv() == env
        invariant Did(env, s, calls, done, loader.State(), loader.calls)
        invariant UnloadsLeft(all, done, todo, bare, supplied)
        decreases todo
      {
        var n := First(todo);
        UnloadsStep(all, done, todo, n, bare, supplied);
        ghost var s1, calls1 := loader.State(), loader.calls;
        UnloadIfDropped(n, bare, supplied);
        DidMore(env, s, calls, done, s1, calls1, DropOps(n, bare, supplied), loader.State(), loader.calls);
        done := done + DropOps(n, bare, supplied);
        todo := todo - {n};
      }
      UnloadsDone(all, done, bare, supplied);
    }

    method LoadEntry(cfg: ConfigEbpf) returns (r: Outcome<()>)
      requires Valid() && cfg.lib != "" && cfg.hook != UNKNOWN
      modifies loader, loader.watches, loader.watches.inotify, loader.chains.tcArray, loader.chains.xdpArray
      ensures Valid() && loader.TheEnv() == old(loader.TheEnv())
      ensures Ended(old(loader.TheEnv()), old(loader.State()), old(loader.calls), [LoadOf(cfg)], r.Returned?,
                    loader.State(), loader.calls)
    {
      ghost var env, s := loader.TheEnv(), loader.State();
      OneOp(env, s, LoadOf(cfg));
      var loaded := loader.LoadService(cfg.lib, cfg.hook, cfg.ifindex, cfg.config);
      if loaded.Thrown? {
        BrokeAtFirst(env, s, LoadOf(cfg), loader.State());
        return Thrown;
      }
      return Returned(());
    }

    method ReloadEntry(was: ConfigEbpf, cfg: ConfigEbpf) returns (r: Outcome<()>)
      requires Valid() && cfg.lib != "" && cfg.hook != UNKNOWN
      modifies loader, loader.watches, loader.watches.inotify, loader.chains.tcArray, loader.chains.xdpArray
      ensures Valid() && loader.TheEnv() == old(loader.TheEnv())
      ensures Ended(old(loader.TheEnv()), old(loader.State()), old(loader.calls), [Op.Unload(was.lib)] + [LoadOf(cfg)],
                    r.Returned?, loader.State(), loader.calls)
    {
      ghost var env, s, calls := loader.TheEnv(), loader.State(), loader.calls;
      OneOp(env, s, Op.Unload(was.lib));
      var _ := loader.UnloadServices(was.lib);
      ghost var s1, calls1 := loader.State(), loader.calls;
      r := LoadEntry(cfg);
      EndedAfter(env, s, calls, [Op.Unload(was.lib)], s1, calls1, [LoadOf(cfg)], r.Returned?, loader.State(),
                 loader.calls);
    }

    method UnregisterEntry(was: ConfigEbpf) returns (r: Outcome<()>)
      requires Valid()
      modifies loader, loader.watches, loader.watches.inotify
      ensures Valid() && loader.TheEnv() == old(loader.TheEnv())
      ensures Ended(old(loader.TheEnv()), old(loader.State()), old(loader.calls),
                    [Op.Unregister(was.lib, was.config)], r.Returned?, loader.State(), loader.calls)
    {
      ghost var env, s := loader.TheEnv(), loader.State();
      OneOp(env, s, Op.Unregister(was.lib, was.config));
      r := loader.UnregisterServiceConfig(was.lib, was.config);
      if r.Thrown? {
        BrokeAtFirst(env, s, Op.Unregister(was.lib, was.config), loader.State());
      }
    }

    method RegisterEntry(cfg: ConfigEbpf) returns (r: Outcome<()>)
      requires Valid() && cfg.hook != UNKNOWN
      modifies loader, loader.watches, loader.watches.inotify
      ensures Valid() && loader.TheEnv() == old(loader.TheEnv())
      ensures Ended(old(loader.TheEnv()), old(loader.State()), old(loader.calls), [RegisterOf(cfg)], r.Returned?,
                    loader.State(), loader.calls)
    {
      ghost var env, s := loader.TheEnv(), loader.State();
      OneOp(env, s, RegisterOf(cfg));
      r := loader.RegisterServiceConfig(cfg.lib, cfg.hook, cfg.ifindex, cfg.config);
      if r.Thrown? {
        BrokeAtFirst(env, s, RegisterOf(cfg), loader.State());
      }
    }

    method ReregisterEntry(was: ConfigEbpf, cfg: ConfigEbpf) returns (r: Outcome<()>)
      requires Valid() && cfg.hook != UNKNOWN
      modifies loader, loader.watches, loader.watches.inotify
      ensures Valid() && loader.TheEnv() == old(loader.TheEnv())
      ensures Ended(old(loader.TheEnv()), old(loader.State()), old(loader.calls),
                    [Op.Unregister(was.lib, was.config)] + [RegisterOf(cfg)], r.Returned?,
                    loader.State(), loader.calls)
    {
      ghost var env, s, calls := loader.TheEnv(), loader.State(), loader.calls;
      ghost var first := [Op.Unregister(was.lib, was.config)];
      r := UnregisterEntry(was);
      ghost var s1, calls1 := loader.State(), loader.calls;
      if r.Thrown? {
        EndedEarly(env, s, calls, first, s1, calls1, [RegisterOf(cfg)]);
        return;
      }
      r := RegisterEntry(cfg);
      EndedAfter(env, s, calls, first, s1, calls1, [RegisterOf(cfg)], r.Returned?, loader.State(), loader.calls);
    }

    /** Loads a new entry, reloads one whose library, hook or NIC changed, re-registers one whose file changed. */
    method ProcessEntry(n: string, cfg: ConfigEbpf) returns (r: Outcome<()>)
      requires Valid() && cfg.lib != "" && cfg.hook != UNKNOWN
      modifies loader, loader.watches, loader.watches.inotify, loader.chains.tcArray, loader.chains.xdpArray
      ensures Valid() && loader.TheEnv() == old(loader.TheEnv())
      ensures Ended(old(loader.TheEnv()), old(loader.State()), old(loader.calls), EntryOps(current, n, cfg),
                    r.Returned?, loader.State(), loader.calls)
    {
      if n !in current {
        r := LoadEntry(cfg);
        return;
      }
      var was := current[n];
      if was.lib != cfg.lib || was.hook != cfg.hook || was.ifindex != cfg.ifindex {
        assert EntryOps(current, n, cfg) == [Op.Unload(was.lib)] + [LoadOf(cfg)];
        r := ReloadEntry(was, cfg);
      } else if was.config != cfg.config {
        assert EntryOps(current, n, cfg) == [Op.Unregister(was.lib, was.config)] + [RegisterOf(cfg)];
        r := ReregisterEntry(was, cfg);
      } else {
        r := Returned(());
      }
    }

    method LoadTarget(target: EbpfMap) returns (r: Outcome<()>)
      requires Valid() && forall n | n in target :: target[n].lib != "" && target[n].hook != UNKNOWN
      modifies loader, loader.watches, loader.watches.inotify, loader.chains.tcArray, loader.chains.xdpArray
      ensures Valid() && loader.TheEnv() == old(loader.TheEnv())
      ensures Ended(old(loader.TheEnv()), old(loader.State()), old(loader.calls),
                    LoadOps(Ascending(target.Keys), current, target), r.Returned?, loader.State(), loader.calls)
    {
      ghost var env, s, calls := loader.TheEnv(), loader.State(), loader.calls;
      ghost var all, done := LoadOps(Ascending(target.Keys), current, target), [];
      var todo := target.Keys;
      while todo != {}
        invariant Valid() && loader.TheEnv() == env
        invariant Did(env, s, calls, done, loader.State(), loader.calls)
        invariant LoadsLeft(all, done, todo, current, target)
        decreases todo
      {
        var n := First(todo);
        LoadsStep(all, done, todo, n, current, target);
        ghost var s1, calls1 := loader.State(), loader.calls;
        r := ProcessEntry(n, target[n]);
        if r.Thrown? {
          LoadsBreak(env, s, calls, all, done, s1, calls1, todo, n, current, target, loader.State());
          return;
        }
        DidMore(env, s, calls, done, s1, calls1, EntryOps(current, n, target[n]), loader.State(), loader.calls);
        done := done + EntryOps(current, n, target[n]);
        todo := todo - {n};
      }
      LoadsDone(all, done, current, target);
      return Returned(());
    }

    ghost function Maps(): ChainMaps
      reads loader.chains, loader.chains.tcHash, loader.chains.xdpHash
    {
      ChainMaps(loader.chains.registry, loader.chains.schedulerName, loader.chains.guard, loader.chains.strict,
                loader.chains.regions, loader.chains.tcHash.entries, loader.chains.xdpHash.entries)
    }

    /** A region for every NIC of the hook, as long as there are any: the results are ignored. */
    method AllocateChains(hook: HookType, ordered: NamesIfindex)
      requires Valid()
      modifies loader.chains`regions
      ensures Valid() && SameBut(old(Maps()), Maps(), hook)
      ensures RegionsGrow(RegionsFor(old(loader.chains.regions), hook), RegionsFor(loader.chains.regions, hook),
                          NicsOf(ordered))
    {
      ghost var first := Maps();
      for i := 0 to |ordered|
        invariant Valid() && SameBut(first, Maps(), hook)
        invariant RegionsGrow(RegionsFor(first.regions, hook), RegionsFor(loader.chains.regions, hook),
                              NicsOf(ordered[..i]))
      {
        NicsSnoc(ordered, i);
        ghost var before := Maps();
        AllocateOne(hook, ordered[i].1, RegionsFor(first.regions, hook), NicsOf(ordered[..i]));
        SameButTwice(first, before, Maps(), hook);
      }
      assert ordered[..|ordered|] == ordered;
    }

    method AllocateOne(hook: HookType, nic: Ifindex, ghost first: Regions, ghost done: set<Ifindex>)
      requires Valid() && RegionsGrow(first, RegionsFor(loader.chains.regions, hook), done)
      modifies loader.chains`regions
      ensures Valid() && SameBut(old(Maps()), Maps(), hook)
      ensures RegionsGrow(first, RegionsFor(loader.chains.regions, hook), done + {nic})
    {
      ghost var before := Maps();
      var _ := loader.AllocateChain(hook, nic);
      ghost var start: int :|
        Allocates(RegionsFor(before.regions, hook), nic, RegionsFor(loader.chains.regions, hook), start);
      AllocateGrows(first, RegionsFor(before.regions, hook), RegionsFor(loader.chains.regions, hook), done, nic, start);
      OneHookWritten(before, Maps(), hook);
    }

    /** The rebuild of a hook for the order the sort gave. */
    method UpdateHook(cfgs: EbpfMap, hook: HookType, ghost names: seq<string>, ordered: NamesIfindex)
      returns (r: Outcome<()>)
      requires Valid() && Orders(loader.scheme, cfgs, hook, names, ordered)
      modifies loader.chains.HashOf(hook)
      ensures Valid() && SameBut(old(Maps()), Maps(), hook)
      ensures HookEnded(Maps(), loader.scheme, cfgs, hook, r.Returned?)
    {
      ghost var before := Maps();
      var updated := loader.UpdateProgChain(hook, ordered);
      HookWritten(before, Maps(), loader.scheme, cfgs, hook, names, ordered, updated);
      return if updated.Returned? then Returned(()) else Thrown;
    }

    method RebuildHook(cfgs: EbpfMap, hook: HookType) returns (r: Outcome<()>)
      requires Valid()
      modifies loader.chains`regions, loader.chains.HashOf(hook)
      ensures Valid() && SameBut(old(Maps()), Maps(), hook)
      ensures HookEnded(Maps(), loader.scheme, cfgs, hook, r.Returned?)
      ensures RegionsGrow(RegionsFor(old(loader.chains.regions), hook), RegionsFor(loader.chains.regions, hook),
                          NicsOn(cfgs, hook))
    {
      ghost var before := Maps();
      var names, ordered := SortByOrder(loader.scheme, cfgs, hook);
      OrderedNics(loader.scheme, cfgs, hook, names, ordered);
      AllocateChains(hook, ordered);
      ghost var mid := Maps();
      r := UpdateHook(cfgs, hook, names, ordered);
      SameButTwice(before, mid, Maps(), hook);
    }

    /** One rebuild per hook in use, in whatever order the hash table yields them. */
    method RebuildChains(cfgs: EbpfMap) returns (r: Outcome<()>)
      requires Valid()
      modifies loader.chains`regions, loader.chains.tcHash, loader.chains.xdpHash
      ensures Valid()
      ensures Rebuilt(old(Maps()), Maps(), loader.scheme, cfgs, r.Returned?)
    {
      ghost var first := Maps();
      var todo := HooksOf(cfgs);
      while todo != {}
        invariant Valid() && todo <= HooksOf(cfgs) && BuiltBut(Maps(), loader.scheme, cfgs, todo)
        invariant AllGrow(first.regions, loader.chains.regions, cfgs, todo) && UnusedKept(first, Maps(), cfgs)
        decreases todo
      {
        var hook :| hook in todo;
        ghost var before := Maps();
        var rebuilt := RebuildHook(cfgs, hook);
        UnusedStay(first, before, Maps(), cfgs, hook);
        if rebuilt.Thrown? {
          return Thrown;
        }
        HookDone(before, Maps(), loader.scheme, cfgs, todo, hook);
        HookGrows(first.regions, before.regions, loader.chains.regions, cfgs, todo, hook);
        todo := todo - {hook};
      }
      return Returned(());
    }

    method RebuildIfChanged(bare: EbpfMap, supplied: EbpfMap) returns (r: Outcome<()>)
      requires Valid() && bare == WithoutSchedulers(loader.scheme, current)
      modifies loader.chains`regions, loader.chains.tcHash, loader.chains.xdpHash
      ensures Valid() && loader.State() == old(loader.State())
      ensures MapsEnded(old(Maps()), Maps(), loader.scheme, current, supplied, r.Returned?)
    {
      if supplied == bare {
        return Returned(());
      }
      r := RebuildChains(supplied);
    }

    /** The whole response to a new configuration; an exception leaves the stored one in place. */
    method Update(supplied: EbpfMap) returns (r: Outcome<()>)
      requires Valid() && forall n | n in supplied :: supplied[n].lib != "" && supplied[n].hook != UNKNOWN
      modifies this`current, loader, loader.watches, loader.watches.inotify, loader.chains`regions,
               loader.chains.tcHash, loader.chains.tcArray, loader.chains.xdpHash, loader.chains.xdpArray
      ensures Valid()
      ensures current == if r.Returned? then WithSchedulers(loader.scheme, supplied) else old(current)
      ensures UpdateEnded(old(Maps()), Maps(), loader.TheEnv(), old(current), supplied,
                          old(loader.State()), old(loader.calls), r.Returned?, loader.State(), loader.calls)
      ensures r.Returned? ==> KeepsUp(old(Maps()), Maps(), loader.scheme, old(current), supplied)
    {
      ghost var before, was, s, calls := Maps(), current, loader.State(), loader.calls;
      var bare := StripSchedulers(loader.scheme, current);
      r := RebuildIfChanged(bare, supplied);
      ghost var after := Maps();
      if r.Thrown? {
        return;
      }
      MapsKeepUp(before, after, loader.scheme, was, supplied);
      r := ApplyDifference(bare, supplied);
      assert Maps() == after;
    }

    /** Everything after the chains: unload, add the schedulers, load, and store the result. */
    method ApplyDifference(bare: EbpfMap, supplied: EbpfMap) returns (r: Outcome<()>)
      requires Valid() && forall n | n in supplied :: supplied[n].lib != "" && supplied[n].hook != UNKNOWN
      requires bare == WithoutSchedulers(loader.scheme, current)
      modifies this`current, loader, loader.watches, loader.watches.inotify,
               loader.chains.tcArray, loader.chains.xdpArray
      ensures Valid() && loader.TheEnv() == old(loader.TheEnv())
      ensures current == if r.Returned? then WithSchedulers(loader.scheme, supplied) else old(current)
      ensures Ended(old(loader.TheEnv()), old(loader.State()), old(loader.calls),
                    Plan(loader.scheme, old(current), supplied), r.Returned?, loader.State(), loader.calls)
    {
      ghost var env, s, calls, was := loader.TheEnv(), loader.State(), loader.calls, current;
      var target := AddSchedulers(loader.scheme, supplied);
      TargetLoadable(loader.scheme, supplied);
      UnloadDropped(bare, supplied);
      ghost var s1, calls1 := loader.State(), loader.calls;
      r := LoadAndStore(target);
      EndedPlan(env, loader.scheme, was, supplied, bare, target, s, calls, s1, calls1, r.Returned?, loader.State(),
                loader.calls);
    }

    method LoadAndStore(target: EbpfMap) returns (r: Outcome<()>)
      requires Valid() && forall n | n in target :: target[n].lib != "" && target[n].hook != UNKNOWN
      modifies this`current, loader, loader.watches, loader.watches.inotify,
               loader.chains.tcArray, loader.chains.xdpArray
      ensures Valid() && loader.TheEnv() == old(loader.TheEnv())
      ensures current == if r.Returned? then target else old(current)
      ensures Ended(old(loader.TheEnv()), old(loader.State()), old(loader.calls),
                    LoadOps(Ascending(target.Keys), old(current), target), r.Returned?, loader.State(), loader.calls)
    {
      var _ :- LoadTarget(target);
      current := target;
      return Returned(());
    }

    method UnloadListed(libs: seq<string>)
      requires Valid() && forall lib :: lib in libs <==> lib in loader.services
      modifies loader, loader.watches, loader.watches.inotify
      ensures Valid() && loader.TheEnv() == old(loader.TheEnv()) && loader.services == map[]
      ensures loader.State() == ApplyAll(loader.TheEnv(), old(loader.State()), StopOps(libs))
    {
      ghost var env, s := loader.TheEnv(), loader.State();
      for i := 0 to |libs|
        invariant Valid() && loader.TheEnv() == env && loader.State() == ApplyAll(env, s, StopOps(libs[..i]))
        invariant forall l | l in loader.services :: l in libs && l !in libs[..i]
      {
        StopStep(env, s, libs, i);
        var _ := loader.UnloadServices(libs[i]);
      }
      assert libs[..|libs|] == libs;
      assert forall l :: l !in loader.services;
      assert loader.services == map[];
    }

    /** Unloads whatever is loaded, schedulers included. */
    method Stop()
      requires Valid()
      modifies this, loader, loader.watches, loader.watches.inotify
      ensures Valid() && !running
      ensures old(running) ==> loader.services == map[] && current == map[]
      ensures old(running) ==> Stopped(loader.TheEnv(), old(loader.State()), loader.State())
      ensures !old(running) ==> loader.State() == old(loader.State()) && current == old(current)
    {
      if !running {
        return;
      }
      running := false;
      var libs := loader.GetAllService();
      ghost var env, s := loader.TheEnv(), loader.State();
      UnloadListed(libs);
      current := map[];
    }
  }

  /** Every library of the table has been unloaded, in some order. */
  ghost predicate Stopped(env: Env, s: LoaderState, s': LoaderState) {
    exists libs :: (forall lib :: lib in libs <==> lib in s.services) && s' == ApplyAll(env, s, StopOps(libs))
  }

  lemma {:induction false} StopConcat(a: seq<string>, lib: string)
    ensures StopOps(a + [lib]) == StopOps(a) + [Op.Unload(lib)]
    decreases |a|
  {
    if a == [] {
      assert [lib][1..] == [] && a + [lib] == [lib];
    } else {
      assert (a + [lib])[1..] == a[1..] + [lib];
      StopConcat(a[1..], lib);
    }
  }

  lemma StopStep(env: Env, s: LoaderState, libs: seq<string>, i: nat)
    requires i < |libs|
    ensures ApplyAll(env, s, StopOps(libs[..i + 1])) == ApplyUnload(ApplyAll(env, s, StopOps(libs[..i])), libs[i])
  {
    StopConcat(libs[..i], libs[i]);
    assert libs[..i + 1] == libs[..i] + [libs[i]];
    ApplySnoc(env, s, StopOps(libs[..i]), Op.Unload(libs[i]));
  }
}
