/**
The parsed configuration (src/daemon/configs.hpp), the scheduler entries the daemon adds to it, and the calls an
update makes to the loader as a function of the stored and the new configuration (src/daemon/daemon.cc:100-219).
*/
module Configs {
  import opened Chain
  import opened Hooks
  import opened NameOrder
  import opened Naming

  datatype ConfigEbpf = ConfigEbpf(lib: string, config: string, hook: HookType, ifindex: Ifindex, order: int)
  type EbpfMap = map<string, ConfigEbpf>

  /**
  The naming rules as parameters.  `id` and `lib` key a scheduler among the configured and the loaded services,
  `path` is its library, `file` the path behind a library key, and `official` and `program` give the official
  name from a library path and from a program name.
  */
  datatype Scheme = Scheme(
    id: (HookType, Ifindex) -> string,
    lib: (HookType, Ifindex) -> string,
    path: HookType -> string,
    file: string -> string,
    official: (HookType, string) -> string,
    program: (HookType, string) -> string)

  predicate Marked(lib: string) {
    ';' in lib
  }

  ghost predicate IdsDistinct(scheme: Scheme) {
    forall h, i, h', i' :: scheme.id(h, i) == scheme.id(h', i') ==> h == h' && i == i'
  }

  ghost predicate SchedulerLibsDistinct(scheme: Scheme) {
    forall h, i, h', i' :: scheme.lib(h, i) == scheme.lib(h', i') ==> h == h' && i == i'
  }

  ghost predicate SchedulerLibsMarked(scheme: Scheme) {
    forall h, i :: Marked(scheme.lib(h, i)) && scheme.file(scheme.lib(h, i)) == scheme.path(h)
  }

  ghost predicate PlainLibsAreFiles(scheme: Scheme) {
    forall lib :: !Marked(lib) ==> scheme.file(lib) == lib
  }

  ghost predicate SchemeOk(scheme: Scheme) {
    IdsDistinct(scheme) && SchedulerLibsDistinct(scheme) && SchedulerLibsMarked(scheme) && PlainLibsAreFiles(scheme)
  }

  /** The rules of the program. */
  const HEBPF: Scheme := Scheme(
    (h, i: Ifindex) => SchedulerId(h, i),
    (h, i: Ifindex) => SchedulerLib(h, i),
    h => SchedulerPath(h),
    lib => RealPath(lib),
    (h, path) => CanonicalName(h, LIBRARY, path),
    (h, name) => CanonicalName(h, PROGRAM, name))

  lemma HebpfIds()
    ensures IdsDistinct(HEBPF)
  {
    forall h, i: Ifindex, h', i': Ifindex | HEBPF.id(h, i) == HEBPF.id(h', i') ensures h == h' && i == i' {
      SchedulerKeysInjective(h, i, h', i');
    }
  }

  lemma HebpfLibs()
    ensures SchedulerLibsDistinct(HEBPF)
  {
    forall h, i: Ifindex, h', i': Ifindex | HEBPF.lib(h, i) == HEBPF.lib(h', i') ensures h == h' && i == i' {
      SchedulerKeysInjective(h, i, h', i');
    }
  }

  lemma HebpfMarks()
    ensures SchedulerLibsMarked(HEBPF)
  {
    forall h, i: Ifindex ensures Marked(HEBPF.lib(h, i)) && HEBPF.file(HEBPF.lib(h, i)) == HEBPF.path(h) {
      RealPaths(h, i, "");
    }
  }

  lemma HebpfFiles()
    ensures PlainLibsAreFiles(HEBPF)
  {
    forall lib | !Marked(lib) ensures HEBPF.file(lib) == lib {
      RealPaths(TC, 1, lib);
    }
  }

  lemma HebpfSchemeOk()
    ensures SchemeOk(HEBPF)
  {
    HebpfIds();
    HebpfLibs();
    HebpfMarks();
    HebpfFiles();
  }

  // ---------------------------------------------------------------- scheduler entries

  function Pairs(cfgs: EbpfMap): set<(HookType, Ifindex)> {
    set n | n in cfgs :: (cfgs[n].hook, cfgs[n].ifindex)
  }

  function SchedulerEntry(scheme: Scheme, hook: HookType, nic: Ifindex): ConfigEbpf {
    ConfigEbpf(scheme.lib(hook, nic), "", hook, nic, 0)
  }

  /** One scheduler for every (hook, NIC) pair in use; `emplace` never replaces an entry of the same name. */
  ghost function WithSchedulers(scheme: Scheme, cfgs: EbpfMap): (all: EbpfMap)
    requires SchemeOk(scheme)
    ensures forall n | n in cfgs :: n in all && all[n] == cfgs[n]
    ensures forall n | n in all && n !in cfgs ::
              exists p :: p in Pairs(cfgs) && n == scheme.id(p.0, p.1) && all[n] == SchedulerEntry(scheme, p.0, p.1)
    ensures forall p | p in Pairs(cfgs) :: scheme.id(p.0, p.1) in all
  {
    var ids := set p | p in Pairs(cfgs) :: scheme.id(p.0, p.1);
    var added := map n | n in ids ::
      var p :| p in Pairs(cfgs) && n == scheme.id(p.0, p.1);
      SchedulerEntry(scheme, p.0, p.1);
    added + cfgs
  }

  /** The stored configuration without the entries that carry the scheduler id of their own hook and NIC. */
  function WithoutSchedulers(scheme: Scheme, cfgs: EbpfMap): EbpfMap {
    map n | n in cfgs && n != scheme.id(cfgs[n].hook, cfgs[n].ifindex) :: cfgs[n]
  }

  ghost predicate LibsInjective(cfgs: EbpfMap) {
    forall n, m | n in cfgs && m in cfgs && n != m :: cfgs[n].lib != cfgs[m].lib
  }

  /** What is asked of a supplied configuration: own libraries, none of them a scheduler's, and no scheduler's name. */
  ghost predicate ConfigOk(scheme: Scheme, cfgs: EbpfMap) {
    && LibsInjective(cfgs)
    && (forall n | n in cfgs :: cfgs[n].lib != "" && !Marked(cfgs[n].lib))
    && (forall n, h | n in cfgs :: cfgs[n].lib != scheme.path(h))
    && (forall n, h, i | n in cfgs :: n != scheme.id(h, i))
  }

  /** Stripping the schedulers of a stored configuration gives back what was supplied. */
  lemma StripUndoesSynthesis(scheme: Scheme, cfgs: EbpfMap)
    requires SchemeOk(scheme) && ConfigOk(scheme, cfgs)
    ensures WithoutSchedulers(scheme, WithSchedulers(scheme, cfgs)) == cfgs
  {
    var all := WithSchedulers(scheme, cfgs);
    forall n | n in all
      ensures n in cfgs <==> n != scheme.id(all[n].hook, all[n].ifindex)
    {
      if n !in cfgs {
        var p :| p in Pairs(cfgs) && n == scheme.id(p.0, p.1) && all[n] == SchedulerEntry(scheme, p.0, p.1);
      }
    }
  }

  /** Every library of a configuration with its schedulers is used once. */
  lemma AllLibsInjective(scheme: Scheme, cfgs: EbpfMap)
    requires SchemeOk(scheme) && ConfigOk(scheme, cfgs)
    ensures LibsInjective(WithSchedulers(scheme, cfgs))
  {
    var all := WithSchedulers(scheme, cfgs);
    forall n, m | n in all && m in all && n != m
      ensures all[n].lib != all[m].lib
    {
      if n !in cfgs {
        var p :| p in Pairs(cfgs) && n == scheme.id(p.0, p.1) && all[n] == SchedulerEntry(scheme, p.0, p.1);
        if m !in cfgs {
          var q :| q in Pairs(cfgs) && m == scheme.id(q.0, q.1) && all[m] == SchedulerEntry(scheme, q.0, q.1);
        }
      } else if m !in cfgs {
        var q :| q in Pairs(cfgs) && m == scheme.id(q.0, q.1) && all[m] == SchedulerEntry(scheme, q.0, q.1);
      }
    }
  }

  // ---------------------------------------------------------------- the calls of an update

  datatype Op =
    | Load(lib: string, hook: HookType, nic: Ifindex, config: string)
    | Unload(lib: string)
    | Register(lib: string, hook: HookType, nic: Ifindex, config: string)
    | Unregister(lib: string, config: string)

  function LoadOf(cfg: ConfigEbpf): Op {
    Load(cfg.lib, cfg.hook, cfg.ifindex, cfg.config)
  }

  function RegisterOf(cfg: ConfigEbpf): Op {
    Register(cfg.lib, cfg.hook, cfg.ifindex, cfg.config)
  }

  /** The calls made for one entry of the new configuration. */
  function EntryOps(current: EbpfMap, n: string, cfg: ConfigEbpf): seq<Op> {
    if n !in current then [LoadOf(cfg)]
    else
      var was := current[n];
      if was.lib != cfg.lib || was.hook != cfg.hook || was.ifindex != cfg.ifindex then [Unload(was.lib), LoadOf(cfg)]
      else if was.config != cfg.config then [Unregister(was.lib, was.config), RegisterOf(cfg)]
      else []
  }

  ghost function LoadOps(names: seq<string>, current: EbpfMap, target: EbpfMap): seq<Op>
    requires forall n | n in names :: n in target
  {
    if names == [] then [] else EntryOps(current, names[0], target[names[0]]) + LoadOps(names[1..], current, target)
  }

  ghost function UnloadOps(names: seq<string>, current: EbpfMap, supplied: EbpfMap): seq<Op>
    requires forall n | n in names :: n in current
  {
    if names == [] then []
    else
      var first := if names[0] in supplied then [] else [Unload(current[names[0]].lib)];
      first + UnloadOps(names[1..], current, supplied)
  }

  /** All loader calls of `update(supplied)` when `current` is stored, in order. */
  ghost function Plan(scheme: Scheme, current: EbpfMap, supplied: EbpfMap): seq<Op>
    requires SchemeOk(scheme)
  {
    var bare := WithoutSchedulers(scheme, current);
    var target := WithSchedulers(scheme, supplied);
    UnloadOps(Ascending(bare.Keys), bare, supplied) + LoadOps(Ascending(target.Keys), current, target)
  }

  predicate NeedsRebuild(scheme: Scheme, current: EbpfMap, supplied: EbpfMap) {
    supplied != WithoutSchedulers(scheme, current)
  }

  lemma {:induction false} NothingToLoad(names: seq<string>, cfgs: EbpfMap)
    requires forall n | n in names :: n in cfgs
    ensures LoadOps(names, cfgs, cfgs) == []
  {
    if names != [] {
      NothingToLoad(names[1..], cfgs);
    }
  }

  lemma {:induction false} NothingToUnload(names: seq<string>, cfgs: EbpfMap)
    requires forall n | n in names :: n in cfgs
    ensures UnloadOps(names, cfgs, cfgs) == []
  {
    if names != [] {
      NothingToUnload(names[1..], cfgs);
    }
  }

  /** A second update with an equal configuration loads, unloads, re-registers and rebuilds nothing. */
  lemma UpdateIsIdempotent(scheme: Scheme, cfgs: EbpfMap)
    requires SchemeOk(scheme) && ConfigOk(scheme, cfgs)
    ensures Plan(scheme, WithSchedulers(scheme, cfgs), cfgs) == []
    ensures !NeedsRebuild(scheme, WithSchedulers(scheme, cfgs), cfgs)
  {
    StripUndoesSynthesis(scheme, cfgs);
    NothingToUnload(Ascending(cfgs.Keys), cfgs);
    var all := WithSchedulers(scheme, cfgs);
    NothingToLoad(Ascending(all.Keys), all);
  }
}
