/**
Official program names and scheduler keys: getCanonicalName of src/ebpf/pinned_prog_map.cc, and the id and
library key that src/daemon/daemon.cc formats for each scheduler.
*/
module Naming {
  import opened Hooks
  import opened Text
  import opened Wrappers

  /** magic_enum's name of the value. */
  function EnumName(hook: HookType): (s: string)
    ensures |s| >= 1
  {
    match hook
    case TC => "TC"
    case XDP_GENERIC => "XDP_GENERIC"
    case XDP_NATIVE => "XDP_NATIVE"
    case XDP_OFFLOAD => "XDP_OFFLOAD"
    case KProbe => "KProbe"
    case UNKNOWN => "UNKNOWN"
  }

  datatype UnofficialName = PROGRAM | LIBRARY

  const LIB_PREFIX := "libhebpf_"
  const SCHEDULER_DIR := "build/src/services/scheduler/"

  /** The part after the last '/', as std::filesystem::path::filename gives it. */
  function Filename(path: string): string {
    path[AfterLast(path, '/')..]
  }

  function StripSo(filename: string): string {
    if EndsWith(filename, ".so") then filename[..|filename| - 3] else filename
  }

  /** What follows `prefix`, up to the first '_'; None when the prefix is missing. */
  function Stem(prefix: string, filename: string): Option<string> {
    if prefix <= filename then
      var rest := filename[|prefix|..];
      Some(rest[..FirstIndex(rest, '_')])
    else None
  }

  /** What is left of a library path after directory, ".so", "libhebpf_" and "_suffix" are gone; None if ill-named. */
  function LibraryStem(path: string): Option<string> {
    Stem(LIB_PREFIX, StripSo(Filename(path)))
  }

  function CanonicalName(hook: HookType, kind: UnofficialName, name: string): string {
    if kind.PROGRAM? then ToUpper(name) + "_" + EnumName(hook)
    else
      match LibraryStem(name)
      case Some(stem) => ToUpper(stem) + "_" + EnumName(hook)
      case None => name
  }

  /** getCanonicalName step by step. */
  method GetCanonicalName(hook: HookType, kind: UnofficialName, name: string) returns (result: string)
    ensures result == CanonicalName(hook, kind, name)
  {
    var path := name;
    if kind.LIBRARY? {
      var filename := Filename(path);
      if EndsWith(filename, ".so") {
        filename := filename[..|filename| - 3];
      }
      if !(LIB_PREFIX <= filename) {
        return path;
      }
      path := filename[|LIB_PREFIX|..];
      var underscore := FirstIndex(path, '_');
      if underscore < |path| {
        path := path[..underscore];
      }
    }
    result := ToUpper(path) + "_" + EnumName(hook);
  }

  /** `dir` is empty or ends in '/'; `tail` is empty or "_suffix". */
  function LibraryPath(dir: string, name: string, tail: string): string {
    dir + (LIB_PREFIX + (name + tail) + ".so")
  }

  predicate WellFormedPieces(dir: string, name: string, tail: string) {
    && (dir == "" || dir[|dir| - 1] == '/')
    && '_' !in name && '/' !in name
    && (tail == "" || tail[0] == '_') && '/' !in tail
  }

  lemma FilenameOf(dir: string, file: string)
    requires dir == "" || dir[|dir| - 1] == '/'
    requires '/' !in file
    ensures Filename(dir + file) == file
  {
    AfterLastOf(dir, file, '/');
  }

  lemma StemOf(prefix: string, name: string, tail: string)
    requires '_' !in name && (tail == "" || tail[0] == '_')
    ensures Stem(prefix, prefix + (name + tail)) == Some(name)
  {
    var rest := name + tail;
    assert (prefix + rest)[|prefix|..] == rest;
    FirstIndexOf(name, tail, '_');
    assert rest[..|name|] == name;
  }

  lemma StripSoOf(base: string)
    ensures StripSo(base + ".so") == base
  {
  }

  /**
  The name under which `updateChain` files a library equals the one under which `insertProg` looks its program
  up, for every directory, every name without '_' and '/', and every "_suffix".
  */
  lemma NamingAgreement(hook: HookType, dir: string, name: string, tail: string)
    requires WellFormedPieces(dir, name, tail)
    ensures CanonicalName(hook, LIBRARY, LibraryPath(dir, name, tail)) == CanonicalName(hook, PROGRAM, name)
  {
    var base := LIB_PREFIX + (name + tail);
    FilenameOf(dir, base + ".so");
    StripSoOf(base);
    StemOf(LIB_PREFIX, name, tail);
  }

  // ---------------------------------------------------------------- schedulers

  /** The library the daemon loads as scheduler of a hook: libhebpf_scheduler.so or libhebpf_scheduler_xdp.so. */
  function SchedulerPath(hook: HookType): string {
    LibraryPath(SCHEDULER_DIR, "scheduler", if hook.TC? then "" else "_xdp")
  }

  /** `{hook}_{ifindex}`, the part that makes a scheduler's names unique. */
  function HookNic(hook: HookType, ifindex: nat): string {
    EnumName(hook) + "_" + Dec(ifindex)
  }

  /** Key of a scheduler among the configured services. */
  function SchedulerId(hook: HookType, ifindex: nat): string {
    "scheduler;" + HookNic(hook, ifindex)
  }

  /** Key of a scheduler among the loaded libraries. */
  function SchedulerLib(hook: HookType, ifindex: nat): string {
    SchedulerPath(hook) + ";" + HookNic(hook, ifindex)
  }

  /** The file behind a library key: everything before the last ';', if there is one. */
  function RealPath(lib: string): string {
    var i := AfterLast(lib, ';');
    if i > 0 then lib[..i - 1] else lib
  }

  lemma EnumNameInjective(h: HookType, h': HookType)
    requires EnumName(h) == EnumName(h')
    ensures h == h'
  {
    if |EnumName(h)| == 11 {
      assert EnumName(h)[4] == EnumName(h')[4];
    }
  }

  lemma HookNicPlain(hook: HookType, ifindex: nat)
    ensures ';' !in HookNic(hook, ifindex)
  {
    assert ';' !in DECIMAL;
  }

  lemma HookNicInjective(h: HookType, i: nat, h': HookType, i': nat)
    requires HookNic(h, i) == HookNic(h', i')
    ensures h == h' && i == i'
  {
    assert '_' !in DECIMAL;
    SplitAtLast(EnumName(h) + "_", Dec(i), EnumName(h') + "_", Dec(i'), '_');
    var a, a' := EnumName(h) + "_", EnumName(h') + "_";
    assert EnumName(h) == a[..|a| - 1] && EnumName(h') == a'[..|a'| - 1];
    EnumNameInjective(h, h');
    DecInjective(i, i');
  }

  lemma AfterSemicolon(prefix: string, rest: string, prefix': string, rest': string)
    requires prefix + ";" + rest == prefix' + ";" + rest' && ';' !in rest && ';' !in rest'
    ensures prefix == prefix' && rest == rest'
  {
    SplitAtLast(prefix + ";", rest, prefix' + ";", rest', ';');
    var a, a' := prefix + ";", prefix' + ";";
    assert prefix == a[..|a| - 1] && prefix' == a'[..|a'| - 1];
  }

  /** No two (hook, NIC) pairs share a scheduler id or a scheduler library key. */
  lemma SchedulerKeysInjective(h: HookType, i: nat, h': HookType, i': nat)
    ensures SchedulerId(h, i) == SchedulerId(h', i') ==> h == h' && i == i'
    ensures SchedulerLib(h, i) == SchedulerLib(h', i') ==> h == h' && i == i'
  {
    HookNicPlain(h, i);
    HookNicPlain(h', i');
    if SchedulerId(h, i) == SchedulerId(h', i') {
      assert SchedulerId(h, i) == "scheduler" + ";" + HookNic(h, i);
      assert SchedulerId(h', i') == "scheduler" + ";" + HookNic(h', i');
      AfterSemicolon("scheduler", HookNic(h, i), "scheduler", HookNic(h', i'));
      HookNicInjective(h, i, h', i');
    }
    if SchedulerLib(h, i) == SchedulerLib(h', i') {
      AfterSemicolon(SchedulerPath(h), HookNic(h, i), SchedulerPath(h'), HookNic(h', i'));
      HookNicInjective(h, i, h', i');
    }
  }

  lemma RealPathOf(path: string, rest: string)
    requires ';' !in rest
    ensures RealPath(path + ";" + rest) == path && ';' in path + ";" + rest
  {
    AfterLastOf(path + ";", rest, ';');
    assert (path + ";" + rest)[..|path|] == path;
    assert (path + ";" + rest)[|path|] == ';';
  }

  /** The loader recovers the scheduler library from the key; a key without ';' is its own path. */
  lemma RealPaths(hook: HookType, ifindex: nat, lib: string)
    ensures RealPath(SchedulerLib(hook, ifindex)) == SchedulerPath(hook)
    ensures ';' in SchedulerLib(hook, ifindex)
    ensures ';' !in lib ==> RealPath(lib) == lib
  {
    HookNicPlain(hook, ifindex);
    RealPathOf(SchedulerPath(hook), HookNic(hook, ifindex));
    if ';' !in lib {
      AfterLastOf("", lib, ';');
      assert "" + lib == lib;
    }
  }

  /** Both scheduler libraries are well named, so a scheduler's official name is "SCHEDULER_{hook}". */
  lemma SchedulerName(hook: HookType)
    ensures CanonicalName(hook, LIBRARY, SchedulerPath(hook)) == CanonicalName(hook, PROGRAM, "scheduler")
  {
    NamingAgreement(hook, SCHEDULER_DIR, "scheduler", if hook.TC? then "" else "_xdp");
  }
}
