/**
The table of watched configuration files (src/inotify/inotify_manager.cc).  Only directories are watched by the
kernel; the first entry of a directory's vector holds the descriptor.
*/
module InotifyManager {
  import opened Text
  import opened Wrappers

  const FD_INVALID := -1

  datatype WatchInfo = WatchInfo(fd: int, config: string)
  type Table = map<string, seq<WatchInfo>>

  /** Texts that name the same directory have the same form here. */
  type Spelling = string -> string

  /** Live watch descriptors and the directory each stands for. */
  type Live = map<int, string>

  /** The kernel's inotify instance. */
  class Inotify {
    const canon: Spelling
    var live: Live
    var next: int

    constructor (canon: Spelling)
      ensures Valid() && live == map[] && this.canon == canon
    {
      this.canon, live, next := canon, map[], 1;
    }

    /** A directory has one descriptor, and descriptors are not used again. */
    ghost predicate Valid()
      reads this
    {
      && next >= 1 && (forall wd | wd in live :: 1 <= wd < next)
      && forall v, w | v in live && w in live && live[v] == live[w] :: v == w
    }

    /** inotify_add_watch: may fail, returns the descriptor of an already watched directory, else a fresh one. */
    method AddWatch(dir: string) returns (wd: int)
      requires Valid()
      modifies this
      ensures Valid() && next >= old(next)
      ensures wd == FD_INVALID ==> live == old(live)
      ensures wd != FD_INVALID ==> live == old(live)[wd := canon(dir)] && wd < next
      ensures wd in old(live) ==> live == old(live)
      ensures wd != FD_INVALID && wd !in old(live) ==> wd == old(next)
    {
      if * {
        return FD_INVALID;
      }
      if w :| w in live && live[w] == canon(dir) {
        assert live == live[w := canon(dir)];
        return w;
      }
      wd := next;
      live, next := live[wd := canon(dir)], next + 1;
    }

    /** inotify_rm_watch: fails on a descriptor that is not live. */
    method RemoveWatch(wd: int) returns (ok: bool)
      requires Valid()
      modifies this
      ensures Valid() && next == old(next)
      ensures ok <==> wd in old(live)
      ensures live == old(live) - {wd}
    {
      ok := wd in live;
      live := live - {wd};
    }
  }

  // ---------------------------------------------------------------- the table as a value

  ghost predicate DistinctPaths(infos: seq<WatchInfo>) {
    forall i, j | 0 <= i < j < |infos| :: infos[i].config != infos[j].config
  }

  /** What the vector of directory `dir` must satisfy. */
  ghost predicate VectorOk(infos: seq<WatchInfo>, dir: string, parent: string -> string) {
    && infos != [] && DistinctPaths(infos)
    && (forall i | 0 <= i < |infos| :: parent(infos[i].config) == dir)
    && (forall i | 1 <= i < |infos| :: infos[i].fd == FD_INVALID)
  }

  /** A head's descriptor is one given out; while it is live it stands for the directory. */
  ghost predicate HeadOk(fd: int, dir: string, live: Live, next: int, canon: Spelling) {
    fd != FD_INVALID ==> 1 <= fd < next && (fd in live ==> live[fd] == canon(dir))
  }

  predicate Holds(table: Table, dir: string, wd: int) {
    dir in table && table[dir] != [] && table[dir][0].fd == wd
  }

  ghost predicate Held(table: Table, wd: int) {
    exists dir :: Holds(table, dir, wd)
  }

  /** The vectors are in order, and every live descriptor is held by the head of one. */
  ghost predicate TableInv(table: Table, live: Live, next: int, parent: string -> string, canon: Spelling) {
    && FD_INVALID !in live
    && VectorsOk(table, parent)
    && (forall dir | dir in table && table[dir] != [] :: HeadOk(table[dir][0].fd, dir, live, next, canon))
    && (forall wd | wd in live :: Held(table, wd))
  }

  /** The head holds a descriptor that the kernel no longer knows. */
  predicate Dangling(table: Table, live: Live, dir: string) {
    dir in table && table[dir] != [] && table[dir][0].fd != FD_INVALID && table[dir][0].fd !in live
  }

  ghost predicate NoneDangling(table: Table, live: Live) {
    forall dir :: !Dangling(table, live, dir)
  }

  /** No directory is spelled in two ways. */
  ghost predicate OneSpelling(parent: string -> string, canon: Spelling) {
    forall p, q | canon(parent(p)) == canon(parent(q)) :: parent(p) == parent(q)
  }

  predicate Listed(infos: seq<WatchInfo>, path: string) {
    exists i :: 0 <= i < |infos| && infos[i].config == path
  }

  /** The configuration files the table lists. */
  ghost predicate Watched(table: Table, parent: string -> string, path: string) {
    parent(path) in table && Listed(table[parent(path)], path)
  }

  ghost function Files(table: Table): set<string> {
    set dir, i | dir in table && 0 <= i < |table[dir]| :: table[dir][i].config
  }

  ghost predicate VectorsOk(table: Table, parent: string -> string) {
    forall dir | dir in table :: VectorOk(table[dir], dir, parent)
  }

  /** In a sound table every listed file is found under its own directory. */
  lemma FilesAreWatched(table: Table, parent: string -> string)
    requires VectorsOk(table, parent)
    ensures forall p :: p in Files(table) <==> Watched(table, parent, p)
  {
    forall p ensures p in Files(table) <==> Watched(table, parent, p) {
      if p in Files(table) {
        var dir, i :| dir in table && 0 <= i < |table[dir]| && table[dir][i].config == p;
        assert VectorOk(table[dir], dir, parent);
      }
    }
  }

  function Appended(table: Table, dir: string, info: WatchInfo): Table {
    table[dir := (if dir in table then table[dir] else []) + [info]]
  }

  function IndexOf(infos: seq<WatchInfo>, path: string): (i: nat)
    ensures i <= |infos|
    ensures i < |infos| ==> infos[i].config == path
    ensures i == |infos| <==> !Listed(infos, path)
    ensures forall j | 0 <= j < i :: infos[j].config != path
  {
    if infos == [] then 0
    else if infos[0].config == path then assert Listed(infos, path); 0
    else
      var i := 1 + IndexOf(infos[1..], path);
      assert Listed(infos, path) <==> Listed(infos[1..], path) by {
        if k :| 0 <= k < |infos| && infos[k].config == path {
          assert infos[1..][k - 1].config == path;
        }
        if k :| 0 <= k < |infos[1..]| && infos[1..][k].config == path {
          assert infos[k + 1].config == path;
        }
      }
      i
  }

  function Dropped(infos: seq<WatchInfo>, i: nat): seq<WatchInfo>
    requires i < |infos|
  {
    infos[..i] + infos[i + 1..]
  }

  function Removed(table: Table, dir: string, i: nat): Table
    requires dir in table && i < |table[dir]|
  {
    if |table[dir]| == 1 then table - {dir} else table[dir := Dropped(table[dir], i)]
  }

  lemma AppendKeepsVectors(table: Table, parent: string -> string, path: string, wd: int)
    requires VectorsOk(table, parent) && !Watched(table, parent, path)
    requires parent(path) in table ==> wd == FD_INVALID
    ensures VectorsOk(Appended(table, parent(path), WatchInfo(wd, path)), parent)
    ensures forall p :: Watched(Appended(table, parent(path), WatchInfo(wd, path)), parent, p) <==>
                        Watched(table, parent, p) || p == path
  {
    var dir := parent(path);
    var before := if dir in table then table[dir] else [];
    var after := before + [WatchInfo(wd, path)];
    assert dir in table ==> VectorOk(before, dir, parent);
    assert after[|before|].config == path;
    forall p ensures Listed(after, p) <==> Listed(before, p) || p == path {
      if i :| 0 <= i < |before| && before[i].config == p {
        assert after[i].config == p;
      }
    }
    forall i | 0 <= i < |before| ensures after[i] == before[i] && before[i].config != path {
      assert dir in table;
      assert !Listed(before, path);
    }
  }

  /** What inotify_add_watch may yield for the first file of a directory, and no descriptor for any other. */
  ghost predicate WatchAdded(table: Table, dir: string, live: Live, next: int, wd: int, live': Live, next': int,
                             canon: Spelling) {
    if dir in table then wd == FD_INVALID && live' == live && next' == next
    else
      && wd != FD_INVALID && live' == live[wd := canon(dir)] && 1 <= wd < next' && next <= next'
      && (wd in live ==> live[wd] == canon(dir)) && (wd !in live ==> wd == next)
  }

  lemma AppendKeepsInv(table: Table, live: Live, next: int, parent: string -> string, canon: Spelling, path: string,
                       wd: int, live': Live, next': int)
    requires TableInv(table, live, next, parent, canon) && !Watched(table, parent, path)
    requires WatchAdded(table, parent(path), live, next, wd, live', next', canon)
    ensures TableInv(Appended(table, parent(path), WatchInfo(wd, path)), live', next', parent, canon)
    ensures NoneDangling(table, live) ==> NoneDangling(Appended(table, parent(path), WatchInfo(wd, path)), live')
  {
    AppendKeepsVectors(table, parent, path, wd);
    var dir := parent(path);
    var after := Appended(table, dir, WatchInfo(wd, path));
    assert dir in table ==> VectorOk(table[dir], dir, parent);
    forall d | d in table ensures after[d] != [] && after[d][0] == table[d][0] {
      assert VectorOk(table[d], d, parent);
    }
    forall w | w in live' ensures Held(after, w) {
      if w == wd {
        assert Holds(after, dir, w);
      } else {
        assert Held(table, w);
        var d :| Holds(table, d, w);
        assert Holds(after, d, w);
      }
    }
    forall d | NoneDangling(table, live) ensures !Dangling(after, live', d) {
      assert !Dangling(table, live, d);
    }
  }

  lemma RemoveKeepsVectors(table: Table, parent: string -> string, path: string)
    requires VectorsOk(table, parent) && Watched(table, parent, path)
    ensures var dir := parent(path);
            VectorsOk(Removed(table, dir, IndexOf(table[dir], path)), parent)
  {
    var dir := parent(path);
    assert VectorOk(table[dir], dir, parent);
  }

  lemma RemoveUnwatches(table: Table, parent: string -> string, path: string)
    requires VectorsOk(table, parent) && Watched(table, parent, path)
    ensures var dir := parent(path);
            forall p ::
              Watched(Removed(table, dir, IndexOf(table[dir], path)), parent, p) <==>
              Watched(table, parent, p) && p != path
  {
    var dir := parent(path);
    var infos := table[dir];
    assert VectorOk(infos, dir, parent);
    forall p
      ensures Watched(Removed(table, dir, IndexOf(infos, path)), parent, p) <==> Watched(table, parent, p) && p != path
    {
      DroppedLists(infos, IndexOf(infos, path), p);
    }
  }

  lemma DroppedLists(infos: seq<WatchInfo>, i: nat, p: string)
    requires i < |infos| && DistinctPaths(infos)
    ensures Listed(Dropped(infos, i), p) <==> Listed(infos, p) && p != infos[i].config
  {
    var after := Dropped(infos, i);
    if k :| 0 <= k < |infos| && infos[k].config == p && k != i {
      assert after[if k < i then k else k - 1].config == p;
    }
    if k :| 0 <= k < |after| && after[k].config == p {
      assert infos[if k < i then k else k + 1].config == p;
    }
  }

  /** The head of the directory is the entry of the file. */
  predicate IsHead(table: Table, parent: string -> string, path: string) {
    parent(path) in table && table[parent(path)] != [] && table[parent(path)][0].config == path
  }

  /** The heads after a removal: those of other directories stay, and behind a head gone stands no descriptor. */
  lemma HeadsAfterRemoval(table: Table, parent: string -> string, path: string)
    requires VectorsOk(table, parent) && Watched(table, parent, path)
    ensures var dir := parent(path);
            var after := Removed(table, dir, IndexOf(table[dir], path));
            && table[dir] != []
            && (forall d | d in after :: d in table && after[d] != [] && table[d] != [] &&
                  after[d][0].fd == if d == dir && IsHead(table, parent, path) then FD_INVALID else table[d][0].fd)
            && (forall d | d in table && (d != dir || !IsHead(table, parent, path)) :: d in after)
            && table[dir][IndexOf(table[dir], path)].fd ==
               if IsHead(table, parent, path) then table[dir][0].fd else FD_INVALID
  {
    var dir := parent(path);
    var i := IndexOf(table[dir], path);
    assert VectorOk(table[dir], dir, parent);
    assert IsHead(table, parent, path) <==> i == 0;
    forall d | d in table ensures table[d] != [] {
      assert VectorOk(table[d], d, parent);
    }
  }

  lemma RemoveKeepsInv(table: Table, live: Live, next: int, parent: string -> string, canon: Spelling, path: string)
    requires TableInv(table, live, next, parent, canon) && Watched(table, parent, path)
    ensures var dir := parent(path);
            var i := IndexOf(table[dir], path);
            TableInv(Removed(table, dir, i), live - {table[dir][i].fd}, next, parent, canon)
  {
    var dir := parent(path);
    var i := IndexOf(table[dir], path);
    var after, live' := Removed(table, dir, i), live - {table[dir][i].fd};
    RemoveKeepsVectors(table, parent, path);
    HeadsAfterRemoval(table, parent, path);
    forall wd | wd in live' ensures Held(after, wd) {
      assert Held(table, wd);
      var d :| Holds(table, d, wd);
      assert Holds(after, d, wd);
    }
  }

  // ---------------------------------------------------------------- which directories still deliver events

  /** The head of the directory's vector holds a live descriptor. */
  predicate DirectoryLive(table: Table, live: Live, dir: string) {
    dir in table && table[dir] != [] && table[dir][0].fd in live
  }

  /** One descriptor per directory, however it is spelled. */
  ghost predicate OnePerDirectory(live: Live) {
    forall v, w | v in live && w in live && live[v] == live[w] :: v == w
  }

  /** The removal gives up the descriptor of the directory that is also `d`. */
  ghost predicate GivesUp(table: Table, live: Live, parent: string -> string, canon: Spelling, path: string, d: string)
  {
    IsHead(table, parent, path) && DirectoryLive(table, live, parent(path)) && canon(d) == canon(parent(path))
  }

  /**
  A removal ends the watch of a directory exactly if the entry removed is the head of that directory, be it under
  another spelling.
  */
  lemma RemovalKeepsDirectoryLiveExactly(table: Table, live: Live, next: int, parent: string -> string,
                                         canon: Spelling, path: string, d: string)
    requires TableInv(table, live, next, parent, canon) && OnePerDirectory(live) && Watched(table, parent, path)
    requires DirectoryLive(table, live, d)
    ensures var dir := parent(path);
            var i := IndexOf(table[dir], path);
            DirectoryLive(Removed(table, dir, i), live - {table[dir][i].fd}, d) <==>
            !GivesUp(table, live, parent, canon, path, d)
  {
    HeadsAfterRemoval(table, parent, path);
  }

  /** An append puts a watch on the directory of a first file, and all watches on directories stay. */
  lemma AppendWatchesDirectory(table: Table, live: Live, next: int, parent: string -> string, canon: Spelling,
                               path: string, wd: int, live': Live, next': int)
    requires TableInv(table, live, next, parent, canon)
    requires WatchAdded(table, parent(path), live, next, wd, live', next', canon)
    ensures LiveAfterAppend(table, live, parent(path), Appended(table, parent(path), WatchInfo(wd, path)), live')
  {
    var dir := parent(path);
    var after := Appended(table, dir, WatchInfo(wd, path));
    forall d | d in table ensures after[d] != [] && table[d] != [] && after[d][0] == table[d][0] {
      assert VectorOk(table[d], d, parent);
    }
  }

  ghost predicate LiveAfterAppend(table: Table, live: Live, dir: string, table': Table, live': Live) {
    forall d :: DirectoryLive(table', live', d) <==> DirectoryLive(table, live, d) || (d == dir && dir !in table)
  }

  ghost predicate LiveAfterRemoval(table: Table, live: Live, parent: string -> string, canon: Spelling, path: string,
                                   table': Table, live': Live) {
    forall d :: DirectoryLive(table', live', d) <==>
                DirectoryLive(table, live, d) && !(Watched(table, parent, path)
                                                   && GivesUp(table, live, parent, canon, path, d))
  }

  lemma RemovalWatchesRest(table: Table, live: Live, next: int, parent: string -> string, canon: Spelling, path: string)
    requires TableInv(table, live, next, parent, canon) && OnePerDirectory(live) && Watched(table, parent, path)
    ensures var dir := parent(path);
            var i := IndexOf(table[dir], path);
            LiveAfterRemoval(table, live, parent, canon, path, Removed(table, dir, i), live - {table[dir][i].fd})
  {
    HeadsAfterRemoval(table, parent, path);
    forall d | DirectoryLive(table, live, d) {
      RemovalKeepsDirectoryLiveExactly(table, live, next, parent, canon, path, d);
    }
  }

  /** So descriptors are left dangling exactly if the head of another spelling of its directory is removed. */
  lemma RemovalLeavesDanglingExactly(table: Table, live: Live, next: int, parent: string -> string, canon: Spelling,
                                     path: string)
    requires TableInv(table, live, next, parent, canon) && OnePerDirectory(live) && Watched(table, parent, path)
    requires NoneDangling(table, live)
    ensures var dir := parent(path);
            var i := IndexOf(table[dir], path);
            NoneDangling(Removed(table, dir, i), live - {table[dir][i].fd}) <==>
            forall d | d != dir && DirectoryLive(table, live, d) :: !GivesUp(table, live, parent, canon, path, d)
  {
    var dir := parent(path);
    var i := IndexOf(table[dir], path);
    var after, live' := Removed(table, dir, i), live - {table[dir][i].fd};
    HeadsAfterRemoval(table, parent, path);
    forall d | d != dir && DirectoryLive(table, live, d)
      ensures Dangling(after, live', d) <==> GivesUp(table, live, parent, canon, path, d)
    {
      RemovalKeepsDirectoryLiveExactly(table, live, next, parent, canon, path, d);
    }
    forall d | Dangling(after, live', d) ensures d != dir && DirectoryLive(table, live, d) {
      assert !Dangling(table, live, d);
    }
  }

  /** Where no directory is spelled in two ways, none ever dangles. */
  lemma OneSpellingLeavesNone(table: Table, live: Live, next: int, parent: string -> string, canon: Spelling,
                              path: string)
    requires TableInv(table, live, next, parent, canon) && OnePerDirectory(live) && Watched(table, parent, path)
    requires NoneDangling(table, live) && OneSpelling(parent, canon)
    ensures var dir := parent(path);
            var i := IndexOf(table[dir], path);
            NoneDangling(Removed(table, dir, i), live - {table[dir][i].fd})
  {
    RemovalLeavesDanglingExactly(table, live, next, parent, canon, path);
    forall d | d in table ensures parent(table[d][0].config) == d {
      assert VectorOk(table[d], d, parent);
    }
  }

  /** Everything a removal keeps. */
  ghost predicate SoundRemoval(table: Table, live: Live, next: int, parent: string -> string, canon: Spelling,
                               path: string, after: Table, live': Live) {
    && TableInv(after, live', next, parent, canon)
    && (NoneDangling(table, live) && OneSpelling(parent, canon) ==> NoneDangling(after, live'))
    && forall p :: Watched(after, parent, p) <==> Watched(table, parent, p) && p != path
  }

  lemma WhatRemovalDoes(table: Table, live: Live, next: int, parent: string -> string, canon: Spelling, path: string)
    requires TableInv(table, live, next, parent, canon) && OnePerDirectory(live) && Watched(table, parent, path)
    ensures var dir := parent(path);
            var i := IndexOf(table[dir], path);
            var fd := table[dir][i].fd;
            && SoundRemoval(table, live, next, parent, canon, path, Removed(table, dir, i), live - {fd})
            && (fd == FD_INVALID ==> live - {fd} == live)
            && (IsHead(table, parent, path) && Dangling(table, live, dir) <==> fd != FD_INVALID && fd !in live)
  {
    RemoveKeepsInv(table, live, next, parent, canon, path);
    RemoveUnwatches(table, parent, path);
    if NoneDangling(table, live) && OneSpelling(parent, canon) {
      OneSpellingLeavesNone(table, live, next, parent, canon, path);
    }
    HeadsAfterRemoval(table, parent, path);
  }

  /** Once the head or its descriptor is gone, further files of the directory are listed but never watched again. */
  lemma DeadDirectoryStaysDead(table: Table, live: Live, next: int, parent: string -> string, canon: Spelling,
                               path: string)
    requires TableInv(table, live, next, parent, canon) && !Watched(table, parent, path)
    requires parent(path) in table && !DirectoryLive(table, live, parent(path))
    ensures Watched(Appended(table, parent(path), WatchInfo(FD_INVALID, path)), parent, path)
    ensures !DirectoryLive(Appended(table, parent(path), WatchInfo(FD_INVALID, path)), live, parent(path))
  {
    AppendKeepsVectors(table, parent, path, FD_INVALID);
    assert VectorOk(table[parent(path)], parent(path), parent);
  }

  // ---------------------------------------------------------------- whose callback an event runs

  /** The bare name that the kernel reports for a file of a watched directory. */
  function BareName(path: string): string {
    path[AfterLast(path, '/')..]
  }

  /** The parent of a name without '/' is the current directory. */
  ghost predicate BareNamesInDot(parent: string -> string) {
    forall name | name != "" && '/' !in name :: parent(name) == "."
  }

  /** onInotifyEvent: the entry whose path is the reported name, in the directory that the name has as a path. */
  function Receiver(table: Table, parent: string -> string, name: string): Option<WatchInfo> {
    var dir := parent(name);
    if dir in table && IndexOf(table[dir], name) < |table[dir]|
    then Some(table[dir][IndexOf(table[dir], name)]) else None
  }

  /** Changes in the directory are reported by the kernel. */
  ghost predicate Reported(live: Live, canon: Spelling, dir: string) {
    exists wd :: wd in live && live[wd] == canon(dir)
  }

  /** A change to the file is reported, and runs the callback of its own entry. */
  ghost predicate Delivered(table: Table, live: Live, parent: string -> string, canon: Spelling, path: string) {
    && Reported(live, canon, parent(path)) && Receiver(table, parent, BareName(path)).Some?
    && Receiver(table, parent, BareName(path)).value.config == path
  }

  /** The kernel reports the changes of a directory exactly if the head of some spelling holds a live descriptor. */
  lemma ReportedExactly(table: Table, live: Live, next: int, parent: string -> string, canon: Spelling, dir: string)
    requires TableInv(table, live, next, parent, canon)
    ensures Reported(live, canon, dir) <==> exists d :: DirectoryLive(table, live, d) && canon(d) == canon(dir)
  {
    if wd :| wd in live && live[wd] == canon(dir) {
      assert Held(table, wd);
      var d :| Holds(table, d, wd);
      assert DirectoryLive(table, live, d);
    }
  }

  lemma BareNamePlain(path: string)
    ensures '/' !in BareName(path)
    ensures BareName(path) == path <==> '/' !in path
  {
    if '/' !in path {
      AfterLastOf("", path, '/');
      assert "" + path == path;
    }
  }

  /**
  Of the listed files exactly those are delivered that are listed by their bare name while the watch on the current
  directory stands.  The report of any other file is looked up in the current directory, too.
  */
  lemma DeliveredExactly(table: Table, live: Live, next: int, parent: string -> string, canon: Spelling, path: string)
    requires TableInv(table, live, next, parent, canon) && BareNamesInDot(parent) && Watched(table, parent, path)
             && BareName(path) != ""
    ensures Delivered(table, live, parent, canon, path) <==>
            '/' !in path && exists d :: DirectoryLive(table, live, d) && canon(d) == canon(".")
    ensures Receiver(table, parent, BareName(path)).Some? <==> Watched(table, parent, BareName(path))
  {
    ReportedExactly(table, live, next, parent, canon, parent(path));
    BareNamePlain(path);
  }

  // ---------------------------------------------------------------- the manager

  class Manager {
    const inotify: Inotify
    /** Text of the parent directory; any function will do for the table. */
    const parent: string -> string
    var table: Table

    constructor (inotify: Inotify, parent: string -> string)
      requires inotify.Valid() && inotify.live == map[]
      ensures Valid() && table == map[] && this.inotify == inotify && this.parent == parent
    {
      this.inotify, this.parent, table := inotify, parent, map[];
    }

    ghost predicate Valid()
      reads this, inotify
    {
      inotify.Valid() && TableInv(table, inotify.live, inotify.next, parent, inotify.canon)
    }

    /** No directory is spelled in two ways, and no descriptor dangles. */
    ghost predicate Sound()
      reads this, inotify
    {
      NoneDangling(table, inotify.live) && OneSpelling(parent, inotify.canon)
    }

    ghost predicate Watches(path: string)
      reads this
    {
      Watched(table, parent, path)
    }

    lemma FilesWatched()
      requires Valid()
      ensures forall p :: p in Files(table) <==> Watches(p)
    {
      FilesAreWatched(table, parent);
    }

    method WatchConfig(path: string) returns (ok: bool)
      requires Valid()
      modifies this, inotify
      ensures Valid() && (old(Sound()) ==> Sound())
      ensures ok ==> forall p :: Watches(p) <==> old(Watches(p)) || p == path
      ensures ok && !old(Watches(path)) ==>
                exists wd :: table == Appended(old(table), parent(path), WatchInfo(wd, path))
      ensures !ok || old(Watches(path)) ==> table == old(table) && inotify.live == old(inotify.live)
      ensures !ok ==> parent(path) !in old(table)
      ensures ok ==> LiveAfterAppend(old(table), old(inotify.live), parent(path), table, inotify.live)
      ensures Files(table) == old(Files(table)) + if ok then {path} else {}
    {
      FilesWatched();
      var dir := parent(path);
      if dir in table && IndexOf(table[dir], path) < |table[dir]| {
        return true;
      }
      ghost var live, next := inotify.live, inotify.next;
      var wd := FD_INVALID;
      if dir !in table {
        wd := inotify.AddWatch(dir);
        if wd == FD_INVALID {
          return false;
        }
      }
      AppendKeepsVectors(table, parent, path, wd);
      AppendKeepsInv(table, live, next, parent, inotify.canon, path, wd, inotify.live, inotify.next);
      AppendWatchesDirectory(table, live, next, parent, inotify.canon, path, wd, inotify.live, inotify.next);
      table := Appended(table, dir, WatchInfo(wd, path));
      FilesWatched();
      return true;
    }

    /** Fails, changing nothing, exactly for the head of a directory whose descriptor another removal gave up. */
    method GoodbyeConfig(path: string) returns (ok: bool)
      requires Valid()
      modifies this, inotify
      ensures Valid() && (old(Sound()) ==> Sound() && ok)
      ensures ok <==> !(old(IsHead(table, parent, path)) && old(Dangling(table, inotify.live, parent(path))))
      ensures ok ==> forall p :: Watches(p) <==> old(Watches(p)) && p != path
      ensures ok && old(Watches(path)) ==>
                table == Removed(old(table), parent(path), IndexOf(old(table)[parent(path)], path))
      ensures !ok || !old(Watches(path)) ==> table == old(table) && inotify.live == old(inotify.live)
      ensures ok ==> LiveAfterRemoval(old(table), old(inotify.live), parent, inotify.canon, path, table, inotify.live)
      ensures ok ==> Files(table) == old(Files(table)) - {path}
    {
      var dir := parent(path);
      FilesWatched();
      if dir !in table || IndexOf(table[dir], path) == |table[dir]| {
        HeadIsWatched(path);
        return true;
      }
      ok := RemoveEntry(path);
      FilesWatched();
    }

    lemma HeadIsWatched(path: string)
      requires Valid()
      ensures IsHead(table, parent, path) ==> Watches(path)
    {
      if IsHead(table, parent, path) {
        assert table[parent(path)][0].config == path;
      }
    }

    /** Gives back the descriptor if the entry holds one, then takes the entry out. */
    method RemoveEntry(path: string) returns (ok: bool)
      requires Valid() && Watches(path)
      modifies this, inotify
      ensures Valid() && (old(Sound()) ==> Sound() && ok)
      ensures ok <==> !(old(IsHead(table, parent, path)) && old(Dangling(table, inotify.live, parent(path))))
      ensures ok ==> forall p :: Watches(p) <==> old(Watches(p)) && p != path
      ensures ok ==> table == Removed(old(table), parent(path), IndexOf(old(table)[parent(path)], path))
      ensures !ok ==> table == old(table) && inotify.live == old(inotify.live)
      ensures ok ==> LiveAfterRemoval(old(table), old(inotify.live), parent, inotify.canon, path, table, inotify.live)
    {
      var dir := parent(path);
      var i := IndexOf(table[dir], path);
      RemovalWatchesRest(table, inotify.live, inotify.next, parent, inotify.canon, path);
      WhatRemovalDoes(table, inotify.live, inotify.next, parent, inotify.canon, path);
      ghost var live' := inotify.live - {table[dir][i].fd};
      if table[dir][i].fd != FD_INVALID {
        var removed := inotify.RemoveWatch(table[dir][i].fd);
        if !removed {
          return false;
        }
      }
      assert inotify.live == live';
      table := Removed(table, dir, i);
      return true;
    }

    /** The entry whose callback runs for a name that the kernel reports. */
    method OnInotifyEvent(name: string) returns (receiver: Option<WatchInfo>)
      requires Valid()
      ensures receiver == Receiver(table, parent, name)
      ensures receiver.Some? <==> Watches(name)
      ensures receiver.Some? ==> receiver.value.config == name
    {
      var dir := parent(name);
      if dir !in table {
        return None;
      }
      var i := IndexOf(table[dir], name);
      if i == |table[dir]| {
        return None;
      }
      return Some(table[dir][i]);
    }

    /** Releases every descriptor the table holds: no kernel watch is left. */
    method DestroyManager()
      requires Valid()
      modifies this, inotify
      ensures Valid() && table == map[] && inotify.live == map[]
    {
      var todo := table.Keys;
      while todo != {}
        invariant todo <= table.Keys && table == old(table) && inotify.Valid()
        invariant forall wd | wd in inotify.live :: exists dir :: dir in todo && Holds(table, dir, wd)
        decreases todo
      {
        var dir :| dir in todo;
        ghost var live := inotify.live;
        ReleaseAll(table[dir]);
        forall wd | wd in inotify.live ensures exists d :: d in todo - {dir} && Holds(table, d, wd) {
          var d :| d in todo && Holds(table, d, wd);
          assert d in todo - {dir};
        }
        todo := todo - {dir};
      }
      table := map[];
      assert forall wd :: wd !in inotify.live;
    }

    /** Gives back the descriptors of one directory. */
    method ReleaseAll(infos: seq<WatchInfo>)
      requires inotify.Valid()
      modifies inotify
      ensures inotify.Valid() && inotify.live.Keys <= old(inotify.live.Keys)
      ensures forall i | 0 <= i < |infos| && infos[i].fd != FD_INVALID :: infos[i].fd !in inotify.live
    {
      for i := 0 to |infos|
        invariant inotify.Valid() && inotify.live.Keys <= old(inotify.live.Keys)
        invariant forall j | 0 <= j < i && infos[j].fd != FD_INVALID :: infos[j].fd !in inotify.live
      {
        if infos[i].fd != FD_INVALID {
          var _ := inotify.RemoveWatch(infos[i].fd);
        }
      }
    }
  }
}
