# hebpf in Dafny

A model of hebpf, the eBPF program manager, and proofs of what it is for: packets visit the configured programs in the
configured order, the loaded services and watched files follow the configuration, metrics are neither lost nor counted
twice, and the kernel's constant-time lookups decide as a scan of the configured rules would.

`dafny verify dfyconfig.toml` checks everything.

## What is modelled

| files | what they model |
|---|---|
| `KernelMaps.dfy` | bpf(2) hash, array and program-array maps as user space sees them, trusted; the two map-clearing loops |
| `Chain.dfy`, `ChainSpec.dfy`, `PinnedProgMap.dfy` | chain keys, the packet's walk through tail calls, regions, and the manager that rebuilds the id hash and fills the program array in place |
| `Text.dfy`, `Naming.dfy`, `NameOrder.dfy`, `Hooks.dfy` | numerals, official names, scheduler keys, the order of `std::map` |
| `Configs.dfy`, `LoaderSpec.dfy`, `Reconcile.dfy`, `WatchedFiles.dfy`, `MovedLibrary.dfy`, `ThrownUpdate.dfy` | the calls one update makes to the loader, their effect on values, exactly when they end up right, a pair of configurations for which they do not, and what follows an update that threw |
| `Loader.dfy`, `Daemon.dfy` | the loader and the daemon as classes working in place; their contracts equate the new state with those values |
| `ChainAgreement.dfy`, `ExactAgreement.dfy`, `ConfiguredChain.dfy`, `PacketPath.dfy`, `ChainGrowth.dfy` | from configuration to packet: exactly when hash and array agree, and exactly which NICs serve their configured chains |
| `EndToEnd.dfy`, `NextUpdate.dfy` | the same as contracts of the daemon's first update and of one that appends |
| `Programs.dfy`, `OneProgram.dfy`, `FullRegion.dfy`, `SharedSlots.dfy` | the repository's own programs by id and name; the smallest systems that meet the premises, one for each hook; a full region; a fifth NIC |
| `InotifyManager.dfy` | the table of watched files, the kernel's inotify instance, and whose callback an event runs |
| `BlockingQueue.dfy`, `QueueAccounts.dfy` | the bounded queue as threads with program counters, a mutex and two condition variables; what became of every element offered and every request |
| `Monitor.dfy`, `MetricsPipeline.dfy`, `EventFates.dfy`, `BatchRun.dfy` | counters and their keys; the queue's threads together with the consumer loop and the monitors it counts into; when an event may be skipped or lost; a batch on its way |
| `Wire.dfy`, `Acl.dfy`, `Lb.dfy`, `LbRecords.dfy` | rule compilation in user space and the packet programs that look the rules up |
| `Klog.dfy`, `KlogTexts.dfy` | the formatter of kernel log messages, and what its texts read back to |

Where the program takes naming rules from long literal paths, the model passes them as functions (`Configs.Scheme`), and
`Configs.HebpfSchemeOk` shows that the program's own rules qualify. dlopen, the exported factory and `start` are one
function, `Env.factory`, that yields a service or throws.

## Where the program falls short

Each of these is the program as written, unless it says otherwise; the member named proves when it does what is meant.

- `src/daemon/daemon.cc:186-213`: an update loses a service when a name takes over the library of a later name that
  stays. `Reconcile.Update.ReconcilesExactly` proves that this is the only way to go wrong,
  `MovedLibrary.LibraryIsLost` gives two configurations, and `WatchedFiles.UpdateIsRightExactly` proves the same for
  configuration files.
- `src/daemon/loader.cc:60-92`: a load that throws over its configuration file leaves the service loaded but not
  stored. The next update finds it loaded, returns, and never registers the file (`ThrownUpdate.RetryRegistersNothing`).
- `src/daemon/daemon.cc:123`: whether the chain maps are rebuilt is decided by the stored configuration, which an update
  that throws in one of its calls does not replace. Going back to it then rebuilds nothing, and the maps stay those of
  the configuration that failed (`Daemon.BackRebuildsNothing`).
- `src/ebpf/pinned_prog_map.cc:250` compares the start of the region, not the number of programs, with eight. Of all
  NICs with registered programs only the one with the first region is served
  (`PacketPath.Deployment.ShippedServesExactly`). Everything about chains is proved for any guard;
  `EndToEnd.FirstUpdate` covers the shipped one and the one its comment describes.
- `src/ebpf/pinned_prog_map.cc:249`: a fifth NIC of a hook has no region. Only a debug build stops there; any other goes
  on at index -1, which the shipped guard lets pass, and files the NIC's programs in the slots of the first region
  (`ChainSpec.Rebuild.RegionlessSharesSlots`). The hash is as meant if and only if every NIC has a region
  (`ChainSpec.Rebuild.ShippedHashExactly`), and such a NIC is never served along with the one that has the first
  (`SharedSlots.NotBothServed`).
- A chain ends where it should if and only if the slot behind it is empty (`Chain.ChainEndsExactly`). With the guard as
  shipped no second chain stands behind the first while every NIC has a region. This is about the intended guard: with
  it a full region of eight is followed by the scheduler of the next NIC, which has the same id, so a packet that is
  passed on goes round its own chain until its tail calls are used up (`PacketPath.Deployment.FullRegionCircles`);
  `FullRegion.SevenCircle` is such a configuration.
- `src/ebpf/pinned_prog_map.cc:300-353`: the program array is never cleared, so after an update that removes or reorders
  programs hash and array agree only under a condition (`ExactAgreement.AgreesExactly`).
- `src/ebpf/pinned_prog_map.cc:228-233`: the clearing loop deletes nothing when key 0 is the last key; it never is, as
  interface indexes are positive (`KernelMaps.DeleteWhileIterating`).
- `src/daemon/loader.cc:320` casts the region's start to bool: 0 reads as failure, -1 as success. The daemon ignores
  it.
- `src/inotify/inotify_manager.cc:80-92`: removing the first file of a directory ends the kernel's watch for the
  others, and for another spelling of the same directory (`InotifyManager.RemovalKeepsDirectoryLiveExactly`,
  `InotifyManager.RemovalLeavesDanglingExactly`). `src/inotify/inotify_manager.cc:192-210` looks the bare name of an
  event up in the current directory, so only files listed by their bare name are ever reloaded
  (`InotifyManager.DeliveredExactly`).
- `src/data/queue.tpp:102-114`: `stop` leaves a consumer or a producer asleep if and only if one is between its test
  and its sleep when the notifications go out (`BlockingQueue.StopReachesExactly`), and a `start` that follows lets a
  waiting producer overfill the queue (`BlockingQueue.StartOverfillsExactlyWhenUnsafe`).
- `src/services/acl/acl_xdp.bpf.c:50-64` reads the ports of UDP packets only below twenty bytes
  (`Acl.FollowsListExactly`).
- `src/services/lb/lb_base.tpp:130-159` still counts a backend whose MAC address is invalid or that found the pool
  full; its packets go to the first pool entry (`Lb.FollowsListExactly`).
- `src/services/klog/klog.cc:95-145`: a token that starts near the end of the buffer leads past it. Every write stays
  inside if and only if the message has at most 1023 characters, or its beginning, cut at a token, has exactly 1023
  (`Klog.InsideExactly`).
- `src/monitor/monitor.cc:59-68`: labels can also be spelled out in a name, so two counters can share a key. A pair
  has a key of its own if and only if it has no labels and no `|` in its name has a `=` behind it
  (`Monitor.OwnKeyExactly`).

## Model

| member | source | states |
|---|---|---|
| `EndToEnd.FirstUpdate` | src/daemon/daemon.cc:100-219 | the call itself, on an empty system: when it returns, each of the two hooks with chain maps, TC and XDP_GENERIC, with at most four NICs serves exactly those that the guard accepts and whose chain no other chain follows directly, with their scheduler and then their registered programs in ascending order, and those with nothing to serve; as shipped, of all with programs just the one with the first region. With more NICs a debug build never returns, and in any other no NIC without a region is served along with the first |
| `EndToEnd.FirstUpdateServesPackets` | src/daemon/daemon.cc:123-213 | the first half for one hook, if and only if, from what `Update` promises about its maps and calls |
| `NextUpdate.NextUpdate` | src/daemon/daemon.cc:100-219 | one update more: when new entries come behind the stored ones of their NIC, the chains extend, and the call leads from a deployment in force to the next one of an append-only run, with exactly the NICs of `ServedIn` served |
| `NextUpdate.SortedPrefix` | src/daemon/daemon.cc:125-142 | sorted lists of which the longer one has only entries behind the other's begin alike, so stored programs keep their places |
| `NextUpdate.RunGrows` | src/daemon/daemon.cc:100-219 | a run of such calls is a run of deployments, so `ChainGrowth.RunServesPackets` speaks about it |
| `PacketPath.Deployment.FirstUpdateServesPackets` | src/ebpf/ebpf_chain.h:55-66 | for any guard: after one update from nothing a NIC is served if and only if it is accepted and its end free, or refused with nothing to serve; served means that, whatever the programs do, a packet entering at the scheduler is treated as by running the configured programs one after the other, with the same verdict and at most 31 tail calls |
| `PacketPath.Deployment.ServesExactly` | src/ebpf/ebpf_chain.h:55-66 | in any state that holds the deployment: a refused NIC's packets meet its scheduler alone, those of one with an occupied end go round, all others meet exactly the configured list |
| `PacketPath.Deployment.ShippedServesExactly` | src/ebpf/pinned_prog_map.cc:250-253 | as shipped, a NIC with registered programs is served if and only if its region starts at 0 |
| `SharedSlots.MetExactly` | src/ebpf/ebpf_chain.h:55-66 | packets meet a list in order, whatever its programs do, if and only if it has at most 32, each calls the next, and the last none |
| `SharedSlots.NotBothServed` | src/ebpf/pinned_prog_map.cc:247-281 | a NIC without a region and the one with the first, both with registered programs, are not both served, whatever the array holds |
| `OneProgram.AclIsServed` | src/daemon/daemon.cc:123-213 | under the program's own names and ids one access-control program on one NIC meets all premises of these theorems, the hash of TC names ids 4 and 2 in this order and the other nothing, and packets are served |
| `OneProgram.LbIsServed` | src/daemon/daemon.cc:123-213 | the same for the load balancer on XDP_GENERIC, whose hash names ids 5 and 7 |
| `Programs.ProgramNames` | src/ebpf/pinned_prog_map.cc:386-427 | the official names of the repository's programs are those of its id map |
| `Programs.SchedulerNames` | src/daemon/daemon.cc:168-183 | the scheduler library of each hook has the official name of that hook's scheduler |
| `ChainGrowth.RunServesPackets` | src/ebpf/pinned_prog_map.cc:228-281 | the same, if and only if, after every run of updates that only append to the chains |
| `ChainGrowth.RunKeepsDeployed` | src/daemon/loader.cc:107-116 | over every such run services follow the configuration, each sits in the slot the hash gives it, and no other slot is filled |
| `ChainAgreement.RunAgrees` | src/ebpf/pinned_prog_map.cc:300-353 | over every run of loader calls in which no load takes the seat of a loaded service, hash and array agree |
| `ChainAgreement.RunKeepsListed` | src/ebpf/pinned_prog_map.cc:333-346 | over every run of loader calls a program only gets into a slot that the hash names |
| `ExactAgreement.SeatedExactly` | src/ebpf/pinned_prog_map.cc:300-353 | after any run of loader calls every service sits in its slot if and only if those not loaded anew did, and no load took the seat of one that stays |
| `ExactAgreement.AgreesExactly` | src/daemon/daemon.cc:123-213 | after the hash was rebuilt and any calls were made hash and array agree if and only if every service not loaded anew keeps its slot, or has none, and no load takes the seat of one that stays |
| `Chain.WalkFollowsChain` | src/ebpf/ebpf_chain.h:55-66 | where hash and array hold a chain and the slot behind it is empty, the walk equals running the list |
| `Chain.RunInOrderMeaning` | src/ebpf/ebpf_chain.h:55-66 | running the list visits a prefix; all before the last pass the packet on, and the verdict is that of the last, which stopped the packet unless the list was used up |
| `Chain.ChainEndsExactly` | src/ebpf/ebpf_chain.h:61-63 | a chain that passes packets on ends where it should if and only if the slot behind it is empty or past the array |
| `Chain.WalkCircles` | src/ebpf/ebpf_chain.h:55-66 | behind a chain a program with the id of its first sends the packet round the chain until its tail calls are used up |
| `PacketPath.Deployment.FullRegionCircles` | src/ebpf/pinned_prog_map.cc:262-281 | where one NIC's chain starts right behind another's, the serving programs fill the chain and the program behind is the next NIC's scheduler, so packets that are passed on circle |
| `FullRegion.SevenCircle` | src/ebpf/pinned_prog_map.cc:262-281 | under the program's own naming rules and the intended guard, seven programs on one NIC and one on the next make packets of the first circle, and it is not served |
| `Chain.WalkInAnyState` | src/ebpf/ebpf_chain.h:55-66 | in any state of hash and array a walk ends, and all it visits but the last have an entry for this NIC |
| `Chain.ChainKeyInjective` | src/ebpf/ebpf_common.h:14-14 | a chain key determines the interface and the program id |
| `PinnedProgMap.RebuildHash` | src/ebpf/pinned_prog_map.cc:228-283 | clearing, grouping and writing fail exactly when more than 32 keys are needed, and else leave the specified hash, in any order of NICs, NICs without a region included |
| `PinnedProgMap.ProgMap.UpdateChain` | src/ebpf/pinned_prog_map.cc:209-288 | for TC and XDP_GENERIC leaves the specified hash in that hook's own map, or fails exactly for want of entries; refuses all other hooks, leaving everything alone; every NIC must have a region only where a failed assertion ends the program |
| `PinnedProgMap.ProgMap.InsertProg` | src/ebpf/pinned_prog_map.cc:300-353 | succeeds exactly for TC and XDP_GENERIC and a registered name of the hook with an entry for the NIC in its hash, and changes only the slot of its array that the entry names |
| `PinnedProgMap.ProgMap.AllocateRegion` | src/ebpf/pinned_prog_map.cc:144-168 | keeps a live region, appends a new one, or refuses, as `Allocates` says, whatever the order of the hash table |
| `PinnedProgMap.ProgMap.ReleaseRegion` | src/ebpf/pinned_prog_map.cc:176-179 | forgets exactly the region of this hook and NIC |
| `PinnedProgMap.GroupByNic` | src/ebpf/pinned_prog_map.cc:240-245 | splits the names of a hook by NIC and keeps their order |
| `ChainSpec.Rebuild.BuiltMeetsSpec` | src/ebpf/pinned_prog_map.cc:240-283 | in any order of NICs the hash holds exactly the accepted chains, each id at its place in its own region |
| `ChainSpec.Rebuild.ChainSlots` | src/ebpf/pinned_prog_map.cc:262-281 | distinct known names take the slots start, start + 1, ... in configured order without gaps |
| `ChainSpec.Rebuild.SlotsAreExclusive` | src/ebpf/pinned_prog_map.cc:247-283 | chains that fit lie inside their NIC's region and share no slot |
| `PacketPath.SeparateFits` | src/ebpf/ebpf_common.h:3-5 | chains that keep apart never need more than the hash's 32 entries, so the rebuild cannot fail |
| `PacketPath.ShortChainEndsFree` | src/ebpf/ebpf_chain.h:61-63 | no other chain starts right behind one of at most seven programs |
| `PacketPath.IntendedGuardSeparates` | src/ebpf/pinned_prog_map.cc:250-253 | a limit of eight names per NIC keeps the chains of NICs with regions apart |
| `ChainSpec.Rebuild.ShippedGuardServesFirstRegion` | src/ebpf/pinned_prog_map.cc:250-253 | the guard as shipped accepts exactly the NIC whose region starts at 0 and those without a region |
| `ChainSpec.Rebuild.ShippedHashExactly` | src/ebpf/pinned_prog_map.cc:247-281 | as shipped every chain lies in its own region if and only if every NIC in use has one |
| `ChainSpec.Rebuild.RegionlessSharesSlots` | src/ebpf/pinned_prog_map.cc:248-281 | the programs of a NIC without a region are filed in the slots of the first region, one further on in their chain |
| `ChainSpec.RegionsStayDisjoint` | src/ebpf/pinned_prog_map.cc:144-179 | over every sequence of allocations and releases the live regions are aligned, inside the array and pairwise disjoint |
| `ChainSpec.FirstFourSucceed` | src/ebpf/pinned_prog_map.cc:144-168 | without releases four NICs get the four regions in turn and only a fifth is refused |
| `Daemon.FourGetRegions` | src/daemon/daemon.cc:143-150 | where regions are handed out in turn, all NICs of a hook get theirs if and only if there are no more than four in all |
| `KernelMaps.DeleteWhileIterating` | src/ebpf/pinned_prog_map.cc:228-233 | ends with an empty map unless 0 is the last key, and then has deleted nothing |
| `KernelMaps.CollectThenDelete` | src/services/acl/acl_base.tpp:182-195 | collects every key exactly once and leaves the map empty |
| `Naming.NamingAgreement` | src/ebpf/pinned_prog_map.cc:386-427 | for every directory, every name without `_` and `/` and every suffix, library and program have the same official name |
| `Naming.GetCanonicalName` | src/ebpf/pinned_prog_map.cc:386-427 | the step-by-step method computes the official name that the lemmas are about |
| `Naming.SchedulerKeysInjective` | src/daemon/daemon.cc:174-183 | no two (hook, NIC) pairs share a scheduler id or library key |
| `Configs.HebpfSchemeOk` | src/daemon/daemon.cc:174-183 | the program's naming rules have the properties that the proofs use |
| `Configs.StripUndoesSynthesis` | src/daemon/daemon.cc:112-121 | stripping the schedulers of the stored configuration gives back what was supplied |
| `Configs.UpdateIsIdempotent` | src/daemon/daemon.cc:112-213 | a second update with an equal configuration loads, unloads, re-registers and rebuilds nothing |
| `Reconcile.Update.ReconcilesExactly` | src/daemon/daemon.cc:153-213 | when all loads succeed, the update ends with exactly the new entries loaded with their hook, NIC and file, old schedulers aside, if and only if no library moves down to an earlier name from a name that stays |
| `Reconcile.Update.Reconciles` | src/daemon/daemon.cc:153-213 | the sufficient direction, for any state that follows the stored configuration |
| `Reconcile.Update.DownwardMoveBreaks` | src/daemon/daemon.cc:192-204 | a library that moves down is not loaded at the end |
| `MovedLibrary.LibraryIsLost` | src/daemon/daemon.cc:186-213 | under the program's own naming rules, {b: acl} and then {a: acl, b: lb} ends without the access control that both ask for |
| `ThrownUpdate.RetryRegistersNothing` | src/daemon/loader.cc:60-92 | after an update that threw over the file of a new entry, the next one leaves the service without the file that both ask for |
| `ThrownUpdate.UnknownStays` | src/daemon/daemon.cc:153-213 | a loaded service of which the stored configuration knows nothing stays as it is through any update, and the services follow the new configuration only if it asks for just this service |
| `WatchedFiles.UpdateIsRightExactly` | src/daemon/daemon.cc:153-213 | services and watched files are right together if and only if neither libraries nor configuration files move down |
| `WatchedFiles.RunKeepsWatch` | src/daemon/loader.cc:204-288 | over every run of loader calls that bring in no file already in use, the watched files are the main one and those of the loaded services |
| `WatchedFiles.WatchedExactly` | src/daemon/loader.cc:212-252 | after such an update the watched files are the main one and the non-empty ones of the supplied configuration |
| `WatchedFiles.StopUnloadsAll` | src/daemon/daemon.cc:49-55 | stopping leaves no service loaded, schedulers included, and only the main file watched |
| `Loader.Loader.LoadService` | src/daemon/loader.cc:26-119 | a load that returns has the effect of `LoaderSpec.ApplyLoad`, and returns false exactly for a library already loaded; one that throws leaves what `LoaderSpec.Threw` says: nothing changed, or the new service in the table without its file, which may be watched, and the arrays untouched |
| `Loader.Loader.UnloadServices` | src/daemon/loader.cc:128-172 | forgets the service and the watch on its file; false exactly for an unknown library |
| `Loader.Loader.RegisterServiceConfig` | src/daemon/loader.cc:212-252 | watches the file and notes it with the service; one that throws leaves the table alone, and the file watched as before, not any more if the service is missing, or from now on if the service refused it |
| `Loader.Loader.UnregisterServiceConfig` | src/daemon/loader.cc:260-288 | stops the watch and clears the note; throws exactly for a file of an unknown library, then with the watch gone |
| `Loader.Loader.UpdateProgChain` | src/daemon/loader.cc:331-343 | a NIC without a region ends the program exactly where failed assertions do; otherwise TC and XDP_GENERIC get the specified hash, or an exception exactly if it needs more than 32 entries, and all other hooks an exception |
| `Daemon.Daemon.Update` | src/daemon/daemon.cc:100-219 | whatever was stored and whatever is supplied, maps built for the one are built for the other when the call returns; changed configurations rebuild the maps of every hook in use, add regions without moving any, and leave all other maps alone; the calls made are the plan that the lemmas are about, up to one that throws, the state is their effect and what that call leaves, and the stored configuration is the supplied one with its schedulers, or the old one after an exception |
| `Daemon.BackRebuildsNothing` | src/daemon/daemon.cc:123-219 | after an update that threw in its calls, going back to the stored configuration rebuilds nothing: the maps stay those of the failed one |
| `Daemon.Daemon.Stop` | src/daemon/daemon.cc:42-56 | a running daemon ends with nothing loaded and an empty configuration, a stopped one does nothing |
| `Daemon.SortByOrder` | src/daemon/daemon.cc:125-142 | the entries of a hook, each once, by ascending order |
| `Daemon.AddSchedulers` | src/daemon/daemon.cc:168-183 | adds one scheduler entry for every hook and NIC in use and replaces nothing |
| `InotifyManager.Manager.WatchConfig` | src/inotify/inotify_manager.cc:28-56 | keeps the table sound, adds exactly this file and puts a live watch on its directory if it is the first of it, ending none, or fails and changes nothing |
| `InotifyManager.Manager.GoodbyeConfig` | src/inotify/inotify_manager.cc:65-94 | removes exactly this file, or fails and changes nothing if and only if it is the head of a directory whose descriptor dangles; never where no directory is spelled in two ways; ends the watch of no directory but the one whose head it removes |
| `InotifyManager.Manager.DestroyManager` | src/inotify/inotify_manager.cc:133-143 | leaves no kernel watch |
| `InotifyManager.AppendKeepsInv` | src/inotify/inotify_manager.cc:39-55 | with directories that may be spelled in several ways: vectors stay non-empty with distinct paths of their own directory, only heads hold descriptors, a head's live descriptor stands for its directory, every live one is held, and no descriptor comes to dangle |
| `InotifyManager.RemoveKeepsInv` | src/inotify/inotify_manager.cc:80-92 | the same for a removal, but that descriptors may come to dangle |
| `InotifyManager.RemovalKeepsDirectoryLiveExactly` | src/inotify/inotify_manager.cc:80-92 | a removal ends the watch of a directory if and only if the entry removed is the head of that directory with a live descriptor, be it under another spelling |
| `InotifyManager.RemovalLeavesDanglingExactly` | src/inotify/inotify_manager.cc:80-92 | a removal leaves a descriptor dangling if and only if it gives up the one that another spelling of its directory holds, too |
| `InotifyManager.DeliveredExactly` | src/inotify/inotify_manager.cc:192-210 | a change to a listed file runs the callback of its own entry if and only if it is listed by its bare name and a watch on the current directory, under some spelling, stands |
| `InotifyManager.ReportedExactly` | src/inotify/inotify.cc:68-81 | the kernel reports the changes of exactly the directories of which the head of some spelling holds a live descriptor |
| `InotifyManager.Manager.OnInotifyEvent` | src/inotify/inotify_manager.cc:192-210 | the entry found is the one listed under the reported name, if there is one |
| `InotifyManager.DeadDirectoryStaysDead` | src/inotify/inotify_manager.cc:39-54 | once the head or its descriptor is gone, further files of the directory are listed without any watch |
| `BlockingQueue.NoLostWakeup` | src/data/queue.tpp:24-82 | in every stop-free interleaving an un-notified sleeping consumer means that every queued element is spoken for, likewise for producers and free slots |
| `BlockingQueue.RestMeansNothingToDo` | src/data/queue.tpp:24-82 | a stop-free run comes to rest with all threads between calls or asleep, with sleeping consumers only on an empty and sleeping producers only on a full queue, never with both |
| `BlockingQueue.FifoConservation` | src/data/queue.tpp:24-126 | in every interleaving, stops and starts included, what was accepted is what was popped and then what is queued, in order |
| `QueueAccounts.StoppedRun` | src/data/queue.tpp:75-77 | from a stop on, until a start, the queue, what was taken and what was accepted stay as they are, whatever any number of threads do |
| `QueueAccounts.OffersAreAccountedFor` | src/data/queue.tpp:24-49 | in every interleaving, element by element: what is offered is stored once, given up by a push that meets the stop flag or by a guard that meets a full queue, or still in a thread's hands, and nothing else is stored |
| `QueueAccounts.RequestsAreAccountedFor` | src/data/queue.tpp:58-82 | in every interleaving each `pop` and `tryPop` took one element, went without because the flag was up or the queue empty, or is under way |
| `BlockingQueue.CapacityRespected` | src/data/queue.tpp:24-114 | the queue never outgrows its capacity, over stops and over starts made at a safe moment |
| `BlockingQueue.StartOverfillsExactlyWhenUnsafe` | src/data/queue.tpp:102-104 | a start lets a producer overfill the queue if and only if one that only the stop flag let through is about to re-read the flag |
| `BlockingQueue.GuardedProducerNeverWaits` | src/daemon/daemon.cc:255-257 | a single producer that asks `full` first never waits, whatever consumers, stops and starts do |
| `BlockingQueue.StartCanOverfill` | src/data/queue.tpp:24-32 | a run in which a start after a stop makes a full queue take one element more |
| `BlockingQueue.StopReachesExactly` | src/data/queue.tpp:110-114 | with any number of threads, the notify_all of a stop leaves nobody of its side asleep, consumers or producers, in any run without a start, if and only if none of them is between its test and its sleep |
| `BlockingQueue.StopCanStrandAConsumer` | src/data/queue.tpp:110-114 | a run of two threads that ends with a consumer asleep for good |
| `Monitor.OwnKeyExactly` | src/monitor/monitor.cc:59-68 | a name with its labels shares its key with no other pair if and only if there are no labels and no bar in the name has an equals sign behind it |
| `Monitor.KeyInjective` | src/monitor/monitor.cc:59-68 | among names, label keys and values without the bar, and keys without the equals sign, no two pairs share a key |
| `Monitor.MakeKey` | src/monitor/monitor.cc:59-68 | the loop builds that key, labels in ascending order |
| `Monitor.CountersExact` | src/monitor/monitor.cc:24-47 | with clean names every counter is the total of its own events, and exists exactly if there are any |
| `Monitor.TotalIsSum` | src/monitor/monitor.cc:34-45 | the total is the sum of the numbers `n` with `n <= value < n + 1` of the events with just this name and these labels |
| `MetricsPipeline.AcceptedEventsAreAccountedFor` | src/monitor/monitor_subscriber.cc:113-150 | at any moment of any interleaving of producers, consumer, stops, starts and monitors that come and go: accepted events are, in order, those handled, the rest of one batch in hand, and those queued; for clean names what was accepted is what all counters hold, what was skipped without a monitor, what an exception lost, whether for an empty key or a counter the library refuses, what is in hand and what is queued |
| `MetricsPipeline.SoundRun` | src/monitor/monitor_subscriber.cc:113-150 | the invariants of every such run: order, each monitor's counters are those of the events it counted, only the consumer pops, and only with empty hands |
| `EventFates.NoneSkipped` | src/monitor/monitor_subscriber.cc:129-139 | in every run from a monitor in place on in which none is dropped, no event is passed over |
| `EventFates.LostStep` | src/monitor/monitor_subscriber.cc:143-149 | events are lost exactly when the one at hand is refused by the monitor that was found, and then the rest of the batch |
| `EventFates.NoneLost` | src/monitor/monitor_subscriber.cc:113-150 | in every run in which no accepted event has an empty key or a name the library does not take, none is lost |
| `EventFates.RoundCounts` | src/monitor/monitor_subscriber.cc:127-140 | one round with a monitor in place raises that monitor's counter for the event's own key by its value without the fraction, and changes nothing else but what is in hand |
| `EventFates.NothingMissing` | src/monitor/monitor_subscriber.cc:113-150 | with a monitor made first and none dropped, and no event that is refused, what was accepted under a clean name is what the counters hold, what is in hand and what is queued |
| `BatchRun.BatchGetsThrough` | src/data/queue.tpp:24-82 | there is a run from an idle system, with any room in the queue, that takes any batch of events nobody refuses from the producer into the counters |
| `Monitor.Monitor.CountBatch` | src/monitor/monitor_subscriber.cc:125-142 | counts the whole batch, or exactly what precedes the first event that has an empty key or needs a counter that the library refuses |
| `Monitor.RefusedExactly` | src/monitor/monitor.cc:28-43 | with clean names an event is refused if and only if its key is empty or the library does not take its name and labels |
| `Acl.TableIsLastRule` | src/services/acl/acl_base.tpp:99-156 | the map holds for every tuple the action of the last rule about it |
| `Acl.Service.OnConfigUpdate` | src/services/acl/acl_base.tpp:88-159 | the map holds exactly the recorded rules; with at most 10240 valid ones they say about every packet what the configuration says |
| `Acl.RecordedSays` | src/services/acl/acl_base.tpp:99-156 | what is recorded says about every packet what the configuration says up to its 10240th rule with valid addresses, protocol and action |
| `Acl.FoundIsAbout` | src/services/acl/acl_base.tpp:105-128 | a rule is found under the packet program's key exactly if it names the packet's addresses and protocol and its port numbers |
| `Acl.Service.InsertRule` | src/services/acl/acl_base.tpp:144-155 | the map is never found full |
| `Acl.Service.Filter` | src/services/acl/acl_xdp.bpf.c:39-80 | gives up exactly on packets that are neither TCP nor UDP or have fewer than eight transport bytes; decides as a scan of the recorded rules for the ports as they are read, which for a packet not misread are its own, `256 * first + second`: the last rule for any source port, else the last one for the packet's |
| `Acl.FollowsListExactly` | src/services/acl/acl_xdp.bpf.c:50-64 | the decision is the one for the packet's real ports, whatever the list, if and only if the packet is not a cut TCP header or a UDP packet of twenty bytes with ports other than 0 |
| `Lb.Service.OnConfigUpdate` | src/services/lb/lb_base.tpp:88-171 | the tables agree with the recorded rules, the places of each address and port start where the rules before its last one leave off, or at 256, every backend has its place if they ask for at most 256, and the pool's first entry is `FirstOf` the configuration and the old one |
| `LbRecords.RecordedSays` | src/services/lb/lb_base.tpp:119-170 | up to the 10240th recorded rule, packets are governed by the last rule of the configuration about their address and port if these are among its first 64, and by none otherwise |
| `Lb.GoverningIsAbout` | src/services/lb/lb_base.tpp:122-127 | the rule a packet's word of a port leads to is the last one recorded whose address is the packet's and whose port is `256 * first + second` |
| `Lb.FirstOfExactly` | src/services/lb/lb_base.tpp:119-159 | the pool's first entry is decided by the first rule with a valid address and any backends: its first backend if that has a valid MAC address, else what was there |
| `Lb.LastForGoverns` | src/services/lb/lb_base.tpp:119-170 | the last rule recorded for an address and port governs it, and its places start behind those the rules before it asked for |
| `Lb.Service.EnterBackends` | src/services/lb/lb_base.tpp:129-159 | a rule's backends take the next places, one with an invalid MAC address leaves its place alone, all others stay as they are, and the group points at the places |
| `Lb.InstallKeepsSound` | src/services/lb/lb_base.tpp:119-170 | one rule more keeps the tables in agreement, whether it is recorded or refused |
| `Lb.Service.Balance` | src/services/lb/lb_xdp.bpf.c:27-86 | for every IPv4 packet: gives up exactly on a TCP header below 20 or a UDP header below 8 bytes, and sends back exactly if the last recorded rule whose address is the packet's and whose port is `256 * first + second` has any backends; the MAC addresses written then |
| `Lb.SlotLeadsToBackend` | src/services/lb/lb_xdp.bpf.c:47-62 | the index is always below eight and the place always inside the pool |
| `Lb.TablesFollowList` | src/services/lb/lb_xdp.bpf.c:47-59 | with valid MAC addresses and room for all, the tables choose the backend that a scan of the list for the packet's address and port number chooses |
| `Lb.FollowsListExactly` | src/services/lb/lb_base.tpp:130-159 | read off the configuration: packets follow the list for every source if and only if each counted backend of the governing rule has a valid MAC address and a place, the rules before asking for few enough, or equals the first pool entry |
| `Lb.PlacesAreNotShared` | src/services/lb/lb_base.tpp:135-158 | no pool place is used by two groups or twice in one, and all were filled by this update |
| `Klog.Format` | src/services/klog/klog.cc:60-145 | the loop leaves the rendering, or the beginning that fills the buffer, and a NUL; it writes past the buffer exactly for formats that do not fit |
| `Klog.InsideExactly` | src/services/klog/klog.cc:65-145 | every write, the final NUL included, stays inside if and only if the message has at most 1023 characters or a beginning cut at a token has exactly 1023 |
| `Klog.FormatEvent` | src/services/klog/klog.cc:60-145 | an event is rendered with the program's conversions, completely if the message has at most 1023 characters |
| `Klog.SpecifierUsesItsArgument` | src/services/klog/klog.cc:81-88 | the specifier after k others prints argument k, or `<missing>` past the tenth; other tokens use none |
| `KlogTexts.PlainRenders` | src/services/klog/klog.cc:66-69 | text without percent signs is printed as it is |
| `KlogTexts.PercentRenders` | src/services/klog/klog.cc:71-142 | anywhere in a format two percent signs print one, and a percent sign with a character that is no specifier prints both; no argument is used |
| `KlogTexts.DecimalsReadBack` | src/services/klog/klog.cc:92-99 | `%u` and `%d` print decimal numbers without leading zeros that read back as the argument, unsigned and in two's complement |
| `KlogTexts.HexReadsBack` | src/services/klog/klog.cc:100-107 | `%x` and `%X` print hexadecimal numbers, in lower and in upper case, that read back as the argument |
| `KlogTexts.PointerReadsBack` | src/services/klog/klog.cc:108-111 | `%p` prints `(nil)` or `0x` and a hexadecimal number that reads back as the argument |
| `KlogTexts.ProtocolReadsBack` | src/services/klog/klog.cc:112-126 | `%P` prints TCP, UDP and ICMP for 6, 17 and 1, and a signed number for all others |
| `KlogTexts.AddressReadsBack` | src/services/klog/klog.cc:127-130 | `%A` prints the low four bytes, lowest first, as decimal numbers with dots between them |
| `Klog.RenderAppend` | src/services/klog/klog.cc:65-144 | a message is the concatenation of the renderings of its pieces |
| `Klog.ShortMessagesFit` | src/services/klog/klog.cc:65-145 | a message of at most 1023 characters is written completely |
| `Klog.UnknownSpecifierOverruns` | src/services/klog/klog.cc:139-145 | an unknown specifier behind 1022 plain characters leads past the buffer |
| `Klog.SignedInjective` | src/services/klog/klog.cc:92-94 | the signed conversion loses nothing |
| `Klog.AddressInjective` | src/services/klog/klog.cc:127-130 | a dotted address determines its 32 bits |

## Left out

- libbpf, bpffs, dlopen and hook attachment are foreign calls: maps are small trusted classes, loading is a factory.
- Mutexes outside the queue and the metrics pipeline, and calls from several threads to the daemon, loader and watch
  table: each call is taken as a whole.
- The YAML and JSON decoding, the HTTP and Prometheus servers, logging and the event loop move fields and bytes only.
- Parsing of addresses and MAC addresses is a partial function; an Ethernet or IP header that is cut short or not IPv4
  is passed on before the modelled part of the packet programs.
- Loader: a program without chain manager or inotify manager, and half-destroyed handles, are not modelled; what a
  service does with its configuration file is its own, but it may refuse it. No directory is spelled in two ways there;
  what happens otherwise is said in `InotifyManager`.
- LoaderSpec.ApplyLoad: is for loads that return; `LoaderSpec.Threw` says what one that throws leaves.
- The TC variant of the access-control program reads headers and names verdicts differently, and decides the same way.
- Loader.Loader.UpdateProgChain: where failed assertions end the program, it ends before the hash is touched; the
  program itself may already have written the chains of other NICs, or given up for want of entries.
- FullRegion.SevenCircle: registers seven programs of its own, as ebpf_id.map has only three for TC.
- EndToEnd.FirstUpdate: of a hook with more than four NICs it says nothing when the rebuild fails for want of entries.
- XDP_NATIVE, XDP_OFFLOAD and KProbe have no chain maps; the lemmas about packets are for TC and XDP_GENERIC.
- ChainGrowth.RunServesPackets: is for updates that append; after any other `ExactAgreement.AgreesExactly` says when
  hash and array agree, but not which stale programs a packet still meets.
- BlockingQueue.NoLostWakeup: claims nothing across `stop`; whom a stop reaches is `BlockingQueue.StopReachesExactly`.
- Monitor.CountersExact: counters are exact integers, while the exporter adds doubles.
- MonitorSubscriber's `run` and `stop` start and join threads: monitors and the consumer come and go as steps of their
  own, and nothing is claimed about stopping in time.
- Klog.Format: does not model a format that ends in a lone percent sign, behind which the loop reads on past the
  format.
- The klog transport through the ring buffer, the stack traces and the example services have no algorithm of their
  own.
