# Verified model of netcfg

netcfg keeps a host's network as its configuration says. It loads a set of files,
compares them with the state saved by the last apply, removes what is gone, adds what
is wanted, and saves the new state. The same happens for devices in VPP, which are found
again by tag. A daemon answers neighbour solicitations, repairs the taps it listens on,
and keeps DHCP leases alive.

This project models those loops and proves what they promise over whole runs. The kernel,
VPP, the disk and the clock are small state machines changed only by the program's own
steps; parsers, the hash and the clock's readings are parameters. Code that works by
changing state is written as classes and methods with loops, each proved against a
function of the old state; the theorems are lemmas about those functions.

| module | component |
|---|---|
| `StateDiff` | the difference of two saved states |
| `Kernel`, `Reconciler`, `Convergence` | links, addresses, proxy entries and segment identifiers; the apply; runs of applies |
| `Rollback` | the rollback of an unconfirmed `try` |
| `VppApplier`, `VppReaper`, `VppRuns`, `NatKeys` | the tag cache and apply phase of VPP; its reaping; whole setups and runs of them; NAT rule keys |
| `NdpManager`, `NdpProtocol` | responders under their lock; daemon, watcher, applies and administrator interleaved |
| `NdpTaps`, `NdpResponder` | which taps exist; first-match rules and packets |
| `DhcpLease` | the lease clock |
| `ConfigMerge`, `NestedValues`, `RouteText`, `Srv6`, `ByteUnits`, `Decimal` | loading, get and set, route text, local SIDs, byte counts |

## Where the code departs from the obvious claim

The model follows the code; each of these is a lemma.

- **Rollback runs the wrong way.** The diff is taken from the current to the old state but
  consumed as if it were the reverse (cmd/try.go:117, 143, 209). `RollbackAsWritten` and
  `UnconfirmedTry`: it changes no address of a common device unless an address was
  respelled, in which case it loses that address; so the saved state and the kernel
  disagree whenever the address sets differ (`NewAddressStays`, `RespelledAddressLost` are
  instances). `RollbackInOrder` gives the exact condition under which the intended direction
  works.
- **A reload has a gap.** Between the two locked sections of `Reload` the watcher may
  restart a responder of the old configuration (cmd/ndp.go:40-41). `RaceReachable` is a run
  after which an interface is running but not configured; `RunsKeepInv` holds over every run
  exactly when each second section absorbs what was restarted.
- **Deletion does not evict the index cache** (vpp/apply.go:616-666). A name that the apply
  or the reaping of proxy entries resolved, and that the device reaper then deletes, still
  resolves to its old index, which the NAT reaping that follows may use: a proxy entry on an
  orphan (`StaleAfterReap`), or a bond or bridge that still lists a member that left
  (`StaleMember`). `ReapCoherence` is the exact condition for any cache, `ReapAll` and
  `SetupVpp` state it by name.
- **VPP devices are applied by tag but some are deleted by a recorded handle**
  (vpp/apply.go:190-212, 528-569, 616-666; cmd/vpp.go:407-452). A tunnel or host interface
  changed under its name keeps its old interface while the new handle is recorded; the
  orphan is then not found (`RenumberedTunnelStays`), or a desired device is deleted in
  another's place (`DesiredTunnelDeleted`). `RecordsStayTrue` says exactly when records tell
  the truth. They also do not for a tunnel with a negative destination port beside a
  positive port, because creation and record choose differently (`TruthfulIff`). Likewise
  the domain of a bridge renumbered under its name, or still holding an interface, stays
  behind: `DomainsConvergeIff`.
- **A device that leaves the configuration may keep its addresses**: one that netcfg did not
  create, while its namespace stays configured (state/state.go:237-244), and a physical one
  when the whole section of the default namespace goes, because the kernel refuses to delete
  it. `WhoStays` lists them exactly, `ConvergesIff` is the exact condition for convergence
  over runs, and `LeakingRun` leaks by two applies.
- **The NAT key omits the prefix** (vpp/state.go:53-57): `KeyInjective`, `ReapedRules`,
  `ChangedPrefixStays`.
- **A renewed lease of zero length** moves the start of the lease but not its timers
  (netlink/dhcp_daemon.go:224-228), and while answers have no length it is renewed at every
  tick and stays out of order: `RunOrder`, `StaysDue`. The built-in client gives positive
  lengths only; the external client that renewals and requests fall back to gives none
  (netlink/dhcp.go:130-133, 231, 506-527): `LengthsByClient`.
- **The infinite lease overflows T2** (netlink/purego/dhcp4_client.go:310):
  `InfiniteLeaseOverflows`.
- **Route text**: the word `via` as a gateway, or as a destination without a gateway,
  swallows the table that follows; an empty destination and a table that is negative or
  beyond 64 bits are not recovered either. `RouteRoundTrip` is an equivalence.
- **The Override flag** is set on proxy replies (ndpproxy/responder.go:145), where section
  7.2.8 of RFC 4861 asks for zero; `ReplyExact` states what the code sends. The router flag
  defaults to true in the code (cmd/ndp.go:118), to false in the design notes; here it is
  part of the responder.

## Model

| member | source | states |
|---|---|---|
| `StateDiff.DiffStrings` | state/state.go:297-325 | The two lists hold exactly the strings of one side missing on the other, each once |
| `StateDiff.DiffDevice` | state/state.go:230-275 | One device of the old state: the recorded differences are exact for it and unchanged for all others |
| `StateDiff.ComputeDiff` | state/state.go:209-290 | Every list of the difference is exact, duplicate-free and absent when empty: namespaces, devices by creator, addresses and routes of common devices |
| `StateDiff.AddedDevices` | state/state.go:279-287 | New devices of every namespace, each once, no entry for a namespace without one |
| `StateDiff.EmptyIffAgree` | state/state.go:328-337 | The difference is empty iff namespaces match, no device is new, every missing device is a system one and common devices agree on address and route sets |
| `StateDiff.DiffReverses` | state/state.go:209-290 | Exchanging the states exchanges add and remove lists of addresses, routes and namespaces, up to order |
| `StateDiff.SystemDeviceListedIff` | state/state.go:230-244 | A device netcfg did not create is listed for removal iff its whole namespace goes |
| `StateDiff.ListedIff` | state/state.go:246-274 | An address or route is listed for removal iff both states have the device and only the old one lists it, for addition iff only the new one does |
| `StateDiff.DevicesListedIff` | state/state.go:212-244 | Which devices and namespaces are listed, by the two states and the recorded creator |
| `Kernel.Host.HasAddress` | netlink/netlink.go:1439-1451 | The loop answers whether some address of the link prints as the given text; a missing link has none |
| `Kernel.Host.DeleteAddress` | netlink/netlink.go:1414-1426 | Removes the denoted address from that link, whatever its spelling, and nothing else |
| `Kernel.Host.DeleteProxy` | netlink/ndproxy.go:74-84 | Removes the denoted proxy entry from that link and nothing else |
| `Kernel.Host.AddLocalSid` | netlink/srv6.go:143-153 | Adds the denoted identifier iff its anchor link exists |
| `Kernel.Host.DeleteLocalSid` | netlink/srv6.go:157-163 | Removes the denoted identifier of the namespace |
| `Reconciler.RemoveAddresses` | cmd/apply.go:424-452 | In whatever order devices are visited, every link loses exactly the addresses its listed spellings denote |
| `Reconciler.RemoveDevices` | cmd/apply.go:485-511 | Exactly the listed virtual links go, with the identifiers anchored on them |
| `Reconciler.RemoveNamespaces` | cmd/apply.go:514-524 | Exactly the listed namespaces go, the default one never |
| `Reconciler.ApplyRemovals` | cmd/apply.go:422-527 | Addresses, then links, then namespaces, as one function of the difference |
| `Reconciler.ReapSRv6Orphans` | cmd/apply.go:117-160 | Exactly the identifiers spelled in the old and not in the new state of their namespace go |
| `Reconciler.ProxyKeyInjective` | cmd/apply.go:173-181 | The joined key determines device and address although device names may contain the separator |
| `Reconciler.KeptByKey` | cmd/apply.go:168-185 | Keeping by key is keeping by device and address |
| `Reconciler.ReapNDProxyOrphans` | cmd/apply.go:163-214 | Exactly the proxy entries recorded in the old and not in the new state of their device go |
| `Reconciler.AddAddresses` | cmd/apply.go:1521-1535 | Afterwards the link has its old addresses and all denoted ones: skipping by printed form loses nothing |
| `Reconciler.AddProxies` | cmd/apply.go:1908-1921 | Afterwards the link has its old proxy entries and all denoted ones |
| `Reconciler.SetupDevices` | cmd/apply.go:547-660 | Every link of the namespace gets what its own device configures, no other link changes, only virtual links appear |
| `Reconciler.SetupSRv6` | cmd/apply.go:1862-1904 | Every identifier whose anchor exists or is the automatic dummy is there, on the device of an entry that denotes it; only links of dummies appear |
| `Reconciler.ApplyNamespaceConfig` | cmd/apply.go:547-672 | One namespace's additions, leaving links and identifiers of the others alone |
| `Reconciler.Apply` | cmd/apply.go:45-114 | A completed apply: the saved state is that of the configuration, the network is the cleared old one plus the additions, and it is again one an apply can start from |
| `Convergence.Settle` | cmd/apply.go:63-106 | Removing before adding meets the wanted set exactly on everything seen, and leaves the rest, for every canonicalisation of spellings |
| `Convergence.AppliedLink` | cmd/apply.go:45-114 | One apply as set equations on any link, surviving or not |
| `Convergence.AddressStep` | cmd/apply.go:45-114 | One apply converges on a link iff the link is configured, goes, or held nothing ever configured; a surviving link keeps all other addresses |
| `Convergence.ConvergesIff` | cmd/apply.go:45-114 | Over every run of applies and drift, up to any point: every apply converged on the link iff that held each time |
| `Convergence.Converges` | cmd/apply.go:45-114 | After every apply of such a run, the addresses ever configured and present are exactly the wanted ones, and an address never configured is untouched |
| `Convergence.ProxiesConverge` | cmd/apply.go:163-214 | On every link, however devices leave and return: exactly the wanted proxy entries of all ever configured, and foreign ones on a surviving link untouched |
| `Convergence.SidsConverge` | cmd/apply.go:117-160 | In every namespace: no identifier ever configured too many, exactly the wanted ones when all anchors are found, and a foreign one stays on its anchor iff the anchor stays |
| `Convergence.WhoStays` | state/state.go:230-244 | Which links stay when their device leaves: those netcfg did not create or that are physical, while the namespace is configured; physical ones of a default namespace that goes |
| `Convergence.StaysWithAddresses` | state/state.go:237-244 | A link that stays when its device leaves keeps every address |
| `Convergence.LeakingRun` | cmd/apply.go:45-114 | Two applies after which a physical device outside the configuration still has its configured address |
| `Convergence.RecordedByKind` | cmd/apply.go:235-403 | What the saved state records of each kind: routes always, addresses of all but VRFs, proxy entries of ethernets, bridges, bonds and VLANs, and the creator |
| `Convergence.CreatedByKind` | cmd/apply.go:547-657 | A missing ethernet or WiFi device is passed over, every other kind gets its link |
| `Convergence.LeavesByKind` | cmd/apply.go:485-511 | A virtual link of a kind netcfg creates goes with its device, an ethernet or WiFi link stays with its addresses while its namespace is configured |
| `Convergence.ReachesByKind` | cmd/apply.go:1521-1535 | Which kinds get their addresses and proxy entries |
| `Convergence.AppliedNetns` | cmd/apply.go:72-82 | After an apply the namespaces of the configuration exist, those that left it are gone, others are as before |
| `Convergence.AnchorRule` | cmd/apply.go:1866-1879 | An identifier ends on its own device, else that of the section, else on the automatic dummy |
| `Convergence.ApplyNext` | cmd/apply.go:45-114 | From wherever a run has come, the next apply is a step of the run |
| `Convergence.ApplyEnds` | cmd/apply.go:45-114 | Applying a list of configurations ends with the addresses, proxy entries and identifiers of the last one, of all configured on the way |
| `Rollback.ApplyRollbackRemovals` | cmd/try.go:141-204 | Removes what the difference says to add: addresses, virtual links, namespaces |
| `Rollback.ApplyRollbackAdditions` | cmd/try.go:207-237 | Adds back what the difference says to remove, on links that exist |
| `Rollback.DoRollback` | cmd/try.go:104-138 | Saves the old state and applies both passes to a difference from current to old |
| `Rollback.RollbackOnCommon` | cmd/try.go:141-237 | The two passes on a device both states have, as a set equation |
| `Rollback.RollbackAsWritten` | cmd/try.go:117-129 | No address changes iff none was respelled; the old addresses are restored iff the sets were equal and nothing was respelled |
| `Rollback.UnconfirmedTry` | cmd/try.go:104-138 | The same at the end of every run that ends in the apply of a try |
| `Rollback.NewAddressStays` | cmd/try.go:117-129 | A try that replaces the only address: the rollback keeps the new one |
| `Rollback.RespelledAddressLost` | cmd/try.go:143-168 | A try that drops a second spelling: the rollback drops the address itself |
| `Rollback.RollbackInOrder` | cmd/try.go:116-129 | With the difference taken the other way, apply and rollback restore the link, whatever it had, iff it held none of the newly configured addresses beyond those dropped under another spelling and lacked no old one that the try did not configure anew |
| `Rollback.RollbackKeepsCreated` | cmd/try.go:170-193 | A device the try created stays, with its addresses |
| `Rollback.RollbackDeletesDropped` | cmd/try.go:170-193 | A device the try dropped is deleted by the rollback iff it is virtual |
| `Rollback.RollbackNetns` | cmd/try.go:195-201 | A namespace the try created stays; the rollback deletes those that the old state has and the current one lacks |
| `NdpManager.Manager.StartLocked` | cmd/ndp.go:53-68 | Running and all-multicast both on, or both as for a stopped interface when the socket fails |
| `NdpManager.Manager.Restart` | cmd/ndp.go:71-81 | Starts only what is configured, cancelling the goroutine of before |
| `NdpManager.Manager.Stop` | cmd/ndp.go:84-92 | Nothing runs, all-multicast is off where something ran, every goroutine that ran is cancelled |
| `NdpManager.Manager.ReloadLocked` | cmd/ndp.go:41-48 | The second locked section: configurations and remembered taps are those of the loaded configuration, each responder started in turn |
| `NdpManager.Manager.EnsureWatcher` | cmd/ndptap_daemon.go:51-60 | One watcher, started when there is a tap to watch |
| `NdpManager.StoppedInv` | cmd/ndp.go:84-92 | Stopping keeps the invariant and leaves no goroutine live |
| `NdpManager.RestartedInv` | cmd/ndp.go:71-81 | Restarting keeps the invariant |
| `NdpManager.ReloadedInv` | cmd/ndp.go:39-48 | A reload whose two sections meet keeps: running within configured, all-multicast exactly on running, every live goroutine serves the latest configuration |
| `NdpManager.GapExact` | cmd/ndp.go:39-48 | After a restart in between, the invariant holds iff all that ran has died and is started again |
| `NdpProtocol.StepInvIff` | cmd/ndp.go:39-92 | A step breaks the invariant iff it is a second section that does not absorb a restart |
| `NdpProtocol.RunsKeepInv` | cmd/ndp.go:39-92 | Over every interleaving, the invariant holds in every state iff every second section of a reload absorbed what was restarted since the first |
| `NdpProtocol.LatestServed` | cmd/ndp.go:53-81 | In such a run every live responder is the running one of its interface and serves the configuration of the latest reload |
| `NdpProtocol.ServedAfterReload` | cmd/ndp.go:42-81 | In such a run every responder whose socket opened at a reload is served from then on, whatever the watcher and the applies do, until it is stopped or dies |
| `NdpProtocol.SilentAfterStop` | cmd/ndp.go:83-92 | After a stop nothing runs, no goroutine is live and all-multicast is off everywhere, until a reload or a restart |
| `NdpProtocol.QuietRunsAbsorb` | cmd/ndp.go:39-48 | A run in which no restart lands between the sections is such a run |
| `NdpProtocol.RaceReachable` | cmd/ndptap_daemon.go:75-106 | A run of the full protocol after which an interface runs without being configured |
| `NdpProtocol.DroppedStep` | cmd/ndptap_daemon.go:113-130 | Which single steps keep a dropped tap dropped; a failed read brings it back iff the daemon still remembers it |
| `NdpProtocol.DroppedStaysDropped` | cmd/ndptap_daemon.go:63-147 | Once a tap is off the disk and earlier readers are done, no watcher pass or apply rebuilds it, over every run |
| `NdpProtocol.TapsByLast` | cmd/ndptap_daemon.go:87-147 | A tap exists iff the last step that made it or took it away made it, over every run of passes and applies |
| `NdpProtocol.SpecsAfterReload` | cmd/ndp.go:47-48 | From a reload until the watcher commits what it read, the daemon remembers exactly the taps of the loaded configuration |
| `NdpProtocol.SpecsAfterCommit` | cmd/ndptap_daemon.go:123-129 | From a commit of the watcher until the next reload or commit, the daemon remembers exactly the taps that were on the disk when it read |
| `NdpProtocol.ReloadForgets` | cmd/ndp.go:39-50 | A tap that is dropped when the main loop reads the configuration is forgotten once that reload is done |
| `NdpProtocol.PassBegins` | cmd/ndptap_daemon.go:79-92 | A deletion the watcher hears of, for a tap it remembers, begins a pass |
| `NdpProtocol.PassHeals` | cmd/ndptap_daemon.go:87-106 | A pass for a deleted tap that stays on the disk does not end before the restart, whatever else interleaves, and ends with the tap there and its responder live |
| `VppApplier.Applier.FindByTag` | vpp/apply.go:162-180 | Some interface with the tag, or none if there is none |
| `VppApplier.FindsUnique` | vpp/apply.go:162-180 | With unique tags the search has one answer, whatever the order of the dump |
| `VppApplier.Applier.Resolve` | vpp/apply.go:150-159 | A cached answer stands even when out of date; while the cache is coherent the answer is the one the plain search gives, and coherence is kept |
| `VppApplier.Applier.Ensure` | vpp/apply.go:190-229 | Coherence kept; nothing changes when the tag is known, otherwise one new interface of the asked kind and handle carries it |
| `VppApplier.Applier.EnsureDpdk` | vpp/apply.go:129-147 | Coherence kept; an untagged interface of the boot gets the tag, none is created |
| `VppApplier.Applier.ApplyVlan` | vpp/apply.go:497-525 | As above, and nothing is created without the parent |
| `VppApplier.Applier.EnsureNdpTap` | vpp/ndptap.go:34-67 | As above, without touching the cache; the tap ends in the bridge's domain |
| `VppApplier.Applier.JoinMembers` | vpp/apply.go:585-596 | Exactly the members that exist join the domain, and are cached |
| `VppApplier.Applier.ApplyBridge` | vpp/apply.go:573-613 | On success the domain exists and holds the members and the loopback that carries the bridge's addresses; all other interfaces keep theirs; it fails only if VPP refuses a creation |
| `VppApplier.Applier.ApplyDevice` | vpp/apply.go:311-613 | Every kind of device: tagged interfaces keep all but their domain, whatever appears is what the configuration asks of a missing tag |
| `VppApplier.Applier.ApplyAll` | cmd/vpp.go:158-204 | Over the whole apply phase: cache coherent, tagged interfaces keep all but their domain, new ones as asked; on success every wanted tag and domain is there, every interface that one bridge alone lists, its loopback and its tap are in its domain, and every member is cached; and it succeeds unless VPP refuses a creation, given that addresses parse, boot-time ports exist and parents of VLANs are there or are ports or bonds of the configuration |
| `VppApplier.EnsuredGrows` | vpp/apply.go:150-229 | Each step keeps tags unique and every coherent cache coherent |
| `VppApplier.CreatedByKind` | vpp/apply.go:94-557 | What an apply creates under a new tag, by the kind of the device, with the host interface of a port and number, addresses and port of a tunnel in their places |
| `VppApplier.ApplyTwice` | cmd/vpp.go:154-204 | Applying again after a successful apply creates and retags nothing |
| `VppReaper.Delete` | vpp/apply.go:616-666 | Deletes exactly what matches the recorded handle; a domain with members stays; the cache is not touched |
| `VppReaper.ReapOrphans` | cmd/vpp.go:457-473 | Each orphan of a listed type is deleted exactly once and nothing desired, in dependency order |
| `VppReaper.ReapOrder` | cmd/vpp.go:458-460 | Type by type: VXLANs first, VLANs before bonds, loopbacks and ports, bonds before ports, taps and all others before any bridge |
| `VppReaper.ReapComplete` | cmd/vpp.go:461-466 | Exactly the previous devices that are not desired and whose mode is implemented are deleted, each once |
| `VppReaper.ReapExact` | cmd/vpp.go:457-473 | What is left: the interfaces no orphan's handle fits, and the domains that are no orphan's or still hold one |
| `VppReaper.ReapedByTag` | cmd/vpp.go:457-473 | An interface, whatever its tag, goes iff some orphan's handle fits it |
| `VppReaper.NoOrphanLeft` | cmd/vpp.go:457-473 | The interface with an orphan's tag, truthfully recorded, stays iff its type is not deleted at run time |
| `VppReaper.OrphanDomain` | cmd/vpp.go:457-473 | An orphan's domain stays iff a surviving interface is in it |
| `VppReaper.PortsSurvive` | vpp/apply.go:616-666 | Boot-time and hardware ports survive every reap |
| `VppReaper.DesiredSpared` | cmd/vpp.go:457-473 | The interface with a desired device's tag, truthfully recorded, survives untouched iff no orphan has the same handle |
| `VppReaper.DesiredDomain` | cmd/vpp.go:457-473 | The domain of a desired bridge that no orphan shares stays |
| `VppRuns.BuildDesired` | cmd/vpp.go:407-454 | The loop records every device, the loopback of a bridge with addresses and its tap, whatever the order |
| `VppRuns.TruthfulIff` | cmd/vpp.go:432-438 | A tunnel is recorded with the port it is created with, except for a negative destination port beside another positive one |
| `VppRuns.RecordsStayTrue` | cmd/vpp.go:407-454 | The records of a configuration tell the truth about the interfaces its apply leaves iff they do about those it finds |
| `VppRuns.ReapCoherence` | vpp/apply.go:616-666 | After the reap the cache is coherent iff no cached name's interface is fitted by an orphan's handle |
| `VppRuns.ClaimedIffDoomed` | cmd/vpp.go:457-473 | With true records an interface is deleted iff its name is an orphan of a deletable type |
| `VppRuns.ReapProxies` | cmd/vpp.go:334-349 | What it adds to the cache is exactly the existing interfaces of the entries it deletes |
| `VppRuns.StaleByItem` | vpp/state.go:73 | Comparing proxy entries by key is comparing interface and address |
| `VppRuns.ReapAll` | cmd/vpp.go:212-213 | What both reapers leave; with true records the cache survives them iff neither a cached name nor the interface of a stale proxy entry is a deleted orphan |
| `VppRuns.StaleAfterReap` | vpp/ndproxy.go:49-55 | Resolving an orphan, deleting it and resolving again answers an index that is gone, where the search finds nothing |
| `VppRuns.SetupVpp` | cmd/vpp.go:140-219 | A whole setup: what it makes of interfaces and domains, the records of the configuration, which names it has cached, and when that cache is still right for the NAT reaper |
| `VppRuns.SetUpHeld` | cmd/vpp.go:140-219 | What is under a name stays what it is through the apply and goes in the reap iff an orphan's handle fits it |
| `VppRuns.RenumberedTunnelStays` | vpp/apply.go:528-558 | By three setups: a tunnel renumbered under its name is not found when it leaves, and stays |
| `VppRuns.DesiredTunnelDeleted` | vpp/apply.go:645-655 | By three setups: a desired tunnel is deleted in place of an orphan that was given its old number |
| `VppRuns.StaleMember` | vpp/apply.go:478-490 | By two setups: a bond's member that left the configuration resolves to an index that is gone |
| `VppRuns.VppConverges` | cmd/vpp.go:140-219 | After every setup of every run in which nothing changes under its name while it is there, however devices leave and return: no deletable interface under a name ever recorded but the wanted ones, all wanted ones there iff no orphan shares a handle with one, others touched only if an orphan's handle fits them |
| `VppRuns.DomainsConvergeIff` | cmd/vpp.go:457-473 | Over every run: of the domains ever recorded only the desired ones are left iff every domain that stopped being desired belonged to a bridge that left and held nothing that survives |
| `VppRuns.SetupNext` | cmd/vpp.go:140-219 | From wherever a run has come, the next setup is a step of the run |
| `NatKeys.KeyInjective` | vpp/state.go:53-57 | For fields without the separator, keys are equal iff items are equal up to the prefix |
| `NatKeys.RuleKeys` | cmd/vpp.go:352-386 | Two rules share a key iff they are equal or both set the NAT64 prefix |
| `NatKeys.ItemRoundTrip` | cmd/vpp.go:352-386 | An item records every field of its rule: reading it back by kind gives the rule |
| `NatKeys.ReapNatOrphans` | cmd/vpp.go:389-404 | Deletes the previous items whose key nothing desired has, in order |
| `NatKeys.ReapedRules` | cmd/vpp.go:389-404 | A previous rule is deleted iff it is not desired; a NAT64 prefix iff no prefix is desired at all |
| `NatKeys.ChangedPrefixStays` | vpp/state.go:53-57 | A changed NAT64 prefix is not deleted |
| `NdpTaps.TapName` | vpp/ndptap.go:26-30 | Every tap name has 13 characters |
| `NdpTaps.AutoBdId` | vpp/state.go:105-109 | Every automatic domain is in 1..16,000,000 |
| `NdpTaps.TapNameInjective` | vpp/ndptap.go:26-30 | Two bridges share a tap name iff their hashes collide |
| `NdpTaps.TapNameText` | vpp/ndptap.go:26-30 | Five letters, then the hash in hexadecimal |
| `NdpTaps.DomainRule` | cmd/vpp.go:240-245 | The configured domain if there is one, else one derived from the name |
| `NdpTaps.ManagedRule` | config/vpp.go:98-107 | A section of its own, or the renderer of the bridge, or else the global one |
| `NdpTaps.TapRules` | cmd/vpp.go:225-237 | Keeps exactly the static rules with an explicit neighbour, in order, and counts the others |
| `NdpTaps.ExternalInOrder` | cmd/vpp.go:225-237 | The kept rules keep their order, on which the first match depends |
| `NdpTaps.DesiredTaps` | cmd/vpp.go:439-452 | The taps recorded for reaping are those of the bridges that need one |
| `NdpTaps.ProvisionTaps` | cmd/vpp.go:249-267 | The taps made to exist are the same, each in the domain of a bridge it belongs to |
| `NdpTaps.TapSpecs` | cmd/ndptap_daemon.go:30-48 | The taps the daemon can rebuild are the same, each with the domain of its bridge |
| `NdpTaps.BoundTaps` | cmd/ndp.go:109-176 | The taps the daemon binds are those of bridges with a rule that survives its own filter |
| `NdpTaps.BoundIsProvisioned` | cmd/ndp.go:114-144 | On validated configurations bound taps are provisioned, and all of them when the prefix parsers agree |
| `NdpTaps.TapsAgree` | cmd/vpp.go:225-267 | The four derivations give one set of taps and, unless colliding bridges have different domains, one domain for each |
| `NdpResponder.CoveredContains` | ndpproxy/responder.go:159-166 | A prefix contains what a prefix it covers contains |
| `NdpResponder.ContainsIffAgrees` | ndpproxy/responder.go:159-166 | A prefix contains exactly the addresses that agree with it on its first bits |
| `NdpResponder.Match` | ndpproxy/responder.go:159-166 | The rule at the least index whose prefix agrees bitwise with the target, none iff there is none |
| `NdpResponder.ShadowedRule` | ndpproxy/responder.go:159-166 | Deleting a rule behind one that covers it changes no match |
| `NdpResponder.ShadowedRuleUnobservable` | ndpproxy/responder.go:116-156 | Nor any reply to any packet |
| `NdpResponder.BuildIPv6` | ndpproxy/responder.go:183-193 | The buffer filled in place is header, addresses and payload |
| `NdpResponder.HeaderRoundTrip` | ndpproxy/responder.go:183-193 | What is built passes the filter and reads back as the same addresses and payload; the length field is right iff the payload is below 65,536 bytes |
| `NdpResponder.MarshalParses` | ndpproxy/responder.go:142-154 | An encoded advertisement parses back to itself |
| `NdpResponder.ReplyExact` | ndpproxy/responder.go:85-156 | When a packet is answered and with what: from the target, solicited and unicast iff the source is specified, else to all nodes |
| `NdpResponder.AnsweredIff` | ndpproxy/responder.go:85-126 | By bytes: answered iff a neighbour solicitation with hop limit 255 whose first agreeing rule has a six-byte neighbour and, if automatic, is routed elsewhere |
| `NdpResponder.ReplyBytes` | ndpproxy/responder.go:128-193 | Every byte of the reply but the checksum, and its link-layer destination |
| `NdpResponder.NoReplyToReply` | ndpproxy/responder.go:85-156 | No responder answers a responder's reply, whatever their configurations |
| `DhcpLease.Daemon.RequestLease` | netlink/dhcp_daemon.go:80-144 | The lease recorded, case by case: due at half its length, a day long if it has none, nothing when both families are refused; other interfaces untouched |
| `DhcpLease.Daemon.ReleaseLease` | netlink/dhcp_daemon.go:147-168 | The interface has no lease, the others keep theirs |
| `DhcpLease.Daemon.CheckRenewals` | netlink/dhcp_daemon.go:194-241 | In whatever order, every lease takes exactly one tick |
| `DhcpLease.Daemon.LoadLeases` | netlink/dhcp_daemon.go:251-278 | The start-up pass over the lease files as a fold |
| `DhcpLease.LastCurrentAdopted` | netlink/dhcp_daemon.go:257-277 | An interface gets the last of its leases that have not run out |
| `DhcpLease.OthersKept` | netlink/dhcp_daemon.go:268-273 | An interface without one keeps what it had, so nothing that has run out is adopted |
| `DhcpLease.TickOrder` | netlink/dhcp_daemon.go:222-228 | A tick keeps obtained ≤ renewal ≤ expiry iff it does not obtain a lease whose length breaks it |
| `DhcpLease.TickCases` | netlink/dhcp_daemon.go:200-228 | One tick, case by case: not due, renewed, renewed without length, requested anew in the last five minutes, refused |
| `DhcpLease.ZeroLengthBreaksOrder` | netlink/dhcp_daemon.go:222-228 | A lease renewed with one of no length is out of order |
| `DhcpLease.RunOrder` | netlink/dhcp_daemon.go:80-278 | Over every run of requests, releases, renewal passes and start-ups, every lease is in order in every state iff no tick obtained a lease without length |
| `DhcpLease.StaysDue` | netlink/dhcp_daemon.go:202-228 | Once renewed without length, and while answers have none, the timers never move, every tick renews again and the lease stays out of order |
| `DhcpLease.RenewalInTime` | netlink/dhcp_daemon.go:178-205 | A renewal is tried strictly before expiry for every schedule of ticks at most 60 s apart iff the lease exceeds 120 s |
| `DhcpLease.FourLastCalls` | netlink/dhcp_daemon.go:206-219 | A lease of at least 600 s whose renewals fail is requested anew at least four times in its last five minutes |
| `DhcpLease.FallbackOrder` | netlink/purego/dhcp4_client.go:301-311 | For every 32-bit length, T1 ≤ T2 ≤ lease in 64-bit arithmetic iff seven times the lease fits |
| `DhcpLease.TimerValues` | netlink/purego/dhcp4_client.go:275-311 | Options that are present are taken; the defaults are a day, half the lease and seven eighths of it |
| `DhcpLease.InfiniteLeaseOverflows` | netlink/purego/dhcp4_client.go:307-311 | The infinite lease gets a negative T2 |
| `DhcpLease.LengthsByClient` | netlink/dhcp.go:121-232 | The built-in client gives positive lengths; a request or renewal gives none iff it falls back to an external client that succeeds; a length the server names is taken as it is, and a renewal asks the server of the lease first |
| `ConfigMerge.NormalizeTunnels` | config/config.go:811-825 | Whatever the order of iteration while deleting: VXLAN entries moved, the others kept |
| `ConfigMerge.Normalize` | config/config.go:787-808 | Legacy namespaces adopted, version defaulted, tunnels normalised at the top level and in every namespace |
| `ConfigMerge.NormalizeIdempotent` | config/config.go:787-825 | Normalising twice is normalising once |
| `ConfigMerge.MergeMap` | config/config.go:1060-1064 | The source wins where both have a key, nothing is lost |
| `ConfigMerge.MergeNamespace` | config/config.go:1067-1151 | Devices merge; loopback and SRv6 of the destination stay |
| `ConfigMerge.MergeConfig` | config/config.go:1014-1057 | The whole merge as a function of both |
| `ConfigMerge.LoadConfig` | config/config.go:937-976 | The fold over the sorted files |
| `ConfigMerge.NormalizeThenMerge` | config/config.go:962-976 | At the top level and in every namespace, normalising each file then merging equals merging then normalising, on tunnels and VXLANs, iff no name is a VXLAN in one file and another kind in another |
| `ConfigMerge.LastDefinitionWins` | config/config.go:1031-1047 | A device other than a tunnel or VXLAN has the definition of the last file that defines it |
| `ConfigMerge.LastTunnelWins` | config/config.go:1043-1044 | A tunnel or VXLAN, at the top level or in a namespace, has the last definition and only that iff no earlier file gives the name the other kind |
| `ConfigMerge.SectionWins` | config/config.go:1024-1026 | The SRv6 section comes whole from the last file that has one |
| `ConfigMerge.SectionWinsVpp` | config/config.go:1021-1023 | The VPP section comes whole from the last file that has one |
| `ConfigMerge.LastRendererWins` | config/config.go:1027-1029 | The renderer is that of the last file that names one |
| `ConfigMerge.HighestVersion` | config/config.go:1015-1018 | The version is the highest of the files', 2 standing for none |
| `ConfigMerge.LegacyAdopted` | config/config.go:788-792 | In the legacy form without a version the namespaces are those at the top |
| `ConfigMerge.MovedByMode` | config/config.go:815-823 | Exactly the tunnels whose mode is vxlan, in either case of its letters, are moved |
| `ConfigMerge.LastScriptWins` | config/config.go:1148-1150 | The script of a repeated namespace is that of the last file that has one |
| `ConfigMerge.LastDefinitionWinsInNs` | config/config.go:1049-1056 | Inside a repeated namespace the last definition of a device other than a tunnel or VXLAN wins |
| `ConfigMerge.FirstFileKeepsLoopback` | config/config.go:1067-1151 | A repeated namespace keeps loopback and SRv6 of its first file |
| `NestedValues.SetNestedValue` | cmd/getset.go:185-212 | Fails iff the path is empty |
| `NestedValues.Get` | cmd/getset.go:70-82 | The loop computes the recursive walk, with its two errors told apart |
| `NestedValues.WalkErrors` | cmd/getset.go:72-81 | A part that a map lacks is not found, a part asked of a scalar is no map |
| `NestedValues.WalkEnds` | cmd/getset.go:71-82 | Every walk that fails stops at such a part |
| `NestedValues.GetAfterSet` | cmd/getset.go:185-212 | Reading the written path, or below it, reads the written value |
| `NestedValues.SetElsewhere` | cmd/getset.go:198-209 | An incomparable path keeps its value or stays unreadable, even where a scalar on the way is replaced |
| `NestedValues.SetSet` | cmd/getset.go:185-212 | The second set wins |
| `NestedValues.SetGet` | cmd/getset.go:185-212 | Writing what is there changes nothing |
| `NestedValues.SetCommutes` | cmd/getset.go:185-212 | Sets on incomparable paths commute |
| `RouteText.FieldsPrint` | cmd/apply.go:406-419 | Splitting a printed route gives back its words |
| `RouteText.ParseRoute` | cmd/apply.go:530-544 | Of several clauses the last one counts, and an unreadable table leaves the earlier value |
| `RouteText.LastClauseCounts` | cmd/apply.go:535-542 | The gateway is the word after the last "via" that has one, the table the last number after "table", each blank without one |
| `RouteText.WrittenAs` | cmd/apply.go:406-419 | The text of a route, with either clause left out when it is blank |
| `RouteText.RouteRoundTrip` | cmd/apply.go:406-419 | For texts without white space, printing and parsing gives the route back iff the route is faithful |
| `RouteText.ViaAsGateway` | cmd/apply.go:535-542 | The keyword as a gateway comes back as the next word |
| `RouteText.PrintedDiff` | state/state.go:262-274 | For such routes, diffing texts is diffing routes |
| `Decimal.ScanShow` | cmd/apply.go:539-541 | Scanning a decimal rendering gives the number back iff it fits 64 bits |
| `Decimal.ScanSigned` | cmd/apply.go:539-541 | So with a sign, and whatever follows the digits |
| `Srv6.Validate` | config/srv6.go:60-116 | Accepts exactly the identifiers with all required fields and well-formed addresses |
| `Srv6.Encode` | netlink/srv6.go:75-141 | Succeeds exactly on encodable identifiers, with a flag for each filled field and only those |
| `Srv6.SameActions` | netlink/srv6.go:45-57 | The tables of validation and encoder know the same actions |
| `Srv6.CodesByName` | netlink/srv6.go:45-57 | The encoder's table is the inverse of the behaviours' names |
| `Srv6.NeedsByBehaviour` | config/srv6.go:17-29 | What each behaviour needs is there in every accepted identifier |
| `Srv6.CutAtSlash` | netlink/srv6.go:60-65 | The prefix length of an identifier is cut off |
| `Srv6.ValidEncodes` | netlink/srv6.go:75-141 | Every accepted identifier is encodable once its links exist, with every flag its action requires |
| `Srv6.EncoderIsWeaker` | netlink/srv6.go:105-112 | An identifier with an IPv4 next hop in the IPv6 field that the encoder takes and validation refuses |
| `ByteUnits.Scale` | cmd/wg.go:161-172 | The loop ends at the power of 1024 below the count, no product overflows, the unit letter exists |

## Left out

- Routes in the kernel: additions rewrite the destination and removals do not, so routes are compared and printed but are not part of the runs.
- DHCP devices: the address flush of a DHCP run is outside the convergence theorem; the message exchange and DHCPv6 timers are not modelled.
- Loopback addresses of a namespace, gateways and metrics: not recorded in the saved state.
- Renaming by match and set-name, physical devices moved between namespaces, macvtap and veth peers.
- A name used for two kinds of device in one namespace, null entries in maps of devices or namespaces, and the rule that decides whether the default namespace is configured (its presence is part of the model's configuration).
- Failing kernel calls other than those caused by a missing link, a text that does not parse or a physical link: an apply that stops half-way is not a step of a run.
- VPP devices recorded in the kernel's saved state, and the split of a configuration between kernel and VPP.
- In VPP: addresses, MTU, MAC, routes, bond membership, joins that fail, tagging that fails, devices with empty names, one name for two kinds of device. Of NAT rules and proxy entries only the look-ups and the reaping by key are modelled.
- Reconciler.ApplyRemovals: the loop that removes routes is left out, as routes in the kernel are.
- Reconciler.SetupDevices: every kind is set up by one step, in any order; the order of kinds and what is particular to each (parents, members, keys) is not captured.
- Reconciler.ApplyNamespaceConfig: loopback, routes and the post-script are left out.
- VppApplier.Applier.ApplyAll: NAT rules and proxy entries are looked up but not applied.
- Parsing of YAML, JSON, addresses and MACs, the ICMPv6 checksum and the FNV hash: parameters of the model. White space follows the standard library's field splitter.
- NestedValues.SetNestedValue: nested maps are values, so aliasing between maps and the update in place are not captured.
- ConfigMerge.MergeConfig: maps and namespaces are values, so the sharing of a file's namespaces with the result is not captured; null maps are empty maps.
- Srv6.Encode: the flag array is a set; duplicate identifiers within a section are not checked.
- NdpResponder.ReplyExact: rule prefixes are IPv6 without zones; the message library's option parsing is a parameter.
- The mutex of the saved state, file I/O and their failures.
- Takeover of other managers, WiFi and 802.1X text, SR-IOV, offload, status and diff printing, startup.conf, cloud-init and packaging: I/O or formatting that would only add easy members.
