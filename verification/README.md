# FluxVM: verified models of the network fabric, guest boot and host state

A Dafny model of the parts of FluxVM in which a mistake is hardest to see by reading one
function, with proofs of what they promise. The whole project is checked with
`dafny verify dfyconfig.toml`.

## What is modelled

**Network fabric.** An operator's policy (`Policy`) is compiled into the kernel maps of a TC
classifier (`MapCompiler`), which parses frames (`Frames` relates them to what was sent) and
judges them (`TcProgram`, `Classifier`) with longest-prefix tries (`Lpm`) over byte-exact keys
(`Bits`, `LittleEndian`). The main result is
that the compiled maps decide every well-formed packet as the policy reads. Around it:

- `LiveUpdate`: a packet whose lookups fall anywhere among the writes of an update;
- `RateLimiter`: the fixed-window limiter, in 64-bit arithmetic;
- `ConfigSteps`, `Fabric`: attach, update, remove and reconcile as a state machine over all VMs
  and other parties, in which every command or file operation is one step that may fail, before
  or after it took effect, or be the last before a crash, and in which any number of operations
  are under way, on the same VM as well;
- `FabricSafety`, `FabricSerial`, `FabricResults`, `FabricHeal`, `FabricOverlap`: what holds in
  all its runs, what holds for a VM whose operations do not overlap, when repair works, and how
  overlapping operations break the rest;
- `NftFallback`: the nftables backend for the same policy, compared with the native one;
- `XdpGuard`: the source blocklist and its add-before-delete synchroniser.

**Booting a guest.** `GuestMemory` and `PageTables` build the four page-table pages byte by byte,
walk them as section 4.5 of Intel SDM Vol. 3A does, and show that nothing boot writes afterwards
disturbs them. `RxRing` is the receive virtqueue of the freestanding guest driver, against a
device that may act between any two accesses of the driver, and `Checksum` is its Internet
checksum (section 1 of RFC 1071).

**Host state.** `HttpReader` reads responses chunk by chunk and `HttpResponses` says what becomes of
every rendered one; `Cpuset` parses and prints CPU lists (all over `AsciiText`); `Ipam`, `VmStore`, `PoolStore` and `Placement` allocate subnets, vsock
CIDs, warm VMs and nodes; `Lifecycle` is the control server of one micro-VM.

Addresses, masks and trie keys are bit strings, most significant bit first. Machine integers are
mathematical integers with the sources' widths as subset types; wrap-around is written out where
the sources rely on it. Multi-byte map fields are little-endian.

## What was found false, and exactly when

Each of these is stated as a lemma or an if-and-only-if contract.

- *A failed or crashed operation is always repaired by the next fault-free reconcile.* Repair
  succeeds if and only if the reserved TC slot is empty or holds a filter the VM's own records
  name (`FabricHeal.EnsureHealsIffSlotAvailable`). `remove` ignores a failing `tc filter del` and
  then deletes those records (`crates/fluxvm-network/src/ebpf.rs:219-233`, `437-447`), so the
  filter stays and the interface cannot be attached again until the interface itself is deleted,
  as the teardown of a VM's network does, or another party removes the filter
  (`FabricHeal.RemoveCanLeak`, `FabricHeal.LeakLasts`).
- *An attached VM with a stored fingerprint is judged by a policy with that fingerprint, and what
  passes the policy in force permits.* Both hold in every world a VM can reach if and
  only if operations on it are kept from overlapping (`FabricOverlap.TruthfulIffSerial`,
  `FabricOverlap.NeverOpenerIffSerial`). The source does not keep them: a policy change
  (`crates/fluxvm-scheduler/src/lib.rs:451-500`) and the reconcile loop
  (`crates/fluxvm-scheduler/src/lib.rs:1296-1352`) reach the same VM from separate tasks, and no
  lock per VM is taken on the way.
- *The nftables fallback agrees with the native classifier.* Every VM's chain drops by policy and
  sees every forwarded packet. For IPv4 the two agree if and only if the packet is refused anyway
  or no other VM enforces anything (`NftFallback.FallbackAgreesWithNativeIff`); for IPv6, if and
  only if it is refused anyway or no VM at all does (`NftFallback.FallbackOnIpv6Iff`). The fallback
  also ignores a failing `delete table`, after which the old rules stay in force
  (`NftFallback.LeftoverRulesStayInForce`), and while the table is rebuilt there is a stretch
  without a forward chain (`NftFallback.NftTable.Apply`).
- *No two stored VMs share a CID.* They do not as long as every update writes a record back that
  was not removed since it was read (`VmStore.RunKeepsCidsUnique`); an update prepared before a
  removal can duplicate one (`VmStore.StaleUpdateDuplicates`). A single blind write keeps CIDs
  unique if and only if no other stored VM has the record's CID (`VmStore.WriteKeepsUniqueIff`).
- *A guest reported running is running.* After `SnapshotSave` it is, if and only if no pause went
  through or the resume did (`Lifecycle.VmState.SaveSnapshot`). A later `Resume` request restarts
  it, although it is answered with an error (`Lifecycle.VmState.ResumeVm`);
  `Lifecycle.SnapshotThatStopsTheGuest` is such a run.
- *A node's residual is its free fraction in ten-thousandths.* With totals that fit i64 the memory
  fraction is exact if and only if free memory times 10,000 fits i64
  (`Placement.FractionIsExactIff`, `Placement.ResidualIsExactIff`); beyond, an idle node can lose
  to a full one (`Placement.HugeMemoryLoses`).
- *A node's free vCPUs are its total less two for each VM.* They are if and only if the VM count fits
  32 bits or its low 32 bits alone use up the total (`Placement.FreeIsWhatVmsLeave`); the source
  truncates the count (`crates/fluxvm-agent/src/central.rs:61`).

The code, not the documentation, is followed in two places: `README.md:648-649` says a miss in the
interface map passes the packet, `bpf/fluxvm_tc.bpf.c:551-555` drops it; and frames that are
neither IP nor ARP follow `default_allow` even under an allowlist (`bpf/fluxvm_tc.bpf.c:573-575`).

## Model

| member | source | states |
|---|---|---|
| Bits.MaskKeepsPrefix | crates/fluxvm-network/src/ebpf.rs:858-860 | shifting an all-ones word left and ANDing keeps exactly the leading bits and zeroes the rest |
| Lpm.LookupIsLongest | bpf/fluxvm_tc.bpf.c:122-128 | a trie lookup returns the value of the longest stored prefix of the key, and nothing only if no prefix is stored |
| Lpm.HitIffCovers | bpf/fluxvm_tc.bpf.c:328-329 | over tables of ones, a lookup hits iff some stored prefix covers the key |
| LittleEndian.DecodeEncode | crates/fluxvm-network/src/ebpf.rs:619-626 | a fixed-width little-endian field reads back |
| LittleEndian.EncodeInjective | crates/fluxvm-network/src/ebpf.rs:681-684 | distinct values have distinct bytes |
| Policy.NetworkOf | crates/fluxvm-network/src/ebpf.rs:854-870 | normalising keeps the prefix and clears the host bits, for both families |
| Policy.NormalizedCidrContains | crates/fluxvm-network/src/ebpf.rs:835-870 | an address has the parsed network after masking iff the text parses, the families agree and the leading bits do |
| Policy.MbpsIs125000BytesPerSecond | crates/fluxvm-network/src/ebpf.rs:630-638 | limits are exactly 125,000 bytes per second per Mbps; only zero is rejected and the product never overflows |
| Policy.PortRuleMeans | crates/fluxvm-network/src/ebpf.rs:872-889 | a port rule is well-formed iff it is tcp or udp with a port other than zero, and then has protocol 6 or 17 |
| Policy.ValidMeans | crates/fluxvm-network/src/ebpf.rs:513-529 | a policy is valid iff every CIDR has an address and a prefix within its family's width, every rule is well-formed and no limit is zero |
| TcProgram.L4KeyInjective | bpf/fluxvm_tc.bpf.c:55-60 | two port keys with the same 8 bytes belong to the same identity and the same rule |
| TcProgram.FieldReadsBack | crates/fluxvm-network/src/ebpf.rs:616-627 | a field of a packed record is found at the sum of the widths before it |
| TcProgram.ConfigBytesReadBack | bpf/fluxvm_tc.bpf.c:29-40 | every field the loader writes is what the classifier reads at its struct offset, flags by being non-zero |
| Frames.Frame4ReadsBack | bpf/fluxvm_tc.bpf.c:455-471 | for every IPv4 header, options and segment, the parser sees the destination, protocol, fragmentation and ports that were sent, and rejects exactly the truncated unfragmented segments |
| Frames.Frame6ReadsBack | bpf/fluxvm_tc.bpf.c:222-248 | the same for IPv6 without extension headers |
| Frames.Icmp6ReadsBack | bpf/fluxvm_tc.bpf.c:264-275 | an ICMPv6 message is neighbour discovery iff it has a full header and a type from 133 to 136 |
| Frames.ArpPasses | bpf/fluxvm_tc.bpf.c:563-575 | on a known interface a frame with type bytes 08 06 passes, and one of any other non-IP type follows the record's default |
| Frames.Bootstrap4Iff | bpf/fluxvm_tc.bpf.c:250-255 | under every configuration an IPv4 segment is bootstrap iff it is complete, unfragmented UDP between ports 67 and 68 |
| Frames.Bootstrap6Iff | bpf/fluxvm_tc.bpf.c:257-262 | an IPv6 segment is bootstrap iff it is complete UDP between ports 546 and 547 |
| Frames.BootstrapIcmp6Iff | bpf/fluxvm_tc.bpf.c:519-528 | an ICMPv6 message is bootstrap iff it has its eight header bytes and a type from 133 to 136 |
| Frames.BrokenFramesAreShot | bpf/fluxvm_tc.bpf.c:455-461 | frames too short for their Ethernet, IPv4 or IPv6 header, IPv4 header lengths below five words or past the end, and unknown interfaces are dropped |
| MapCompiler.KeyIsPrefixIffContains | crates/fluxvm-network/src/ebpf.rs:659-677 | an owner's CIDR key is a prefix of identity and destination iff the owner has that identity and the CIDR contains the destination |
| MapCompiler.TrieMeansCidrs | bpf/fluxvm_tc.bpf.c:321-341 | the longest-prefix lookup hits iff some CIDR of that family contains the address |
| MapCompiler.TableMeansPorts | bpf/fluxvm_tc.bpf.c:343-353 | the port key is in the table iff some port rule matches |
| MapCompiler.CompiledMapsMeanThePolicy | bpf/fluxvm_tc.bpf.c:449-544 | over maps holding a policy, the verdict on every well-formed non-bootstrap IPv4 or IPv6 frame is the direct reading of the policy |
| MapCompiler.NonIpFollowsTheDefault | crates/fluxvm-network/src/ebpf.rs:589-599 | over maps holding a policy, a frame whose type is neither ARP nor IP passes iff the policy's default allows, whatever its lists are |
| MapCompiler.PublishedBytes | crates/fluxvm-network/src/ebpf.rs:604-627 | the published record carries at each byte offset the identity, the default, whether there are CIDRs and ports, the sample rate, and the limits in bytes and packets per second |
| MapCompiler.OrderDoesNotMatter | crates/fluxvm-network/src/dataplane.rs:149-152 | sorting and deduplicating the CIDR list changes no compiled map |
| MapCompiler.PinnedMaps.Write | crates/fluxvm-network/src/ebpf.rs:688-702 | one map command: done, or failed before or after taking effect; recorded in the history |
| MapCompiler.PinnedMaps.ClearMap | crates/fluxvm-network/src/ebpf.rs:640-657 | fails iff a command does; success empties exactly the named table; every state on the way stays in any invariant closed under edits |
| MapCompiler.PinnedMaps.AllowCidrs | crates/fluxvm-network/src/ebpf.rs:572-577 | fails iff a command does or a CIDR does not parse; success leaves in both tries exactly the keys of the policy's CIDRs, each with value 1 |
| MapCompiler.PinnedMaps.AllowPorts | crates/fluxvm-network/src/ebpf.rs:578-580 | fails iff a command does or a rule does not parse; success leaves in the port table exactly the keys of the policy's rules |
| MapCompiler.PinnedMaps.ReplaceTables | crates/fluxvm-network/src/ebpf.rs:568-587 | fails iff a command does or the policy does not compile; success leaves exactly the policy's entries in all three tables and the interface map untouched |
| MapCompiler.PinnedMaps.Build | crates/fluxvm-network/src/ebpf.rs:552-600 | fails iff a command does or the policy does not compile; success before attaching leaves maps that hold the policy, whatever was there |
| MapCompiler.PinnedMaps.Update | crates/fluxvm-network/src/ebpf.rs:563-600 | fails iff a command does or the policy does not compile; however an update of live maps ends, its states are the old maps, then deny-all with only old or new entries, then the new policy |
| ConfigSteps.CommandKeepsInv | crates/fluxvm-network/src/ebpf.rs:552-600 | when nobody else changes the maps, every command of configure_maps leads to the next with its invariant, and the last one to maps that hold the policy |
| ConfigSteps.CommandIsSafe | crates/fluxvm-network/src/ebpf.rs:563-600 | whatever becomes of a command on live maps, they stay as they are, deny, or hold the policy |
| ConfigSteps.CommandsAreAnUpdateTrace | crates/fluxvm-network/src/ebpf.rs:563-600 | the states of an undisturbed sequence of these commands are an update trace, so what LiveUpdate says of packets applies to them |
| LiveUpdate.AlwaysWithin | crates/fluxvm-network/src/ebpf.rs:568-580 | at every point of an update each table holds only old or new entries |
| LiveUpdate.PacketRacingAnUpdate | bpf/fluxvm_tc.bpf.c:487-500 | a packet whose three lookups fall anywhere, in order, among the writes and is let through meets the old flags against old and new entries together, or exactly the new policy |
| LiveUpdate.PacketBetweenWrites | crates/fluxvm-network/src/ebpf.rs:235-285 | a packet judged between two writes is allowed iff the old policy permits it before the first, never in between, iff the new one permits it after the last |
| LiveUpdate.NonIpDuringAnUpdate | bpf/fluxvm_tc.bpf.c:573-575 | a non-IP, non-ARP frame follows the old policy's default, is then dropped, and then follows the new policy's default |
| RateLimiter.StepIsExact | bpf/fluxvm_tc.bpf.c:299-318 | no counter or subtraction wraps, a packet is refused iff admitting it would exceed a limit, and the window moves exactly when a second has passed |
| RateLimiter.WithinOneWindow | bpf/fluxvm_tc.bpf.c:302-316 | what passes in the rest of a window is at most what is left of each limit |
| RateLimiter.AnySecondAdmitsAtMostTwice | bpf/fluxvm_tc.bpf.c:277-319 | over every run, any half-open second admits at most twice each limit |
| RateLimiter.TwiceIsReachedIff | bpf/fluxvm_tc.bpf.c:302-312 | some run reaches twice the limit within a second iff it is a byte limit that a single frame can exceed |
| RateLimiter.AlmostTwiceIsReached | bpf/fluxvm_tc.bpf.c:302-316 | for every limit a policy can set, of bytes or of packets, some run comes within one of twice the limit, so the bound is tight |
| Classifier.Egress.RateAllowed | bpf/fluxvm_tc.bpf.c:277-319 | without limits always yes and no state touched; otherwise exactly the limiter's step on this identity's state, or a refusal when it has none and the state map is full |
| Classifier.Egress.Run | bpf/fluxvm_tc.bpf.c:546-576 | malformed frames and unknown interfaces are dropped, bootstrap frames pass and spend no rate, other protocols follow default_allow, only packets the policy allows touch the rate state, and they pass iff the limiter agrees |
| Classifier.PolicyLimits | crates/fluxvm-network/src/ebpf.rs:582-587 | a validated policy yields limits within the range the limiter's bounds are proved for |
| FabricSafety.StepOwned | crates/fluxvm-network/src/ebpf.rs:93-233 | however operations overlap, a step leaves its VM's records naming only programs loaded for that VM, and touches no other VM's programs |
| FabricSafety.RunKeepsOwned | crates/fluxvm-network/src/ebpf.rs:431-461 | in every world of every run, overlapping or not, every VM's records name its own programs |
| FabricSerial.ApplyInvKept | crates/fluxvm-network/src/ebpf.rs:93-217 | every step of an apply, however it turns out, keeps the invariant of its VM |
| FabricSerial.RemoveInv | crates/fluxvm-network/src/ebpf.rs:219-233 | so does every step of a removal, including a partial directory removal |
| FabricSerial.UpdateInvKept | crates/fluxvm-network/src/ebpf.rs:268-272 | and clearing and publishing the commit marker around an update |
| FabricSerial.ConfigInvKept | crates/fluxvm-network/src/ebpf.rs:552-600 | and every single map command, in an apply or on live maps |
| FabricSerial.OtherPartyStep | crates/fluxvm-network/src/ebpf.rs:175-177 | other parties adding or removing filters keep it |
| FabricSerial.NextKeepsInv | crates/fluxvm-network/src/dataplane.rs:139-353 | any step of any operation on any VM, or of another party, keeps the invariant of a VM whose own operations do not overlap at that moment |
| FabricSerial.RunKeepsInv | crates/fluxvm-network/src/dataplane.rs:139-353 | every world of every run in which a VM's operations do not overlap satisfies that VM's invariant |
| FabricResults.StoredFingerprintIsTruthful | crates/fluxvm-network/src/ebpf.rs:287-315 | in every run in which the VM's operations do not overlap, whatever fails or crashes, attached with a stored fingerprint means the attached maps were compiled from a requested policy with that fingerprint |
| FabricResults.HealthyMeansEnforced | crates/fluxvm-network/src/dataplane.rs:343-349 | when reconcile then sees nothing to do, packets are judged by a requested policy with the desired fingerprint |
| FabricResults.NeverOpenerThanPublished | crates/fluxvm-network/src/ebpf.rs:235-238 | at every instant of such a run, what the VM's classifier lets through the policy in force permits: one that was asked for and published, with no deny-all command taking effect since; so from an update's first write nothing passes that the new policy, once published, does not permit |
| FabricResults.OnlyOwnFiltersTouched | crates/fluxvm-network/src/ebpf.rs:176-196 | however operations overlap, a step deletes only a filter loaded for its own VM, replaces none, and adds only to an empty slot |
| FabricResults.OneVmPerInterface | crates/fluxvm-network/src/ebpf.rs:297-305 | however operations overlap, two VMs are never attached to the same interface |
| FabricResults.ReconfigureStaysAttached | crates/fluxvm-network/src/ebpf.rs:235-238 | throughout a reconfigure the VM stays attached where it was, unless another party removes the filter |
| FabricResults.ReconfigureEndsHealthy | crates/fluxvm-network/src/dataplane.rs:242-252 | a reconfigure that runs from beginning to commit ends attached and synced, with the new policy in the attached maps, whatever happens to other VMs meanwhile |
| FabricOverlap.OverlapBreaksTruth | crates/fluxvm-scheduler/src/lib.rs:451-500 | two overlapping updates of one VM can end with a healthy status for the one policy and the other in the maps |
| FabricOverlap.TruthfulIffSerial | crates/fluxvm-scheduler/src/lib.rs:1296-1352 | the stored fingerprint is truthful in every reachable world iff operations on the VM are kept from overlapping |
| FabricOverlap.OverlapOpens | crates/fluxvm-network/src/ebpf.rs:568-600 | two overlapping updates can leave entries of both policies in force, and a packet passes that neither permits |
| FabricOverlap.NeverOpenerIffSerial | crates/fluxvm-network/src/ebpf.rs:235-285 | the classifier is never opener than the policy in force in every reachable world iff operations on the VM are kept from overlapping |
| FabricOverlap.SomePacketIsBetween | crates/fluxvm-network/src/ebpf.rs:568-580 | there are two such policies and such a packet |
| FabricHeal.ApplyHealsIffSlotAvailable | crates/fluxvm-network/src/ebpf.rs:113-216 | an undisturbed apply ends attached and synced if the slot is available and otherwise cleans up all its files |
| FabricHeal.CleanupStage | crates/fluxvm-network/src/ebpf.rs:219-233 | an undisturbed removal from any world leaves no file, empties exactly the slot holding the program its VM's records name, and changes no other slot, program or file |
| FabricHeal.FailedApplyCleansUp | crates/fluxvm-network/src/ebpf.rs:143-216 | whichever step of an apply fails after loading, before or after it took effect, the undisturbed rest of the apply does the same |
| FabricHeal.FailedAttachLeavesNoFilter | crates/fluxvm-network/src/ebpf.rs:174-216 | an attach reported as failed leaves every slot as it was before it |
| FabricHeal.RemovalMakesRoom | crates/fluxvm-network/src/ebpf.rs:219-233 | after an undisturbed removal of an attached VM, an undisturbed apply of any VM on that interface heals |
| FabricHeal.EnsureHealsIffSlotAvailable | crates/fluxvm-network/src/dataplane.rs:320-353 | from any state one undisturbed ensure reaches healthy iff the slot is available; then schema 3, the fingerprint and the slot's program are on record, the maps hold the policy, and the next ensure does nothing |
| FabricHeal.UpdateEndsHealthy | crates/fluxvm-network/src/ebpf.rs:239-285 | an undisturbed update of an attached VM ends with the filter where it was, the new policy in its maps, and only the fingerprint changed, to the new one |
| FabricHeal.FailedUpdateKeepsTheFilter | crates/fluxvm-network/src/ebpf.rs:268-273 | an update of an attached VM that fails at any step, with or without effect, leaves filter, slot and records as they were but for the fingerprint, and one undisturbed ensure repairs it |
| FabricHeal.LeakedSlotIsUnavailable | crates/fluxvm-network/src/ebpf.rs:437-452 | no VM can attach to an interface whose filter its VM's records no longer name |
| FabricHeal.LeakSurvivesOperations | crates/fluxvm-network/src/ebpf.rs:431-436 | no step of any attach, update, remove or reconcile operation removes such a filter |
| FabricHeal.LeakLasts | crates/fluxvm-network/src/ebpf.rs:431-455 | over any run it stays until the interface is deleted or another party takes the filter away |
| FabricHeal.RemoveCanLeak | crates/fluxvm-network/src/ebpf.rs:223-231 | for every VM, policy and interface a run leads there: remove, with the filter deletion failing |
| NftFallback.NftTable.AddPortsFor | crates/fluxvm-network/src/dataplane.rs:433-440 | fails iff a command does or a port does not parse; success leaves a rule for this CIDR with each port; every state on the way keeps the invariant |
| NftFallback.NftTable.AddPairs | crates/fluxvm-network/src/dataplane.rs:431-442 | fails iff a command does or a port does not parse; success leaves a rule for every CIDR and port pair |
| NftFallback.NftTable.AddCidrs | crates/fluxvm-network/src/dataplane.rs:443-450 | fails iff a command does; success leaves a rule for every CIDR |
| NftFallback.NftTable.AddPorts | crates/fluxvm-network/src/dataplane.rs:451-460 | fails iff a command does or a port does not parse; success leaves a rule for every port |
| NftFallback.NftTable.AddRules | crates/fluxvm-network/src/dataplane.rs:430-469 | fails iff a command does or a port does not parse; success leaves every rule the policy asks for and, where it has a list, the one for established connections |
| NftFallback.NftTable.Reset | crates/fluxvm-network/src/dataplane.rs:398-410 | afterwards the forward chain is gone, or is the old one, and then a command has failed; the method fails iff one of the commands after the deletion does |
| NftFallback.NftTable.Apply | crates/fluxvm-network/src/dataplane.rs:412-483 | success implements the policy on top of what the deletion left, which is nothing unless the deletion failed; without a failed command it fails only for a native-only feature or an unparsable port; from the moment the chain stands every state holds only such rules |
| NftFallback.FallbackMeansThePolicy | crates/fluxvm-network/src/dataplane.rs:421-470 | a finished chain on a clean table accepts a new connection from its own guest subnet iff the policy permits it |
| NftFallback.EstablishedAcceptedIff | crates/fluxvm-network/src/dataplane.rs:464-469 | a finished chain on a clean table accepts an established packet from any source iff the policy has a list or allows by default |
| NftFallback.RepliesPassIff | crates/fluxvm-network/src/dataplane.rs:464-469 | the host passes an established packet iff every VM on it has a list or allows by default |
| NftFallback.NativeOnlyMeans | crates/fluxvm-network/src/dataplane.rs:314-325 | the fallback refuses exactly the policies under which the classifier would limit rates or some IPv6 destination would be in the list |
| NftFallback.HostVerdict | crates/fluxvm-network/src/dataplane.rs:425-428 | the host, which asks every VM's base chain, passes a new connection iff the policy of the VM it comes from permits it and no other VM enforces anything |
| NftFallback.FallbackAgreesWithNativeIff | bpf/fluxvm_tc.bpf.c:487-500 | for every unfragmented non-bootstrap packet that opens a connection from one guest subnet, host and native classifier agree iff the policy refuses it or no other VM enforces anything |
| NftFallback.FallbackOnIpv6Iff | crates/fluxvm-network/src/dataplane.rs:451-460 | for an IPv6 packet they agree iff the policy refuses it or no VM at all enforces anything; the policy permits it only by default or by its port alone |
| NftFallback.NeighboursBlockEachOther | crates/fluxvm-network/src/dataplane.rs:425-428 | two VMs that may each reach TCP port 80, whose host drops the first one's connections |
| NftFallback.Ipv6PortIsBlocked | crates/fluxvm-network/src/dataplane.rs:451-460 | one VM that may reach TCP port 80, whose IPv6 packets to it the host drops |
| NftFallback.LeftoverRulesStayInForce | crates/fluxvm-network/src/dataplane.rs:399-400 | whatever the left-over rules accept stays accepted, however the apply ends |
| XdpGuard.BytesIdentifyEntries | crates/fluxvm-network/src/xdp.rs:384-387 | comparing key bytes decides exactly whether two CIDRs are the same trie entry |
| XdpGuard.BlockMap.AddWanted | crates/fluxvm-network/src/xdp.rs:381-383 | fails iff a command does; success leaves old and wanted entries together; every state on the way is a syncing state |
| XdpGuard.BlockMap.DeleteStale | crates/fluxvm-network/src/xdp.rs:384-394 | fails iff a command does; success leaves exactly the wanted entries; every state on the way is a syncing state |
| XdpGuard.BlockMap.Sync | crates/fluxvm-network/src/xdp.rs:358-396 | fails iff a command does; every state is syncing, and success leaves exactly the wanted keys |
| XdpGuard.Guard.Reconfigure | crates/fluxvm-network/src/xdp.rs:146-173 | fails iff a command does or a CIDR does not parse, and then before any write; success leaves each family's keys and no others |
| XdpGuard.BlockedIffCovered | bpf/fluxvm_xdp.bpf.c:70-78 | a source is dropped iff some stored prefix covers it |
| XdpGuard.SyncNeverFailsOpen | crates/fluxvm-network/src/xdp.rs:168-171 | in every state of a sync, what both lists block is blocked and what neither blocks is not |
| XdpGuard.SyncedMeansTheList | bpf/fluxvm_xdp.bpf.c:64-94 | after a successful sync a source is blocked iff some configured CIDR contains it |
| GuestMemory.Memory.WriteAt | crates/fluxvm-hypervisor/src/memory.rs:62-76 | a write that fits replaces exactly its range; one that does not fails and changes nothing |
| GuestMemory.Memory.ReadAt | crates/fluxvm-hypervisor/src/memory.rs:78-90 | a read returns the range, or fails when it passes the end |
| GuestMemory.ReadOverWrite | crates/fluxvm-hypervisor/src/memory.rs:62-90 | a read inside a written range sees the data, one beside it what was there |
| PageTables.PutEntry | crates/fluxvm-hypervisor/src/boot.rs:120-123 | storing eight bytes changes exactly that entry of the page |
| PageTables.LeafPage | crates/fluxvm-hypervisor/src/boot.rs:119-129 | the loop fills a page with 512 consecutive 2 MiB entries |
| PageTables.TopPage | crates/fluxvm-hypervisor/src/boot.rs:109-117 | the upper tables hold their one or two entries and zeroes |
| PageTables.StorePage | crates/fluxvm-hypervisor/src/boot.rs:109-130 | a page written to RAM is a table there; fails iff it does not fit |
| PageTables.BuildIdentityPageTables | crates/fluxvm-hypervisor/src/boot.rs:106-132 | succeeds iff RAM reaches 0xE000, and then all four tables stand |
| PageTables.WalkIsIdentity | crates/fluxvm-hypervisor/src/boot.rs:106-132 | for every 48-bit address the walk over the bytes succeeds iff it lies in [0, 1 GiB) or [3 GiB, 4 GiB), and returns the address itself |
| PageTables.AccessIsFull | crates/fluxvm-hypervisor/src/boot.rs:109-129 | every entry of the four tables is absent, or writable, supervisor-only and executable |
| PageTables.WriteBesideTables | crates/fluxvm-hypervisor/src/memory.rs:6-10 | a write that misses the four pages keeps the tables |
| PageTables.Store | crates/fluxvm-hypervisor/src/memory.rs:62-76 | a boot-time write beside the tables keeps them, and patches exactly its range or fails |
| PageTables.PrepareLinux | crates/fluxvm-hypervisor/src/boot.rs:19-66 | any kernel, initrd and command line keep the tables; succeeds iff all fit, and RAM then holds them in that order of writing |
| PageTables.PrepareWindows | crates/fluxvm-hypervisor/src/boot.rs:68-100 | any firmware keeps the tables; one that does not fit is skipped |
| PageTables.GdtDecodes | crates/fluxvm-hypervisor/src/kvm.rs:167-180 | decoded as section 3.4.5 of Intel SDM Vol. 3A lays descriptors out, the table has flat present ring-0 64-bit code at selector 0x08, flat writable data at 0x10 and a present available 64-bit TSS at 0xC000 with limit 103 at 0x18 |
| PageTables.SetupLongMode | crates/fluxvm-hypervisor/src/kvm.rs:165-181 | afterwards the descriptors at 0xB000 decode to those three, the TSS is zero and the page tables stand |
| PageTables.BootLinux | crates/fluxvm-hypervisor/src/boot.rs:19-132 | for every RAM size and image, boot gets to run iff everything fits, and then the walk is the identity on exactly the two ranges and the descriptors decode to the boot segments |
| Checksum.Cksum | crates/fluxvm-hypervisor/guest/netboot.c:96-105 | for every buffer, odd lengths padded, the complement of the folded word sum as the 32-bit accumulator has it |
| Checksum.OddLengthIsPadded | crates/fluxvm-hypervisor/guest/netboot.c:99-101 | an odd buffer has the checksum of the buffer with one zero byte more |
| Checksum.StoredChecksumVerifies | crates/fluxvm-hypervisor/guest/netboot.c:304-313 | for every buffer of every length, storing the checksum in its zeroed field makes the whole buffer's checksum zero |
| Checksum.OnlyTheChecksumVerifies | crates/fluxvm-hypervisor/guest/netboot.c:304-313 | in a buffer of up to 131,072 bytes a stored word verifies iff it is the checksum, or the other zero |
| Checksum.ChecksumNeverCarries | crates/fluxvm-hypervisor/guest/netboot.c:96-105 | adding its checksum to a sum never carries out of the 32-bit accumulator |
| Checksum.FoldTo16 | crates/fluxvm-hypervisor/guest/netboot.c:102-103 | the fold loop terminates with the folded sum |
| Checksum.FoldIsResidue | crates/fluxvm-hypervisor/guest/netboot.c:102-103 | folding ends in 16 bits, keeps the residue mod 0xFFFF, and gives zero only for zero |
| RxRing.RunConservesDescriptors | crates/fluxvm-hypervisor/guest/netboot.c:262-330 | under every interleaving with any device, no descriptor is lost or duplicated and the indices stay eight apart |
| RxRing.NoDuplicates | crates/fluxvm-hypervisor/guest/netboot.c:320-329 | no descriptor is in two live entries at once |
| RxRing.BuffersAreDisjoint | crates/fluxvm-hypervisor/guest/netboot.c:111-119 | whatever has happened, the eight descriptors name consecutive disjoint device-writable buffers of 2048 bytes |
| RxRing.AppendToRing | crates/fluxvm-hypervisor/guest/netboot.c:326-328 | writing the next slot overwrites nothing still to be read |
| RxRing.SlotOfWrapped | crates/fluxvm-hypervisor/guest/netboot.c:268-268 | a wrapped 16-bit index selects the slot of the true count |
| RxRing.WrappedDistance | crates/fluxvm-hypervisor/guest/netboot.c:267-267 | comparing wrapped indices compares the true counts, and their difference mod 2^16 is the true distance |
| RxRing.RxQueue.constructor | crates/fluxvm-hypervisor/guest/netboot.c:111-125 | the rings and indices after the first replenish stand for the protocol's start |
| RxRing.RxQueue.DeviceConsume | crates/fluxvm-hypervisor/guest/netboot.c:326-328 | a device reading the ring at its 16-bit index takes the protocol's next entry |
| RxRing.RxQueue.DevicePublish | crates/fluxvm-hypervisor/guest/netboot.c:266-268 | a device publishing what it holds makes the protocol's publish step |
| RxRing.RxQueue.DriverReadIdx | crates/fluxvm-hypervisor/guest/netboot.c:266-266 | the driver's reading of the used index stands for all entries published so far |
| RxRing.RxQueue.MoreToTake | crates/fluxvm-hypervisor/guest/netboot.c:267-267 | the loop condition on 16-bit indices is true iff a seen entry is unrecycled |
| RxRing.RxQueue.DriverTake | crates/fluxvm-hypervisor/guest/netboot.c:268-268 | the driver takes the oldest unrecycled used entry |
| RxRing.RxQueue.DriverResetField | crates/fluxvm-hypervisor/guest/netboot.c:321-324 | each of the three stores that reset the descriptor in the driver's hand changes nothing the device could see |
| RxRing.RxQueue.DriverWriteSlot | crates/fluxvm-hypervisor/guest/netboot.c:325-326 | the slot written is none the device has yet to consume |
| RxRing.RxQueue.DriverPublishSlot | crates/fluxvm-hypervisor/guest/netboot.c:327-329 | the recycle completes, and rx_avail_idx minus last_used is 8 mod 2^16 |
| AsciiText.ParseOfText | crates/fluxvm-cgroup/src/cpuset.rs:136-142 | a printed number within the type's range parses back |
| AsciiText.NoLeadingZero | crates/fluxvm-cgroup/src/cpuset.rs:136-142 | a number is printed without leading zeros |
| AsciiText.ParseIff | crates/fluxvm-cgroup/src/cpuset.rs:94-99 | a text parses as a number iff it is its decimal digits after at most one plus sign, and the number is in range |
| AsciiText.TrimPads | crates/fluxvm-cgroup/src/cpuset.rs:74-90 | trimming takes off exactly the white space around a text |
| HttpReader.PrefixDecides | crates/fluxvm-firecracker/src/http.rs:122-124 | once the bytes at hand decide the outcome, later bytes cannot change it |
| HttpReader.ReadHead | crates/fluxvm-firecracker/src/http.rs:66-83 | reads until the first terminator, never having had an outcome before, or to the end |
| HttpReader.ReadBody | crates/fluxvm-firecracker/src/http.rs:106-124 | reads only while the body is short |
| HttpReader.ReadResponse | crates/fluxvm-firecracker/src/http.rs:66-132 | for every cutting into chunks the outcome is that of the whole stream, and no read is issued once it is decided |
| HttpResponses.ResponseReadsBack | crates/fluxvm-firecracker/src/http.rs:84-132 | a rendered response succeeds iff its printed status is three digits beginning with 2, and otherwise is an error with that status and exactly that body, whatever other headers, name case, white space and trailing bytes |
| HttpResponses.ResponseWithoutLength | crates/fluxvm-firecracker/src/http.rs:97-103 | without a Content-Length the body is empty and the outcome is there with the head |
| HttpResponses.ResponseWithBadLength | crates/fluxvm-firecracker/src/http.rs:101-103 | so it is when the value of the first one is no number in range |
| HttpResponses.BadStatusIsMalformed | crates/fluxvm-firecracker/src/http.rs:88-95 | a status word that is no number below 65536 makes the response malformed |
| HttpResponses.NoStatusIsMalformed | crates/fluxvm-firecracker/src/http.rs:88-93 | so does an empty head, or a first line of one word |
| HttpResponses.BareLineFeed | crates/fluxvm-firecracker/src/http.rs:87-87 | a line of the head ends at a bare line feed as well |
| Cpuset.InsertSorted | crates/fluxvm-cgroup/src/cpuset.rs:103-104 | keeps the list strictly ascending and adds exactly one identifier |
| Cpuset.SortDedup | crates/fluxvm-cgroup/src/cpuset.rs:103-104 | strictly ascending, with the same identifiers |
| Cpuset.EndsIff | crates/fluxvm-cgroup/src/cpuset.rs:74-99 | a part names lo to hi iff it is one number in range, or has two around its first dash, each with white space allowed around it |
| Cpuset.PartsLieBetweenCommas | crates/fluxvm-cgroup/src/cpuset.rs:69-69 | the parts contain no comma, and joined by commas they are the text |
| Cpuset.ListedMeans | crates/fluxvm-cgroup/src/cpuset.rs:61-106 | a list is malformed iff a non-blank part is; otherwise it stands for exactly the identifiers some part names, ascending |
| Cpuset.ParseSet | crates/fluxvm-cgroup/src/cpuset.rs:61-106 | the listed identifiers sorted without duplicates, or an error iff some part is malformed |
| Cpuset.FormatRanges | crates/fluxvm-cgroup/src/cpuset.rs:119-131 | the loop groups the list into maximal, increasing, non-adjacent ranges, and end + 1 never overflows |
| Cpuset.FormatSet | crates/fluxvm-cgroup/src/cpuset.rs:109-134 | the text lists exactly the identifiers as such ranges and parses back to the sorted duplicate-free list |
| Cpuset.DashIffSeveral | crates/fluxvm-cgroup/src/cpuset.rs:136-142 | a range of one identifier is written as one number, any other as two |
| Cpuset.TextReadsBack | crates/fluxvm-cgroup/src/cpuset.rs:131-142 | the text of any ranges parses to exactly what they list |
| Cpuset.MaximalIsUnique | crates/fluxvm-cgroup/src/cpuset.rs:119-131 | a set of identifiers has one maximal grouping |
| Cpuset.OneTextPerSet | crates/fluxvm-cgroup/src/cpuset.rs:109-134 | two lists format alike iff they have the same identifiers |
| Ipam.FindFree | crates/fluxvm-network/src/ipam.rs:145-147 | the least free block, or none iff every block is used |
| Ipam.ExhaustedIffFull | crates/fluxvm-network/src/ipam.rs:145-147 | at most 4096 allocations are live, and no block is free iff there are 4096 |
| Ipam.BlockToOctets | crates/fluxvm-network/src/ipam.rs:152-155 | the two octets of block n are those of the address 16 n |
| Ipam.LiveAddressesDiffer | crates/fluxvm-network/src/netns.rs:103-114 | two addresses of live VMs are equal iff VM and offset are, and base + 15 fits a byte |
| Ipam.IpamStore.Allocate | crates/fluxvm-network/src/ipam.rs:139-150 | keeps allocations distinct, is idempotent per VM, takes the least free block, fails iff unwritable or full, and then changes nothing |
| Ipam.IpamStore.Release | crates/fluxvm-network/src/ipam.rs:41-47 | frees exactly the VM's block and returns its octets |
| VmStore.Store.InsertWithCid | crates/fluxvm-storage/src/lib.rs:111-138 | assigns the least CID at or above the first that no stored VM uses; the search ends, by overflow iff all are used |
| VmStore.WriteKeepsUniqueIff | crates/fluxvm-storage/src/lib.rs:104-109 | a blind write keeps CIDs unique iff no other VM has the record's CID |
| VmStore.UniqueIffDisciplined | crates/fluxvm-storage/src/lib.rs:104-142 | one operation keeps CIDs unique iff its blind writes are fresh |
| VmStore.CidKept | crates/fluxvm-storage/src/lib.rs:140-142 | a record that is not removed keeps its CID through any interleaving of careful updates |
| VmStore.RunKeepsCidsUnique | crates/fluxvm-storage/src/lib.rs:111-142 | over every interleaving of operations that write new ids without a CID, or records read earlier and not removed since with the CID they had, CIDs stay unique |
| VmStore.StaleUpdateDuplicates | crates/fluxvm-storage/src/lib.rs:140-142 | a run careful but for one update of a record removed since it was read, which duplicates a CID |
| PoolStore.RunConservesMembers | crates/fluxvm-storage/src/lib.rs:247-301 | over every run, what was added to a pool was handed out, discarded with the pool, or is still there |
| PoolStore.NeverHandedOutTwice | crates/fluxvm-storage/src/lib.rs:277-284 | a member added once is handed out at most once, across all pools |
| Placement.ScoredIffQualifies | crates/fluxvm-agent/src/central.rs:78-94 | a node has a score iff it is healthy and its totals fit the request |
| Placement.BeatsIsStrictTotal | crates/fluxvm-agent/src/central.rs:320-324 | the comparison is a strict total order on scores |
| Placement.PrecedesIff | crates/fluxvm-agent/src/central.rs:320-324 | one name is before another iff it is a proper prefix or smaller at the first difference |
| Placement.FreeIsWhatVmsLeave | crates/fluxvm-agent/src/central.rs:60-74 | free memory is the total less 2048 MiB a VM, never below zero; free vCPUs are the total less two a VM iff the VM count fits 32 bits or its low 32 bits use up the total |
| Placement.BestIsBest | crates/fluxvm-agent/src/central.rs:309-326 | the choice qualifies and beats every other qualifying node; there is none iff no node qualifies |
| Placement.ChosenByFractionCountName | crates/fluxvm-agent/src/central.rs:314-326 | of all qualifying nodes the chosen one has the largest residual, of those the fewest VMs, of those the first name |
| Placement.ChoiceIgnoresOrder | crates/fluxvm-agent/src/central.rs:314-326 | the choice does not depend on the iteration order of the registry |
| Placement.FractionIsExactIff | crates/fluxvm-agent/src/central.rs:95-104 | within i64 totals the computed fraction is the true one, in 0..10000, iff free capacity times 10,000 fits i64 |
| Placement.ResidualIsExactIff | crates/fluxvm-agent/src/central.rs:95-105 | the residual is the smaller true fraction iff free memory times 10,000 fits i64 or the vCPU fraction times the total memory stays below the numerator it wraps to |
| Placement.HugeMemoryLoses | crates/fluxvm-agent/src/central.rs:100-104 | beyond that an idle node loses to a full one |
| Lifecycle.VmState.BootInner | crates/fluxvm-hypervisor/src/control.rs:224-253 | boots iff stopped or created and every host check passes, else changes nothing |
| Lifecycle.VmState.PauseVm | crates/fluxvm-hypervisor/src/control.rs:113-128 | pauses iff running and the engine agrees |
| Lifecycle.VmState.ResumeVm | crates/fluxvm-hypervisor/src/control.rs:129-144 | resumes iff paused and the engine agrees; a successful engine resume always leaves a running guest running |
| Lifecycle.VmState.SaveSnapshot | crates/fluxvm-hypervisor/src/control.rs:152-171 | the lifecycle stays; a running guest's engine is left paused iff a pause went through and the resume did not |
| Lifecycle.VmState.RestoreSnapshot | crates/fluxvm-hypervisor/src/control.rs:172-212 | never ends paused; succeeds by memory snapshot, then without a marker, or by cold boot, then with one, and otherwise leaves no guest |
| Lifecycle.VmState.Dispatch | crates/fluxvm-hypervisor/src/control.rs:97-222 | every request makes the transition of the lifecycle table and keeps the invariant |
| Lifecycle.VmState.Serve | crates/fluxvm-hypervisor/src/control.rs:64-95 | for every sequence of requests and engine answers: guest iff running or paused, marker implies guest, guest implies boot configuration, paused implies engine paused; and running implies engine running if every snapshot's resume succeeded |
| Lifecycle.SnapshotThatStopsTheGuest | crates/fluxvm-hypervisor/src/control.rs:152-171 | boot, then a snapshot whose resume fails: reported saved and running, with the engine paused |

## Left out

- The protocol of `Fabric` is a state machine over values, one function per step, not methods over mutable files: steps of different VMs, other parties and crashes have to interleave. The map commands inside it are those of `ConfigSteps`, whose undisturbed sequences have the traces the class `MapCompiler.PinnedMaps` is proved to produce.
- Fabric assumptions: a deletion of pins or metadata that is started either completes or is the last step of its operation (the source ignores the failure of both in an apply and goes on, which would leave the old metadata and its fingerprint in place); checking a filter's program id and deleting it is one step; a file is written whole or not at all; an interface keeps its index; program ids are not reused.
- The interface marker that older versions kept next to the pins, `remove_best_effort` and the environment override of the pin root.
- Falling back from the native dataplane to nftables within one apply, policy files, DNS resolution of extra CIDRs, Cilium mode.
- LiveUpdate.PacketRacingAnUpdate: one update of the VM at a time, as for LiveUpdate.PacketBetweenWrites; FabricOverlap shows what overlapping updates can do.
- Library text parsing: addresses, prefixes and ports enter the model as the result of `split_once` and `parse`.
- `identity_for` and the policy fingerprint are arbitrary functions; collisions are not excluded and not needed.
- Statistics, flow records, sampling and ring-buffer events of the classifier, and the XDP counters.
- BPF map capacity, except that a write may always fail and the rate map may be full.
- RateLimiter: packet times are positive and do not run backwards in lock order; a run has one set of limits.
- XDP attach, detach and ownership; only the maps are modelled.
- NftFallback: postrouting masquerade is not modelled, and conntrack is one bit per packet.
- KVM, registers, mmap, the vCPU loop and the virtio device: the receive device is nondeterministic and honest, so a device that publishes a descriptor twice is outside the model. Memory barriers are not modelled.
- PageTables: accessed and dirty bits, which a processor sets in the tables.
- HttpReader: the head is read as ASCII; invalid UTF-8 and non-ASCII white space are not modelled, nor the request that is sent first or time-outs, which end the stream of chunks.
- Cpuset: text is ASCII, and the list of a huge range is not bounded by memory.
- Store operations that fail to persist leave the file as it was and are not steps; `list` and `get` only read.
- VmStore.Store.InsertWithCid: the CID counter overflowing is a failure, as in a checked build; an unchecked one would wrap below the first CID, in the same case.
- Placement: a node's health is an input; an overflowing build with checks would stop instead of wrapping. Request bodies are not parsed.
- Lifecycle: time stamps, the marker file's contents, and an engine that dies by itself. A failed engine call has no effect.
- The console, REST API, scheduler, image building, Kubernetes client, egress proxy and guest agent: input, output and process plumbing.
