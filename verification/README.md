# A model of the OSmosis root task and its helpers

The root task of `libsel4gpi` keeps protection domains (PDs), resource spaces, memory objects (MOs),
address spaces (ADSs) and CPUs in registries whose delete callbacks re-enter each other. This project
models that machine, and four further parts of the repository, in Dafny, and proves what they promise.

| module | models |
|---|---|
| `Common`, `Resources` | types and facts used throughout; identifiers, resource types and constants |
| `RequestDirectory` | one row of a PD's resource directory: lookup, insertion, removal |
| `SpaceGraph` | the registry of spaces, cleanup policies along map edges, the space sweep |
| `ProtectionDomains`, `VmrSpaces`, `PdLinks`, `Registration` | the PD and space registries as values: the invariant, space cleanup, the VMR spaces of ADSs, links between PDs, registration |
| `LinkMarking`, `Notices`, `Dependents` | the recursion that marks linked PDs, with a bound on its depth; what resource servers are told; which PDs use a space and go with it |
| `Lifetime` | the root task's registries as a state machine: destruction of PDs and spaces with its re-entrant callbacks, and the request handlers |
| `RootTaskRuns` | runs of the root task: those in which a promise fails, and two laws over runs |
| `Memory` | MO counts, reservations, copied frame capabilities, shallow copies between ADSs |
| `LinkedList`, `WorkProtocol` | work queues, and the asynchronous termination of PDs |
| `DeviceTree`, `DeviceTreePools`, `DeviceTreeParser`, `DeviceTreeView`, `DeviceTreeFind` | the flattened devicetree parser, structure block as in section 5.4 of the Devicetree Specification |
| `ModelGraph`, `Extraction` | model states and their merge; the walk that extracts the state of a PD |
| `Registry`, `Badge` | counted registries with their ID probe; 64-bit badges and the hold registry keyed by them |
| `ElfLoad`, `ProcessStack` | ELF segment placement; the initial stack of a process, as in section 3.4.1 of the System V ABI AMD64 supplement |

Code that updates state is a class or a method with loops, proved against functions on values; lemmas
relate those functions to what the code is for. `Ok`, `Valid` and `Consistent` are invariants that hold
when a server starts and that its requests keep, so they hold over every sequence of requests; a request
that can break one says exactly when. In `Lifetime` two invariants hold between requests: `Idle`, that no
destruction is under way, which is all that a request asks for, and `Valid`, that no PD is marked either. A
request may leave a PD marked; every request is proved for such states too, and a termination removes
every PD that is left marked and so restores `Valid`.

Where the code falls short of what one would like, the model keeps the code and says exactly when it is right:

- Directory insertion stops at the first hole (`RequestDirectory.InsertKeepsUniqueIff`).
- One space sweep can miss a space if a map edge leads to a later registered space (`SpaceGraph.SweepMissesForwardEdge`); it is exact if and only if it visits everything in time (`SpaceGraph.SweepIsExactIff`).
- A VMR space that a sweep missed keeps its policy, and disconnecting from its ADS then leaves a PD marked (`RootTaskRuns.LeftoverPolicy`); `Lifetime.RootTask.DropCore` and `ReplaceCoreCap` say exactly when. It takes a PD that maps the VMR space elsewhere through a capability to an earlier space with the same ID. The PD goes with the next termination.
- A PD that is left marked keeps entries for spaces that are gone, and can share one after the ID has been given to a space of another type (`Lifetime.RootTask.ShareRde`, `RootTaskRuns.OutdatedEntry`).
- On a cycle of links the destruction of a PD recurses without end, because the callback of a link runs before the link is removed: marking ends if and only if no cycle can be reached (`LinkMarking.MarkingEndsIff`), and two requests close a cycle (`RootTaskRuns.TwoPdCycle`; exactly when, `Registration.AddLinkCycleFreeIff`).
- A server may create a space under the name of a component's own type, whose resources are then taken for that component's (`Lifetime.RootTask.CreateSpace`).
- A sender is never answered if the server of the resource dies before it takes the work, and unless some other server reports a sent resource, none can be sent any more (`RootTaskRuns.LostSender`; exactly when no server is left to take it, `WorkProtocol.SenderServedIff`).
- Reconfiguring a CPU with the IPC buffer that it already has destroys that MO first, if nothing else refers to it (`Memory.MemoryServer.ConfigureCpu`, `Memory.BufferFreedInUse`).
- A PD that is given an MO without counting it can leave the count too small (`Memory.UncountedGiveIff`, `Memory.GivenUncounted`).
- A terminator is not answered when the last servers it waits for die before they take the work (`WorkProtocol.UnansweredTermination`; exactly when, `WorkProtocol.ZeroAfterIff`), until some server reports other work (`WorkProtocol.LateAnswer`). If a server dies after it took critical work, no report can come (`WorkProtocol.LostBatch`). No other termination is accepted meanwhile.
- The devicetree allocators never give out their last record, so parsing depends on cells that only look like tokens (`DeviceTreePools.SpareRecordsIff`).
- The ID probe panics although the counter's own ID is free, and never ends with the counter at 0 or 1 and every ID taken (`Registry.Registry.InsertNewId`, `Registry.ProbesForever`; runs, `Registry.PanicsWithFreeId`, `Registry.FullAtOnce`).
- The permissions of a badge are written into its type (`Badge.PermsField`).
- ELF segments that share a page can lose it (`ElfLoad.PlanIsGoodIff`, `ElfLoad.SharedPageIsLost`).
- Merging model states drops the extra data of nodes that come from the source (`ModelGraph.ExtraKeptIff`, `ModelGraph.ExtraIsLost`).

## Model

| member | source | states |
|---|---|---|
| RequestDirectory.FindIndex | libsel4gpi/src/pd_obj.c:187-210 | the index found is the first slot that the lookup accepts, and -1 if there is none |
| RequestDirectory.AddEntry | libsel4gpi/src/pd_obj.c:235-316 | the new row is that of `Insert`; it fails exactly when the row stays as it was, which means that the entry, or the end of the row, comes before any free slot; on success the entry is listed |
| RequestDirectory.InsertLists | libsel4gpi/src/pd_obj.c:244-275 | an insertion that is not refused lists the entry |
| RequestDirectory.InsertEntries | libsel4gpi/src/pd_obj.c:235-275 | an insertion loses no entry and lists no entry but the new one |
| RequestDirectory.InsertKeepsUniqueIff | libsel4gpi/src/pd_obj.c:244-275 | because the scan stops at the first hole, entries stay unique if and only if the entry is not already listed behind the first hole |
| RequestDirectory.InsertMayDuplicate | libsel4gpi/src/pd_obj.c:244-275 | a row on which the insertion really creates a duplicate |
| RequestDirectory.RemoveEntry | libsel4gpi/src/pd_obj.c:346-390 | the new row is that of `Remove`; an error means that no entry matched |
| RequestDirectory.RemoveIsExact | libsel4gpi/src/pd_obj.c:364-380 | when entries are unique, removing a pair removes exactly that pair, for good |
| RequestDirectory.RemoveShrinks | libsel4gpi/src/pd_obj.c:364-380 | whatever is removed, no entry appears and entries stay unique |
| SpaceGraph.SweepDeletesMarked | libsel4gpi/src/resource_space_component.c:199-211 | after a sweep no space that was marked before it is left, for any limit and any edges |
| SpaceGraph.SpreadsUnfolds | libsel4gpi/src/resource_space_component.c:40-83 | a space is reached by the cleanup policy exactly if it maps to a policy-marked space or to an unmarked space that is reached |
| SpaceGraph.SweepTakes | libsel4gpi/src/resource_space_component.c:199-211 | for any edges, the spaces deleted are exactly those marked or hit: policy-marked, or unmarked with an edge to an earlier space that is hit |
| SpaceGraph.SweepIsExactIff | libsel4gpi/src/resource_space_component.c:199-211 | for any edges, one sweep deletes everything that the policies reach if and only if it visits each of these spaces after one that maps it in, or finds it marked |
| SpaceGraph.SweepIsExact | libsel4gpi/src/resource_space_component.c:199-211 | with unbounded depth and edges from later to earlier registered spaces, one sweep deletes exactly the marked spaces and those that reach a policy-marked one through unmarked spaces |
| SpaceGraph.SweepMissesForwardEdge | libsel4gpi/src/resource_space_component.c:199-211 | a concrete registry in which one sweep misses a space that should go |
| SpaceGraph.SweepWithinDepth | libsel4gpi/src/resource_space_component.c:40-83 | with depth limit N every extra space deleted has a map path of length at most N to a policy-marked one |
| SpaceGraph.KillIs | libsel4gpi/src/resource_space_component.c:40-113 | deleting a space removes it and, if its policy is on, marks exactly the unmarked spaces that map to it, within the depth: one level deeper, with their own policy on |
| ProtectionDomains.DeleteSpaceKeepsInv | libsel4gpi/src/pd_component.c:1321-1424 | deleting a space and cleaning up every PD keeps the registry invariant: no hold or directory entry of a live PD names a space that is gone |
| ProtectionDomains.DeletionOutcome | libsel4gpi/src/resource_space_component.c:86-113 | the same for a whole space deletion, started by a hold or by a sweep: invariant kept, no space left half deleted |
| ProtectionDomains.CleanupMarksNone | libsel4gpi/src/pd_component.c:1364-1392 | without policy, or with PD depth limit 0, the cleanup of a space marks no PD |
| ProtectionDomains.StagesAddUp | libsel4gpi/src/pd_component.c:1334-1419 | the three passes of the code over the PDs (manager, policy, cleanup) amount to one simultaneous change of every PD |
| ProtectionDomains.CleanGrounds | libsel4gpi/src/pd_component.c:1394-1419 | cleaning one PD leaves it no hold and no unique entry in the deleted space |
| ProtectionDomains.EmptyHandedManager | libsel4gpi/src/pd_obj.c:537-540 | a manager that lost all its holds manages only spaces that are marked for deletion |
| ProtectionDomains.AcquireCounts | libsel4gpi/src/pd_obj.c:56-90 | one more reference to the resource given, whatever was held before; every other hold, entry and link as it was |
| ProtectionDomains.ReleaseCounts | libsel4gpi/src/pd_obj.c:129-141 | one reference less, and the hold is gone exactly with the last one; every other hold, entry and link as it was |
| Dependents.PolicyTakes | libsel4gpi/src/pd_component.c:1364-1392 | deleting a space marks a live PD exactly if the policy is on, the depth allows it, and the PD holds a resource of the space or has a slot for it in the row of its type; the PD is then one level deeper than the manager |
| Dependents.CleanupIs | libsel4gpi/src/pd_component.c:1321-1424 | all that the cleanup of a space does to one PD, in counts and entries: the manager loses one reference to the space, and a live PD that is not marked loses what it holds there and its entry |
| Dependents.SweepLed | libsel4gpi/src/resource_space_component.c:199-211 | within the PD depth, each PD that used a space deleted by the sweep is marked, and a PD is newly marked only if it used such a space or is linked from a marked PD |
| Dependents.LedTogether | libsel4gpi/src/pd_component.c:170-187 | parts of a destruction in a row: users of a space that any of them deletes are gone or marked at the end, and each PD newly gone or marked has a reason, seen from the first state |
| VmrSpaces.CleanupMarksIff | libsel4gpi/src/pd_component.c:1364-1392 | deleting a space marks a live PD if and only if its policy is on and, within the depth, some live PD depends on it |
| VmrSpaces.HomesAfterMarking | libsel4gpi/src/resource_space_component.c:40-83 | a cleanup policy never marks a VMR space that is mapped only to spaces of the components |
| PdLinks.ChildReachesFewer | libsel4gpi/src/pd_obj.c:586-609 | when no cycle can be reached from a PD, the PDs reachable from a linked PD are strictly fewer: the recursion ends |
| PdLinks.PartialStep | libsel4gpi/src/pd_obj.c:586-609 | one link deleted: the child and everything linked to it is marked and loses its links, the rest is as before |
| PdLinks.PartialEnds | libsel4gpi/src/pd_obj.c:1489-1504 | when the loop has deleted every link, exactly the registered PDs reachable by links through registered PDs are marked and unlinked |
| PdLinks.FatedAreGone | libsel4gpi/src/pd_obj.c:586-609 | when a destruction leaves nothing marked, every PD that was linked, directly or not, to one that is gone or to one that was marked is gone too |
| PdLinks.ClosureIs | libsel4gpi/src/pd_obj.c:586-609 | marking changes nothing but marks and links: each PD linked from a marked one is marked, and it and the first lose their links |
| LinkMarking.MarkingEndsIff | libsel4gpi/src/pd_obj.c:1489-1504 | the marking ends, with some bound on its depth, if and only if no cycle of links can be reached from the PD it starts at, and then it marks exactly the linked PDs |
| LinkMarking.InsideNeverEnds | libsel4gpi/src/pd_obj.c:586-609 | among PDs that all lead to a cycle the marking never ends, however deep it may go |
| Registration.UnmarkedMeansGrounded | libsel4gpi/src/pd_obj.c:172-185 | between requests, every hold and every directory entry of every live PD names a registered space, an entry one of its own type |
| Registration.FreshSpaceUnlisted | libsel4gpi/src/resource_space_component.c:115-178 | a reused space ID is listed in no live directory, so insertion cannot duplicate an entry |
| Registration.SharedEntryIsSound | libsel4gpi/src/pd_component.c:400-448 | the slot that a shared-entry lookup stops at is an entry of the asked type, and the target does not list it when its own lookup fails |
| Registration.AddRdeKeepsInv | libsel4gpi/src/pd_obj.c:235-316 | adding an entry for a registered space keeps groundedness and uniqueness together |
| Registration.AcquireKeepsInv | libsel4gpi/src/pd_obj.c:56-90 | a PD may be given any resource of a registered space |
| Registration.NewSpaceKeepsInv | libsel4gpi/src/resource_space_component.c:115-178 | registering a space and giving it to its manager keeps the invariant |
| Registration.AddLinkAcyclicIff | libsel4gpi/src/pd_obj.c:1469-1487 | a new link keeps the link graph acyclic if and only if the child is neither the PD itself nor linked to it |
| Registration.AddLinkCycleFreeIff | libsel4gpi/src/pd_obj.c:1469-1487 | from a PD that reaches a new link a cycle can be reached afterwards if and only if it could before, or the link closes one, or one can be reached from the child; for all other PDs nothing changes |
| Lifetime.RootTask.constructor | libsel4gpi/src/gpi_server.c:112-135 | the first state, the root PD and the six component spaces, satisfies the invariant |
| RootTaskRuns.Started | libsel4gpi/src/gpi_server.c:135-141 | the state with the ADS of the root task itself, in which the first request is served |
| Notices.ReportedTogether | libsel4gpi/src/pd_obj.c:551-579 | what two destructions in a row tell the servers is what they lost together |
| Notices.CleanupStays | libsel4gpi/src/pd_component.c:1394-1419 | deleting a space takes no hold of a resource in another space from any PD |
| Lifetime.RootTask.HeldResourceOnDelete | libsel4gpi/src/pd_obj.c:489-584 | the callback of a hold: what it marks, whom it notifies, that the server it notifies is registered, and, given whether an ADS dies with the reference, exactly what its VMR space takes along |
| Lifetime.RootTask.DeleteHold | libsel4gpi/src/resource_registry.c:55-68 | callback first, then unlinking; the hold is gone, the invariant kept |
| Lifetime.RootTask.RemoveResource | libsel4gpi/src/pd_obj.c:129-141 | one reference dropped and every other hold as it was; the callback runs exactly with the last one |
| Lifetime.RootTask.RemoveResourcesIn | libsel4gpi/src/pd_obj.c:172-185 | exactly the holds in the given space are deleted |
| Lifetime.RootTask.SpaceCleanup | libsel4gpi/src/pd_component.c:1321-1424 | the loops over all PDs compute `CleanupSpace` |
| Lifetime.RootTask.MarkDependentSpaces | libsel4gpi/src/resource_space_component.c:40-83 | the loop over all spaces computes `MarkDependents` |
| Lifetime.RootTask.DeleteSpace | libsel4gpi/src/resource_space_component.c:86-113 | deleting a space: exact new PDs, spaces and notices; invariant kept; ends on any map graph |
| Lifetime.RootTask.MarkLinked | libsel4gpi/src/pd_obj.c:1489-1504 | whenever no cycle can be reached, the mutually recursive marking ends and marks exactly the registered PDs linked to the given one, directly or not, and empties their links |
| Lifetime.RootTask.SpaceSweep | libsel4gpi/src/resource_space_component.c:199-211 | the loop computes `Sweep` for the spaces and `SweepPds` for the PDs and keeps the invariant; no space that was marked before it is left |
| Lifetime.RootTask.DestroyHolds | libsel4gpi/src/pd_obj.c:774-781 | every hold of a destroyed PD goes; its server is told exactly once of each resource whose space stays, and of nothing it did not serve |
| Lifetime.RootTask.ResourceCleanup | libsel4gpi/src/pd_component.c:1292-1319 | every PD loses one reference to the resource |
| Lifetime.RootTask.PdSweep | libsel4gpi/src/pd_component.c:1510-1528 | the sweep ends; afterwards every marked PD is one that is still being destroyed |
| Lifetime.RootTask.PdDestroy | libsel4gpi/src/pd_obj.c:664-822 | the destroy body: ends for any holds, maps and entries unless links form a cycle; PDs that disappear meanwhile are exactly those whose body has run, each once; the servers are told once of each hold that each of them had in a space that stays |
| Lifetime.RootTask.DeletePd | libsel4gpi/src/pd_component.c:72-85 | the same for the deletion of a PD, which calls the destroy body before it unlinks the PD |
| Lifetime.RootTask.DeleteAsRoot | libsel4gpi/src/pd_component.c:178-181 | the same for the root of a deletion tree |
| Lifetime.RootTask.Terminate | libsel4gpi/src/pd_component.c:170-187 | whatever was left marked before, no registered PD is marked afterwards; the destroy body ran exactly once for each PD that is gone; every PD that was marked, and every one linked to it or to the target, is gone; every PD that held a resource of a space that went, or had an entry for it, is gone if PD cleanup is unbounded, or if the target managed the space and the depth limit is at least 1 (but for spaces that share the ID of an ADS); every other PD that went was linked from one that went or used a space that went; with PD depth limit 0 the PDs gone are exactly the target, those marked before and those linked; managers of the spaces left are registered; each server is told once of every resource that each PD that went held in a space that stays |
| Lifetime.HoldersGone | libsel4gpi/src/pd_component.c:1364-1392 | with PD cleanup unbounded or of depth 1 or more: when a server is terminated, every PD that holds a resource of a space that it managed is gone, and so is the space |
| RootTaskRuns.HolderGoesToo | libsel4gpi/src/pd_component.c:1364-1392 | for PD depth limit 1 or more, or none: a run in which a PD without any request edge holds a resource of a server, and goes when the server is terminated |
| Lifetime.RootTask.AllocatePd | libsel4gpi/src/pd_component.c:117-139 | a new PD, held by the PD that asked for it, and an error exactly if that is not registered |
| Lifetime.RootTask.LinkChild | libsel4gpi/src/pd_component.c:1043-1063 | errors for unregistered PDs; exactly which PDs can reach a cycle afterwards; the links stay acyclic if and only if no cycle closes |
| RootTaskRuns.TwoPdCycle | libsel4gpi/src/pd_obj.c:586-609 | a run of accepted requests after which the destruction of either of two PDs would never end |
| Lifetime.RootTask.CreateResource | libsel4gpi/src/resource_space_component.c:213-244 | fails exactly for an unregistered space or server; otherwise the references of the server to the new resource are one more than before, and no other hold changes |
| Lifetime.RootTask.GiveResource | libsel4gpi/src/pd_component.c:477-524 | fails exactly for an unregistered giver, receiver or space or a resource not held; otherwise the references of the receiver are one more than before, and no other hold changes; the invariant is kept |
| RootTaskRuns.GiveAndRevoke | libsel4gpi/src/pd_component.c:477-524 | any script of gives and revokes between two PDs: the references left are what counting up for each give, and down for each revoke but not below zero, comes to; nothing else changes |
| Lifetime.RootTask.SendCap | libsel4gpi/src/pd_obj.c:961-1109 | fails exactly for an unregistered PD, while another sending waits for its server, or if the space is gone, which only happens to a marked sender; otherwise the receiver has exactly one more reference, no other hold changes, the server, which is always registered, is notified, and the sender waits |
| Lifetime.RootTask.FinishSend | libsel4gpi/src/pd_component.c:988-1006 | exactly the sender that waits is answered: every deferred sender is answered at most once, in order, and then none is waiting |
| RootTaskRuns.LostSender | libsel4gpi/src/pd_component.c:79-110 | a run in which the server of a sent resource is terminated, and the sender lives on and waits for an answer that no one owes it |
| Lifetime.RootTask.ReplaceCoreCap | libsel4gpi/src/pd_obj.c:1413-1462 | fails exactly for other types and for a second fault handler; otherwise the new capability is recorded, and if an ADS ends with the reference to the old one, its VMR space goes as on disconnecting |
| Lifetime.RootTask.DeleteResource | libsel4gpi/src/resource_space_component.c:246-270 | fails exactly for an unregistered space; otherwise every live PD that holds the resource has one reference less, and no other hold changes |
| Lifetime.RootTask.RevokeResource | libsel4gpi/src/resource_space_component.c:272-301 | fails exactly for an unregistered space or target; otherwise the target has one reference less, and no hold exactly if it had one; no other hold changes |
| Lifetime.RootTask.DropCore | libsel4gpi/src/cpu_component.c:354-379 | disconnecting from a CPU or an ADS: exact PDs and spaces; a further PD is left marked if and only if a VMR space goes whose policy is on and on which a live PD within the depth depends, which never happens with PD depth limit 0 or for an ADS whose VMR space only the root task ever held or mapped |
| RootTaskRuns.OldCapability | libsel4gpi/src/resource_space_component.c:340-362 | a run after which a PD holds the capability of a destroyed space, whose ID is free again |
| RootTaskRuns.SweptTooEarly | libsel4gpi/src/resource_space_component.c:199-211 | a run in which a VMR space that was mapped with such a capability is left marked, with its policy on, by the sweep of a termination |
| RootTaskRuns.LeftoverPolicy | libsel4gpi/src/ads_component.c:47-74 | the run goes on: disconnecting from that ADS leaves a PD marked |
| Lifetime.RootTask.ShareRde | libsel4gpi/src/pd_component.c:400-448 | every outcome of sharing an entry: which lookup or registration fails, when nothing needs to be done, and the exact new row of the target; the invariant is kept unless a marked PD shares an entry whose space ID now names a space of another type |
| RootTaskRuns.OutdatedEntry | libsel4gpi/src/pd_component.c:400-448 | a run in which this happens |
| Lifetime.RootTask.AddEdge | libsel4gpi/src/pd_obj.c:235-316 | fails exactly when there is no slot; a live PD keeps a sound directory if and only if the type is that of the space |
| Lifetime.RootTask.RemoveRde | libsel4gpi/src/pd_component.c:450-475 | removing an entry: exact new row, and an error exactly when nothing matched |
| Lifetime.RootTask.CreateSpace | libsel4gpi/src/resource_space_component.c:115-178 | fails exactly for unregistered PDs or without a slot for the request edge, for a live client exactly when its row is full; exact PDs and spaces, also on failure; the invariant is kept if and only if the type is not one of the components |
| Lifetime.SpaceCreated | libsel4gpi/src/resource_space_component.c:115-178 | a new space is held once more by its server and, unless there is no slot, listed by its client |
| Lifetime.RootTask.AllocateAds | libsel4gpi/src/ads_component.c:77-128 | fails exactly for an unregistered client or without a slot for the request edge; exact PDs and spaces, also on failure; the VMR space counts as untouched unless some PD still holds an earlier space with its ID |
| Lifetime.RootTask.MapSpace | libsel4gpi/src/resource_space_component.c:303-322 | fails exactly for an unregistered space; otherwise the edge is added |
| Lifetime.RootTask.DestroySpace | libsel4gpi/src/resource_space_component.c:340-362 | fails exactly for a space that is not registered or already marked; otherwise exactly that space goes, no live PD has a hold in it, and the PDs are exactly as after its cleanup |
| Memory.RefsAddUp | libsel4gpi/src/ads_obj.c:384-441 | the references to an MO are its holders, its attachments, its IPC buffer uses and its creation reference, counted apart |
| Memory.DropKeepsCovered | libsel4gpi/src/resource_component_utils.c:202-218 | taking one reference away and decrementing keeps every count at least the number of references; the MO is destroyed only with its last reference; an exact count stays exact |
| Memory.GainKeepsCovered | libsel4gpi/src/resource_component_utils.c:185-200 | a new reference and an increment keep the counts sufficient; an exact count stays exact if and only if the reference really is new |
| Memory.UncountedGiveIff | libsel4gpi/src/pd_component.c:477-524 | giving an MO without counting keeps its count sufficient if and only if the receiver holds it already or the count has one to spare |
| Memory.MemoryServer.GiveMo | libsel4gpi/src/pd_component.c:477-524 | giving an MO by its space: the receiver holds it once more, no MO count changes, and the invariant survives if and only if the receiver held the MO or the count had one to spare |
| Memory.GivenUncounted | libsel4gpi/src/pd_component.c:477-524 | a run after which two PDs hold an MO with count 1, and its frames are freed while one still holds it |
| Memory.DestroyKeepsFrames | libsel4gpi/src/mo_obj.c:161-187 | destroying an MO frees its frames once: every frame belongs to one registered MO or was freed exactly once |
| Memory.UnattachedHasNoCopies | libsel4gpi/src/ads_obj.c:63-86 | when no reservation attaches an MO, no copy of its frame capabilities is left |
| Memory.LookupsAgree | libsel4gpi/src/ads_obj.c:330-345 | looking a reservation up by ID and by address gives the same reservation |
| Memory.PageBytesIsPower | libsel4gpi/src/ads_obj.c:253-263 | the size of a page of n bits is two to the power n, given independently |
| Memory.PageBytesOfSum | libsel4gpi/src/ads_obj.c:253-263 | sizes multiply as the bits add up, from 1 byte for no bits |
| Memory.UnreservedIff | libsel4gpi/src/ads_obj.c:230-328 | a range of whole pages is unreserved if and only if it does not start at 0 and none of its addresses lies in a reservation |
| Memory.NoAddressTwice | libsel4gpi/src/ads_obj.c:230-328 | no address lies in two reservations of an ADS |
| Memory.AddNodeKeepsOk | libsel4gpi/src/ads_obj.c:230-328 | a reservation on an unreserved range keeps the two registries inverse to each other and the ranges disjoint |
| Memory.ReserveThenRemove | libsel4gpi/src/ads_obj.c:532-553 | removing a reservation undoes reserving it |
| Memory.MemoryServer.FreeFrame | libsel4gpi/src/mo_obj.c:161-187 | may be called only when no copied capability to the frame is left |
| Memory.MemoryServer.DestroyMo | libsel4gpi/src/mo_component.c:48-58 | every frame is freed once, in order |
| Memory.MemoryServer.DecMo | libsel4gpi/src/resource_component_utils.c:202-218 | one reference dropped; the last one destroys the MO |
| Memory.MemoryServer.DeleteHold | libsel4gpi/src/pd_obj.c:489-528 | a hold of an MO deleted, with exactly one reference |
| Memory.MemoryServer.RemoveMo | libsel4gpi/src/mo_component.c:124-148 | disconnecting: one of several references of a hold goes and does not touch the MO, the last one takes the hold and an MO reference along |
| Memory.MemoryServer.DestroyPd | libsel4gpi/src/pd_obj.c:776-781 | each MO that the PD holds loses exactly one reference; those with no other are destroyed |
| Memory.MemoryServer.DeleteNode | libsel4gpi/src/ads_obj.c:49-91 | the copied capabilities go before the count, so frames are freed only without copies |
| Memory.MemoryServer.RemoveReservation | libsel4gpi/src/ads_obj.c:532-553 | error exactly for an address without a reservation; otherwise that reservation and one reference go |
| Memory.MemoryServer.DestroyAds | libsel4gpi/src/ads_obj.c:751-780 | all reservations go and the invariant is kept |
| Memory.MemoryServer.ConfigureCpu | libsel4gpi/src/cpu_component.c:117-146 | replacing an IPC buffer: exact counts; it fails exactly when the new buffer is the old one and nothing else refers to it |
| Memory.BufferFreedInUse | libsel4gpi/src/cpu_component.c:133-146 | a run in which configuring a CPU with the buffer it already has frees the frames of that buffer |
| Memory.MemoryServer.DestroyCpu | libsel4gpi/src/cpu_obj.c:200-245 | destroying a CPU drops its IPC buffer reference |
| Memory.MemoryServer.AllocateMo | libsel4gpi/src/mo_component.c:60-122 | a new MO has count 1, for the client or for the root task |
| Memory.MemoryServer.SendMo | libsel4gpi/src/pd_obj.c:961-1109 | a copied capability adds one to the count of the MO and one to the references of the receiver; counts stay exact if and only if the receiver did not hold the MO |
| Memory.MemoryServer.ShareMos | libsel4gpi/src/pd_obj.c:409-433 | sharing all MOs raises exactly the counts of those held |
| Memory.MemoryServer.Reserve | libsel4gpi/src/ads_obj.c:230-328 | a reservation is made unless it would overlap one; with at least one page in each, it fails if and only if the address is 0 or some address x, v <= x < v + pages * 2^bits, lies in another |
| Memory.MemoryServer.AttachToReservation | libsel4gpi/src/ads_obj.c:384-441 | fails exactly on different page sizes; otherwise one reference and one copy of each frame capability |
| Memory.MemoryServer.Attach | libsel4gpi/src/ads_obj.c:443-481 | a fitting reservation with the MO attached at its start |
| Memory.StillUnreserved | libsel4gpi/src/ads_obj.c:717-747 | copies made so far never get in the way of the next one |
| Memory.MemoryServer.CopyRegion | libsel4gpi/src/ads_obj.c:717-742 | one region copied: exact new destination and count, and the exact failure cases |
| Memory.PickedIff | libsel4gpi/src/ads_obj.c:690-715 | what a request selects: every region of its type, if it names no start and the type is neither generic nor shared frames, else the region at the start; and where the copy of it goes |
| Memory.CopyRefusedIff | libsel4gpi/src/ads_obj.c:676-749 | a copy is refused exactly for a type out of range, an empty selection, one address given for several regions, or a selected region that is unattached or does not fit, each written out |
| Memory.CopiedMeans | libsel4gpi/src/ads_obj.c:676-749 | each selected region is there under a new ID, at the address asked for or at its own, with the same pages, rights and MO; nothing else is new |
| Memory.MemoryServer.ShallowCopy | libsel4gpi/src/ads_obj.c:676-749 | fails if and only if the request is invalid, selects nothing, or a selected region is unattached or does not fit; on success adds exactly one faithful copy of each selected region, leaves the source and everything else alone, and raises each MO count by its number of copied regions |
| LinkedList.List.Insert | libsel4gpi/src/linked_list.c:19-42 | appends |
| LinkedList.List.PopHead | libsel4gpi/src/linked_list.c:44-65 | removes and returns the first element, if there is one |
| LinkedList.List.GetAt | libsel4gpi/src/linked_list.c:67-87 | the element at an index, or nothing when out of range |
| LinkedList.List.InsertMany | libsel4gpi/src/linked_list.c:8-17 | appends all, in order |
| WorkProtocol.ZeroMeansDone | libsel4gpi/src/pd_component.c:210-225 | the counter is zero if and only if nothing critical is queued or handed out |
| WorkProtocol.SplitOff | libsel4gpi/src/pd_component.c:86-111 | the critical work of all PDs is a sum over PDs in any order |
| WorkProtocol.CriticalCounts | libsel4gpi/src/pd_component.c:86-111 | critical work is counted by the number of positions that hold a critical entry |
| WorkProtocol.CascadeDelivers | libsel4gpi/src/pd_component.c:170-187 | whatever a destruction does, each queue that survives has at its end exactly the entries of the script for that PD and action, in script order |
| WorkProtocol.FirstWork | libsel4gpi/src/pd_component.c:815-850 | the action chosen is the lowest with work; none is chosen only if there is no work |
| WorkProtocol.WorkServer.QueueAwaited | libsel4gpi/src/pd_component.c:1439-1479 | work queued while a termination starts goes to the end of the history of its queue, is critical and counted; other work is neither |
| WorkProtocol.WorkServer.QueueOther | libsel4gpi/src/pd_component.c:1426-1437 | extraction and send work goes to the end of the history of its queue without being counted |
| WorkProtocol.WorkServer.ClearPd | libsel4gpi/src/pd_component.c:86-111 | the critical work of a PD that disappears is no longer waited for, exactly that |
| WorkProtocol.WorkServer.Cascade | libsel4gpi/src/pd_component.c:170-187 | whatever a destruction queues and removes, in whatever order: the protocol invariant holds, and the history of each surviving queue is extended by the entries of the script for that PD and action, in script order |
| WorkProtocol.WorkServer.Terminate | libsel4gpi/src/pd_component.c:189-235 | refused while one is pending; otherwise the counter is the critical work queued by it, the histories are extended by the entries of its script in order, and the reply is deferred exactly when the counter is not zero |
| WorkProtocol.WorkServer.GetWork | libsel4gpi/src/pd_component.c:796-854 | hands out what was put first and not yet handed out, at most 16 entries, of the lowest action with work, and their number of critical entries; the history of what was put stays |
| WorkProtocol.WorkServer.FinishWork | libsel4gpi/src/pd_component.c:933-1014 | any report: exact counter, clamp and reply |
| WorkProtocol.WorkServer.Report | libsel4gpi/src/pd_component.c:953-985 | a server that reports a batch it was given never triggers the clamp; the deferred reply is sent only when nothing critical is left, and each at most once |
| WorkProtocol.WorkServer.Disturb | libsel4gpi/src/pd_component.c:582-605 | destroying PDs by other requests never answers the waiting terminator; nothing is left to wait for if and only if no critical work is handed out and every PD with critical work queued is removed |
| WorkProtocol.ZeroAfterIff | libsel4gpi/src/pd_component.c:86-111 | the same condition, read off the state before the destruction |
| WorkProtocol.HandedOutIsAwaited | libsel4gpi/src/pd_component.c:953-985 | critical work that was handed out and not reported keeps the terminator waiting |
| WorkProtocol.UnansweredTermination | libsel4gpi/src/pd_component.c:99-104 | an example in which the last server dies: the counter is zero, nothing is left to report, and the terminator still waits |
| WorkProtocol.LostBatch | libsel4gpi/src/pd_component.c:796-854 | a server takes critical work and dies: the terminator waits for a report that cannot come |
| WorkProtocol.LateAnswer | libsel4gpi/src/pd_component.c:953-985 | a terminator left with nothing to wait for is answered by the next report of FREE or DESTROY work, even if none of it is critical |
| WorkProtocol.SenderServedIff | libsel4gpi/src/pd_component.c:79-110 | after a destruction some server can still take the work that a sender waits for if and only if one that has it queued survives |
| DeviceTree.PackedByte | apps/vmm/src/smoldtb.c:100-113 | big-endian packing of names and data loses nothing |
| DeviceTree.SmallTreeEncoded | apps/vmm/src/smoldtb.c:334-382 | a small tree written out cell by cell: tokens 1 to 4, the length before the name offset, big-endian data with zeros behind it |
| DeviceTree.ItemPart | apps/vmm/src/smoldtb.c:334-382 | where each item of an encoded node lies in the block |
| DeviceTree.RecordCounts | apps/vmm/src/smoldtb.c:185-203 | how many records a tree needs |
| DeviceTreePools.SpareRecordsIff | apps/vmm/src/smoldtb.c:230-240 | the counting pass provides enough records if and only if some cell that is not a token looks like a begin token and, if there are properties, some cell that is not a token looks like a property token |
| DeviceTreePools.BareRootDoesNotFit | apps/vmm/src/smoldtb.c:185-203 | a smallest tree for which the records do not suffice |
| DeviceTreePools.CountedCells | apps/vmm/src/smoldtb.c:230-240 | the counting pass counts every node and property once, and every lookalike |
| DeviceTreeParser.Parser.AllocBuffers | apps/vmm/src/smoldtb.c:230-266 | pool sizes, and empty pools when the buffer is too small |
| DeviceTreeParser.Parser.AllocNode | apps/vmm/src/smoldtb.c:185-193 | the last record is never given out |
| DeviceTreeParser.Parser.AllocProp | apps/vmm/src/smoldtb.c:195-203 | the last record is never given out |
| DeviceTreeParser.Parser.ParseProp | apps/vmm/src/smoldtb.c:317-332 | one property record, and the cell after the padded data |
| DeviceTreeParser.Parser.ParseNode | apps/vmm/src/smoldtb.c:334-382 | an encoded tree is parsed if and only if the pools suffice; then the records are those of the tree, and parsing stops one cell past its end token |
| DeviceTreeParser.Parser.ParseItems | apps/vmm/src/smoldtb.c:345-376 | the loop over the items of a node |
| DeviceTreeParser.Parser.Init | apps/vmm/src/smoldtb.c:384-423 | a block with one tree: the parse succeeds if and only if the pools suffice, and then the root record shows the tree with both lists reversed |
| DeviceTreeView.ParsedTreeShows | apps/vmm/src/smoldtb.c:334-382 | the records show the encoded tree with child and property lists reversed and correct parent links |
| DeviceTreeView.ChildrenReversed | apps/vmm/src/smoldtb.c:357-366 | the list of children is in reverse document order |
| DeviceTreeView.ShowsOnlyOne | apps/vmm/src/smoldtb.c:334-382 | a record shows at most one tree, so the result determines the tree |
| DeviceTreeFind.SegmentsOfPath | apps/vmm/src/smoldtb.c:480-500 | non-empty, slash-free names are recovered from a path, however many slashes separate them |
| DeviceTreeFind.SegmentsJoin | apps/vmm/src/smoldtb.c:480-500 | a slash always separates: what a path spells is what the parts on its two sides spell, in order |
| DeviceTreeFind.EveryPathIsWritten | apps/vmm/src/smoldtb.c:480-500 | every path is one written for the names that it spells, with some number of slashes before each and at the end |
| DeviceTreeFind.LookupIff | apps/vmm/src/smoldtb.c:462-478 | with distinct sibling names a lookup finds a node if and only if the names are those along the way to it |
| DeviceTreeFind.RecordShows | apps/vmm/src/smoldtb.c:462-478 | the record at the end of a path shows the subtree there |
| DeviceTreeFind.FindChild | apps/vmm/src/smoldtb.c:462-478 | the first child in the list with exactly that name |
| DeviceTreeFind.Find | apps/vmm/src/smoldtb.c:480-500 | the record that the lookup of the names in the path leads to, and null if there is none |
| DeviceTreeFind.MirrorIsDistinct | apps/vmm/src/smoldtb.c:357-366 | distinct sibling names in the tree stay distinct in the parsed lists |
| DeviceTreeFind.PathSpellsNode | apps/vmm/src/smoldtb.c:480-500 | any path written for a node with proper names, with any slashes, spells exactly the names of the node |
| DeviceTreeFind.FindInBlock | apps/vmm/src/smoldtb.c:384-500 | parse a block and look up a path: with distinct sibling names the record found is that of the node with exactly the names in the path, it shows that node, and there is none if no node has these names |
| ModelGraph.MergeIsUnion | libsel4gpi/src/model_exporting.c:472-502 | a merge has all node IDs and all edges of both sides, and non-empty data of the destination wins |
| ModelGraph.ExtraKeptIff | libsel4gpi/src/model_exporting.c:296-310 | a node that only the source has keeps its extra data if and only if it has none |
| ModelGraph.ExtraIsLost | libsel4gpi/src/model_exporting.c:296-310 | a merge in which a VMR loses its type and size |
| ModelGraph.MergeIsIdempotent | libsel4gpi/src/model_exporting.c:472-502 | merging the same state twice is merging it once |
| ModelGraph.MergeIsAssociative | libsel4gpi/src/model_exporting.c:472-502 | the grouping of merges does not matter |
| ModelGraph.AddingIsMerging | libsel4gpi/src/model_exporting.c:472-502 | adding components one by one is merging with the graph that they spell out |
| ModelGraph.MergeComponents | libsel4gpi/src/model_exporting.c:472-502 | the components alone, without hash tables, merge like the graph that the tables show |
| ModelGraph.ModelState.AddNode | libsel4gpi/src/model_exporting.c:269-321 | an existing node is kept, and data fills in only for empty data |
| ModelGraph.ModelState.AddEdge | libsel4gpi/src/model_exporting.c:329-369 | an edge is added once |
| ModelGraph.ModelState.Rebase | libsel4gpi/src/pd_component.c:882-889 | moving the block keeps its components |
| ModelGraph.ModelState.Combine | libsel4gpi/src/model_exporting.c:472-502 | from a block or from a heap, the result is the merge |
| ModelGraph.MergeEitherForm | libsel4gpi/src/pd_component.c:882-889 | a cleaned, moved block and a heap state that showed the same graph have the same effect |
| Extraction.ReachableIsClosed | libsel4gpi/src/pd_obj.c:1161-1172 | whatever a reachable PD holds is reachable |
| Extraction.ReachableIsLeast | libsel4gpi/src/pd_obj.c:1161-1172 | reachability by holds is the least such set |
| Extraction.LookupsAreFound | libsel4gpi/src/pd_obj.c:1112-1238 | when the lookups for one PD succeed, written out |
| Extraction.OwnEdgesShown | libsel4gpi/src/pd_obj.c:1244-1315 | a dumped PD has its request edges to the managers of the spaces, its hold edges and the subset edges of what it holds, with all fields written out |
| Extraction.OwnEdgeArises | libsel4gpi/src/pd_obj.c:1244-1315 | conversely, every such edge arises from an entry or a hold of the PD |
| Extraction.SoundNames | libsel4gpi/src/pd_obj.c:1112-1238 | the node of a resource of a dynamic type carries the name of its type, if that has one |
| Extraction.Extractor.ResDump | libsel4gpi/src/pd_obj.c:1112-1238 | one hold: what is added, and for a PD the whole walk below it |
| Extraction.Extractor.DumpGeneric | libsel4gpi/src/pd_obj.c:1188-1235 | a resource is linked to its space the first time it is met |
| Extraction.Extractor.AddBelow | libsel4gpi/src/ads_obj.c:560-620 | whatever the component of a held ADS, MO or CPU adds, no PD node and no edge of a PD is affected |
| Extraction.Extractor.PdDumpInternal | libsel4gpi/src/pd_obj.c:1244-1315 | the walk from one PD ends, stays within what is reachable, and finishes every PD it enters |
| Extraction.EverythingDumped | libsel4gpi/src/pd_obj.c:1244-1315 | when every dumped PD is finished, every reachable PD is dumped with all its edges |
| Extraction.Extractor.PdDump | libsel4gpi/src/pd_obj.c:1317-1353 | every PD node is a reachable PD; apart from edges of the kinds that the ADS, MO and CPU components add, every edge comes from an entry or a hold of one, with the manager of the space as the target of a request; when all lookups succeed, the PD nodes are exactly the PDs reachable from the root task or the target, and for each of them the request edge of every entry and the hold and subset edge of every hold are there |
| Registry.Registry.Dec | libsel4gpi/src/resource_registry.c:77-88 | the last reference removes the entry |
| Registry.Registry.InsertNewId | libsel4gpi/src/resource_registry.c:90-120 | the new ID is the cyclically first free one after the counter; all other entries are unchanged; it panics if and only if the counter was above 1 and no ID but the counter itself is free |
| Registry.ProbesForever | libsel4gpi/src/resource_registry.c:99-116 | with the counter at 0 or 1 and every ID taken, the loop neither panics nor ends |
| Registry.PanicsWithFreeId | libsel4gpi/src/resource_registry.c:90-120 | a run after which an insertion panics although an ID is free |
| Registry.FullAtOnce | libsel4gpi/src/resource_registry.c:99-116 | a run after which the next insertion would never end |
| Badge.NewBadge | libsel4gpi/src/badge_usage.c:102-118 | a badge is never the reserved notification badge |
| Badge.TypeField | libsel4gpi/src/badge_usage.c:30-42 | the getter undoes the setter, which leaves the other fields alone |
| Badge.SpaceField | libsel4gpi/src/badge_usage.c:60-72 | the same for the space |
| Badge.ClientField | libsel4gpi/src/badge_usage.c:75-87 | the same for the client |
| Badge.ObjectField | libsel4gpi/src/badge_usage.c:90-100 | the same for the object |
| Badge.PermsField | libsel4gpi/src/badge_usage.c:45-57 | the setter of the permissions writes into the type: it does its job if and only if there are none to set |
| Badge.BadgeFields | libsel4gpi/src/badge_usage.c:102-118 | every field of a new badge is read back, except that the permissions end up in the type |
| Badge.CompactIsInjective | libsel4gpi/src/badge_usage.c:120-123 | compact IDs are equal if and only if type, space and object are |
| Badge.HoldRegistry.Add | libsel4gpi/src/pd_obj.c:56-90 | the registry gains one occurrence of the triple |
| Badge.HoldRegistry.Remove | libsel4gpi/src/pd_obj.c:129-141 | it loses one occurrence, if there is one |
| Badge.HoldRegistry.Delete | libsel4gpi/src/pd_obj.c:143-155 | it loses all occurrences |
| Badge.HoldRegistry.HasInSpace | libsel4gpi/src/pd_obj.c:157-170 | true exactly if some occurrence belongs to the space |
| Badge.HoldRegistry.RemoveInSpace | libsel4gpi/src/pd_obj.c:172-185 | exactly the occurrences in the space go |
| ElfLoad.CompareIsOrder | libsel4gpi/src/gpi_elf.c:508-524 | on segments of positive size the comparison is a strict order, and reports an overlap exactly if some address is in both |
| ElfLoad.UnsharedPlan | libsel4gpi/src/gpi_elf.c:402-450 | without a shared page every segment gets exactly the pages it touches |
| ElfLoad.SharedPagePlan | libsel4gpi/src/gpi_elf.c:420-445 | on a shared page the planning fails unless both segments may be read; if only the new one may be written the last reservation loses a page, otherwise the new one starts a page late |
| ElfLoad.PlanIsGoodIff | libsel4gpi/src/gpi_elf.c:402-450 | the plan succeeds with aligned, ascending, disjoint reservations that cover their segments if and only if no 4K page is shared |
| ElfLoad.SharedPageIsLost | libsel4gpi/src/gpi_elf.c:432-439 | an example in which part of a segment gets no reservation |
| ElfLoad.PrepareReservations | libsel4gpi/src/gpi_elf.c:402-450 | the loop computes the plan in place, and fails exactly if the plan fails |
| ElfLoad.CopyRegion | libsel4gpi/src/gpi_elf.c:44-61 | file bytes, then zeros, and nothing else written |
| ElfLoad.LoadSegments | libsel4gpi/src/gpi_elf.c:81-274 | fails exactly if some segment has no file data or more than its size; otherwise every region holds its segment and zeros around it |
| ElfLoad.SegmentsAreSeen | libsel4gpi/src/gpi_elf.c:81-274 | at the address of every segment byte the program finds the file byte, or zero beyond the file |
| ProcessStack.ReadBack | libsel4gpi/src/ads_obj.c:905-965 | pushed words are read back upward, one by one |
| ProcessStack.Stack.Write | libsel4gpi/src/ads_obj.c:837-846 | data lies right below what was there, which is untouched |
| ProcessStack.Stack.CopyArgs | libsel4gpi/src/ads_obj.c:879-889 | strings with their zeros, one below the other, at the addresses returned |
| ProcessStack.WriteFrame | libsel4gpi/src/ads_obj.c:902-965 | after rounding and pushing the stack pointer is aligned and the frame reads upward |
| ProcessStack.AuxDescribes | libsel4gpi/src/ads_obj.c:905-945 | the auxiliary pairs by number and value, in order |
| ProcessStack.RuntimeFrameReads | libsel4gpi/src/ads_obj.c:902-965 | the frame of a process with a runtime, word by word: argc, the argument pointers, null, null, the pairs, two zeros |
| ProcessStack.WriteStackRuntime | libsel4gpi/src/ads_obj.c:822-969 | upward from an aligned stack pointer: argc, the argument pointers, null, null, the auxiliary pairs, two zeros; above, disjoint, the strings that the pointers name and the program headers; fails only on too small a stack |
| ProcessStack.WriteStackArgs | libsel4gpi/src/ads_obj.c:973-1017 | upward: argc, the argument pointers, null; above, the strings |

## Left out

- Memory allocation, capability and kernel operations (seL4, vka, vspace) succeed; error paths that only they trigger are not modelled.
- Message plumbing: client APIs, RPC encoding, the IPC loop, server main loops, debug output, benchmarks.
- Lifetime.RootTask.Terminate: asks for no cycle of links among the PDs that may go, since the code does not end otherwise; with a PD depth limit other than 0 these may be any PDs, because any PD that uses a space may come to be marked. The users of a space that has the ID of an ADS are not promised to go, because such a space may be deleted without its policy; under a depth limit the same holds for spaces that a PD other than the target managed.
- Lifetime.RootTask.PdSweep: re-checks that a PD is still registered, where the code holds a saved next pointer.
- Lifetime.RootTask.HeldResourceOnDelete: whether an ADS dies with a reference is an argument, since ADS and CPU counts are taken and dropped in different places (libsel4gpi/src/cpu_component.c:255-263); the effects on MOs are in `Memory`.
- Lifetime: the root task's own PD is never terminated, linked or the owner of directory entries; the panic for the test process (libsel4gpi/src/pd_component.c:1518-1521) and the CPU, reply and capability steps of the destroy body are not part of this model.
- Lifetime: no bound on the depth of PD cleanup, since the sweep resets the depth (libsel4gpi/src/pd_component.c:1524).
- Lifetime.RootTask.GiveResource: what giving an MO does to its count is in `Memory.MemoryServer.GiveMo`.
- Lifetime.RootTask.CreateSpace: nothing is stated about requests after one that broke the invariant; the same holds for `Lifetime.RootTask.ShareRde`. The look-up of type codes by name is not modelled.
- Lifetime.RootTask.constructor: the state before the root task has its own ADS; `RootTaskRuns.Started` adds it.
- Lifetime.RootTask.ReplaceCoreCap: an argument says whether an ADS ends with the old reference, as for `Lifetime.RootTask.DropCore`.
- Lifetime.RootTask.MapSpace: edges are space IDs, where the code keeps pointers.
- Memory.MemoryServer.AttachToReservation: an MO is attached only to a reservation that has none; the header assumes the same (libsel4gpi/include/sel4gpi/ads_obj.h:51).
- Memory.MemoryServer.ConfigureCpu: where the code reads the freed entry of the buffer, the model fails.
- Memory.MemoryServer.ShallowCopy: a copy that fails part way keeps what it copied, as in the code; only that the rest of the destination is untouched is stated for it.
- Memory.MemoryServer.DestroyPd: drops the PD's MO holds; the VMRs, CPUs and ADSs that go with a PD are separate steps, in any order.
- Memory: MOs forged from existing frames, deep copies, and the ELF loader's own references are left out.
- LinkedList: a null list argument, and freeing the nodes.
- WorkProtocol: queues are sequences; a cascade of a destruction is any sequence of queueings and removals. The reply to a sender is in `Lifetime`, and the model extraction counter is left out: extraction work is never critical.
- DeviceTreeParser.Parser.ParseNode: reading past the block is an outcome of its own, and nothing is promised for blocks that do not encode a tree, except that parsing ends. Phandles, per-node cell sizes (the special-property hook never gets past its first test, apps/vmm/src/smoldtb.c:272) and string lists are left out.
- DeviceTreeParser.Parser.Init: the release of earlier pools; a second parse would chain its root to the old one.
- ModelGraph: node IDs are structured values, where the code formats strings; IDs fit their buffers. CSV output is left out.
- Extraction.Extractor.PdDump: the uninitialised result of the recursive walk counts as success; which VMRs, spaces and map edges the ADS, MO and CPU components add is an argument, and the work queued for resource servers is left out.
- Registry.Registry.InsertNewId: requires a free ID when the counter is at 0 or 1; `Registry.ProbesForever` is the other case.
- ElfLoad.LoadSegments: the overflow and underflow branches for segments that share a page; the quick sort and reading of headers are library code.
- ElfLoad.PrepareReservations: sizes are integers, where the code wraps around when a shared page makes a size negative.
- ProcessStack: writing strings and words below the stack pointer is the contract of the sel4utils library; the numeric codes of the seL4-specific auxiliary entries are parameters.
- cap tracking, virtual CPUs, interrupts, timers, sample applications and test drivers.
