# VirtualIP reconciler, modelled in Dafny

The keepalived allocator operator gives Kubernetes Services a stable external
IPv4 address. A user creates a `VirtualIP` naming a Service and, optionally,
a segment. The reconciler in `controllers/virtualip_controller.go` moves that
VirtualIP through a small state machine, one state transition per cycle.
Each cycle may issue several requests, and most cycles end after the first
write:

* it allocates an address from a `GroupSegmentMapping` (GSM);
* it claims the address as a cluster-wide `IP` object named after it;
* it holds the claim with the IP finalizer;
* it records which Service to expose;
* it binds the address and the keepalived group to that Service, or to a
  clone the VirtualIP owns;
* it holds the binding with the service finalizer;
* it reports `Valid`.

On deletion it releases in the order it acquired. First it deletes the claim
and drops the IP finalizer. Then it unbinds the Service, unless the Service is
a clone, and drops the service finalizer.

The project models that reconciler as follows.

* `IPv4` covers addresses as four big-endian bytes. It holds the in-place
  increment `incrementIP` as a method on an `array<Byte>`, the dotted-decimal
  text of an address (proved injective), masking and membership of a CIDR
  segment, and the specification of the scan that lists a segment's
  candidate addresses.
* `Api` defines the objects (VirtualIP, IP claim, GSM, Service), the errors
  and their texts, and the API server. The server is a `World` value holding
  every object plus the requests that currently fail. Each request is one
  function that says what it answers and what it leaves behind.
* `Store.Cluster` is the API client as a class. Its fields are the World's
  collections, and each request method is proved to behave as its `Api`
  function says.
* `Pool` specifies `getAvailableIPs`, `labelIP` and `reserveIP`.
  `Allocation` specifies `getGSMBySegment` and `allocateIP`. `Exposure`
  specifies `patchService`, `cloneService` and the create-or-update of the
  Service. `Lifecycle` specifies `updateStatus` and `Reconcile`.
* `Controller` is the imperative reconciler. It has the classes
  `VirtualIP`, `Service` and `IPObject` that it builds and changes in
  memory, the loops `contains` and the segment scan, and the class
  `Reconciler`. Each method of `Reconciler` that talks to the cluster is
  proved to leave the cluster and the answer that the specification
  function its `ensures` names says. `PatchService` and `CloneService`
  change only the in-memory Service, and are proved against `Patched` and
  `CloneOf`.
* `LifecycleProperties` proves what one reconcile may and may not do, for
  every cluster state and every combination of failing requests.

## Model

| member | source | states |
|---|---|---|
| IPv4.IncrementIP | controllers/virtualip_controller.go:193-202 | the bytes after the in-place loop are `Incremented` of the bytes before: trailing 255s become 0 and the last byte below 255 goes up by one |
| IPv4.IncrementedValue | controllers/virtualip_controller.go:193-202 | incrementing adds one to the big-endian value, and wraps to 0 from the top value |
| IPv4.IncrementedAddr | controllers/virtualip_controller.go:193-202 | on a four-byte address, `incrementIP` computes (value + 1) mod 2^32 |
| IPv4.FormatInjective | controllers/virtualip_controller.go:184 | two addresses with the same `String()` text are the same address, so an IP object's name identifies one address |
| IPv4.SubnetRange | controllers/virtualip_controller.go:183 | `ipnet.Contains` holds exactly for the BlockSize(p) consecutive values that start at the masked network address |
| IPv4.SegmentCandidatesExact | controllers/virtualip_controller.go:181-188 | the scan offers exactly the segment's addresses whose text is not excluded, in ascending order, each once; the network address and the last address are inside the segment and are not set apart |
| IPv4.SegmentCandidatesMembers | controllers/virtualip_controller.go:181-188 | an address's text is offered if and only if the address is in the segment and its text is not excluded |
| IPv4.SingleAddressSegment | controllers/virtualip_controller.go:181-188 | a /32 segment offers its one address, unless that address is excluded |
| IPv4.SlashZeroNeverExits | controllers/virtualip_controller.go:183 | with prefix length 0, the loop guard as written never turns false, for any start address and any number of rounds |
| IPv4.GuardAfterLastAddress | controllers/virtualip_controller.go:183 | the increment of the segment's last address lies outside the segment exactly when the prefix length is not 0, so for /1 to /32 the guard ends the scan after BlockSize(p) addresses |
| Controller.Contains | controllers/virtualip_controller.go:204-211 | the linear search answers true if and only if the text is in the list |
| Controller.ScanSegment | controllers/virtualip_controller.go:181-188 | the scan from the masked network address, stepped in place with `IncrementIP`, returns the segment's candidate texts, excluded texts left out |
| Controller.ScanFrom | controllers/virtualip_controller.go:183-188 | the loop over `size` addresses that starts at the address in the array keeps, in order, the text of every address whose text is not excluded |
| Controller.LabelIP | controllers/virtualip_controller.go:111-119 | the IP object's labels become exactly gsm=<mapping> and its annotations exactly owner=<namespace/name of the VirtualIP> |
| Pool.LabelledClaimListed | controllers/virtualip_controller.go:111-119 | a claim labelled by `labelIP` is returned by the next listing of its mapping; its only label is gsm, and its owner annotation names the VirtualIP |
| Pool.AvailableIPsErrors | controllers/virtualip_controller.go:157-179 | `getAvailableIPs` fails if and only if listing the claims fails (that error comes first) or the segment does not parse; a segment that is neither IPv4 nor IPv4-mapped IPv6 (`V6`) offers nothing |
| Pool.AvailableIPsExact | controllers/virtualip_controller.go:157-191 | for an IPv4 segment, the offered texts are exactly the segment's addresses that are neither claimed under the mapping nor in its excluded list, ascending and without repeats |
| Pool.ReserveFromFirstFree | controllers/virtualip_controller.go:129-154 | the create-if-absent loop claims the first candidate that no IP object is named after; if every candidate is taken it answers "there are no available IPs" and changes nothing; a create failure there aborts with the wrapped error and changes nothing |
| Pool.ReserveOutcome | controllers/virtualip_controller.go:121-155 | a failed `reserveIP` changes nothing; a successful one returns a non-empty address that was offered and unclaimed, and adds exactly its labelled IP object |
| Pool.ReserveExhausted | controllers/virtualip_controller.go:153-154 | when every offered address already has an IP object, `reserveIP` answers "there are no available IPs" and the cluster is unchanged |
| Pool.ReservedNotOffered | controllers/virtualip_controller.go:121-191 | an address once reserved is no longer offered by its mapping |
| Pool.ReservationsExclusive | controllers/virtualip_controller.go:121-155 | two successive reservations, from any mappings and for any VirtualIPs, never hand out the same address |
| Controller.Reconciler.GetAvailableIPs | controllers/virtualip_controller.go:157-191 | the method, which lists the claims, joins them with the excluded IPs and scans, answers what `AvailableIPs` specifies |
| Controller.Reconciler.ReserveIP | controllers/virtualip_controller.go:121-155 | the loop over the available IPs leaves the answer and the cluster that `Reserve` specifies |
| Allocation.MappingBySegmentFirst | controllers/virtualip_controller.go:223-240 | `getGSMBySegment` finds a mapping if and only if one is listed with exactly that segment text, and then it is the first in list order; otherwise the error is "GroupSegmentMapping not found for the requested segment" |
| Controller.Reconciler.GetGSMBySegment | controllers/virtualip_controller.go:223-240 | the loop over the listed mappings answers what `MappingBySegment` specifies, and a listing failure is passed on |
| Allocation.AllocatePinned | controllers/virtualip_controller.go:249-265 | with a segment, allocation reserves from the first mapping of that segment and records its group and name; it fails, changing nothing, when no mapping has that segment |
| Allocation.AsWrittenStopsAtFirstMapping | controllers/virtualip_controller.go:276-297 | without a segment, the loop as written returns whatever the first mapping's reservation returns, exhaustion included; with no mappings it answers "no IP could be allocated" |
| Allocation.AllocateAnyFirstUsable | controllers/virtualip_controller.go:268-291 | the corrected loop allocates from the first mapping that is not exhausted, records that mapping's group and name, and leaves the exhausted ones before it untouched |
| Allocation.AllocateAnyFromFirstUsable | controllers/virtualip_controller.go:268-291 | conversely, when every mapping before mapping i is exhausted and mapping i is not, the corrected loop answers what reserving from mapping i answers: its address with that mapping's group and name, or its error |
| Allocation.AllocateAnyAllExhausted | controllers/virtualip_controller.go:294-297 | the corrected loop answers "no IP could be allocated", changing nothing, when every mapping is exhausted |
| Allocation.AllocateAnyAgrees | controllers/virtualip_controller.go:276-291 | the corrected loop and the loop as written agree on every input whose first mapping is not exhausted |
| Allocation.AllocateOutcome | controllers/virtualip_controller.go:242-300 | allocation changes nothing but the claims; on success it adds exactly one claim, for a non-empty address nobody held, labelled with the mapping it records |
| Allocation.AllocateAnyOutcome | controllers/virtualip_controller.go:268-300 | the same for the walk over every mapping |
| Allocation.ExhaustedFirstMappingAborts | controllers/virtualip_controller.go:276-291 | for mapping "a", whose one address is excluded, followed by mapping "b", which has one free address: the loop as written fails with "there are no available IPs", while the corrected loop allocates 10.0.0.1 from "b" |
| Controller.Reconciler.AllocateIP | controllers/virtualip_controller.go:242-300 | the method, pinned or walking every mapping, leaves the answer and the cluster that `Allocate` specifies |
| Exposure.PatchedFields | controllers/virtualip_controller.go:91-109 | binding leaves exactly one external IP, the address, and sets the group annotation to "namespace/group"; unbinding leaves no external IP and no group annotation; every other annotation and field is kept |
| Exposure.PatchedIdempotent | controllers/virtualip_controller.go:91-109 | patching twice in the same way is the same as patching once |
| Exposure.UnbindAfterBind | controllers/virtualip_controller.go:98-108 | unbinding after a binding gives the same Service as unbinding the original |
| Controller.Reconciler.PatchService | controllers/virtualip_controller.go:91-109 | the in-place patch leaves the Service object equal to `Patched` of its old value, with the group namespace taken from the configuration |
| Exposure.CloneFields | controllers/virtualip_controller.go:74-89 | cloning succeeds if and only if the scheme can set the owner reference; the clone is named "<name>-keepalived-clone" in the same namespace, so it is another object; its cluster IP and resource version are cleared; it is owned by the VirtualIP alone; its annotations and external IPs are kept |
| Controller.Reconciler.CloneService | controllers/virtualip_controller.go:74-89 | on success the Service object becomes the clone; when setting the owner fails, the error is returned and the object keeps the renaming and clearing already done |
| Exposure.CreateOrUpdateServiceEffect | controllers/virtualip_controller.go:447-450 | create-or-update of the Service touches that one Service, and on success leaves it patched (the stored one if it exists, else the given one); a failure changes nothing |
| Exposure.CreateOrUpdateServiceSettled | controllers/virtualip_controller.go:447-450 | writing back a Service that is already patched is a no-op |
| Controller.Reconciler.CreateOrUpdateService | controllers/virtualip_controller.go:447-450 | the get, patch and then create or update leaves the cluster that `CreateOrUpdateServiceOf` specifies |
| Api.CreateOrUpdateClaimEffect | controllers/virtualip_controller.go:391-399 | create-or-update of the IP object touches that claim alone, and on success the claim carries exactly the labels and annotations `labelIP` sets |
| Controller.Reconciler.CreateOrUpdateClaim | controllers/virtualip_controller.go:391-399 | the get, label and then create or update leaves the cluster that `CreateOrUpdateClaimOf` specifies |
| Store.Cluster.ListClaims | controllers/virtualip_controller.go:162 | listing by label fails with the server's error, or returns exactly the names of the claims labelled with the mapping, in no promised order |
| LifecycleProperties.FinishEffect | controllers/virtualip_controller.go:302-320 | `updateStatus` writes only the status of that VirtualIP, and only when it is not being deleted; an error it records becomes state Error with the error's text as message; the reconcile fails only when the write fails, and then nothing changed |
| Controller.Reconciler.UpdateStatus | controllers/virtualip_controller.go:302-320 | the method leaves the cluster that `Finish` specifies, and the in-memory VirtualIP carries the recorded error |
| LifecycleProperties.UpdateVirtualIPEffect | controllers/virtualip_controller.go:366-369 | an update of the VirtualIP writes its finalizers alone; no status changes; the server removes a deleted VirtualIP once it has no finalizer left |
| LifecycleProperties.DropIPFinalizerEffect | controllers/virtualip_controller.go:365-371 | dropping the IP finalizer removes that finalizer alone, writes no status, and the reconcile still succeeds when the update fails |
| LifecycleProperties.ReleaseIPEffect | controllers/virtualip_controller.go:352-372 | for the corrected release: deleting a VirtualIP that holds the IP finalizer always succeeds and leaves the Services and every status alone; when the delete is not refused the claim is gone, and when the update is not refused either the IP finalizer is gone too; a refused delete changes nothing |
| LifecycleProperties.SettleEffect | controllers/virtualip_controller.go:457-476 | settling the service finalizer changes neither claims nor Services; it drops it only when deleting and reaches Valid only with it in place |
| LifecycleProperties.BindServiceEffect | controllers/virtualip_controller.go:435-472 | binding changes no claim and never adds the IP finalizer; a clone leaves the named Service alone; when the service finalizer is dropped without a clone, the Service is already unbound |
| LifecycleProperties.ExposeEffect | controllers/virtualip_controller.go:418-476 | exposing changes no claim; during deletion it writes no status and fails only on an unset clone flag; a clone leaves the named Service alone; a dropped service finalizer follows an unbind |
| LifecycleProperties.AllocateStepEffect | controllers/virtualip_controller.go:377-388 | the allocation step leaves the Services alone and adds no finalizer, drops none and reaches no Valid |
| LifecycleProperties.EnsureClaimEffect | controllers/virtualip_controller.go:390-415 | the IP finalizer is added only once the claim exists with the VirtualIP's labels; Valid needs both finalizers; the service finalizer is never dropped |
| LifecycleProperties.ReconcileEffect | controllers/virtualip_controller.go:335-477 | a reconcile changes nothing when the VirtualIP cannot be read or is gone; it writes no status during deletion; it adds the IP finalizer only after the claim is held; it drops the service finalizer only during deletion with the IP finalizer gone; it reaches Valid only with both finalizers |
| LifecycleProperties.DeletingWritesNoStatus | controllers/virtualip_controller.go:311-317 | while a VirtualIP is being deleted, no reconcile changes any stored status |
| LifecycleProperties.IPFinalizerOnlyAfterClaim | controllers/virtualip_controller.go:390-415 | a reconcile adds the IP finalizer only to a live VirtualIP with an address whose labelled claim then exists |
| LifecycleProperties.ServiceFinalizerOutlivesIPFinalizer | controllers/virtualip_controller.go:352-472 | a reconcile drops the service finalizer only from a VirtualIP being deleted whose IP finalizer is already gone |
| LifecycleProperties.ValidOnlyWithBothFinalizers | controllers/virtualip_controller.go:457-476 | a reconcile moves a VirtualIP to Valid only when it is live and holds both finalizers |
| LifecycleProperties.DeletionReleasesIPFirst | controllers/virtualip_controller.go:352-372 | deleting a VirtualIP with the IP finalizer removes its claim and then that finalizer before touching any Service or the service finalizer, and the reconcile succeeds even when a request fails |
| LifecycleProperties.UnbindBeforeServiceFinalizer | controllers/virtualip_controller.go:443-472 | for a VirtualIP that binds the Service itself, the service finalizer is dropped only once that Service has no external IP and no group annotation |
| LifecycleProperties.CloneLeavesServiceAlone | controllers/virtualip_controller.go:435-455 | a VirtualIP that serves through a clone never changes the Service it names, in any phase |
| LifecycleProperties.AllocationRecorded | controllers/virtualip_controller.go:377-388 | a live VirtualIP without an address gets the allocation's claims; on success its status records address, group and mapping in state CreatingIP and its claim is held; on failure the status records the wrapped error with the three fields cleared; Services and finalizers are untouched |
| LifecycleProperties.SettledIsFixedPoint | controllers/virtualip_controller.go:335-477 | reconciling a VirtualIP that is Valid, holds its claim and both finalizers and whose Service is bound succeeds and changes nothing |
| LifecycleProperties.ClaimThenIPFinalizer | controllers/virtualip_controller.go:390-415 | with an address recorded, the IP finalizer absent and no request failing, a reconcile succeeds, leaves the claim of that address labelled with the VirtualIP's mapping and owner, adds the IP finalizer and changes nothing else |
| LifecycleProperties.RecordsServiceToExpose | controllers/virtualip_controller.go:390-427 | with the IP finalizer held, no Service recorded and no request failing, a reconcile succeeds and the status records the spec's Service, the spec's clone flag and state Exposing; nothing but the claim and that status changes |
| LifecycleProperties.BindsServiceThenHolds | controllers/virtualip_controller.go:429-472 | for a live VirtualIP that binds its existing named Service, without the service finalizer and with no request failing, a reconcile succeeds, leaves that Service carrying the address alone and the group annotation, and adds the service finalizer |
| LifecycleProperties.ReachesValid | controllers/virtualip_controller.go:429-476 | the same VirtualIP holding both finalizers keeps its Service bound and moves to Valid |
| LifecycleProperties.BindsCloneThenHolds | controllers/virtualip_controller.go:435-472 | for a live VirtualIP that serves through a clone, with no request failing, a reconcile succeeds, leaves "<service>-keepalived-clone" carrying the address alone and the group annotation and, when it is created, owned by the VirtualIP alone; the named Service is unchanged; the service finalizer is added |
| LifecycleProperties.ReleaseAsWrittenStuck | controllers/virtualip_controller.go:357-363 | as written, deleting a VirtualIP whose claim is already gone changes nothing, so every later reconcile does the same |
| LifecycleProperties.ReleaseAgrees | controllers/virtualip_controller.go:357-371 | the corrected release and the release as written behave alike whenever the claim still exists or the delete is refused; they differ only on a delete answering NotFound |
| LifecycleProperties.ReleaseGoneClaimProgresses | controllers/virtualip_controller.go:357-371 | corrected, the same reconcile drops the IP finalizer and so makes progress |
| Controller.Reconciler.ReleaseIP | controllers/virtualip_controller.go:352-372 | the delete of the claim and the update of the finalizers leave the cluster that `ReleaseIP` specifies |
| Controller.Reconciler.AllocateStep | controllers/virtualip_controller.go:377-388 | the allocation and the status write leave the cluster that `AllocateStep` specifies |
| Controller.Reconciler.EnsureClaim | controllers/virtualip_controller.go:390-415 | creating or updating the claim and adding the IP finalizer leave the cluster that `EnsureClaim` specifies |
| Controller.Reconciler.Expose | controllers/virtualip_controller.go:418-433 | recording the Service, or fetching it and going on to bind it, leaves the cluster that `Expose` specifies |
| Controller.Reconciler.BindService | controllers/virtualip_controller.go:435-455 | cloning if asked and writing the Service back, except for a clone during deletion, leave the cluster that `BindService` specifies |
| Controller.Reconciler.SettleServiceFinalizer | controllers/virtualip_controller.go:457-476 | adding or dropping the service finalizer, or else reporting Valid, leaves the cluster that `SettleServiceFinalizer` specifies |
| Controller.Reconciler.Reconcile | controllers/virtualip_controller.go:335-477 | one reconcile, run on the in-memory objects over the client, leaves the cluster and the outcome that `Lifecycle.Reconcile` specifies, so every `LifecycleProperties` lemma holds of the method |
| Controller.VirtualIP.AddFinalizer | controllers/virtualip_controller.go:406 | the in-memory finalizers gain the one finalizer and nothing else changes |
| Controller.VirtualIP.RemoveFinalizer | controllers/virtualip_controller.go:366 | the in-memory finalizers lose the one finalizer and nothing else changes |

## Left out

- Logging, `SetupWithManager` and the RBAC markers are left out. They do not change the cluster.
- `getEnv` reads the process environment. The group namespace it yields is the parameter `Config.groupNamespace`. `DefaultGroupNamespace` is its fallback value.
- `net.ParseCIDR` is library code. A segment is given both as text and as its parse result (`ParsedCidr`). The library's text formatting is modelled by `IPv4.Format` and masking by `IPv4.Masked`.
- An IPv4-mapped IPv6 segment such as `::ffff:10.0.0.0/120` is scanned like an IPv4 segment, because `To4()` and `Contains` then work on the last four bytes. The model expects it given as `V4(base, p - 96)`, so `::ffff:0.0.0.0/96` is the /0 case of the first finding. `V6` stands for every other IPv6 parse. Its masked address has no 4-byte form, so the loop guard is false at once and it offers no addresses.
- The Kubernetes client is the abstract store `Store.Cluster`. Every request answers as the `Api` function of its name. The model does not cover caching, resourceVersion conflicts, watches, admission, or the internals of `controllerutil.CreateOrUpdate` and `SetOwnerReference`. A failing request is given as a fault that stays fixed for the whole reconcile.
- Concurrency is not modelled. Two reconcilers running at once are not modelled, and there is no interleaving of other writers between requests.
- `Store.Cluster.ListClaims` promises the listed names as a set, not in an order, because the server's order is not part of the program.
- `ctrl.Result` is always empty in the source. The model returns only the error, as `Outcome`.
- Dereferencing an unset `Status.Clone` panics in the source. The model ends the reconcile with `Fail(NilClone)` and changes nothing.
- Initialising a nil annotations map in `patchService` is not modelled. Maps are never nil here, and an empty map behaves the same.
- Controller.ScanFrom: counts the segment's BlockSize(p) addresses rather than testing `ipnet.Contains` after each increment. `IPv4.SegmentAt` and `IPv4.GuardAfterLastAddress` prove that the two agree for prefix lengths 1 to 32. For /0 see the first finding.
- Controller.Reconciler.ReleaseIP: states the cluster and the outcome, not the in-memory VirtualIP left afterwards. The source drops that object when the reconcile returns.
- Controller.Reconciler.AllocateStep: states the cluster and the outcome, not the in-memory VirtualIP left afterwards, for the same reason.
- Controller.Reconciler.EnsureClaim: states the cluster and the outcome, not the in-memory VirtualIP left afterwards, for the same reason.
- Controller.Reconciler.Expose: states the cluster and the outcome, not the in-memory VirtualIP or Service left afterwards, for the same reason.
- Controller.Reconciler.BindService: states the cluster and the outcome, not the in-memory VirtualIP or Service left afterwards, for the same reason.
- Controller.Reconciler.SettleServiceFinalizer: states the cluster and the outcome, not the in-memory VirtualIP left afterwards, for the same reason.
- Controller.Reconciler.CreateOrUpdateService: states the cluster and the outcome, not the in-memory Service left afterwards, for the same reason.
- Controller.Reconciler.AllocateIP: without a segment, runs the corrected walk `Allocation.AllocateAny`, which passes over an exhausted mapping where the source returns "there are no available IPs". The walk as written is `Allocation.AllocateAnyAsWritten`. `Allocation.AllocateAnyAgrees` proves the two equal unless the first mapping is exhausted.
- Controller.Reconciler.AllocateStep: allocates through the corrected walk, as Controller.Reconciler.AllocateIP does.
- Controller.Reconciler.ReleaseIP: runs the corrected `Lifecycle.ReleaseIP`, which treats a delete answering NotFound as done and drops the IP finalizer. The source returns that error and changes nothing; that is `Lifecycle.ReleaseIPAsWritten`. `LifecycleProperties.ReleaseAgrees` proves the two equal in every other case.
- LifecycleProperties.ReleaseIPEffect: is about the corrected release. Its clause that the IP finalizer is dropped holds of the source only while the claim still exists (`LifecycleProperties.ReleaseAgrees`); with the claim gone the source changes nothing (`LifecycleProperties.ReleaseAsWrittenStuck`).
- LifecycleProperties.DeletionReleasesIPFirst: is about the corrected release, with the same qualification as LifecycleProperties.ReleaseIPEffect.
- A claim stays behind when the CreatingIP status write fails after `reserveIP` created it (lines 379-387). The next cycle allocates a fresh address, so the source can leave a VirtualIP with more than one claim, against the intent of one address per VirtualIP. The model keeps that behaviour, as `LifecycleProperties.AllocationRecorded` states, and proves no uniqueness of claims per VirtualIP.
- Controller.Reconciler.Reconcile: models the corrected `allocateIP` walk, the corrected deletion of a claim that is already gone, and the counted segment scan (see Findings). The code as written is modelled beside each of them.

## Findings

| source | as written | input that shows it | evidently intended | confidence | as-written member | corrected member |
|---|---|---|---|---|---|---|
| controllers/virtualip_controller.go:183 | the scan stops when `ipnet.Contains` turns false after `incrementIP`; with prefix length 0 every address is contained, and the increment wraps from 255.255.255.255 to 0.0.0.0 | a GSM with segment `0.0.0.0/0` | the scan visits each address of the segment once and ends | not executed | IPv4.SlashZeroNeverExits | Controller.ScanSegment |
| controllers/virtualip_controller.go:277-290 | without a segment, any error of `reserveIP` aborts the loop over the GSMs. Exhaustion is such an error, since `reserveIP` never returns an empty address without an error, so `if ip != ""` always holds | GSM "a" (10.0.0.0/32) with 10.0.0.0 excluded, listed before GSM "b" (10.0.0.1/32) | pass over a GSM that has no free address and allocate from the next one | not executed | Allocation.ExhaustedFirstMappingAborts | Allocation.AllocateAnyFirstUsable |
| controllers/virtualip_controller.go:357-363 | deleting the IP object of a VirtualIP being deleted treats NotFound like any other error. No status is written during deletion, so the IP finalizer is never dropped | a VirtualIP being deleted that holds the IP finalizer while its IP object is already gone | a missing IP object counts as deleted, and the finalizer is dropped | not executed | LifecycleProperties.ReleaseAsWrittenStuck | LifecycleProperties.ReleaseGoneClaimProgresses |
