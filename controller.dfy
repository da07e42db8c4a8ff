/** The reconciler itself: the objects it builds and changes in memory
    (VirtualIP, Service, IP object) and its methods, each proved to do what
    the function of the same name in modules Pool, Allocation, Exposure
    and Lifecycle says. */
module Controller {
  import opened IPv4
  import opened Api
  import opened Store
  import opened Pool
  import opened Allocation
  import opened Exposure
  import opened Lifecycle

  /** `contains`: a linear search of `arr` for `str`. */
  method Contains(arr: seq<string>, str: string) returns (found: bool)
    ensures found <==> str in arr
  {
    for i := 0 to |arr|
      invariant str !in arr[..i]
    {
      if arr[i] == str {
        return true;
      }
    }
    return false;
  }

  /** The texts of a list, as a set. */
  function Members(arr: seq<string>): (r: set<string>)
    ensures forall t :: t in r <==> t in arr
  {
    set t | t in arr
  }

  /** The scan of `getAvailableIPs` over an IPv4 segment: start at the
      masked network address and keep the text of each address not in
      `excludedIPs`. */
  method ScanSegment(base: Addr, p: PrefixLen, excludedIPs: seq<string>) returns (ips: seq<string>)
    ensures ips == SegmentCandidates(base, p, Members(excludedIPs))
  {
    var first := NetworkAddr(base, p);
    var ip := new Byte[4];
    ip[0], ip[1], ip[2], ip[3] := first[0], first[1], first[2], first[3];
    assert ip[..] == first;
    NetworkFits(base, p);
    ips := ScanFrom(ip, Network(base, p), BlockSize(p), excludedIPs);
  }

  /** The loop of the scan: `size` addresses from the one in `ip`, stepped
      with `incrementIP`. The source stops the loop when the address leaves
      the segment; counting the segment's BlockSize(p) addresses agrees with
      that for every prefix length from 1 up (SegmentAt,
      GuardAfterLastAddress), and ends the one round that the subnet test
      never ends for prefix length 0. */
  method ScanFrom(ip: array<Byte>, ghost start: nat, size: nat, excludedIPs: seq<string>) returns (ips: seq<string>)
    requires ip.Length == 4 && start + size <= Space && ValueOf(ip[..]) == start
    modifies ip
    ensures ips == Formats(Kept(Walk(start, size), Members(excludedIPs)))
  {
    ips := [];
    for n := 0 to size
      invariant n < size ==> ValueOf(ip[..]) == start + n
      invariant ips == Formats(Kept(Walk(start, n), Members(excludedIPs)))
    {
      ips := ScanStep(ip, start, n, excludedIPs, ips);
    }
  }

  /** One round of the scan: keep the text of the address in `ip` unless
      it is excluded, then step the address. */
  method ScanStep(ip: array<Byte>, ghost start: nat, ghost n: nat, excludedIPs: seq<string>, ips: seq<string>)
    returns (ips': seq<string>)
    requires ip.Length == 4 && start + n < Space && ValueOf(ip[..]) == start + n
    requires ips == Formats(Kept(Walk(start, n), Members(excludedIPs)))
    modifies ip
    ensures ips' == Formats(Kept(Walk(start, n + 1), Members(excludedIPs)))
    ensures start + n + 1 < Space ==> ValueOf(ip[..]) == start + n + 1
  {
    var text := Format(ip[..]);
    var skip := Contains(excludedIPs, text);
    CandidatesStep(start, n, Members(excludedIPs), ip[..]);
    ips' := if skip then ips else ips + [text];
    StepAddress(ip, start + n);
  }

  /** `incrementIP` on the address of value `v`: the address of value
      v + 1, unless `v` is the top of the address space. */
  method StepAddress(ip: array<Byte>, ghost v: nat)
    requires ip.Length == 4 && ValueOf(ip[..]) == v
    modifies ip
    ensures v + 1 < Space ==> ValueOf(ip[..]) == v + 1
  {
    ghost var before: Addr := ip[..];
    IncrementIP(ip);
    if v + 1 < Space {
      IncrementedNext(before);
    }
  }

  /** An IP object being built in memory: its name and the labels and
      annotations `labelIP` fills in. */
  class IPObject {
    const name: string
    var labels: map<string, string>
    var annotations: map<string, string>

    function Claim(): IPClaim
      reads this
    {
      IPClaim(labels, annotations)
    }

    constructor (name: string)
      ensures this.name == name && Claim() == IPClaim(map[], map[])
    {
      this.name := name;
      labels, annotations := map[], map[];
    }

    /** What a Get of the object leaves in memory: the stored object. */
    method Load(c: IPClaim)
      modifies this
      ensures Claim() == c
    {
      labels, annotations := c.labels, c.annotations;
    }
  }

  /** A Service held in memory. */
  class Service {
    var namespace: string
    var name: string
    var resourceVersion: string
    var ownerRefs: seq<OwnerRef>
    var annotations: map<string, string>
    var clusterIP: string
    var externalIPs: seq<string>

    function Value(): ServiceValue
      reads this
    {
      ServiceValue(namespace, name, resourceVersion, ownerRefs, annotations, clusterIP, externalIPs)
    }

    constructor (s: ServiceValue)
      ensures Value() == s
    {
      namespace, name, resourceVersion, ownerRefs := s.namespace, s.name, s.resourceVersion, s.ownerRefs;
      annotations, clusterIP, externalIPs := s.annotations, s.clusterIP, s.externalIPs;
    }

    method Load(s: ServiceValue)
      modifies this
      ensures Value() == s
    {
      namespace, name, resourceVersion, ownerRefs := s.namespace, s.name, s.resourceVersion, s.ownerRefs;
      annotations, clusterIP, externalIPs := s.annotations, s.clusterIP, s.externalIPs;
    }
  }

  /** The VirtualIP a reconcile reads and then changes step by step: its
      status and its finalizers. */
  class VirtualIP {
    const namespace: string
    const name: string
    const uid: string
    const spec: VirtualIPSpec
    const deleting: bool
    var status: VirtualIPStatus
    var finalizers: set<string>

    function Value(): VirtualIPValue
      reads this
    {
      VirtualIPValue(namespace, name, uid, spec, status, finalizers, deleting)
    }

    function ObjectKey(): Key
    {
      Key(namespace, name)
    }

    constructor (v: VirtualIPValue)
      ensures Value() == v
    {
      namespace, name, uid, spec, deleting := v.namespace, v.name, v.uid, v.spec, v.deleting;
      status, finalizers := v.status, v.finalizers;
    }

    /** `controllerutil.AddFinalizer`. */
    method AddFinalizer(f: string)
      modifies this
      ensures Value() == old(Value()).(finalizers := old(finalizers) + {f})
    {
      finalizers := finalizers + {f};
    }

    /** `controllerutil.RemoveFinalizer`. */
    method RemoveFinalizer(f: string)
      modifies this
      ensures Value() == old(Value()).(finalizers := old(finalizers) - {f})
    {
      finalizers := finalizers - {f};
    }
  }

  /** `labelIP`: label the IP object with the mapping's name and annotate it
      with the owning VirtualIP's "namespace/name". */
  method LabelIP(ipObject: IPObject, virtualIP: VirtualIP, gsmName: string)
    modifies ipObject
    ensures ipObject.Claim() == LabelledClaim(gsmName, virtualIP.ObjectKey())
  {
    ipObject.labels := map[GsmLabel := gsmName];
    ipObject.annotations := map[OwnerAnnotation := KeyText(virtualIP.ObjectKey())];
  }

  class Reconciler {
    const cluster: Cluster
    const config: Config

    constructor (cluster: Cluster, config: Config)
      ensures this.cluster == cluster && this.config == config
    {
      this.cluster := cluster;
      this.config := config;
    }

    /** `getAvailableIPs`. */
    method GetAvailableIPs(m: Mapping) returns (r: Result<seq<string>>)
      ensures r == AvailableIPs(cluster.State(), m)
    {
      var listed := cluster.ListClaims(m.name);
      if listed.Err? {
        return Err(listed.error);
      }
      ghost var claimed := ListClaimsOf(cluster.State(), m.name).value;
      var excludedIPs: seq<string> := [];
      for i := 0 to |listed.value|
        invariant excludedIPs == listed.value[..i]
      {
        excludedIPs := excludedIPs + [listed.value[i]];
      }
      for i := 0 to |m.excludedIPs|
        invariant excludedIPs == listed.value + m.excludedIPs[..i]
      {
        excludedIPs := excludedIPs + [m.excludedIPs[i]];
      }
      assert m.excludedIPs[..|m.excludedIPs|] == m.excludedIPs;
      assert Members(excludedIPs) == Excluded(claimed, m);
      match m.cidr {
        case Invalid =>
          return Err(InvalidCidr(m.segment));
        case V6 =>
          return Ok([]);
        case V4(base, p) =>
          var ips := ScanSegment(base, p, excludedIPs);
          return Ok(ips);
      }
    }

    /** `reserveIP`: create-if-absent of an IP object named after each
        available address in turn, for VirtualIP `virtualIP`. */
    method ReserveIP(m: Mapping, virtualIP: VirtualIP) returns (r: Result<string>)
      modifies cluster
      ensures (r, cluster.State()) == Reserve(old(cluster.State()), m, virtualIP.ObjectKey())
    {
      var availableIPs := GetAvailableIPs(m);
      if availableIPs.Err? {
        return Err(availableIPs.error);
      }
      var candidates := availableIPs.value;
      ghost var w := cluster.State();
      ghost var claim := LabelledClaim(m.name, virtualIP.ObjectKey());
      var i := 0;
      while i < |candidates|
        invariant 0 <= i <= |candidates|
        invariant cluster.State() == w
        invariant ReserveFrom(w, candidates[i..], claim) == ReserveFrom(w, candidates, claim)
      {
        var ip := candidates[i];
        var ipObject := new IPObject(ip);
        LabelIP(ipObject, virtualIP, m.name);
        var answer := cluster.CreateClaim(ipObject.name, ipObject.Claim());
        assert candidates[i..][1..] == candidates[i + 1..];
        match answer {
          case Created =>
            return Ok(ip);
          case CreateFailed(e) =>
            return Err(Wrapped(AllocatingContext, e));
          case Exists =>
        }
        i := i + 1;
      }
      return Err(NoAvailableIPs);
    }

    /** `getGSMBySegment`: the first listed mapping of that segment text. */
    method GetGSMBySegment(segment: string) returns (r: Result<Mapping>)
      ensures r == MappingBySegment(cluster.State(), segment)
    {
      var listed := cluster.ListMappings();
      if listed.Err? {
        return Err(listed.error);
      }
      var gsms := listed.value;
      for i := 0 to |gsms|
        invariant FirstWithSegment(gsms[i..], segment) + i == FirstWithSegment(gsms, segment)
      {
        assert gsms[i..][1..] == gsms[i + 1..];
        if gsms[i].segment == segment {
          return Ok(gsms[i]);
        }
      }
      return Err(NoMappingForSegment);
    }

    /** `allocateIP`, with the walk over every mapping corrected to pass over
        an exhausted mapping. */
    method AllocateIP(virtualIP: VirtualIP) returns (r: Result<Allocated>)
      modifies cluster
      ensures (r, cluster.State()) == Allocate(old(cluster.State()), virtualIP.spec.segment, virtualIP.ObjectKey())
    {
      if virtualIP.spec.segment != "" {
        var gsm := GetGSMBySegment(virtualIP.spec.segment);
        if gsm.Err? {
          return Err(gsm.error);
        }
        var ip := ReserveIP(gsm.value, virtualIP);
        if ip.Err? {
          return Err(ip.error);
        }
        return Ok(Allocated(ip.value, gsm.value.keepalivedGroup, gsm.value.name));
      }
      var listed := cluster.ListMappings();
      if listed.Err? {
        return Err(Wrapped(ListMappingsContext, listed.error));
      }
      var gsms := listed.value;
      ghost var owner := virtualIP.ObjectKey();
      ghost var w := old(cluster.State());
      var i := 0;
      while i < |gsms|
        invariant 0 <= i <= |gsms|
        invariant AllocateAny(cluster.State(), gsms[i..], owner) == AllocateAny(w, gsms, owner)
      {
        var ip := ReserveIP(gsms[i], virtualIP);
        assert gsms[i..][1..] == gsms[i + 1..];
        if ip.Err? {
          if ip.error != NoAvailableIPs {
            return Err(ip.error);
          }
        } else if ip.value != "" {
          return Ok(Allocated(ip.value, gsms[i].keepalivedGroup, gsms[i].name));
        }
        i := i + 1;
      }
      return Err(NothingAllocated);
    }

    /** `patchService`: bind the address and the keepalived group to the
        Service, or unbind them. */
    method PatchService(service: Service, ip: string, keepalivedGroup: string, remove: bool)
      modifies service
      ensures service.Value() ==
                Patched(old(service.Value()), ip, GroupBinding(config.groupNamespace, keepalivedGroup), remove)
    {
      if !remove {
        service.annotations := service.annotations[GroupAnnotation := GroupBinding(config.groupNamespace, keepalivedGroup)];
        service.externalIPs := [ip];
      } else {
        service.annotations := service.annotations - {GroupAnnotation};
        service.externalIPs := [];
      }
    }

    /** `cloneService`: turn the Service held in `clone` into its clone,
        owned by `virtualIP`. The renaming and clearing happen before the
        owner reference is set, so they stay when setting it fails. */
    method CloneService(virtualIP: VirtualIP, clone: Service) returns (o: Outcome)
      modifies clone
      ensures var c := CloneOf(config, virtualIP.Value(), old(clone.Value()));
              && (c.Ok? ==> o == Pass && clone.Value() == c.value)
              && (c.Err? ==>
                    && o == Fail(c.error)
                    && clone.Value() == old(clone.Value()).(name := old(clone.name) + CloneSuffix, clusterIP := "",
                                                           resourceVersion := "", ownerRefs := []))
    {
      clone.name := clone.name + CloneSuffix;
      clone.clusterIP := "";
      clone.resourceVersion := "";
      clone.ownerRefs := [];
      match config.schemeError {
        case Some(t) =>
          return Fail(Wrapped(SetOwnerContext, Failure(t)));
        case None =>
          clone.ownerRefs := [OwnerRef(OwnerKind, virtualIP.name, virtualIP.uid)];
          return Pass;
      }
    }

    /** `controllerutil.CreateOrUpdate` of the IP object of the recorded
        address, with `labelIP` as the mutation. */
    method CreateOrUpdateClaim(virtualIP: VirtualIP) returns (o: Outcome)
      modifies cluster
      ensures (o, cluster.State()) ==
                CreateOrUpdateClaimOf(old(cluster.State()), virtualIP.status.ip,
                                      LabelledClaim(virtualIP.status.gsm, virtualIP.ObjectKey()))
    {
      var ipObject := new IPObject(virtualIP.status.ip);
      var got := cluster.GetClaim(ipObject.name);
      if got.Err? {
        if !got.error.NotFound? {
          return Fail(got.error);
        }
        LabelIP(ipObject, virtualIP, virtualIP.status.gsm);
        var answer := cluster.CreateClaim(ipObject.name, ipObject.Claim());
        return CreateOutcome(answer, IPResource, ipObject.name);
      }
      ipObject.Load(got.value);
      var existing := ipObject.Claim();
      LabelIP(ipObject, virtualIP, virtualIP.status.gsm);
      if ipObject.Claim() == existing {
        return Pass;
      }
      o := cluster.UpdateClaim(ipObject.name, ipObject.Claim());
    }

    /** `controllerutil.CreateOrUpdate` of `service`, with `patchService` as
        the mutation. */
    method CreateOrUpdateService(service: Service, virtualIP: VirtualIP, remove: bool) returns (o: Outcome)
      modifies cluster, service
      ensures (o, cluster.State()) ==
                CreateOrUpdateServiceOf(old(cluster.State()), old(service.Value()), virtualIP.status.ip,
                                        GroupBinding(config.groupNamespace, virtualIP.status.keepalivedGroup), remove)
    {
      var got := cluster.GetService(ServiceKey(service.Value()));
      if got.Err? {
        if !got.error.NotFound? {
          return Fail(got.error);
        }
        PatchService(service, virtualIP.status.ip, virtualIP.status.keepalivedGroup, remove);
        o := cluster.CreateService(service.Value());
        return;
      }
      service.Load(got.value);
      var existing := service.Value();
      PatchService(service, virtualIP.status.ip, virtualIP.status.keepalivedGroup, remove);
      if service.Value() == existing {
        return Pass;
      }
      o := cluster.UpdateService(service.Value());
    }

    /** `updateStatus`: record the error, if any, in memory, and write the
        status unless the VirtualIP is being deleted. */
    method UpdateStatus(virtualIP: VirtualIP, e: Option<Error>) returns (o: Outcome)
      modifies cluster, virtualIP
      ensures (o, cluster.State()) == Finish(old(cluster.State()), old(virtualIP.Value()), e)
      ensures virtualIP.Value() == WithError(old(virtualIP.Value()), e)
    {
      if e.Some? {
        virtualIP.status := virtualIP.status.(message := Text(e.value), state := StateError);
      }
      if !virtualIP.deleting {
        var written := cluster.UpdateStatus(virtualIP.Value());
        if written.Fail? {
          return Fail(Wrapped(StatusContext, written.error));
        }
      }
      return Pass;
    }

    /** `Reconcile`: one step of the VirtualIP with key `k`. */
    method Reconcile(k: Key) returns (o: Outcome)
      modifies cluster
      ensures (o, cluster.State()) == Lifecycle.Reconcile(config, old(cluster.State()), k)
    {
      var got := cluster.GetVirtualIP(k);
      if got.Err? {
        return if got.error.NotFound? then Pass else Fail(got.error);
      }
      var virtualIP := new VirtualIP(got.value);
      if virtualIP.deleting {
        if IPFinalizer in virtualIP.finalizers {
          o := ReleaseIP(virtualIP);
        } else {
          o := Expose(virtualIP);
        }
      } else if virtualIP.status.ip == "" {
        o := AllocateStep(virtualIP);
      } else {
        o := EnsureClaim(virtualIP);
      }
    }

    /** Deleting the claim, then dropping the IP finalizer. */
    method ReleaseIP(virtualIP: VirtualIP) returns (o: Outcome)
      modifies cluster, virtualIP
      ensures (o, cluster.State()) == Lifecycle.ReleaseIP(old(cluster.State()), old(virtualIP.Value()))
    {
      var deleted := cluster.DeleteClaim(virtualIP.status.ip);
      if deleted.Fail? && !deleted.error.NotFound? {
        o := UpdateStatus(virtualIP, Some(deleted.error));
        return;
      }
      virtualIP.RemoveFinalizer(IPFinalizer);
      var updated := cluster.UpdateVirtualIP(virtualIP.Value());
      if updated.Fail? {
        o := UpdateStatus(virtualIP, Some(updated.error));
        return;
      }
      return Pass;
    }

    /** Allocating an address and recording it. */
    method AllocateStep(virtualIP: VirtualIP) returns (o: Outcome)
      modifies cluster, virtualIP
      ensures (o, cluster.State()) == Lifecycle.AllocateStep(old(cluster.State()), old(virtualIP.Value()))
    {
      var r := AllocateIP(virtualIP);
      match r {
        case Err(e) =>
          virtualIP.status := virtualIP.status.(ip := "", keepalivedGroup := "", gsm := "");
          o := UpdateStatus(virtualIP, Some(Wrapped(AllocateContext, e)));
        case Ok(a) =>
          virtualIP.status := virtualIP.status.(ip := a.ip, keepalivedGroup := a.keepalivedGroup, gsm := a.gsm,
                                                message := CreatingIPMessage, state := StateCreatingIP);
          o := UpdateStatus(virtualIP, None);
      }
    }

    /** Making sure the claim exists, then holding it with the IP finalizer. */
    method EnsureClaim(virtualIP: VirtualIP) returns (o: Outcome)
      modifies cluster, virtualIP
      ensures (o, cluster.State()) == Lifecycle.EnsureClaim(config, old(cluster.State()), old(virtualIP.Value()))
    {
      var claimed := CreateOrUpdateClaim(virtualIP);
      if claimed.Fail? {
        o := UpdateStatus(virtualIP, Some(Wrapped(ClaimContext, claimed.error)));
        return;
      }
      if IPFinalizer !in virtualIP.finalizers {
        virtualIP.AddFinalizer(IPFinalizer);
        var updated := cluster.UpdateVirtualIP(virtualIP.Value());
        if updated.Fail? {
          o := UpdateStatus(virtualIP, Some(Wrapped(IPFinalizerContext, updated.error)));
          return;
        }
        return Pass;
      }
      o := Expose(virtualIP);
    }

    /** Recording the Service to bind, or binding (or unbinding) it. */
    method Expose(virtualIP: VirtualIP) returns (o: Outcome)
      modifies cluster, virtualIP
      ensures (o, cluster.State()) == Lifecycle.Expose(config, old(cluster.State()), old(virtualIP.Value()))
    {
      if virtualIP.status.service == "" {
        virtualIP.status := virtualIP.status.(service := virtualIP.spec.service, clone := Some(virtualIP.spec.clone),
                                              message := ExposingMessage, state := StateExposing);
        o := UpdateStatus(virtualIP, None);
        return;
      }
      var got := cluster.GetService(Key(virtualIP.namespace, virtualIP.status.service));
      if got.Err? {
        o := UpdateStatus(virtualIP, Some(Wrapped(GetServiceContext, got.error)));
        return;
      }
      if virtualIP.status.clone.None? {
        return Fail(NilClone);
      }
      var service := new Service(got.value);
      o := BindService(virtualIP, service, virtualIP.status.clone.value);
    }

    /** Cloning if asked, writing the Service back, then settling the
        service finalizer. */
    method BindService(virtualIP: VirtualIP, service: Service, cloned: bool) returns (o: Outcome)
      modifies cluster, virtualIP, service
      ensures (o, cluster.State()) ==
                Lifecycle.BindService(config, old(cluster.State()), old(virtualIP.Value()), old(service.Value()), cloned)
    {
      if cloned {
        var c := CloneService(virtualIP, service);
        if c.Fail? {
          o := UpdateStatus(virtualIP, Some(Wrapped(CloneContext, c.error)));
          return;
        }
      }
      if !(virtualIP.deleting && cloned) {
        var written := CreateOrUpdateService(service, virtualIP, virtualIP.deleting);
        if written.Fail? {
          o := UpdateStatus(virtualIP, Some(Wrapped(ServiceContext, written.error)));
          return;
        }
      }
      o := SettleServiceFinalizer(virtualIP);
    }

    /** Adding or dropping the service finalizer, or else reaching Valid. */
    method SettleServiceFinalizer(virtualIP: VirtualIP) returns (o: Outcome)
      modifies cluster, virtualIP
      ensures (o, cluster.State()) == Lifecycle.SettleServiceFinalizer(old(cluster.State()), old(virtualIP.Value()))
    {
      if virtualIP.deleting || ServiceFinalizer !in virtualIP.finalizers {
        if virtualIP.deleting {
          virtualIP.RemoveFinalizer(ServiceFinalizer);
        } else {
          virtualIP.AddFinalizer(ServiceFinalizer);
        }
        var updated := cluster.UpdateVirtualIP(virtualIP.Value());
        if updated.Fail? {
          o := UpdateStatus(virtualIP, Some(Wrapped(ServiceFinalizerContext, updated.error)));
          return;
        }
        return Pass;
      }
      virtualIP.status := virtualIP.status.(message := ValidMessage, state := StateValid);
      o := UpdateStatus(virtualIP, None);
    }
  }
}
