/** The objects the reconciler reads and writes (VirtualIP, IP claims,
    GroupSegmentMappings, Services), the errors it reports, and the
    abstract API server: a World value holding every object, and one
    function per request saying what the request answers and what it
    leaves behind. */
module Api {
  import opened IPv4

  datatype Option<T> = None | Some(value: T)

  /** What went wrong, structured the way the reconciler builds its
      messages (`errors.New(fmt.Sprintf("context: %v", cause))`). */
  datatype Error =
    | Backend(text: string)                        // a failed request, with the client's text
    | NotFound(resource: string, name: string)
    | AlreadyExists(resource: string, name: string)
    | InvalidCidr(segment: string)                 // what net.ParseCIDR reports
    | Failure(text: string)                        // errors.New(text)
    | Wrapped(context: string, cause: Error)

  /** The error text, as `err.Error()` gives it. */
  function Text(e: Error): string
  {
    match e
    case Backend(t) => t
    case NotFound(res, name) => res + " \"" + name + "\" not found"
    case AlreadyExists(res, name) => res + " \"" + name + "\" already exists"
    case InvalidCidr(seg) => "invalid CIDR address: " + seg
    case Failure(t) => t
    case Wrapped(ctx, cause) => ctx + ": " + Text(cause)
  }

  datatype Result<T> = Ok(value: T) | Err(error: Error)

  /** The answer of a request that returns no value. */
  datatype Outcome = Pass | Fail(error: Error)

  // Names fixed by the controller.
  const GsmLabel: string := "gsm"
  const OwnerAnnotation: string := "virtualips.paas.il/owner"
  const GroupAnnotation: string := "keepalived-operator.redhat-cop.io/keepalivedgroup"
  const IPFinalizer: string := "ip.finalizers.virtualips.paas.org"
  const ServiceFinalizer: string := "service.finalizers.virtualips.paas.org"
  const CloneSuffix: string := "-keepalived-clone"
  /** The group namespace used when KEEPALIVED_GROUP_NAMESPACE is unset. */
  const DefaultGroupNamespace: string := "keepalived-operator"

  const VirtualIPResource: string := "virtualips.paas.org"
  const IPResource: string := "ips.paas.org"
  const ServiceResource: string := "services"

  const NoAvailableIPs: Error := Failure("there are no available IPs")

  /** A namespaced object name. */
  datatype Key = Key(namespace: string, name: string)

  /** `client.ObjectKey.String()`: "namespace/name". */
  function KeyText(k: Key): string
  {
    k.namespace + "/" + k.name
  }

  /** An IP object: the claim on the address that is its name. */
  datatype IPClaim = IPClaim(labels: map<string, string>, annotations: map<string, string>)

  datatype OwnerRef = OwnerRef(kind: string, name: string, uid: string)

  /** The parts of a Service the reconciler touches. */
  datatype ServiceValue = ServiceValue(
    namespace: string,
    name: string,
    resourceVersion: string,
    ownerRefs: seq<OwnerRef>,
    annotations: map<string, string>,
    clusterIP: string,
    externalIPs: seq<string>)

  /** A GroupSegmentMapping. `segment` is the CIDR text; `cidr` is what
      parsing that text yields. */
  datatype Mapping = Mapping(
    name: string,
    segment: string,
    cidr: ParsedCidr,
    excludedIPs: seq<string>,
    keepalivedGroup: string)

  datatype State = StateUnset | StateError | StateCreatingIP | StateExposing | StateValid

  datatype VirtualIPSpec = VirtualIPSpec(segment: string, service: string, clone: bool)

  /** `clone` is a pointer in the API type: None stands for nil. */
  datatype VirtualIPStatus = VirtualIPStatus(
    ip: string,
    keepalivedGroup: string,
    gsm: string,
    service: string,
    clone: Option<bool>,
    state: State,
    message: string)

  /** A VirtualIP; `deleting` says whether its deletion timestamp is set. */
  datatype VirtualIPValue = VirtualIPValue(
    namespace: string,
    name: string,
    uid: string,
    spec: VirtualIPSpec,
    status: VirtualIPStatus,
    finalizers: set<string>,
    deleting: bool)
  {
    function ObjectKey(): Key
    {
      Key(namespace, name)
    }
  }

  /** The requests the reconciler makes of the API server. */
  datatype Op =
    | GetVirtualIP | UpdateVirtualIP | UpdateVirtualIPStatus
    | ListMappings
    | ListClaims | GetClaim | CreateClaim | UpdateClaim | DeleteClaim
    | GetService | CreateService | UpdateService

  /** Everything the API server holds, plus the requests that currently
      fail (each with the error text the client would return). */
  datatype World = World(
    virtualIPs: map<Key, VirtualIPValue>,
    claims: map<string, IPClaim>,
    services: map<Key, ServiceValue>,
    mappings: seq<Mapping>,
    faults: map<Op, string>)

  /** The API server files every object under its own namespace and name. */
  predicate Keyed(w: World)
  {
    && (forall k | k in w.virtualIPs :: w.virtualIPs[k].ObjectKey() == k)
    && (forall k | k in w.services :: ServiceKey(w.services[k]) == k)
  }

  /** Settings the reconciler is built with: the namespace of the
      keepalived groups (KEEPALIVED_GROUP_NAMESPACE) and, when the scheme
      does not know the VirtualIP kind, the error text setting an owner
      reference then gives. */
  datatype Config = Config(groupNamespace: string, schemeError: Option<string>)

  const OwnerKind: string := "VirtualIP"

  // ---------------------------------------------------------------------
  // The API server's requests
  // ---------------------------------------------------------------------

  function GetVirtualIPOf(w: World, k: Key): Result<VirtualIPValue>
  {
    if GetVirtualIP in w.faults then Err(Backend(w.faults[GetVirtualIP]))
    else if k !in w.virtualIPs then Err(NotFound(VirtualIPResource, k.name))
    else Ok(w.virtualIPs[k])
  }

  /** `Update` of a VirtualIP writes its metadata (the finalizers); once a
      VirtualIP being deleted has no finalizer left, the server removes it. */
  function UpdateVirtualIPOf(w: World, v: VirtualIPValue): (Outcome, World)
  {
    var k := v.ObjectKey();
    if UpdateVirtualIP in w.faults then (Fail(Backend(w.faults[UpdateVirtualIP])), w)
    else if k !in w.virtualIPs then (Fail(NotFound(VirtualIPResource, k.name)), w)
    else
      var stored := w.virtualIPs[k].(finalizers := v.finalizers);
      if stored.deleting && stored.finalizers == {} then (Pass, w.(virtualIPs := w.virtualIPs - {k}))
      else (Pass, w.(virtualIPs := w.virtualIPs[k := stored]))
  }

  /** `Status().Update` writes the status and nothing else. */
  function UpdateStatusOf(w: World, v: VirtualIPValue): (Outcome, World)
  {
    var k := v.ObjectKey();
    if UpdateVirtualIPStatus in w.faults then (Fail(Backend(w.faults[UpdateVirtualIPStatus])), w)
    else if k !in w.virtualIPs then (Fail(NotFound(VirtualIPResource, k.name)), w)
    else (Pass, w.(virtualIPs := w.virtualIPs[k := w.virtualIPs[k].(status := v.status)]))
  }

  predicate HasGsmLabel(c: IPClaim, gsm: string)
  {
    GsmLabel in c.labels && c.labels[GsmLabel] == gsm
  }

  /** The names of the claims labelled with a GroupSegmentMapping. */
  function ClaimedIn(claims: map<string, IPClaim>, gsm: string): set<string>
  {
    set n | n in claims && HasGsmLabel(claims[n], gsm)
  }

  /** Listing the IP objects that carry the label gsm=`gsm`. */
  function ListClaimsOf(w: World, gsm: string): Result<set<string>>
  {
    if ListClaims in w.faults then Err(Backend(w.faults[ListClaims]))
    else Ok(ClaimedIn(w.claims, gsm))
  }

  datatype CreateAnswer = Created | Exists | CreateFailed(error: Error)

  /** Create-if-absent of an IP object: the one primitive that makes a
      claim exclusive. */
  function CreateClaimOf(w: World, name: string, c: IPClaim): (CreateAnswer, World)
  {
    if name in w.claims then (Exists, w)
    else if CreateClaim in w.faults then (CreateFailed(Backend(w.faults[CreateClaim])), w)
    else (Created, w.(claims := w.claims[name := c]))
  }

  function GetClaimOf(w: World, name: string): Result<IPClaim>
  {
    if GetClaim in w.faults then Err(Backend(w.faults[GetClaim]))
    else if name !in w.claims then Err(NotFound(IPResource, name))
    else Ok(w.claims[name])
  }

  function UpdateClaimOf(w: World, name: string, c: IPClaim): (Outcome, World)
  {
    if UpdateClaim in w.faults then (Fail(Backend(w.faults[UpdateClaim])), w)
    else if name !in w.claims then (Fail(NotFound(IPResource, name)), w)
    else (Pass, w.(claims := w.claims[name := c]))
  }

  function DeleteClaimOf(w: World, name: string): (Outcome, World)
  {
    if DeleteClaim in w.faults then (Fail(Backend(w.faults[DeleteClaim])), w)
    else if name !in w.claims then (Fail(NotFound(IPResource, name)), w)
    else (Pass, w.(claims := w.claims - {name}))
  }

  /** The outcome of a create request that returns no value. */
  function CreateOutcome(a: CreateAnswer, resource: string, name: string): Outcome
  {
    match a
    case Created => Pass
    case Exists => Fail(AlreadyExists(resource, name))
    case CreateFailed(e) => Fail(e)
  }

  /** `controllerutil.CreateOrUpdate` of an IP object whose mutation
      overwrites its labels and annotations: get it; create it when it is
      absent, update it when the mutation changed it, and otherwise leave
      it alone. */
  function CreateOrUpdateClaimOf(w: World, name: string, c: IPClaim): (Outcome, World)
  {
    match GetClaimOf(w, name)
    case Err(e) =>
      if e.NotFound? then
        var (answer, w') := CreateClaimOf(w, name, c);
        (CreateOutcome(answer, IPResource, name), w')
      else (Fail(e), w)
    case Ok(stored) =>
      if stored == c then (Pass, w) else UpdateClaimOf(w, name, c)
  }

  /** CreateOrUpdate of a claim touches that claim alone, and when it
      succeeds the claim is the given one. */
  lemma CreateOrUpdateClaimEffect(w: World, name: string, c: IPClaim)
    ensures var (o, w') := CreateOrUpdateClaimOf(w, name, c);
            && w' == w.(claims := w'.claims)
            && (o.Pass? ==> name in w'.claims && w'.claims[name] == c)
            && (forall n :: n != name ==>
                  (n in w'.claims <==> n in w.claims) && (n in w.claims ==> w'.claims[n] == w.claims[n]))
  {
  }

  /** With none of its requests failing, CreateOrUpdate of a claim succeeds
      and leaves exactly the given claim, whether it created, updated or
      kept it. */
  lemma CreateOrUpdateClaimSucceeds(w: World, name: string, c: IPClaim)
    requires GetClaim !in w.faults && CreateClaim !in w.faults && UpdateClaim !in w.faults
    ensures CreateOrUpdateClaimOf(w, name, c) == (Pass, w.(claims := w.claims[name := c]))
  {
    if name in w.claims && w.claims[name] == c {
      assert w.claims[name := c] == w.claims;
    }
  }

  /** Listing the GroupSegmentMappings, in the server's order. */
  function ListMappingsOf(w: World): Result<seq<Mapping>>
  {
    if ListMappings in w.faults then Err(Backend(w.faults[ListMappings]))
    else Ok(w.mappings)
  }

  function ServiceKey(s: ServiceValue): Key
  {
    Key(s.namespace, s.name)
  }

  function GetServiceOf(w: World, k: Key): Result<ServiceValue>
  {
    if GetService in w.faults then Err(Backend(w.faults[GetService]))
    else if k !in w.services then Err(NotFound(ServiceResource, k.name))
    else Ok(w.services[k])
  }

  function CreateServiceOf(w: World, s: ServiceValue): (Outcome, World)
  {
    var k := ServiceKey(s);
    if CreateService in w.faults then (Fail(Backend(w.faults[CreateService])), w)
    else if k in w.services then (Fail(AlreadyExists(ServiceResource, k.name)), w)
    else (Pass, w.(services := w.services[k := s]))
  }

  function UpdateServiceOf(w: World, s: ServiceValue): (Outcome, World)
  {
    var k := ServiceKey(s);
    if UpdateService in w.faults then (Fail(Backend(w.faults[UpdateService])), w)
    else if k !in w.services then (Fail(NotFound(ServiceResource, k.name)), w)
    else (Pass, w.(services := w.services[k := s]))
  }
}
