/** One reconcile of a VirtualIP (`Reconcile`, `updateStatus`): a single
    step of the state machine that allocates an address, claims it, binds
    it to a Service and, on deletion, unwinds the claim and then the
    binding. */
module Lifecycle {
  import opened Api
  import opened Pool
  import opened Allocation
  import opened Exposure

  const StatusContext: string := "failed to update VirtualIP status"
  const AllocateContext: string := "could not allocate an IP"
  const ClaimContext: string := "could not create/update an IP object"
  const IPFinalizerContext: string := "could not add finalizer for IP object"
  const GetServiceContext: string := "could not get service to be exposed"
  const CloneContext: string := "received error while cloning service"
  const ServiceContext: string := "failed to create/update the service"
  const ServiceFinalizerContext: string := "could not add finalizer for service"

  const CreatingIPMessage: string := "creating IP object for the service"
  const ExposingMessage: string := "exposing service with an external IP"
  const ValidMessage: string := "successfully allocated an IP address"

  /** Dereferencing an unset status clone flag. */
  const NilClone: Error := Failure("invalid memory address or nil pointer dereference")

  /** The VirtualIP as `updateStatus` leaves it in memory: an error is
      recorded as state Error with the error's text as message. */
  function WithError(v: VirtualIPValue, e: Option<Error>): VirtualIPValue
  {
    match e
    case None => v
    case Some(err) => v.(status := v.status.(message := Text(err), state := StateError))
  }

  /** `updateStatus`: record the error, if any, and write the status unless
      the VirtualIP is being deleted. The reconcile then fails only if that
      write fails. */
  function Finish(w: World, v: VirtualIPValue, e: Option<Error>): (Outcome, World)
  {
    var v' := WithError(v, e);
    if v'.deleting then (Pass, w)
    else
      var (o, w') := UpdateStatusOf(w, v');
      if o.Fail? then (Fail(Wrapped(StatusContext, o.error)), w') else (Pass, w')
  }

  /** Dropping the IP finalizer once the claim is gone. */
  function DropIPFinalizer(w: World, v: VirtualIPValue): (Outcome, World)
  {
    var v' := v.(finalizers := v.finalizers - {IPFinalizer});
    var (o, w') := UpdateVirtualIPOf(w, v');
    if o.Fail? then Finish(w', v', Some(o.error)) else (Pass, w')
  }

  /** Deleting the claim of a VirtualIP being deleted, as written: any
      failure of the delete, NotFound included, ends the cycle. */
  function ReleaseIPAsWritten(w: World, v: VirtualIPValue): (Outcome, World)
  {
    var (o, w') := DeleteClaimOf(w, v.status.ip);
    if o.Fail? then Finish(w', v, Some(o.error)) else DropIPFinalizer(w', v)
  }

  /** Deleting the claim of a VirtualIP being deleted, corrected: a claim
      that is already gone counts as deleted. */
  function ReleaseIP(w: World, v: VirtualIPValue): (Outcome, World)
  {
    var (o, w') := DeleteClaimOf(w, v.status.ip);
    if o.Fail? && !o.error.NotFound? then Finish(w', v, Some(o.error)) else DropIPFinalizer(w', v)
  }

  /** No address recorded yet: allocate one and move to CreatingIP. On
      failure the address, group and mapping fields are cleared. */
  function AllocateStep(w: World, v: VirtualIPValue): (Outcome, World)
  {
    var (r, w') := Allocate(w, v.spec.segment, v.ObjectKey());
    match r
    case Err(e) =>
      Finish(w', v.(status := v.status.(ip := "", keepalivedGroup := "", gsm := "")),
             Some(Wrapped(AllocateContext, e)))
    case Ok(a) =>
      Finish(w', v.(status := v.status.(ip := a.ip, keepalivedGroup := a.keepalivedGroup, gsm := a.gsm,
                                         message := CreatingIPMessage, state := StateCreatingIP)), None)
  }

  /** Adding or dropping the service finalizer, or else reaching Valid. */
  function SettleServiceFinalizer(w: World, v: VirtualIPValue): (Outcome, World)
  {
    if v.deleting || ServiceFinalizer !in v.finalizers then
      var v' := v.(finalizers := if v.deleting then v.finalizers - {ServiceFinalizer}
                                 else v.finalizers + {ServiceFinalizer});
      var (o, w') := UpdateVirtualIPOf(w, v');
      if o.Fail? then Finish(w', v', Some(Wrapped(ServiceFinalizerContext, o.error))) else (Pass, w')
    else
      Finish(w, v.(status := v.status.(message := ValidMessage, state := StateValid)), None)
  }

  /** The Service a VirtualIP binds (the clone when the flag is set), unless
      deleting a clone, which the owner reference removes. */
  function BindService(cfg: Config, w: World, v: VirtualIPValue, s: ServiceValue, cloned: bool): (Outcome, World)
  {
    var target := if cloned then CloneOf(cfg, v, s) else Ok(s);
    match target
    case Err(e) => Finish(w, v, Some(Wrapped(CloneContext, e)))
    case Ok(t) =>
      var (o, w') :=
        if v.deleting && cloned then (Pass, w)
        else CreateOrUpdateServiceOf(w, t, v.status.ip, GroupBinding(cfg.groupNamespace, v.status.keepalivedGroup), v.deleting);
      if o.Fail? then Finish(w', v, Some(Wrapped(ServiceContext, o.error)))
      else SettleServiceFinalizer(w', v)
  }

  /** Recording the Service to bind, or binding (or unbinding) it. */
  function Expose(cfg: Config, w: World, v: VirtualIPValue): (Outcome, World)
  {
    if v.status.service == "" then
      Finish(w, v.(status := v.status.(service := v.spec.service, clone := Some(v.spec.clone),
                                         message := ExposingMessage, state := StateExposing)), None)
    else
      match GetServiceOf(w, Key(v.namespace, v.status.service))
      case Err(e) => Finish(w, v, Some(Wrapped(GetServiceContext, e)))
      case Ok(s) =>
        match v.status.clone
        case None => (Fail(NilClone), w)
        case Some(cloned) => BindService(cfg, w, v, s, cloned)
  }

  /** An address is recorded: make sure its claim exists and carries the
      VirtualIP's labels, then hold it with the IP finalizer. */
  function EnsureClaim(cfg: Config, w: World, v: VirtualIPValue): (Outcome, World)
  {
    var (o, w') := CreateOrUpdateClaimOf(w, v.status.ip, LabelledClaim(v.status.gsm, v.ObjectKey()));
    if o.Fail? then Finish(w', v, Some(Wrapped(ClaimContext, o.error)))
    else if IPFinalizer !in v.finalizers then
      var v' := v.(finalizers := v.finalizers + {IPFinalizer});
      var (o', w'') := UpdateVirtualIPOf(w', v');
      if o'.Fail? then Finish(w'', v', Some(Wrapped(IPFinalizerContext, o'.error))) else (Pass, w'')
    else Expose(cfg, w', v)
  }

  /** One reconcile of the VirtualIP with key `k`. A VirtualIP that is gone
      is done with. */
  function Reconcile(cfg: Config, w: World, k: Key): (Outcome, World)
  {
    match GetVirtualIPOf(w, k)
    case Err(e) => if e.NotFound? then (Pass, w) else (Fail(e), w)
    case Ok(v) =>
      if v.deleting then
        if IPFinalizer in v.finalizers then ReleaseIP(w, v) else Expose(cfg, w, v)
      else if v.status.ip == "" then AllocateStep(w, v)
      else EnsureClaim(cfg, w, v)
  }
}
