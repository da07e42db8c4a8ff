/** What one reconcile may and may not do: no status write while the
    VirtualIP is being deleted; the IP finalizer only after the claim
    exists; the service finalizer dropped only once the IP finalizer is
    gone; Valid only with both finalizers in place. */
module LifecycleProperties {
  import opened Api
  import opened Pool
  import opened Allocation
  import opened Exposure
  import opened Lifecycle

  /** No stored status differs from before, and no VirtualIP appears. */
  predicate StatusesKept(w: World, w': World)
  {
    forall k :: k in w'.virtualIPs ==> k in w.virtualIPs && w'.virtualIPs[k].status == w.virtualIPs[k].status
  }

  /** `k` carries the IP finalizer now and did not before. */
  predicate NewIPFinalizer(w: World, w': World, k: Key)
  {
    && k in w'.virtualIPs && IPFinalizer in w'.virtualIPs[k].finalizers
    && !(k in w.virtualIPs && IPFinalizer in w.virtualIPs[k].finalizers)
  }

  /** `k` carried the service finalizer and does not any more (or is gone). */
  predicate LostServiceFinalizer(w: World, w': World, k: Key)
  {
    && k in w.virtualIPs && ServiceFinalizer in w.virtualIPs[k].finalizers
    && !(k in w'.virtualIPs && ServiceFinalizer in w'.virtualIPs[k].finalizers)
  }

  /** `k` is in state Valid now and was not before. */
  predicate NewValid(w: World, w': World, k: Key)
  {
    && k in w'.virtualIPs && w'.virtualIPs[k].status.state == StateValid
    && !(k in w.virtualIPs && w.virtualIPs[k].status.state == StateValid)
  }

  /** The claim of the recorded address exists with the VirtualIP's labels. */
  predicate ClaimHeld(w: World, v: VirtualIPValue)
  {
    v.status.ip in w.claims && w.claims[v.status.ip] == LabelledClaim(v.status.gsm, v.ObjectKey())
  }

  /** `v` is what the server stores under its own key. */
  predicate StoredAs(w: World, v: VirtualIPValue)
  {
    Keyed(w) && v.ObjectKey() in w.virtualIPs && w.virtualIPs[v.ObjectKey()] == v
  }

  /** A world that differs in its claims and services only. */
  predicate SameObjects(w: World, w': World)
  {
    w'.virtualIPs == w.virtualIPs && w'.mappings == w.mappings && w'.faults == w.faults
  }

  // ---------------------------------------------------------------------
  // The two writes of a VirtualIP
  // ---------------------------------------------------------------------

  /** `updateStatus` writes the status of `v` alone, and only when `v` is
      not being deleted; any error it records becomes state Error with the
      error's text as message. */
  lemma FinishEffect(w: World, v: VirtualIPValue, e: Option<Error>)
    requires Keyed(w)
    ensures var (o, w') := Finish(w, v, e);
            && Keyed(w') && w'.claims == w.claims && w'.services == w.services
            && (v.deleting ==> o == Pass && w' == w)
            && (!v.deleting && UpdateVirtualIPStatus !in w.faults && v.ObjectKey() in w.virtualIPs ==>
                  && o == Pass
                  && w'.virtualIPs == w.virtualIPs[v.ObjectKey() := w.virtualIPs[v.ObjectKey()].(status := WithError(v, e).status)]
                  && (e.Some? ==> w'.virtualIPs[v.ObjectKey()].status.state == StateError &&
                                  w'.virtualIPs[v.ObjectKey()].status.message == Text(e.value)))
            && (o.Fail? ==> w' == w)
            && (forall k :: k in w'.virtualIPs <==> k in w.virtualIPs)
            && (forall k :: k in w'.virtualIPs ==> w'.virtualIPs[k].finalizers == w.virtualIPs[k].finalizers)
            && (forall k :: NewValid(w, w', k) ==> !v.deleting && WithError(v, e).status.state == StateValid)
  {
    var v' := WithError(v, e);
    var k := v.ObjectKey();
    if !v.deleting && UpdateVirtualIPStatus !in w.faults && k in w.virtualIPs {
      var w' := w.(virtualIPs := w.virtualIPs[k := w.virtualIPs[k].(status := v'.status)]);
      assert Finish(w, v, e) == (Pass, w');
      assert w'.virtualIPs[k].ObjectKey() == k;
    }
  }

  /** `Update` of a VirtualIP writes its finalizers alone. */
  lemma UpdateVirtualIPEffect(w: World, v: VirtualIPValue)
    requires Keyed(w)
    ensures var (o, w') := UpdateVirtualIPOf(w, v);
            var k := v.ObjectKey();
            && Keyed(w') && w'.claims == w.claims && w'.services == w.services
            && StatusesKept(w, w')
            && (forall k' :: k' != k ==> (k' in w'.virtualIPs <==> k' in w.virtualIPs) &&
                                         (k' in w.virtualIPs ==> w'.virtualIPs[k'] == w.virtualIPs[k']))
            && (o.Pass? ==> k in w.virtualIPs &&
                            if w.virtualIPs[k].deleting && v.finalizers == {} then k !in w'.virtualIPs
                            else k in w'.virtualIPs && w'.virtualIPs[k].finalizers == v.finalizers)
            && (o.Fail? ==> w' == w)
            && (forall k :: !NewValid(w, w', k))
  {
    var k := v.ObjectKey();
    if UpdateVirtualIP !in w.faults && k in w.virtualIPs {
      var stored := w.virtualIPs[k].(finalizers := v.finalizers);
      if stored.deleting && stored.finalizers == {} {
        assert UpdateVirtualIPOf(w, v) == (Pass, w.(virtualIPs := w.virtualIPs - {k}));
      } else {
        assert UpdateVirtualIPOf(w, v) == (Pass, w.(virtualIPs := w.virtualIPs[k := stored]));
        assert stored.ObjectKey() == k && stored.status == w.virtualIPs[k].status;
      }
    }
  }

  /** The Service of key `k` is the same in both maps, or absent in both. */
  predicate SameEntry(m: map<Key, ServiceValue>, m': map<Key, ServiceValue>, k: Key)
  {
    (k in m' <==> k in m) && (k in m ==> m'[k] == m[k])
  }

  /** A Service with no address bound: no external IP, no group annotation. */
  predicate Unbound(s: ServiceValue)
  {
    s.externalIPs == [] && GroupAnnotation !in s.annotations
  }

  // ---------------------------------------------------------------------
  // The steps of a reconcile
  // ---------------------------------------------------------------------

  lemma DropIPFinalizerEffect(w: World, v: VirtualIPValue)
    requires StoredAs(w, v) && v.deleting
    ensures var (o, w') := DropIPFinalizer(w, v);
            var k := v.ObjectKey();
            && o == Pass && Keyed(w') && w'.claims == w.claims && w'.services == w.services
            && StatusesKept(w, w')
            && !NewIPFinalizer(w, w', k) && !LostServiceFinalizer(w, w', k) && !NewValid(w, w', k)
            && (UpdateVirtualIP in w.faults ==> w' == w)
            && (UpdateVirtualIP !in w.faults && k in w'.virtualIPs ==>
                  w'.virtualIPs[k].finalizers == v.finalizers - {IPFinalizer})
  {
    var v' := v.(finalizers := v.finalizers - {IPFinalizer});
    assert ServiceFinalizer in v.finalizers ==> ServiceFinalizer in v'.finalizers;
    var (o1, w1) := UpdateVirtualIPOf(w, v');
    UpdateVirtualIPEffect(w, v');
    if o1.Fail? {
      FinishEffect(w1, v', Some(o1.error));
    }
  }

  lemma ReleaseIPEffect(w: World, v: VirtualIPValue)
    requires StoredAs(w, v) && v.deleting
    ensures var (o, w') := ReleaseIP(w, v);
            var k := v.ObjectKey();
            && o == Pass && Keyed(w') && w'.services == w.services
            && StatusesKept(w, w')
            && !NewIPFinalizer(w, w', k) && !LostServiceFinalizer(w, w', k) && !NewValid(w, w', k)
            && (DeleteClaim in w.faults ==> w' == w)
            && (DeleteClaim !in w.faults ==> w'.claims == w.claims - {v.status.ip})
            && (DeleteClaim !in w.faults && UpdateVirtualIP !in w.faults && k in w'.virtualIPs ==>
                  w'.virtualIPs[k].finalizers == v.finalizers - {IPFinalizer})
  {
    var (o1, w1) := DeleteClaimOf(w, v.status.ip);
    if o1.Fail? && !o1.error.NotFound? {
      FinishEffect(w1, v, Some(o1.error));
    } else {
      assert StoredAs(w1, v);
      DropIPFinalizerEffect(w1, v);
    }
  }

  lemma SettleEffect(w: World, v: VirtualIPValue)
    requires StoredAs(w, v)
    ensures var (o, w') := SettleServiceFinalizer(w, v);
            var k := v.ObjectKey();
            && Keyed(w') && w'.claims == w.claims && w'.services == w.services
            && (v.deleting ==> o == Pass && StatusesKept(w, w'))
            && !NewIPFinalizer(w, w', k)
            && (LostServiceFinalizer(w, w', k) ==> v.deleting)
            && (NewValid(w, w', k) ==> !v.deleting && ServiceFinalizer in v.finalizers)
  {
    if v.deleting || ServiceFinalizer !in v.finalizers {
      var v' := v.(finalizers := if v.deleting then v.finalizers - {ServiceFinalizer}
                                 else v.finalizers + {ServiceFinalizer});
      var (o1, w1) := UpdateVirtualIPOf(w, v');
      UpdateVirtualIPEffect(w, v');
      if o1.Fail? {
        FinishEffect(w1, v', Some(Wrapped(ServiceFinalizerContext, o1.error)));
      }
    } else {
      FinishEffect(w, v.(status := v.status.(message := ValidMessage, state := StateValid)), None);
    }
  }

  lemma BindServiceEffect(cfg: Config, w: World, v: VirtualIPValue, s: ServiceValue, cloned: bool)
    requires StoredAs(w, v)
    ensures var (o, w') := BindService(cfg, w, v, s, cloned);
            var k := v.ObjectKey();
            && Keyed(w') && w'.claims == w.claims
            && (v.deleting ==> o == Pass && StatusesKept(w, w'))
            && !NewIPFinalizer(w, w', k)
            && (LostServiceFinalizer(w, w', k) ==> v.deleting)
            && (NewValid(w, w', k) ==> !v.deleting && ServiceFinalizer in v.finalizers)
            && (cloned ==> SameEntry(w.services, w'.services, ServiceKey(s)))
            && (LostServiceFinalizer(w, w', k) && !cloned ==>
                  ServiceKey(s) in w'.services && Unbound(w'.services[ServiceKey(s)]))
  {
    var k := v.ObjectKey();
    var target := if cloned then CloneOf(cfg, v, s) else Ok(s);
    CloneFields(cfg, v, s);
    if target.Err? {
      FinishEffect(w, v, Some(Wrapped(CloneContext, target.error)));
    } else {
      var t := target.value;
      var binding := GroupBinding(cfg.groupNamespace, v.status.keepalivedGroup);
      var (o1, w1) :=
        if v.deleting && cloned then (Pass, w)
        else CreateOrUpdateServiceOf(w, t, v.status.ip, binding, v.deleting);
      CreateOrUpdateServiceEffect(w, t, v.status.ip, binding, v.deleting);
      assert StoredAs(w1, v);
      if o1.Fail? {
        FinishEffect(w1, v, Some(Wrapped(ServiceContext, o1.error)));
      } else {
        assert BindService(cfg, w, v, s, cloned) == SettleServiceFinalizer(w1, v);
        SettleEffect(w1, v);
      }
    }
  }

  lemma ExposeEffect(cfg: Config, w: World, v: VirtualIPValue)
    requires StoredAs(w, v)
    ensures var (o, w') := Expose(cfg, w, v);
            var k := v.ObjectKey();
            var svc := Key(v.namespace, v.status.service);
            && Keyed(w') && w'.claims == w.claims
            && (v.deleting ==> StatusesKept(w, w') && (o.Fail? ==> o.error == NilClone))
            && !NewIPFinalizer(w, w', k)
            && (LostServiceFinalizer(w, w', k) ==> v.deleting)
            && (NewValid(w, w', k) ==> !v.deleting && ServiceFinalizer in v.finalizers)
            && (v.status.clone == Some(true) ==> SameEntry(w.services, w'.services, svc))
            && (LostServiceFinalizer(w, w', k) && v.status.clone == Some(false) ==>
                  svc in w'.services && Unbound(w'.services[svc]))
  {
    if v.status.service == "" {
      FinishEffect(w, v.(status := v.status.(service := v.spec.service, clone := Some(v.spec.clone),
                                              message := ExposingMessage, state := StateExposing)), None);
    } else {
      var svc := Key(v.namespace, v.status.service);
      match GetServiceOf(w, svc)
      case Err(e) =>
        FinishEffect(w, v, Some(Wrapped(GetServiceContext, e)));
      case Ok(s) =>
        assert ServiceKey(s) == svc;
        if v.status.clone.Some? {
          BindServiceEffect(cfg, w, v, s, v.status.clone.value);
        }
    }
  }

  lemma AllocateStepEffect(w: World, v: VirtualIPValue)
    requires StoredAs(w, v) && !v.deleting
    ensures var (o, w') := AllocateStep(w, v);
            var k := v.ObjectKey();
            && Keyed(w') && w'.services == w.services
            && !NewIPFinalizer(w, w', k) && !LostServiceFinalizer(w, w', k) && !NewValid(w, w', k)
            && (forall k' :: k' in w'.virtualIPs <==> k' in w.virtualIPs)
            && (forall k' :: k' in w'.virtualIPs ==> w'.virtualIPs[k'].finalizers == w.virtualIPs[k'].finalizers)
  {
    var (r, w1) := Allocate(w, v.spec.segment, v.ObjectKey());
    AllocateOutcome(w, v.spec.segment, v.ObjectKey());
    if r.Err? {
      FinishEffect(w1, v.(status := v.status.(ip := "", keepalivedGroup := "", gsm := "")),
                   Some(Wrapped(AllocateContext, r.error)));
    } else {
      var a := r.value;
      FinishEffect(w1, v.(status := v.status.(ip := a.ip, keepalivedGroup := a.keepalivedGroup, gsm := a.gsm,
                                               message := CreatingIPMessage, state := StateCreatingIP)), None);
    }
  }

  lemma EnsureClaimEffect(cfg: Config, w: World, v: VirtualIPValue)
    requires StoredAs(w, v) && !v.deleting
    ensures var (o, w') := EnsureClaim(cfg, w, v);
            var k := v.ObjectKey();
            && Keyed(w')
            && (NewIPFinalizer(w, w', k) ==> ClaimHeld(w', v))
            && !LostServiceFinalizer(w, w', k)
            && (NewValid(w, w', k) ==> IPFinalizer in v.finalizers && ServiceFinalizer in v.finalizers)
            && (v.status.clone == Some(true) ==>
                  SameEntry(w.services, w'.services, Key(v.namespace, v.status.service)))
  {
    var claim := LabelledClaim(v.status.gsm, v.ObjectKey());
    var (o1, w1) := CreateOrUpdateClaimOf(w, v.status.ip, claim);
    CreateOrUpdateClaimEffect(w, v.status.ip, claim);
    assert StoredAs(w1, v);
    if o1.Fail? {
      FinishEffect(w1, v, Some(Wrapped(ClaimContext, o1.error)));
    } else if IPFinalizer !in v.finalizers {
      var v' := v.(finalizers := v.finalizers + {IPFinalizer});
      var (o2, w2) := UpdateVirtualIPOf(w1, v');
      UpdateVirtualIPEffect(w1, v');
      if o2.Fail? {
        FinishEffect(w2, v', Some(Wrapped(IPFinalizerContext, o2.error)));
      }
    } else {
      assert EnsureClaim(cfg, w, v) == Expose(cfg, w1, v);
      ExposeEffect(cfg, w1, v);
    }
  }

  // ---------------------------------------------------------------------
  // One reconcile
  // ---------------------------------------------------------------------

  /** Everything a reconcile of `k` may do to the VirtualIP of `k`: nothing
      when it cannot be read or is gone; no status write while it is being
      deleted; the IP finalizer only once its claim is held; the service
      finalizer dropped only during deletion after the IP finalizer; Valid
      only with both finalizers in place. */
  lemma ReconcileEffect(cfg: Config, w: World, k: Key)
    requires Keyed(w)
    ensures var (o, w') := Reconcile(cfg, w, k);
            && Keyed(w')
            && (GetVirtualIP in w.faults || k !in w.virtualIPs ==> w' == w)
            && (k in w.virtualIPs && w.virtualIPs[k].deleting ==> StatusesKept(w, w'))
            && (NewIPFinalizer(w, w', k) ==>
                  && k in w.virtualIPs && !w.virtualIPs[k].deleting && w.virtualIPs[k].status.ip != ""
                  && ClaimHeld(w', w.virtualIPs[k]))
            && (LostServiceFinalizer(w, w', k) ==>
                  k in w.virtualIPs && w.virtualIPs[k].deleting && IPFinalizer !in w.virtualIPs[k].finalizers)
            && (NewValid(w, w', k) ==>
                  && k in w.virtualIPs && !w.virtualIPs[k].deleting
                  && IPFinalizer in w.virtualIPs[k].finalizers && ServiceFinalizer in w.virtualIPs[k].finalizers)
  {
    if GetVirtualIP !in w.faults && k in w.virtualIPs {
      var v := w.virtualIPs[k];
      assert StoredAs(w, v);
      if v.deleting {
        if IPFinalizer in v.finalizers {
          ReleaseIPEffect(w, v);
        } else {
          ExposeEffect(cfg, w, v);
        }
      } else if v.status.ip == "" {
        AllocateStepEffect(w, v);
      } else {
        EnsureClaimEffect(cfg, w, v);
      }
    }
  }

  /** While a VirtualIP is being deleted, no reconcile writes any status. */
  lemma DeletingWritesNoStatus(cfg: Config, w: World, k: Key)
    requires Keyed(w) && k in w.virtualIPs && w.virtualIPs[k].deleting
    ensures StatusesKept(w, Reconcile(cfg, w, k).1)
  {
    ReconcileEffect(cfg, w, k);
  }

  /** A reconcile adds the IP finalizer only to a live VirtualIP with an
      address whose claim, labelled with its mapping and owner, then exists. */
  lemma IPFinalizerOnlyAfterClaim(cfg: Config, w: World, k: Key)
    requires Keyed(w)
    ensures var w' := Reconcile(cfg, w, k).1;
            NewIPFinalizer(w, w', k) ==>
              && k in w.virtualIPs && !w.virtualIPs[k].deleting && w.virtualIPs[k].status.ip != ""
              && ClaimHeld(w', w.virtualIPs[k])
  {
    ReconcileEffect(cfg, w, k);
  }

  /** A reconcile drops the service finalizer only from a VirtualIP being
      deleted whose IP finalizer is already gone. */
  lemma ServiceFinalizerOutlivesIPFinalizer(cfg: Config, w: World, k: Key)
    requires Keyed(w)
    ensures var w' := Reconcile(cfg, w, k).1;
            LostServiceFinalizer(w, w', k) ==>
              k in w.virtualIPs && w.virtualIPs[k].deleting && IPFinalizer !in w.virtualIPs[k].finalizers
  {
    ReconcileEffect(cfg, w, k);
  }

  /** A reconcile moves a VirtualIP to Valid only when it is live and holds
      both finalizers. */
  lemma ValidOnlyWithBothFinalizers(cfg: Config, w: World, k: Key)
    requires Keyed(w)
    ensures var w' := Reconcile(cfg, w, k).1;
            NewValid(w, w', k) ==>
              && k in w.virtualIPs && !w.virtualIPs[k].deleting
              && IPFinalizer in w.virtualIPs[k].finalizers && ServiceFinalizer in w.virtualIPs[k].finalizers
  {
    ReconcileEffect(cfg, w, k);
  }

  /** Deleting a VirtualIP that holds the IP finalizer releases the address
      first: the claim is deleted and the IP finalizer dropped, while the
      Services, every status and the service finalizer stay as they are.
      The reconcile succeeds even when a request fails. */
  lemma DeletionReleasesIPFirst(cfg: Config, w: World, k: Key)
    requires Keyed(w) && GetVirtualIP !in w.faults && k in w.virtualIPs
    requires w.virtualIPs[k].deleting && IPFinalizer in w.virtualIPs[k].finalizers
    ensures var v := w.virtualIPs[k];
            var (o, w') := Reconcile(cfg, w, k);
            && o == Pass && w'.services == w.services && StatusesKept(w, w')
            && !LostServiceFinalizer(w, w', k)
            && (DeleteClaim !in w.faults ==> w'.claims == w.claims - {v.status.ip})
            && (DeleteClaim !in w.faults && UpdateVirtualIP !in w.faults && k in w'.virtualIPs ==>
                  w'.virtualIPs[k].finalizers == v.finalizers - {IPFinalizer})
  {
    var v := w.virtualIPs[k];
    assert StoredAs(w, v);
    ReleaseIPEffect(w, v);
  }

  /** Once the IP finalizer is gone, deleting a VirtualIP that binds the
      Service itself unbinds that Service before the service finalizer is
      dropped. */
  lemma UnbindBeforeServiceFinalizer(cfg: Config, w: World, k: Key)
    requires Keyed(w) && k in w.virtualIPs && w.virtualIPs[k].status.clone == Some(false)
    ensures var v := w.virtualIPs[k];
            var svc := Key(v.namespace, v.status.service);
            var w' := Reconcile(cfg, w, k).1;
            LostServiceFinalizer(w, w', k) ==> svc in w'.services && Unbound(w'.services[svc])
  {
    var v := w.virtualIPs[k];
    ReconcileEffect(cfg, w, k);
    if GetVirtualIP !in w.faults && v.deleting && IPFinalizer !in v.finalizers {
      assert StoredAs(w, v);
      ExposeEffect(cfg, w, v);
    }
  }

  /** A VirtualIP that serves through a clone never changes the Service it
      names. */
  lemma CloneLeavesServiceAlone(cfg: Config, w: World, k: Key)
    requires Keyed(w) && k in w.virtualIPs && w.virtualIPs[k].status.clone == Some(true)
    ensures var v := w.virtualIPs[k];
            SameEntry(w.services, Reconcile(cfg, w, k).1.services, Key(v.namespace, v.status.service))
  {
    var v := w.virtualIPs[k];
    if GetVirtualIP !in w.faults {
      assert StoredAs(w, v);
      if v.deleting {
        if IPFinalizer in v.finalizers {
          ReleaseIPEffect(w, v);
        } else {
          ExposeEffect(cfg, w, v);
        }
      } else if v.status.ip == "" {
        AllocateStepEffect(w, v);
      } else {
        EnsureClaimEffect(cfg, w, v);
      }
    }
  }

  /** A live VirtualIP with no address gets one: on success its status
      records the address, group and mapping in state CreatingIP and the
      claim it was given is held; on failure the status records the error
      with the three fields cleared. The claims are those of the
      allocation, the Services are untouched. */
  lemma AllocationRecorded(cfg: Config, w: World, k: Key)
    requires Keyed(w) && GetVirtualIP !in w.faults && k in w.virtualIPs
    requires !w.virtualIPs[k].deleting && w.virtualIPs[k].status.ip == ""
    ensures var v := w.virtualIPs[k];
            var (r, w1) := Allocate(w, v.spec.segment, k);
            var (o, w') := Reconcile(cfg, w, k);
            && w'.claims == w1.claims && w'.services == w.services
            && (UpdateVirtualIPStatus !in w.faults ==>
                  && o == Pass && k in w'.virtualIPs
                  && w'.virtualIPs[k].finalizers == v.finalizers
                  && (r.Ok? ==>
                        && w'.virtualIPs[k].status ==
                             v.status.(ip := r.value.ip, keepalivedGroup := r.value.keepalivedGroup, gsm := r.value.gsm,
                                       message := CreatingIPMessage, state := StateCreatingIP)
                        && ClaimHeld(w', w'.virtualIPs[k]))
                  && (r.Err? ==>
                        w'.virtualIPs[k].status ==
                          v.status.(ip := "", keepalivedGroup := "", gsm := "",
                                    message := Text(Wrapped(AllocateContext, r.error)), state := StateError)))
  {
    var v := w.virtualIPs[k];
    assert v.ObjectKey() == k;
    var (r, w1) := Allocate(w, v.spec.segment, k);
    AllocateOutcome(w, v.spec.segment, k);
    assert Reconcile(cfg, w, k) == AllocateStep(w, v);
    if r.Err? {
      FinishEffect(w1, v.(status := v.status.(ip := "", keepalivedGroup := "", gsm := "")),
                   Some(Wrapped(AllocateContext, r.error)));
    } else {
      var a := r.value;
      FinishEffect(w1, v.(status := v.status.(ip := a.ip, keepalivedGroup := a.keepalivedGroup, gsm := a.gsm,
                                               message := CreatingIPMessage, state := StateCreatingIP)), None);
    }
  }

  // ---------------------------------------------------------------------
  // The settled state
  // ---------------------------------------------------------------------

  /** Service `s` carries address `ip` alone and the group annotation `binding`. */
  predicate Bound(s: ServiceValue, ip: string, binding: string)
  {
    s.externalIPs == [ip] && GroupAnnotation in s.annotations && s.annotations[GroupAnnotation] == binding
  }

  /** The Service a live VirtualIP binds: the named one, or its clone. */
  function BoundTarget(cfg: Config, w: World, v: VirtualIPValue): Result<ServiceValue>
    requires Key(v.namespace, v.status.service) in w.services && v.status.clone.Some?
  {
    var s := w.services[Key(v.namespace, v.status.service)];
    if v.status.clone.value then CloneOf(cfg, v, s) else Ok(s)
  }

  /** A live VirtualIP at the end of its allocation: the claim of its
      address is held, both finalizers are in place, the Service it binds
      carries its address and group, and its status says Valid. */
  predicate Settled(cfg: Config, w: World, k: Key)
  {
    && k in w.virtualIPs
    && var v := w.virtualIPs[k];
    && GetVirtualIP !in w.faults && GetClaim !in w.faults && GetService !in w.faults
    && UpdateVirtualIPStatus !in w.faults
    && !v.deleting && v.status.ip != "" && ClaimHeld(w, v)
    && IPFinalizer in v.finalizers && ServiceFinalizer in v.finalizers
    && v.status.service != "" && v.status.clone.Some?
    && Key(v.namespace, v.status.service) in w.services
    && BoundTarget(cfg, w, v).Ok?
    && ServiceKey(BoundTarget(cfg, w, v).value) in w.services
    && Bound(w.services[ServiceKey(BoundTarget(cfg, w, v).value)], v.status.ip,
             GroupBinding(cfg.groupNamespace, v.status.keepalivedGroup))
    && v.status.state == StateValid && v.status.message == ValidMessage
  }

  /** Reconciling a settled VirtualIP succeeds and changes nothing. */
  lemma SettledIsFixedPoint(cfg: Config, w: World, k: Key)
    requires Keyed(w) && Settled(cfg, w, k)
    ensures Reconcile(cfg, w, k) == (Pass, w)
  {
    var v := w.virtualIPs[k];
    assert v.ObjectKey() == k;
    var claim := LabelledClaim(v.status.gsm, k);
    assert CreateOrUpdateClaimOf(w, v.status.ip, claim) == (Pass, w);
    var s := w.services[Key(v.namespace, v.status.service)];
    var t := BoundTarget(cfg, w, v).value;
    var binding := GroupBinding(cfg.groupNamespace, v.status.keepalivedGroup);
    var stored := w.services[ServiceKey(t)];
    assert Patched(stored, v.status.ip, binding, false) == stored;
    assert CreateOrUpdateServiceOf(w, t, v.status.ip, binding, false) == (Pass, w);
    assert BindService(cfg, w, v, s, v.status.clone.value) == SettleServiceFinalizer(w, v);
    var valid := v.(status := v.status.(message := ValidMessage, state := StateValid));
    assert valid == v;
    assert w.virtualIPs[k := w.virtualIPs[k].(status := valid.status)] == w.virtualIPs;
    assert UpdateStatusOf(w, valid) == (Pass, w);
  }

  // ---------------------------------------------------------------------
  // The steps forward, when no request fails
  // ---------------------------------------------------------------------

  /** The finalizer update of a live VirtualIP, when it does not fail. */
  lemma FinalizersWritten(w: World, v: VirtualIPValue, f: set<string>)
    requires StoredAs(w, v) && !v.deleting && UpdateVirtualIP !in w.faults
    ensures UpdateVirtualIPOf(w, v.(finalizers := f)) ==
              (Pass, w.(virtualIPs := w.virtualIPs[v.ObjectKey() := v.(finalizers := f)]))
  {
  }

  /** The status write of a live VirtualIP, when it does not fail. */
  lemma StatusWritten(w: World, v: VirtualIPValue, st: VirtualIPStatus)
    requires StoredAs(w, v) && !v.deleting && UpdateVirtualIPStatus !in w.faults
    ensures Finish(w, v.(status := st), None) ==
              (Pass, w.(virtualIPs := w.virtualIPs[v.ObjectKey() := v.(status := st)]))
  {
  }

  /** A live VirtualIP with an address and no IP finalizer: its claim is
      created or relabelled with its mapping and owner, and then the IP
      finalizer is added, which ends the cycle. */
  lemma ClaimThenIPFinalizer(cfg: Config, w: World, k: Key)
    requires Keyed(w) && k in w.virtualIPs
    requires !w.virtualIPs[k].deleting && w.virtualIPs[k].status.ip != ""
    requires IPFinalizer !in w.virtualIPs[k].finalizers
    requires GetVirtualIP !in w.faults && GetClaim !in w.faults && CreateClaim !in w.faults
    requires UpdateClaim !in w.faults && UpdateVirtualIP !in w.faults
    ensures var v := w.virtualIPs[k];
            var (o, w') := Reconcile(cfg, w, k);
            && o == Pass
            && w'.claims == w.claims[v.status.ip := LabelledClaim(v.status.gsm, k)]
            && w'.services == w.services
            && w'.virtualIPs == w.virtualIPs[k := v.(finalizers := v.finalizers + {IPFinalizer})]
  {
    var v := w.virtualIPs[k];
    assert v.ObjectKey() == k;
    var claim := LabelledClaim(v.status.gsm, k);
    CreateOrUpdateClaimSucceeds(w, v.status.ip, claim);
    var w1 := w.(claims := w.claims[v.status.ip := claim]);
    FinalizersWritten(w1, v, v.finalizers + {IPFinalizer});
    assert Reconcile(cfg, w, k) == EnsureClaim(cfg, w, v);
  }

  /** A live VirtualIP whose claim is held by the IP finalizer and that has
      no Service recorded yet records the Service and clone flag of its spec
      and moves to Exposing. */
  lemma RecordsServiceToExpose(cfg: Config, w: World, k: Key)
    requires Keyed(w) && k in w.virtualIPs
    requires !w.virtualIPs[k].deleting && w.virtualIPs[k].status.ip != ""
    requires IPFinalizer in w.virtualIPs[k].finalizers && w.virtualIPs[k].status.service == ""
    requires GetVirtualIP !in w.faults && GetClaim !in w.faults && CreateClaim !in w.faults
    requires UpdateClaim !in w.faults && UpdateVirtualIPStatus !in w.faults
    ensures var v := w.virtualIPs[k];
            var (o, w') := Reconcile(cfg, w, k);
            && o == Pass
            && w'.claims == w.claims[v.status.ip := LabelledClaim(v.status.gsm, k)]
            && w'.services == w.services
            && w'.virtualIPs == w.virtualIPs[k := v.(status := v.status.(service := v.spec.service, clone := Some(v.spec.clone),
                                                                          message := ExposingMessage, state := StateExposing))]
  {
    var v := w.virtualIPs[k];
    assert v.ObjectKey() == k;
    var claim := LabelledClaim(v.status.gsm, k);
    CreateOrUpdateClaimSucceeds(w, v.status.ip, claim);
    var w1 := w.(claims := w.claims[v.status.ip := claim]);
    StatusWritten(w1, v, v.status.(service := v.spec.service, clone := Some(v.spec.clone),
                                   message := ExposingMessage, state := StateExposing));
    assert Reconcile(cfg, w, k) == EnsureClaim(cfg, w, v);
    assert EnsureClaim(cfg, w, v) == Expose(cfg, w1, v);
  }

  /** A live VirtualIP that binds its named Service itself: the Service is
      patched to carry the address alone and the group annotation, and then
      the service finalizer is added, which ends the cycle. */
  lemma BindsServiceThenHolds(cfg: Config, w: World, k: Key)
    requires Keyed(w) && k in w.virtualIPs
    requires var v := w.virtualIPs[k];
             && !v.deleting && v.status.ip != "" && IPFinalizer in v.finalizers && ServiceFinalizer !in v.finalizers
             && v.status.service != "" && v.status.clone == Some(false)
             && Key(v.namespace, v.status.service) in w.services
    requires GetVirtualIP !in w.faults && GetClaim !in w.faults && CreateClaim !in w.faults && UpdateClaim !in w.faults
    requires GetService !in w.faults && UpdateService !in w.faults && UpdateVirtualIP !in w.faults
    ensures var v := w.virtualIPs[k];
            var svc := Key(v.namespace, v.status.service);
            var binding := GroupBinding(cfg.groupNamespace, v.status.keepalivedGroup);
            var (o, w') := Reconcile(cfg, w, k);
            && o == Pass
            && w'.claims == w.claims[v.status.ip := LabelledClaim(v.status.gsm, k)]
            && w'.services == w.services[svc := Patched(w.services[svc], v.status.ip, binding, false)]
            && Bound(w'.services[svc], v.status.ip, binding)
            && w'.virtualIPs == w.virtualIPs[k := v.(finalizers := v.finalizers + {ServiceFinalizer})]
  {
    var v := w.virtualIPs[k];
    assert v.ObjectKey() == k;
    var svc := Key(v.namespace, v.status.service);
    var binding := GroupBinding(cfg.groupNamespace, v.status.keepalivedGroup);
    var claim := LabelledClaim(v.status.gsm, k);
    CreateOrUpdateClaimSucceeds(w, v.status.ip, claim);
    var w1 := w.(claims := w.claims[v.status.ip := claim]);
    var s := w.services[svc];
    assert ServiceKey(s) == svc;
    CreateOrUpdateServiceSucceeds(w1, s, v.status.ip, binding, false);
    var w2 := w1.(services := w.services[svc := Patched(s, v.status.ip, binding, false)]);
    FinalizersWritten(w2, v, v.finalizers + {ServiceFinalizer});
    assert Reconcile(cfg, w, k) == EnsureClaim(cfg, w, v);
    assert EnsureClaim(cfg, w, v) == Expose(cfg, w1, v);
    assert Expose(cfg, w1, v) == BindService(cfg, w1, v, s, false);
  }

  /** A live VirtualIP that serves through a clone: the clone, in the same
      namespace under the suffixed name, is patched to carry the address
      alone and the group annotation, and is owned by the VirtualIP alone
      when it is created; the named Service is left as it is; then the
      service finalizer is added. */
  lemma BindsCloneThenHolds(cfg: Config, w: World, k: Key)
    requires Keyed(w) && k in w.virtualIPs && cfg.schemeError.None?
    requires var v := w.virtualIPs[k];
             && !v.deleting && v.status.ip != "" && IPFinalizer in v.finalizers && ServiceFinalizer !in v.finalizers
             && v.status.service != "" && v.status.clone == Some(true)
             && Key(v.namespace, v.status.service) in w.services
    requires GetVirtualIP !in w.faults && GetClaim !in w.faults && CreateClaim !in w.faults && UpdateClaim !in w.faults
    requires GetService !in w.faults && CreateService !in w.faults && UpdateService !in w.faults
    requires UpdateVirtualIP !in w.faults
    ensures var v := w.virtualIPs[k];
            var svc := Key(v.namespace, v.status.service);
            var binding := GroupBinding(cfg.groupNamespace, v.status.keepalivedGroup);
            var c := CloneOf(cfg, v, w.services[svc]).value;
            var ck := Key(v.namespace, v.status.service + CloneSuffix);
            var (o, w') := Reconcile(cfg, w, k);
            && o == Pass
            && w'.claims == w.claims[v.status.ip := LabelledClaim(v.status.gsm, k)]
            && ck != svc && ck in w'.services && svc in w'.services && w'.services[svc] == w.services[svc]
            && w'.services == w.services[ck := Patched(if ck in w.services then w.services[ck] else c,
                                                       v.status.ip, binding, false)]
            && Bound(w'.services[ck], v.status.ip, binding)
            && (ck !in w.services ==> w'.services[ck].ownerRefs == [OwnerRef(OwnerKind, v.name, v.uid)])
            && w'.virtualIPs == w.virtualIPs[k := v.(finalizers := v.finalizers + {ServiceFinalizer})]
  {
    var v := w.virtualIPs[k];
    assert v.ObjectKey() == k;
    var svc := Key(v.namespace, v.status.service);
    var binding := GroupBinding(cfg.groupNamespace, v.status.keepalivedGroup);
    var claim := LabelledClaim(v.status.gsm, k);
    CreateOrUpdateClaimSucceeds(w, v.status.ip, claim);
    var w1 := w.(claims := w.claims[v.status.ip := claim]);
    var s := w.services[svc];
    assert ServiceKey(s) == svc;
    CloneFields(cfg, v, s);
    var c := CloneOf(cfg, v, s).value;
    var ck := ServiceKey(c);
    assert ck == Key(v.namespace, v.status.service + CloneSuffix);
    CreateOrUpdateServiceSucceeds(w1, c, v.status.ip, binding, false);
    var w2 := w1.(services := w.services[ck := Patched(if ck in w.services then w.services[ck] else c,
                                                       v.status.ip, binding, false)]);
    FinalizersWritten(w2, v, v.finalizers + {ServiceFinalizer});
    assert Reconcile(cfg, w, k) == EnsureClaim(cfg, w, v);
    assert EnsureClaim(cfg, w, v) == Expose(cfg, w1, v);
    assert Expose(cfg, w1, v) == BindService(cfg, w1, v, s, true);
  }

  /** A live VirtualIP that binds its named Service itself and already holds
      both finalizers: the Service is left bound and the status moves to
      Valid. */
  lemma ReachesValid(cfg: Config, w: World, k: Key)
    requires Keyed(w) && k in w.virtualIPs
    requires var v := w.virtualIPs[k];
             && !v.deleting && v.status.ip != "" && IPFinalizer in v.finalizers && ServiceFinalizer in v.finalizers
             && v.status.service != "" && v.status.clone == Some(false)
             && Key(v.namespace, v.status.service) in w.services
    requires GetVirtualIP !in w.faults && GetClaim !in w.faults && CreateClaim !in w.faults && UpdateClaim !in w.faults
    requires GetService !in w.faults && UpdateService !in w.faults && UpdateVirtualIPStatus !in w.faults
    ensures var v := w.virtualIPs[k];
            var svc := Key(v.namespace, v.status.service);
            var binding := GroupBinding(cfg.groupNamespace, v.status.keepalivedGroup);
            var (o, w') := Reconcile(cfg, w, k);
            && o == Pass
            && w'.claims == w.claims[v.status.ip := LabelledClaim(v.status.gsm, k)]
            && w'.services == w.services[svc := Patched(w.services[svc], v.status.ip, binding, false)]
            && Bound(w'.services[svc], v.status.ip, binding)
            && w'.virtualIPs == w.virtualIPs[k := v.(status := v.status.(message := ValidMessage, state := StateValid))]
  {
    var v := w.virtualIPs[k];
    assert v.ObjectKey() == k;
    var svc := Key(v.namespace, v.status.service);
    var binding := GroupBinding(cfg.groupNamespace, v.status.keepalivedGroup);
    var claim := LabelledClaim(v.status.gsm, k);
    CreateOrUpdateClaimSucceeds(w, v.status.ip, claim);
    var w1 := w.(claims := w.claims[v.status.ip := claim]);
    var s := w.services[svc];
    assert ServiceKey(s) == svc;
    CreateOrUpdateServiceSucceeds(w1, s, v.status.ip, binding, false);
    var w2 := w1.(services := w.services[svc := Patched(s, v.status.ip, binding, false)]);
    StatusWritten(w2, v, v.status.(message := ValidMessage, state := StateValid));
    assert Reconcile(cfg, w, k) == EnsureClaim(cfg, w, v);
    assert EnsureClaim(cfg, w, v) == Expose(cfg, w1, v);
    assert Expose(cfg, w1, v) == BindService(cfg, w1, v, s, false);
  }

  // ---------------------------------------------------------------------
  // Releasing a claim that is already gone
  // ---------------------------------------------------------------------

  /** As written, deleting a VirtualIP whose claim is already gone is stuck:
      the delete answers NotFound, the error leaves the cycle without a
      status write, and the reconcile changes nothing, every time. */
  lemma ReleaseAsWrittenStuck(w: World, v: VirtualIPValue)
    requires StoredAs(w, v) && v.deleting && IPFinalizer in v.finalizers
    requires DeleteClaim !in w.faults && v.status.ip !in w.claims
    ensures ReleaseIPAsWritten(w, v) == (Pass, w)
  {
  }

  /** The corrected release differs from the release as written only when
      the delete answers that the claim is already gone. */
  lemma ReleaseAgrees(w: World, v: VirtualIPValue)
    requires DeleteClaim in w.faults || v.status.ip in w.claims
    ensures ReleaseIP(w, v) == ReleaseIPAsWritten(w, v)
  {
  }

  /** Corrected, the same reconcile drops the IP finalizer. */
  lemma ReleaseGoneClaimProgresses(w: World, v: VirtualIPValue)
    requires StoredAs(w, v) && v.deleting && IPFinalizer in v.finalizers
    requires DeleteClaim !in w.faults && UpdateVirtualIP !in w.faults && v.status.ip !in w.claims
    ensures var (o, w') := ReleaseIP(w, v);
            && o == Pass && w'.claims == w.claims
            && (v.ObjectKey() in w'.virtualIPs ==> IPFinalizer !in w'.virtualIPs[v.ObjectKey()].finalizers)
            && w' != w
  {
    ReleaseIPEffect(w, v);
  }
}
