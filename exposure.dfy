/** Binding an address to a Service (`patchService`), turning a Service
    into a clone owned by the VirtualIP (`cloneService`), and writing the
    result back (`controllerutil.CreateOrUpdate` of the Service). */
module Exposure {
  import opened Api

  /** The keepalivedgroup annotation's value: "namespace/group". */
  function GroupBinding(groupNamespace: string, group: string): string
  {
    groupNamespace + "/" + group
  }

  /** The Service after `patchService`: binding sets the group annotation
      and makes `ip` the only external IP; unbinding removes the annotation
      and clears the external IPs. */
  function Patched(s: ServiceValue, ip: string, binding: string, remove: bool): ServiceValue
  {
    if remove then s.(annotations := s.annotations - {GroupAnnotation}, externalIPs := [])
    else s.(annotations := s.annotations[GroupAnnotation := binding], externalIPs := [ip])
  }

  /** Binding leaves the Service with exactly `ip` as external IP and the
      group annotation set to the binding; unbinding leaves it with no
      external IP and no group annotation. Every other annotation and every
      other field is kept. */
  lemma PatchedFields(s: ServiceValue, ip: string, binding: string, remove: bool)
    ensures var t := Patched(s, ip, binding, remove);
            && (!remove ==> t.externalIPs == [ip] && GroupAnnotation in t.annotations &&
                            t.annotations[GroupAnnotation] == binding)
            && (remove ==> t.externalIPs == [] && GroupAnnotation !in t.annotations)
            && (forall k :: k != GroupAnnotation ==>
                  (k in t.annotations <==> k in s.annotations) &&
                  (k in s.annotations ==> t.annotations[k] == s.annotations[k]))
            && t.(annotations := s.annotations, externalIPs := s.externalIPs) == s
  {
  }

  /** Patching twice in the same way is patching once. */
  lemma PatchedIdempotent(s: ServiceValue, ip: string, binding: string, remove: bool)
    ensures Patched(Patched(s, ip, binding, remove), ip, binding, remove) == Patched(s, ip, binding, remove)
  {
  }

  /** Unbinding undoes a binding: the Service keeps the annotations it had
      apart from the group annotation, and no external IP. */
  lemma UnbindAfterBind(s: ServiceValue, ip: string, binding: string, ip': string, binding': string)
    ensures Patched(Patched(s, ip, binding, false), ip', binding', true) == Patched(s, ip', binding', true)
  {
  }

  const SetOwnerContext: string := "received error while setting service's owner"

  /** What `cloneService` produces from Service `s` for VirtualIP `v`: the
      name gets the clone suffix, the cluster IP and resource version are
      cleared, and the owner references become one reference to `v`. The
      owner reference fails when the scheme does not know the VirtualIP
      kind. */
  function CloneOf(cfg: Config, v: VirtualIPValue, s: ServiceValue): Result<ServiceValue>
  {
    match cfg.schemeError
    case Some(t) => Err(Wrapped(SetOwnerContext, Failure(t)))
    case None =>
      Ok(s.(name := s.name + CloneSuffix, clusterIP := "", resourceVersion := "",
            ownerRefs := [OwnerRef(OwnerKind, v.name, v.uid)]))
  }

  /** The clone is another object in the same namespace, owned by the
      VirtualIP alone, with the Service's annotations and external IPs. */
  lemma CloneFields(cfg: Config, v: VirtualIPValue, s: ServiceValue)
    ensures CloneOf(cfg, v, s).Ok? <==> cfg.schemeError.None?
    ensures CloneOf(cfg, v, s).Ok? ==>
              var c := CloneOf(cfg, v, s).value;
              && c.name == s.name + "-keepalived-clone"
              && c.namespace == s.namespace
              && c.clusterIP == "" && c.resourceVersion == ""
              && c.ownerRefs == [OwnerRef("VirtualIP", v.name, v.uid)]
              && c.annotations == s.annotations && c.externalIPs == s.externalIPs
              && ServiceKey(c) != ServiceKey(s)
  {
    if cfg.schemeError.None? {
      var c := CloneOf(cfg, v, s).value;
      assert |c.name| == |s.name| + 17;
    }
  }

  /** `controllerutil.CreateOrUpdate` of a Service whose mutation is
      `patchService`: the stored Service of that key is patched and
      written back if the patch changed it; when there is none, the given
      Service is patched and created. */
  function CreateOrUpdateServiceOf(w: World, s: ServiceValue, ip: string, binding: string, remove: bool): (Outcome, World)
  {
    match GetServiceOf(w, ServiceKey(s))
    case Err(e) =>
      if e.NotFound? then CreateServiceOf(w, Patched(s, ip, binding, remove)) else (Fail(e), w)
    case Ok(stored) =>
      var p := Patched(stored, ip, binding, remove);
      if p == stored then (Pass, w) else UpdateServiceOf(w, p)
  }

  /** Writing back touches the Service of that one key, and leaves it
      patched; once it is patched, writing back again changes nothing. */
  lemma CreateOrUpdateServiceEffect(w: World, s: ServiceValue, ip: string, binding: string, remove: bool)
    requires Keyed(w)
    ensures Keyed(CreateOrUpdateServiceOf(w, s, ip, binding, remove).1)
    ensures var (o, w') := CreateOrUpdateServiceOf(w, s, ip, binding, remove);
            var k := ServiceKey(s);
            && w' == w.(services := w'.services)
            && (forall k' :: k' != k ==>
                  (k' in w'.services <==> k' in w.services) &&
                  (k' in w.services ==> w'.services[k'] == w.services[k']))
            && (o.Pass? ==> k in w'.services &&
                            w'.services[k] == Patched(if k in w.services then w.services[k] else s, ip, binding, remove))
            && (o.Fail? ==> w' == w)
  {
    var k := ServiceKey(s);
    if GetService !in w.faults && k in w.services {
      var stored := w.services[k];
      var p := Patched(stored, ip, binding, remove);
      assert ServiceKey(p) == k;
      if p != stored && UpdateService !in w.faults {
        assert CreateOrUpdateServiceOf(w, s, ip, binding, remove) == (Pass, w.(services := w.services[k := p]));
      }
    } else if GetService !in w.faults {
      var p := Patched(s, ip, binding, remove);
      assert ServiceKey(p) == k;
      if CreateService !in w.faults {
        assert CreateOrUpdateServiceOf(w, s, ip, binding, remove) == (Pass, w.(services := w.services[k := p]));
      }
    }
  }

  /** With none of its requests failing, writing back succeeds and leaves
      the Service of that key patched: the stored one, or else the given
      one, created. */
  lemma CreateOrUpdateServiceSucceeds(w: World, s: ServiceValue, ip: string, binding: string, remove: bool)
    requires Keyed(w) && GetService !in w.faults && UpdateService !in w.faults
    requires ServiceKey(s) !in w.services ==> CreateService !in w.faults
    ensures var k := ServiceKey(s);
            CreateOrUpdateServiceOf(w, s, ip, binding, remove) ==
              (Pass, w.(services := w.services[k := Patched(if k in w.services then w.services[k] else s, ip, binding, remove)]))
  {
    var k := ServiceKey(s);
    if k in w.services {
      var stored := w.services[k];
      assert ServiceKey(Patched(stored, ip, binding, remove)) == k;
      if Patched(stored, ip, binding, remove) == stored {
        assert w.services[k := stored] == w.services;
      }
    } else {
      assert ServiceKey(Patched(s, ip, binding, remove)) == k;
    }
  }

  /** Writing back a Service that is already patched is a no-op. */
  lemma CreateOrUpdateServiceSettled(w: World, s: ServiceValue, ip: string, binding: string, remove: bool)
    requires GetService !in w.faults
    requires ServiceKey(s) in w.services
    requires Patched(w.services[ServiceKey(s)], ip, binding, remove) == w.services[ServiceKey(s)]
    ensures CreateOrUpdateServiceOf(w, s, ip, binding, remove) == (Pass, w)
  {
  }
}
