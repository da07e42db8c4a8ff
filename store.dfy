/** The API server as an object the reconciler holds: its collections are
    fields that requests reassign, each request answering as the
    corresponding function of module Api says. */
module Store {
  import opened Api

  class Cluster {
    var virtualIPs: map<Key, VirtualIPValue>
    var claims: map<string, IPClaim>
    var services: map<Key, ServiceValue>
    var mappings: seq<Mapping>
    var faults: map<Op, string>

    function State(): World
      reads this
    {
      World(virtualIPs, claims, services, mappings, faults)
    }

    constructor (w: World)
      ensures State() == w
    {
      virtualIPs, claims, services, mappings, faults :=
        w.virtualIPs, w.claims, w.services, w.mappings, w.faults;
    }

    method Set(w: World)
      modifies this
      ensures State() == w
    {
      virtualIPs, claims, services, mappings, faults :=
        w.virtualIPs, w.claims, w.services, w.mappings, w.faults;
    }

    method GetVirtualIP(k: Key) returns (r: Result<VirtualIPValue>)
      ensures r == GetVirtualIPOf(State(), k)
    {
      r := GetVirtualIPOf(State(), k);
    }

    method UpdateVirtualIP(v: VirtualIPValue) returns (o: Outcome)
      modifies this
      ensures (o, State()) == UpdateVirtualIPOf(old(State()), v)
    {
      var (answer, w) := UpdateVirtualIPOf(State(), v);
      o := answer;
      Set(w);
    }

    method UpdateStatus(v: VirtualIPValue) returns (o: Outcome)
      modifies this
      ensures (o, State()) == UpdateStatusOf(old(State()), v)
    {
      var (answer, w) := UpdateStatusOf(State(), v);
      o := answer;
      Set(w);
    }

    /** The names of the IP objects labelled gsm=`gsm`, in some order. */
    method ListClaims(gsm: string) returns (r: Result<seq<string>>)
      ensures ListClaimsOf(State(), gsm).Err? ==> r == Err(ListClaimsOf(State(), gsm).error)
      ensures ListClaimsOf(State(), gsm).Ok? ==>
                r.Ok? && forall n :: n in r.value <==> n in ListClaimsOf(State(), gsm).value
    {
      var listed := ListClaimsOf(State(), gsm);
      if listed.Err? {
        return Err(listed.error);
      }
      var items: seq<string> := [];
      var rest := listed.value;
      while rest != {}
        invariant forall n :: n in items <==> n in listed.value && n !in rest
        invariant rest <= listed.value
        decreases rest
      {
        var n :| n in rest;
        items := items + [n];
        rest := rest - {n};
      }
      r := Ok(items);
    }

    method CreateClaim(name: string, c: IPClaim) returns (a: CreateAnswer)
      modifies this
      ensures (a, State()) == CreateClaimOf(old(State()), name, c)
    {
      var (answer, w) := CreateClaimOf(State(), name, c);
      a := answer;
      Set(w);
    }

    method GetClaim(name: string) returns (r: Result<IPClaim>)
      ensures r == GetClaimOf(State(), name)
    {
      r := GetClaimOf(State(), name);
    }

    method UpdateClaim(name: string, c: IPClaim) returns (o: Outcome)
      modifies this
      ensures (o, State()) == UpdateClaimOf(old(State()), name, c)
    {
      var (answer, w) := UpdateClaimOf(State(), name, c);
      o := answer;
      Set(w);
    }

    method DeleteClaim(name: string) returns (o: Outcome)
      modifies this
      ensures (o, State()) == DeleteClaimOf(old(State()), name)
    {
      var (answer, w) := DeleteClaimOf(State(), name);
      o := answer;
      Set(w);
    }

    method ListMappings() returns (r: Result<seq<Mapping>>)
      ensures r == ListMappingsOf(State())
    {
      r := ListMappingsOf(State());
    }

    method GetService(k: Key) returns (r: Result<ServiceValue>)
      ensures r == GetServiceOf(State(), k)
    {
      r := GetServiceOf(State(), k);
    }

    method CreateService(s: ServiceValue) returns (o: Outcome)
      modifies this
      ensures (o, State()) == CreateServiceOf(old(State()), s)
    {
      var (answer, w) := CreateServiceOf(State(), s);
      o := answer;
      Set(w);
    }

    method UpdateService(s: ServiceValue) returns (o: Outcome)
      modifies this
      ensures (o, State()) == UpdateServiceOf(old(State()), s)
    {
      var (answer, w) := UpdateServiceOf(State(), s);
      o := answer;
      Set(w);
    }
  }
}
