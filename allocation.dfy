/** Choosing the GroupSegmentMapping an address comes from
    (`getGSMBySegment`, `allocateIP`). */
module Allocation {
  import opened IPv4
  import opened Api
  import opened Pool

  /** What an allocation records in the VirtualIP's status. */
  datatype Allocated = Allocated(ip: string, keepalivedGroup: string, gsm: string)

  const NoMappingForSegment: Error := Failure("GroupSegmentMapping not found for the requested segment")
  const NothingAllocated: Error := Failure("no IP could be allocated")
  const ListMappingsContext: string := "failed to list GroupSegmentMappings"

  /** The index of the first mapping whose segment text is `segment`, or the
      number of mappings when none is. */
  function FirstWithSegment(ms: seq<Mapping>, segment: string): (i: nat)
    ensures i <= |ms|
    ensures forall j :: 0 <= j < i ==> ms[j].segment != segment
    ensures i < |ms| ==> ms[i].segment == segment
  {
    if ms == [] then 0
    else if ms[0].segment == segment then 0
    else 1 + FirstWithSegment(ms[1..], segment)
  }

  /** What `getGSMBySegment` answers: the first listed mapping whose
      segment text is exactly `segment`. */
  function MappingBySegment(w: World, segment: string): Result<Mapping>
  {
    match ListMappingsOf(w)
    case Err(e) => Err(e)
    case Ok(ms) =>
      var i := FirstWithSegment(ms, segment);
      if i == |ms| then Err(NoMappingForSegment) else Ok(ms[i])
  }

  /** `getGSMBySegment` finds a mapping exactly when one is listed with that
      segment text, and then the first such one. */
  lemma MappingBySegmentFirst(w: World, segment: string)
    requires ListMappings !in w.faults
    ensures MappingBySegment(w, segment).Ok? <==>
            exists i :: 0 <= i < |w.mappings| && w.mappings[i].segment == segment
    ensures MappingBySegment(w, segment).Err? ==> MappingBySegment(w, segment).error == NoMappingForSegment
    ensures MappingBySegment(w, segment).Ok? ==>
              exists i :: 0 <= i < |w.mappings| && w.mappings[i] == MappingBySegment(w, segment).value &&
                          w.mappings[i].segment == segment &&
                          forall j :: 0 <= j < i ==> w.mappings[j].segment != segment
  {
    var i := FirstWithSegment(w.mappings, segment);
    if i < |w.mappings| {
      assert w.mappings[i] == MappingBySegment(w, segment).value;
    }
  }

  /** The walk of `allocateIP` over every mapping, in list order, as the
      source has it: it stops at the first reservation that fails, whatever
      the reason. */
  function AllocateAnyAsWritten(w: World, ms: seq<Mapping>, owner: Key): (Result<Allocated>, World)
    decreases |ms|
  {
    if ms == [] then (Err(NothingAllocated), w)
    else
      var (r, w') := Reserve(w, ms[0], owner);
      match r
      case Err(e) => (Err(e), w')
      case Ok(ip) =>
        if ip != "" then (Ok(Allocated(ip, ms[0].keepalivedGroup, ms[0].name)), w')
        else AllocateAnyAsWritten(w', ms[1..], owner)
  }

  /** As written, the walk never gets past a mapping whose reservation
      fails: exhaustion of the first mapping ends the allocation, and an
      empty list gives "no IP could be allocated". */
  lemma AsWrittenStopsAtFirstMapping(w: World, ms: seq<Mapping>, owner: Key)
    ensures ms == [] ==> AllocateAnyAsWritten(w, ms, owner) == (Err(NothingAllocated), w)
    ensures ms != [] ==>
              var (r, w') := Reserve(w, ms[0], owner);
              AllocateAnyAsWritten(w, ms, owner) ==
                if r.Err? then (Err(r.error), w')
                else (Ok(Allocated(r.value, ms[0].keepalivedGroup, ms[0].name)), w')
  {
    if ms != [] {
      var (r, w') := Reserve(w, ms[0], owner);
      ReserveEffect(w, ms[0], owner);
      assert r.Ok? ==> r.value != "";
      if r.Ok? {
        assert AllocateAnyAsWritten(w, ms, owner) == (Ok(Allocated(r.value, ms[0].keepalivedGroup, ms[0].name)), w');
      }
    }
  }

  /** The walk over every mapping, corrected: a mapping whose pool is
      exhausted is passed over for the next one, and "no IP could be
      allocated" is reported once every mapping has been passed over. */
  function AllocateAny(w: World, ms: seq<Mapping>, owner: Key): (Result<Allocated>, World)
    decreases |ms|
  {
    if ms == [] then (Err(NothingAllocated), w)
    else
      var (r, w') := Reserve(w, ms[0], owner);
      match r
      case Err(e) =>
        if e == NoAvailableIPs then AllocateAny(w', ms[1..], owner) else (Err(e), w')
      case Ok(ip) =>
        if ip != "" then (Ok(Allocated(ip, ms[0].keepalivedGroup, ms[0].name)), w')
        else AllocateAny(w', ms[1..], owner)
  }

  /** The corrected walk reports "no IP could be allocated", changing
      nothing, when every mapping is exhausted. */
  lemma {:induction false} AllocateAnyAllExhausted(w: World, ms: seq<Mapping>, owner: Key)
    requires forall i :: 0 <= i < |ms| ==> Reserve(w, ms[i], owner).0 == Err(NoAvailableIPs)
    ensures AllocateAny(w, ms, owner) == (Err(NothingAllocated), w)
    decreases |ms|
  {
    if ms != [] {
      ReserveEffect(w, ms[0], owner);
      assert Reserve(w, ms[0], owner).0 == Err(NoAvailableIPs);
      var rest := ms[1..];
      assert AllocateAny(w, ms, owner) == AllocateAny(w, rest, owner);
      forall i | 0 <= i < |rest|
        ensures Reserve(w, rest[i], owner).0 == Err(NoAvailableIPs)
      {
        assert rest[i] == ms[i + 1];
      }
      AllocateAnyAllExhausted(w, rest, owner);
    }
  }

  /** The corrected walk allocates from the first mapping whose reservation
      does not report exhaustion: it passes over exhausted mappings without
      changing anything and records that mapping's group and name. */
  lemma {:induction false} AllocateAnyFirstUsable(w: World, ms: seq<Mapping>, owner: Key)
    ensures var (r, w') := AllocateAny(w, ms, owner);
            r.Ok? ==> exists i :: 0 <= i < |ms| && Reserve(w, ms[i], owner) == (Ok(r.value.ip), w') &&
                                  r.value.keepalivedGroup == ms[i].keepalivedGroup &&
                                  r.value.gsm == ms[i].name &&
                                  forall j :: 0 <= j < i ==> Reserve(w, ms[j], owner).0 == Err(NoAvailableIPs)
    decreases |ms|
  {
    if ms != [] {
      var (r0, w0) := Reserve(w, ms[0], owner);
      ReserveEffect(w, ms[0], owner);
      var (r, w') := AllocateAny(w, ms, owner);
      if r0 == Err(NoAvailableIPs) {
        var rest := ms[1..];
        assert (r, w') == AllocateAny(w, rest, owner);
        AllocateAnyFirstUsable(w, rest, owner);
        if r.Ok? {
          var i :| 0 <= i < |rest| && Reserve(w, rest[i], owner) == (Ok(r.value.ip), w') &&
                   r.value.keepalivedGroup == rest[i].keepalivedGroup &&
                   r.value.gsm == rest[i].name &&
                   forall j :: 0 <= j < i ==> Reserve(w, rest[j], owner).0 == Err(NoAvailableIPs);
          assert ms[i + 1] == rest[i];
          forall j | 0 <= j < i + 1
            ensures Reserve(w, ms[j], owner).0 == Err(NoAvailableIPs)
          {
            if j > 0 {
              assert ms[j] == rest[j - 1];
            }
          }
        }
      } else if r0.Ok? {
        assert (r, w') == (Ok(Allocated(r0.value, ms[0].keepalivedGroup, ms[0].name)), w0);
      }
    }
  }

  /** The corrected walk passes over an exhausted first mapping without
      changing anything. */
  lemma AllocateAnySkip(w: World, ms: seq<Mapping>, owner: Key)
    requires ms != [] && Reserve(w, ms[0], owner).0 == Err(NoAvailableIPs)
    ensures AllocateAny(w, ms, owner) == AllocateAny(w, ms[1..], owner)
  {
    ReserveEffect(w, ms[0], owner);
  }

  /** The converse: when every mapping before `i` is exhausted and mapping
      `i` is not, the corrected walk answers what the reservation from
      mapping `i` answers, recording that mapping's group and name on
      success and passing its error on otherwise. */
  lemma {:induction false} AllocateAnyFromFirstUsable(w: World, ms: seq<Mapping>, owner: Key, i: nat)
    requires i < |ms|
    requires forall j :: 0 <= j < i ==> Reserve(w, ms[j], owner).0 == Err(NoAvailableIPs)
    requires Reserve(w, ms[i], owner).0 != Err(NoAvailableIPs)
    ensures var (r, w') := Reserve(w, ms[i], owner);
            AllocateAny(w, ms, owner) ==
              if r.Err? then (Err(r.error), w')
              else (Ok(Allocated(r.value, ms[i].keepalivedGroup, ms[i].name)), w')
    decreases i
  {
    if i == 0 {
      ReserveEffect(w, ms[0], owner);
    } else {
      AllocateAnySkip(w, ms, owner);
      var rest := ms[1..];
      assert rest[i - 1] == ms[i];
      forall j | 0 <= j < i - 1
        ensures Reserve(w, rest[j], owner).0 == Err(NoAvailableIPs)
      {
        assert rest[j] == ms[j + 1];
      }
      AllocateAnyFromFirstUsable(w, rest, owner, i - 1);
    }
  }

  /** Where they differ, the corrected walk goes on past an exhausted
      mapping; on every other input it agrees with the walk as written. */
  lemma AllocateAnyAgrees(w: World, ms: seq<Mapping>, owner: Key)
    requires ms != [] ==> Reserve(w, ms[0], owner).0 != Err(NoAvailableIPs)
    ensures AllocateAny(w, ms, owner) == AllocateAnyAsWritten(w, ms, owner)
  {
    if ms != [] {
      ReserveEffect(w, ms[0], owner);
    }
  }

  /** What `allocateIP` does: with a segment, reserve from the mapping of
      that segment; without one, walk every mapping (the corrected walk). */
  function Allocate(w: World, segment: string, owner: Key): (Result<Allocated>, World)
  {
    if segment != "" then
      match MappingBySegment(w, segment)
      case Err(e) => (Err(e), w)
      case Ok(m) =>
        var (r, w') := Reserve(w, m, owner);
        match r
        case Err(e) => (Err(e), w')
        case Ok(ip) => (Ok(Allocated(ip, m.keepalivedGroup, m.name)), w')
    else
      match ListMappingsOf(w)
      case Err(e) => (Err(Wrapped(ListMappingsContext, e)), w)
      case Ok(ms) => AllocateAny(w, ms, owner)
  }

  /** With a segment, the allocation uses the first mapping of that segment
      and records its group and name; it fails, changing nothing, when no
      mapping has that segment. */
  lemma AllocatePinned(w: World, segment: string, owner: Key)
    requires segment != "" && ListMappings !in w.faults
    ensures (forall i :: 0 <= i < |w.mappings| ==> w.mappings[i].segment != segment) ==>
              Allocate(w, segment, owner) == (Err(NoMappingForSegment), w)
    ensures Allocate(w, segment, owner).0.Ok? ==>
              var i := FirstWithSegment(w.mappings, segment);
              var m := w.mappings[i];
              && i < |w.mappings|
              && Reserve(w, m, owner) == (Ok(Allocate(w, segment, owner).0.value.ip), Allocate(w, segment, owner).1)
              && Allocate(w, segment, owner).0.value.keepalivedGroup == m.keepalivedGroup
              && Allocate(w, segment, owner).0.value.gsm == m.name
  {
    var i := FirstWithSegment(w.mappings, segment);
    if i < |w.mappings| {
      ReserveEffect(w, w.mappings[i], owner);
    }
  }

  /** An allocation changes nothing but the claims, and a successful one
      adds a claim for a non-empty address that nobody held, labelled with
      the mapping it records. */
  lemma AllocateOutcome(w: World, segment: string, owner: Key)
    ensures var (r, w') := Allocate(w, segment, owner);
            && w' == w.(claims := w'.claims)
            && (r.Ok? ==>
                  && r.value.ip != "" && r.value.ip !in w.claims
                  && w'.claims == w.claims[r.value.ip := LabelledClaim(r.value.gsm, owner)])
  {
    if segment != "" {
      if MappingBySegment(w, segment).Ok? {
        var m := MappingBySegment(w, segment).value;
        var (r0, w0) := Reserve(w, m, owner);
        ReserveEffect(w, m, owner);
        if r0.Ok? {
          assert Allocate(w, segment, owner) == (Ok(Allocated(r0.value, m.keepalivedGroup, m.name)), w0);
        } else {
          assert Allocate(w, segment, owner) == (Err(r0.error), w0);
        }
      }
    } else if ListMappings !in w.faults {
      assert Allocate(w, segment, owner) == AllocateAny(w, w.mappings, owner);
      AllocateAnyOutcome(w, w.mappings, owner);
    }
  }

  lemma {:induction false} AllocateAnyOutcome(w: World, ms: seq<Mapping>, owner: Key)
    ensures var (r, w') := AllocateAny(w, ms, owner);
            && w' == w.(claims := w'.claims)
            && (r.Ok? ==>
                  && r.value.ip != "" && r.value.ip !in w.claims
                  && w'.claims == w.claims[r.value.ip := LabelledClaim(r.value.gsm, owner)])
    decreases |ms|
  {
    if ms != [] {
      var (r0, w0) := Reserve(w, ms[0], owner);
      ReserveEffect(w, ms[0], owner);
      if r0 == Err(NoAvailableIPs) {
        assert AllocateAny(w, ms, owner) == AllocateAny(w0, ms[1..], owner);
        AllocateAnyOutcome(w0, ms[1..], owner);
      } else if r0.Ok? {
        assert AllocateAny(w, ms, owner) == (Ok(Allocated(r0.value, ms[0].keepalivedGroup, ms[0].name)), w0);
      } else {
        assert AllocateAny(w, ms, owner) == (Err(r0.error), w0);
      }
    }
  }

  lemma ExampleTexts()
    ensures Format([10, 0, 0, 0]) == "10.0.0.0"
    ensures Format([10, 0, 0, 1]) == "10.0.0.1"
  {
    assert Decimal(10) == "10";
    assert Decimal(0) == "0";
    assert Decimal(1) == "1";
    assert Dotted([0]) == "0";
    assert Dotted([1]) == "1";
    assert [10, 0, 0, 0][1..] == [0, 0, 0];
    assert [0, 0, 0][1..] == [0, 0];
    assert [0, 0][1..] == [0];
    assert [10, 0, 0, 1][1..] == [0, 0, 1];
    assert [0, 0, 1][1..] == [0, 1];
    assert [0, 1][1..] == [1];
  }

  const ExampleA: Mapping := Mapping("a", "10.0.0.0/32", V4([10, 0, 0, 0], 32), ["10.0.0.0"], "group-a")
  const ExampleB: Mapping := Mapping("b", "10.0.0.1/32", V4([10, 0, 0, 1], 32), [], "group-b")
  const ExampleWorld: World := World(map[], map[], map[], [ExampleA, ExampleB], map[])
  const ExampleOwner: Key := Key("default", "vip")

  /** Mapping "a" has its only address excluded. */
  lemma ExampleExhausted()
    ensures Reserve(ExampleWorld, ExampleA, ExampleOwner) == (Err(NoAvailableIPs), ExampleWorld)
  {
    ExampleTexts();
    var excludedA := Excluded(ClaimedIn(ExampleWorld.claims, "a"), ExampleA);
    assert "10.0.0.0" in excludedA;
    SingleAddressSegment([10, 0, 0, 0], excludedA);
    assert AvailableIPs(ExampleWorld, ExampleA) == Ok([]);
  }

  /** Mapping "b" has one free address, which the reservation claims. */
  lemma ExampleFree()
    ensures Reserve(ExampleWorld, ExampleB, ExampleOwner) ==
            (Ok("10.0.0.1"), ExampleWorld.(claims := map["10.0.0.1" := LabelledClaim("b", ExampleOwner)]))
  {
    var w := ExampleWorld;
    ExampleTexts();
    var excludedB := Excluded(ClaimedIn(w.claims, "b"), ExampleB);
    assert excludedB == {};
    SingleAddressSegment([10, 0, 0, 1], excludedB);
    assert AvailableIPs(w, ExampleB) == Ok(["10.0.0.1"]);
    var claim := LabelledClaim("b", ExampleOwner);
    assert CreateClaimOf(w, "10.0.0.1", claim) == (Created, w.(claims := map["10.0.0.1" := claim]));
  }

  /** Finding: mapping "a" (10.0.0.0/32) has its only address excluded and
      mapping "b" (10.0.0.1/32) has one free address. As written, the walk
      over every mapping gives up with "there are no available IPs"; the
      corrected walk allocates 10.0.0.1 from "b". */
  lemma ExhaustedFirstMappingAborts()
    ensures AllocateAnyAsWritten(ExampleWorld, [ExampleA, ExampleB], ExampleOwner).0 == Err(NoAvailableIPs)
    ensures AllocateAny(ExampleWorld, [ExampleA, ExampleB], ExampleOwner).0 ==
            Ok(Allocated("10.0.0.1", "group-b", "b"))
  {
    ExampleExhausted();
    ExampleFree();
    assert [ExampleA, ExampleB][1..] == [ExampleB];
  }
}
