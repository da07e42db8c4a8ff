/** The addresses a GroupSegmentMapping still offers (`getAvailableIPs`),
    the IP object that claims one of them (`labelIP`), and the scan that
    claims the first free one (`reserveIP`). */
module Pool {
  import opened IPv4
  import opened Api

  /** The texts a scan of mapping `m` does not offer: the names of the IP
      objects labelled with the mapping, and the mapping's excluded IPs. */
  function Excluded(claimed: set<string>, m: Mapping): set<string>
  {
    claimed + (set x | x in m.excludedIPs)
  }

  /** What `getAvailableIPs` answers for mapping `m`. The claims are listed
      before the segment is parsed. An IPv6 segment offers nothing: its
      masked address has no 4-byte form, which no network contains. */
  function AvailableIPs(w: World, m: Mapping): Result<seq<string>>
  {
    match ListClaimsOf(w, m.name)
    case Err(e) => Err(e)
    case Ok(claimed) =>
      match m.cidr
      case Invalid => Err(InvalidCidr(m.segment))
      case V6 => Ok([])
      case V4(base, p) => Ok(SegmentCandidates(base, p, Excluded(claimed, m)))
  }

  /** The errors of `getAvailableIPs`: a failed listing, then a malformed
      segment. */
  lemma AvailableIPsErrors(w: World, m: Mapping)
    ensures AvailableIPs(w, m).Err? <==> ListClaims in w.faults || m.cidr.Invalid?
    ensures ListClaims in w.faults ==> AvailableIPs(w, m) == Err(Backend(w.faults[ListClaims]))
    ensures ListClaims !in w.faults && m.cidr.Invalid? ==>
              AvailableIPs(w, m) == Err(InvalidCidr(m.segment))
    ensures ListClaims !in w.faults && m.cidr.V6? ==> AvailableIPs(w, m) == Ok([])
  {
  }

  /** For an IPv4 segment, `getAvailableIPs` offers exactly the addresses of
      the segment that are neither claimed under the mapping nor excluded,
      as the texts of an ascending sequence of addresses, each once. The
      network address and the last address are offered unless claimed or
      excluded. */
  lemma AvailableIPsExact(w: World, m: Mapping, base: Addr, p: PrefixLen)
    requires ListClaims !in w.faults && m.cidr == V4(base, p)
    ensures AvailableIPs(w, m).Ok?
    ensures var ips := AvailableIPs(w, m).value;
            var claimed := ClaimedIn(w.claims, m.name);
            && (forall a: Addr :: Format(a) in ips <==>
                  InSubnet(base, p, a) && Format(a) !in claimed && Format(a) !in m.excludedIPs)
            && ips == Formats(SegmentAddrs(base, p, Excluded(claimed, m)))
            && Ascending(SegmentAddrs(base, p, Excluded(claimed, m)))
            && (forall i, j :: 0 <= i < j < |ips| ==> ips[i] != ips[j])
            && (var first := Format(NetworkAddr(base, p));
                first !in claimed && first !in m.excludedIPs ==> first in ips)
            && (var last := Format(LastAddr(base, p));
                last !in claimed && last !in m.excludedIPs ==> last in ips)
  {
    var excluded := Excluded(ClaimedIn(w.claims, m.name), m);
    SegmentCandidatesExact(base, p, excluded);
  }

  /** No offered text is claimed or excluded. */
  lemma CandidatesAvoidExcluded(base: Addr, p: PrefixLen, excluded: set<string>)
    ensures forall t :: t in SegmentCandidates(base, p, excluded) ==> t !in excluded
  {
    KeptTextsAvoid(SegmentWalk(base, p), excluded);
  }

  /** Every offered text is the text of an address, so none is empty. */
  lemma OfferedNonEmpty(w: World, m: Mapping)
    ensures AvailableIPs(w, m).Ok? ==> forall t :: t in AvailableIPs(w, m).value ==> t != ""
  {
    if AvailableIPs(w, m).Ok? && m.cidr.V4? {
      var addrs := SegmentAddrs(m.cidr.base, m.cidr.prefixLen, Excluded(ClaimedIn(w.claims, m.name), m));
      FormatsNonEmpty(addrs);
    }
  }

  // ---------------------------------------------------------------------
  // Claiming an address
  // ---------------------------------------------------------------------

  /** The IP object `labelIP` fills in: labelled with the mapping's name and
      annotated with the owning VirtualIP's "namespace/name". */
  function LabelledClaim(gsm: string, owner: Key): IPClaim
  {
    IPClaim(map[GsmLabel := gsm], map[OwnerAnnotation := KeyText(owner)])
  }

  /** A claim labelled by `labelIP` is one the next listing of its mapping
      returns, and its owner annotation names the VirtualIP. */
  lemma LabelledClaimListed(claims: map<string, IPClaim>, ip: string, gsm: string, owner: Key)
    ensures ip in ClaimedIn(claims[ip := LabelledClaim(gsm, owner)], gsm)
    ensures LabelledClaim(gsm, owner).labels.Keys == {GsmLabel}
    ensures LabelledClaim(gsm, owner).annotations[OwnerAnnotation] == KeyText(owner)
  {
  }

  const AllocatingContext: string := "an error occurred while allocating IP"

  /** The index of the first candidate no IP object is named after, or the
      number of candidates when every one is taken. */
  function FirstFree(candidates: seq<string>, claims: map<string, IPClaim>): (i: nat)
    ensures i <= |candidates|
    ensures forall j :: 0 <= j < i ==> candidates[j] in claims
    ensures i < |candidates| ==> candidates[i] !in claims
  {
    if candidates == [] then 0
    else if candidates[0] !in claims then 0
    else 1 + FirstFree(candidates[1..], claims)
  }

  /** The scan of `reserveIP`: create-if-absent of an IP object named after
      each candidate in turn, skipping the ones that already exist. */
  function ReserveFrom(w: World, candidates: seq<string>, c: IPClaim): (Result<string>, World)
    decreases |candidates|
  {
    if candidates == [] then (Err(NoAvailableIPs), w)
    else
      var (answer, w') := CreateClaimOf(w, candidates[0], c);
      match answer
      case Created => (Ok(candidates[0]), w')
      case Exists => ReserveFrom(w, candidates[1..], c)
      case CreateFailed(e) => (Err(Wrapped(AllocatingContext, e)), w)
  }

  /** The scan claims the first free candidate: it fails with "there are no
      available IPs", changing nothing, when every candidate is taken; it
      aborts at the first free candidate when creating fails there; and
      otherwise the claims gain exactly that candidate. */
  lemma {:induction false} ReserveFromFirstFree(w: World, candidates: seq<string>, c: IPClaim)
    ensures var i := FirstFree(candidates, w.claims);
            ReserveFrom(w, candidates, c) ==
              if i == |candidates| then (Err(NoAvailableIPs), w)
              else if CreateClaim in w.faults
              then (Err(Wrapped(AllocatingContext, Backend(w.faults[CreateClaim]))), w)
              else (Ok(candidates[i]), w.(claims := w.claims[candidates[i] := c]))
    decreases |candidates|
  {
    if candidates != [] && candidates[0] in w.claims {
      ReserveFromFirstFree(w, candidates[1..], c);
    }
  }

  /** What `reserveIP` does for a VirtualIP with key `owner`: scan the
      mapping's available IPs. */
  function Reserve(w: World, m: Mapping, owner: Key): (Result<string>, World)
  {
    match AvailableIPs(w, m)
    case Err(e) => (Err(e), w)
    case Ok(candidates) => ReserveFrom(w, candidates, LabelledClaim(m.name, owner))
  }

  /** A reservation that succeeds returns an address of the mapping's
      segment that nobody had claimed and adds exactly the IP object for
      it; one that fails changes nothing. */
  lemma ReserveOutcome(w: World, m: Mapping, owner: Key)
    ensures var (r, w') := Reserve(w, m, owner);
            && (r.Err? ==> w' == w)
            && (r.Ok? ==>
                  && AvailableIPs(w, m).Ok? && r.value in AvailableIPs(w, m).value
                  && r.value !in w.claims && r.value != ""
                  && w' == w.(claims := w.claims[r.value := LabelledClaim(m.name, owner)]))
  {
    if AvailableIPs(w, m).Ok? {
      ReserveFromFirstFree(w, AvailableIPs(w, m).value, LabelledClaim(m.name, owner));
      OfferedNonEmpty(w, m);
    }
  }

  /** The part of ReserveOutcome that concerns the store alone. */
  lemma ReserveEffect(w: World, m: Mapping, owner: Key)
    ensures var (r, w') := Reserve(w, m, owner);
            && (r.Err? ==> w' == w)
            && (r.Ok? ==>
                  && r.value !in w.claims && r.value != ""
                  && w' == w.(claims := w.claims[r.value := LabelledClaim(m.name, owner)]))
  {
    ReserveOutcome(w, m, owner);
  }

  /** When every candidate already exists as an IP object, the reservation
      reports "there are no available IPs" and changes nothing. */
  lemma ReserveExhausted(w: World, m: Mapping, owner: Key)
    requires AvailableIPs(w, m).Ok?
    requires forall ip :: ip in AvailableIPs(w, m).value ==> ip in w.claims
    ensures Reserve(w, m, owner) == (Err(NoAvailableIPs), w)
  {
    ReserveFromFirstFree(w, AvailableIPs(w, m).value, LabelledClaim(m.name, owner));
  }

  /** An address once reserved is no longer offered by its mapping. */
  lemma ReservedNotOffered(w: World, m: Mapping, owner: Key)
    requires Reserve(w, m, owner).0.Ok?
    ensures var (r, w') := Reserve(w, m, owner);
            AvailableIPs(w', m).Ok? ==> r.value !in AvailableIPs(w', m).value
  {
    ReserveOutcome(w, m, owner);
    var (r, w') := Reserve(w, m, owner);
    LabelledClaimListed(w.claims, r.value, m.name, owner);
    if AvailableIPs(w', m).Ok? && m.cidr.V4? {
      var claimed := ClaimedIn(w'.claims, m.name);
      CandidatesAvoidExcluded(m.cidr.base, m.cidr.prefixLen, Excluded(claimed, m));
    }
  }

  /** Two reservations in sequence, from any mappings and for any
      VirtualIPs, never hand out the same address. */
  lemma ReservationsExclusive(w: World, m1: Mapping, o1: Key, m2: Mapping, o2: Key)
    requires Reserve(w, m1, o1).0.Ok?
    requires Reserve(Reserve(w, m1, o1).1, m2, o2).0.Ok?
    ensures Reserve(w, m1, o1).0.value != Reserve(Reserve(w, m1, o1).1, m2, o2).0.value
  {
    ReserveOutcome(w, m1, o1);
    ReserveOutcome(Reserve(w, m1, o1).1, m2, o2);
  }
}
