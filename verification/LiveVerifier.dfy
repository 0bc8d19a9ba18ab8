/** The client's two views of the live ledger: verifying one cell, and discovering an owner's cells. */
module LiveVerifier {
  import opened Wrappers
  import opened ByteStrings
  import opened CapabilityFormat
  import opened CapabilityCodec
  import opened Ckb
  import opened Builders

  datatype VerifyError =
    | MissingOrConsumed
    | NoTypeScript
    | OtherDeployment
    | Undecodable(error: CodecError)
    | IdentityMismatch
    | MalformedId
    | OtherService
    | UntrustedIssuer
    | MustBeTransferable
    | Expired
    | BadRequester
    | NotInControl

  /** A provider's configuration. Identifiers are the bytes their text denotes. */
  datatype Policy = Policy(
    expectedServiceId: Bytes, trustedIssuerId: Option<Bytes>, trustedIssuerIds: Option<seq<Bytes>>,
    requireTransferable: Option<bool>)

  /** The identifiers of a list that are not blank; all of these must be 32 bytes long. */
  function NormalizeAll(values: seq<Bytes>): (r: Result<set<H32>, VerifyError>)
    ensures r.Ok? <==> forall v :: v in values && v != [] ==> |v| == 32
    ensures r.Ok? ==> forall h: H32 :: h in r.value <==> h in values
    ensures r.Err? ==> r.error == MalformedId
  {
    if values == [] then Ok({})
    else
      assert values == [values[0]] + values[1..];
      match NormalizeAll(values[1..])
      case Err(e) => Err(e)
      case Ok(rest) =>
        if values[0] == [] then Ok(rest)
        else if |values[0]| != 32 then Err(MalformedId)
        else Ok({values[0]} + rest)
  }

  /** No list, or a list of blanks, means no issuer set at all. */
  function NormalizeTrustedIssuerSet(ids: Option<seq<Bytes>>,
                                     id: Option<Bytes>): (r: Result<Option<set<H32>>, VerifyError>)
    ensures r.Err? ==> r.error == MalformedId
  {
    var values := if ids.Some? then ids else if id.Some? then Some([id.value]) else None;
    if values.None? then Ok(None)
    else
      match NormalizeAll(values.value)
      case Err(e) => Err(e)
      case Ok(issuers) => Ok(if issuers == {} then None else Some(issuers))
  }

  /** The checks both views make before they look at policy. */
  function ReadCapability(deployment: Deployment, cell: Cell): Result<Capability, VerifyError> {
    if cell.typ.None? then Err(NoTypeScript)
    else if !InDeployment(deployment, cell.typ.value) then Err(OtherDeployment)
    else
      match DecodeCapability(cell.data)
      case Err(e) => Err(Undecodable(e))
      case Ok(cap) =>
        if cell.typ.value.args != EncodeTypeArgs(cap.issuerId, cap.capabilityId) then Err(IdentityMismatch) else Ok(cap)
  }

  function VerifyLiveCapability(deployment: Deployment, live: map<OutPoint, Cell>, o: OutPoint, requester: Address,
                                policy: Policy, now: int)
      : Result<(Cell, Capability), VerifyError>
  {
    if o !in live then Err(MissingOrConsumed)
    else
      match ReadCapability(deployment, live[o])
      case Err(e) => Err(e)
      case Ok(cap) =>
        match CheckPolicy(cap, policy, now)
        case Some(e) => Err(e)
        case None =>
          if !requester.Valid? then Err(BadRequester)
          else if live[o].lock != requester.script then Err(NotInControl)
          else Ok((live[o], cap))
  }

  function CheckPolicy(cap: Capability, policy: Policy, now: int): (e: Option<VerifyError>)
    ensures e.Some? ==> e.value in {MalformedId, OtherService, UntrustedIssuer, MustBeTransferable, Expired}
  {
    if |policy.expectedServiceId| != 32 then Some(MalformedId)
    else if cap.serviceId != policy.expectedServiceId then Some(OtherService)
    else
      match NormalizeTrustedIssuerSet(policy.trustedIssuerIds, policy.trustedIssuerId)
      case Err(e) => Some(e)
      case Ok(issuers) =>
        if issuers.None? || cap.issuerId !in issuers.value then Some(UntrustedIssuer)
        else if policy.requireTransferable.GetOr(true) && !HasFlag(cap.flags, FLAG_TRANSFERABLE)
             then Some(MustBeTransferable)
        else if !IsActive(cap, now) then Some(Expired)
        else None
  }

  // ---- Discovery ----

  datatype Query = Query(
    expectedServiceId: Option<Bytes>, expectedServiceIds: Option<seq<Bytes>>,
    trustedIssuerId: Option<Bytes>, trustedIssuerIds: Option<seq<Bytes>>, requireTransferable: Option<bool>)

  datatype Listed = Listed(outPoint: OutPoint, cell: Cell)
  datatype Found = Found(outPoint: OutPoint, cell: Cell, capability: Capability)

  /** The parsed form of a query. */
  datatype Filter = Filter(services: Option<set<H32>>, issuers: Option<set<H32>>, transferable: bool)

  /** The service list accepts no blanks; an absent or empty list falls back to the single id. */
  function ExpectedServices(q: Query): Result<Option<set<H32>>, VerifyError> {
    if q.expectedServiceIds.Some? && q.expectedServiceIds.value != [] then
      if [] in q.expectedServiceIds.value then Err(MalformedId)
      else
        match NormalizeAll(q.expectedServiceIds.value)
        case Err(e) => Err(e)
        case Ok(services) => Ok(Some(services))
    else if q.expectedServiceId.Some? && q.expectedServiceId.value != [] then
      if |q.expectedServiceId.value| != 32 then Err(MalformedId) else Ok(Some({q.expectedServiceId.value}))
    else Ok(None)
  }

  function ParseQuery(q: Query): Result<Filter, VerifyError> {
    match NormalizeTrustedIssuerSet(q.trustedIssuerIds, q.trustedIssuerId)
    case Err(e) => Err(e)
    case Ok(issuers) =>
      match ExpectedServices(q)
      case Err(e) => Err(e)
      case Ok(services) => Ok(Filter(services, issuers, q.requireTransferable.GetOr(false)))
  }

  predicate Passes(f: Filter, cap: Capability) {
    && (f.services.Some? ==> cap.serviceId in f.services.value)
    && (f.issuers.Some? ==> cap.issuerId in f.issuers.value)
    && (f.transferable ==> HasFlag(cap.flags, FLAG_TRANSFERABLE))
  }

  predicate Selects(deployment: Deployment, f: Filter, cell: Cell) {
    && ReadCapability(deployment, cell).Ok?
    && Passes(f, ReadCapability(deployment, cell).value)
  }

  /** The found records of a listing, in the listing's order. */
  function Selected(deployment: Deployment, f: Filter, listing: seq<Listed>): (found: seq<Found>)
    ensures forall x: Found :: x in found <==>
              && Listed(x.outPoint, x.cell) in listing
              && Selects(deployment, f, x.cell) && ReadCapability(deployment, x.cell) == Ok(x.capability)
  {
    if listing == [] then []
    else
      var last := listing[|listing| - 1];
      assert listing == listing[..|listing| - 1] + [last];
      Selected(deployment, f, listing[..|listing| - 1])
      + if Selects(deployment, f, last.cell) then
        [Found(last.outPoint, last.cell, ReadCapability(deployment, last.cell).value)]
      else []
  }

  /** Bytewise order of identifiers, the order of their lower-case hex text. */
  predicate LexLeq(a: Bytes, b: Bytes) {
    a == [] || (b != [] && (a[0] < b[0] || (a[0] == b[0] && LexLeq(a[1..], b[1..]))))
  }

  /** The comparator of the discovery sort: negative, zero or positive. */
  function Compare(a: Found, b: Found, now: int): int {
    var activeA, activeB := IsActive(a.capability, now), IsActive(b.capability, now);
    if activeA != activeB then if activeA then -1 else 1
    else if a.capability.expiry != b.capability.expiry then if a.capability.expiry < b.capability.expiry then -1 else 1
    else if a.capability.capabilityId == b.capability.capabilityId then 0
    else if LexLeq(a.capability.capabilityId, b.capability.capabilityId) then -1 else 1
  }

  predicate Sorted(found: seq<Found>, now: int) {
    forall i, j :: 0 <= i < j < |found| ==> Compare(found[i], found[j], now) <= 0
  }

  method DiscoverOwnedCapabilities(deployment: Deployment, listing: seq<Listed>, q: Query, now: int)
      returns (r: Result<seq<Found>, VerifyError>)
    ensures ParseQuery(q).Err? ==> r == Err(ParseQuery(q).error)
    ensures ParseQuery(q).Ok? ==>
              && r.Ok? && Sorted(r.value, now)
              && multiset(r.value) == multiset(Selected(deployment, ParseQuery(q).value, listing))
  {
    var parsed := ParseQuery(q);
    if parsed.Err? {
      return Err(parsed.error);
    }
    var f := parsed.value;
    var found: seq<Found> := [];
    for i := 0 to |listing|
      invariant found == Selected(deployment, f, listing[..i])
    {
      var cell := listing[i].cell;
      assert listing[..i + 1][..i] == listing[..i];
      var read := ReadCapability(deployment, cell);
      if read.Ok? && Passes(f, read.value) {
        found := found + [Found(listing[i].outPoint, cell, read.value)];
      }
    }
    assert listing[..|listing|] == listing;
    var sorted := SortFound(found, now);
    return Ok(sorted);
  }

  /** The order is decided by the first byte that differs. */
  lemma {:induction false} FirstDifferenceDecides(a: Bytes, b: Bytes, k: nat)
    requires k < |a| && k < |b| && a[..k] == b[..k] && a[k] != b[k]
    ensures LexLeq(a, b) <==> a[k] < b[k]
  {
    if k > 0 {
      assert a[0] == a[..k][0] && b[0] == b[..k][0];
      assert a[1..][..k - 1] == a[..k][1..] && b[1..][..k - 1] == b[..k][1..];
      FirstDifferenceDecides(a[1..], b[1..], k - 1);
    }
  }

  lemma {:induction false} LexTotal(a: Bytes, b: Bytes)
    ensures LexLeq(a, b) || LexLeq(b, a)
  {
    if a != [] && b != [] && a[0] == b[0] {
      LexTotal(a[1..], b[1..]);
    }
  }

  lemma {:induction false} LexAntisymmetric(a: Bytes, b: Bytes)
    requires LexLeq(a, b) && LexLeq(b, a)
    ensures a == b
  {
    if a != [] {
      LexAntisymmetric(a[1..], b[1..]);
      assert a == [a[0]] + a[1..] && b == [b[0]] + b[1..];
    }
  }

  lemma {:induction false} LexTransitive(a: Bytes, b: Bytes, c: Bytes)
    requires LexLeq(a, b) && LexLeq(b, c)
    ensures LexLeq(a, c)
  {
    if a != [] && a[0] == b[0] == c[0] {
      LexTransitive(a[1..], b[1..], c[1..]);
    }
  }

  /** The comparator is a total preorder, so sorting by it makes sense on any input. */
  lemma ComparePreorder(a: Found, b: Found, c: Found, now: int)
    ensures Compare(a, b, now) <= 0 || Compare(b, a, now) <= 0
    ensures Compare(a, b, now) <= 0 && Compare(b, c, now) <= 0 ==> Compare(a, c, now) <= 0
    ensures Compare(a, b, now) <= 0 && Compare(b, a, now) <= 0 ==> Compare(a, b, now) == 0
    ensures Compare(a, b, now) == 0 ==> a.capability.capabilityId == b.capability.capabilityId
  {
    var x, y, z := a.capability.capabilityId, b.capability.capabilityId, c.capability.capabilityId;
    LexTotal(x, y);
    if LexLeq(x, y) && LexLeq(y, x) {
      LexAntisymmetric(x, y);
    }
    if LexLeq(x, y) && LexLeq(y, z) {
      LexTransitive(x, y, z);
      if x == z {
        LexAntisymmetric(x, y);
      }
    }
  }

  /** A library sort, by insertion: any sort by this comparator satisfies the same contract. */
  method SortFound(found: seq<Found>, now: int) returns (sorted: seq<Found>)
    ensures Sorted(sorted, now) && multiset(sorted) == multiset(found)
  {
    sorted := [];
    for i := 0 to |found|
      invariant Sorted(sorted, now) && multiset(sorted) == multiset(found[..i])
    {
      sorted := Insert(sorted, found[i], now);
      assert found[..i + 1] == found[..i] + [found[i]];
    }
    assert found[..|found|] == found;
  }

  method Insert(sorted: seq<Found>, x: Found, now: int) returns (r: seq<Found>)
    requires Sorted(sorted, now)
    ensures Sorted(r, now) && multiset(r) == multiset(sorted) + multiset{x}
  {
    var k := |sorted|;
    while k > 0 && Compare(sorted[k - 1], x, now) > 0
      invariant 0 <= k <= |sorted|
      invariant forall i :: k <= i < |sorted| ==> Compare(x, sorted[i], now) <= 0
    {
      ComparePreorder(sorted[k - 1], x, x, now);
      k := k - 1;
    }
    r := sorted[..k] + [x] + sorted[k..];
    InsertedOnce(sorted, k, x);
    SortedAround(sorted, k, x, now);
  }

  lemma InsertedOnce(sorted: seq<Found>, k: nat, x: Found)
    requires k <= |sorted|
    ensures multiset(sorted[..k] + [x] + sorted[k..]) == multiset(sorted) + multiset{x}
  {
    assert sorted == sorted[..k] + sorted[k..];
  }

  lemma SortedAround(sorted: seq<Found>, k: nat, x: Found, now: int)
    requires k <= |sorted| && Sorted(sorted, now)
    requires k > 0 ==> Compare(sorted[k - 1], x, now) <= 0
    requires forall i :: k <= i < |sorted| ==> Compare(x, sorted[i], now) <= 0
    ensures Sorted(sorted[..k] + [x] + sorted[k..], now)
  {
    forall i | 0 <= i < k
      ensures Compare(sorted[i], x, now) <= 0
    {
      if i < k - 1 {
        ComparePreorder(sorted[i], sorted[k - 1], x, now);
      }
    }
    var r := sorted[..k] + [x] + sorted[k..];
    forall i, j | 0 <= i < j < |r|
      ensures Compare(r[i], r[j], now) <= 0
    {
      assert r[i] == if i < k then sorted[i] else if i == k then x else sorted[i - 1];
      assert r[j] == if j < k then sorted[j] else if j == k then x else sorted[j - 1];
    }
  }
}
