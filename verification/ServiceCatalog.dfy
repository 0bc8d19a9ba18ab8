/** The web client's two-stage filter: one indexer query for all services, then one check per service. */
module ServiceCatalog {
  import opened Wrappers
  import opened ByteStrings
  import opened CapabilityFormat
  import opened Ckb
  import opened Ledger
  import opened CapabilityCodec
  import opened LiveVerifier
  import opened AuthorityGuarantees

  datatype Service = Service(
    id: H32, entitlementIds: Option<seq<H32>>, trustedIssuerId: Option<H32>, trustedIssuerIds: Option<seq<H32>>,
    transferableRequired: bool, delegatableRequired: bool, licensed: bool)

  /** The service ids a service honours: its entitlement list, or its own id. */
  function Entitlements(service: Service): (ids: seq<H32>)
    ensures ids != []
  {
    if service.entitlementIds.Some? && service.entitlementIds.value != [] then service.entitlementIds.value
    else [service.id]
  }

  function Issuers(service: Service): seq<H32> {
    if service.trustedIssuerIds.Some? && service.trustedIssuerIds.value != [] then service.trustedIssuerIds.value
    else if service.trustedIssuerId.Some? then [service.trustedIssuerId.value]
    else []
  }

  predicate ServiceAccepts(service: Service, cap: Capability) {
    && cap.serviceId in Entitlements(service)
    && (Issuers(service) != [] ==> cap.issuerId in Issuers(service))
    && (service.transferableRequired ==> HasFlag(cap.flags, FLAG_TRANSFERABLE))
    && (service.delegatableRequired ==> HasFlag(cap.flags, FLAG_DELEGATABLE))
    && (service.licensed ==> HasFlag(cap.flags, FLAG_REVOCABLE))
  }

  predicate SomeServiceAccepts(services: seq<Service>, cap: Capability) {
    exists i :: 0 <= i < |services| && ServiceAccepts(services[i], cap)
  }

  function AllEntitlements(services: seq<Service>): (ids: seq<H32>)
    ensures forall id :: id in ids <==> exists i :: 0 <= i < |services| && id in Entitlements(services[i])
  {
    if services == [] then []
    else
      assert services == [services[0]] + services[1..];
      Entitlements(services[0]) + AllEntitlements(services[1..])
  }

  function AllIssuers(services: seq<Service>): (ids: seq<H32>)
    ensures forall id :: id in ids <==> exists i :: 0 <= i < |services| && id in Issuers(services[i])
  {
    if services == [] then []
    else
      assert services == [services[0]] + services[1..];
      Issuers(services[0]) + AllIssuers(services[1..])
  }

  /** The one discovery query for all services. `configured` is the fallback issuer list. */
  function Prefilter(services: seq<Service>, configured: Option<seq<Bytes>>): Query {
    var issuers := AllIssuers(services);
    Query(None, Some(AllEntitlements(services)), None, if issuers != [] then Some(issuers) else configured, Some(false))
  }

  /** What the page keeps of what discovery found, in order. */
  function Keep(services: seq<Service>, found: seq<Found>): (kept: seq<Found>)
    ensures forall x :: x in kept <==> x in found && SomeServiceAccepts(services, x.capability)
  {
    if found == [] then []
    else
      assert found == [found[0]] + found[1..];
      (if SomeServiceAccepts(services, found[0].capability) then [found[0]] else []) + Keep(services, found[1..])
  }

  lemma NormalizeIds(ids: seq<H32>)
    ensures [] !in ids
    ensures NormalizeAll(ids).Ok? && NormalizeAll(ids).value == set id | id in ids
  {
  }

  /** What the prefilter comes to once parsed. */
  lemma PrefilterParsed(services: seq<Service>, configured: Option<seq<Bytes>>)
    requires ParseQuery(Prefilter(services, configured)).Ok?
    ensures var f := ParseQuery(Prefilter(services, configured)).value;
            && !f.transferable
            && (services != [] ==> f.services == Some(set id | id in AllEntitlements(services)))
            && (services == [] ==> f.services.None?)
            && (AllIssuers(services) != [] ==> f.issuers == Some(set id | id in AllIssuers(services)))
  {
    NormalizeIds(AllEntitlements(services));
    NormalizeIds(AllIssuers(services));
    if services != [] {
      assert Entitlements(services[0])[0] in AllEntitlements(services);
    }
    if AllIssuers(services) != [] {
      assert AllIssuers(services)[0] in AllIssuers(services);
    }
  }

  /** A capability survives both stages exactly when some service accepts it and the prefilter's
      issuer set, if there is one, contains its issuer. */
  lemma TwoStagesExact(services: seq<Service>, configured: Option<seq<Bytes>>, cap: Capability)
    requires ParseQuery(Prefilter(services, configured)).Ok?
    ensures var f := ParseQuery(Prefilter(services, configured)).value;
            Passes(f, cap) && SomeServiceAccepts(services, cap) <==>
              SomeServiceAccepts(services, cap) && (f.issuers.Some? ==> cap.issuerId in f.issuers.value)
  {
  }

  predicate NamesIssuer(service: Service) {
    Issuers(service) != []
  }

  /** Prefiltering loses nothing a service would accept. */
  ghost predicate Lossless(services: seq<Service>, f: Filter) {
    forall cap :: WellFormed(cap) && SomeServiceAccepts(services, cap) ==> Passes(f, cap)
  }

  /** The two-stage filter is lossless exactly when every service names an issuer, or the
      prefilter has no issuer set, or that set contains every possible issuer. One service
      without an issuer list, next to a non-empty set, loses the rights of all other issuers. */
  lemma LosslessExactly(services: seq<Service>, configured: Option<seq<Bytes>>)
    requires ParseQuery(Prefilter(services, configured)).Ok?
    ensures var f := ParseQuery(Prefilter(services, configured)).value;
            Lossless(services, f) <==>
              || (forall i :: 0 <= i < |services| ==> NamesIssuer(services[i]))
              || f.issuers.None?
              || (forall issuer: H32 :: issuer in f.issuers.value)
  {
    var f := ParseQuery(Prefilter(services, configured)).value;
    PrefilterParsed(services, configured);
    if i :| 0 <= i < |services| && !NamesIssuer(services[i]) {
      if f.issuers.Some? {
        if issuer: H32 :| issuer !in f.issuers.value {
          LostRight(services, f, i, issuer);
        }
      }
    } else {
      forall cap | WellFormed(cap) && SomeServiceAccepts(services, cap)
        ensures Passes(f, cap)
      {
        var i :| 0 <= i < |services| && ServiceAccepts(services[i], cap);
        assert NamesIssuer(services[i]);
        assert cap.issuerId in AllIssuers(services);
      }
    }
    if f.issuers.None? || forall issuer: H32 :: issuer in f.issuers.value {
      forall cap | WellFormed(cap) && SomeServiceAccepts(services, cap)
        ensures Passes(f, cap)
      {
        TwoStagesExact(services, configured, cap);
      }
    }
  }

  lemma LostRight(services: seq<Service>, f: Filter, i: nat, issuer: H32)
    requires i < |services| && !NamesIssuer(services[i])
    requires f.issuers.Some? && issuer !in f.issuers.value
    ensures !Lossless(services, f)
  {
    var cap := V1(7, Entitlements(services[i])[0], issuer, ZERO32, 0);
    var flags: bv8 := 7;
    assert flags & !KNOWN_FLAGS_MASK == 0;
    assert ServiceAccepts(services[i], cap);
    assert WellFormed(cap) && !Passes(f, cap);
  }

  // ---- What the page shows, said without the filters ----

  /** The issuer ids a service lists, if it lists any. */
  predicate ListsIssuer(service: Service, issuer: H32) {
    match (service.trustedIssuerIds, service.trustedIssuerId)
    case (Some(ids), single) => if |ids| > 0 then issuer in ids else single == Some(issuer)
    case (None, single) => single == Some(issuer)
  }

  /** What a service asks of a right: one of its entitlement ids, an issuer on its list if it
      has one, and the flag bits it requires. */
  ghost predicate Honours(service: Service, cap: Capability) {
    && (service.entitlementIds.Some? && |service.entitlementIds.value| > 0 ==>
          cap.serviceId in service.entitlementIds.value)
    && (service.entitlementIds.None? || |service.entitlementIds.value| == 0 ==> cap.serviceId == service.id)
    && ((exists issuer :: ListsIssuer(service, issuer)) ==> ListsIssuer(service, cap.issuerId))
    && (service.transferableRequired ==> cap.flags as int % 2 == 1)
    && (service.delegatableRequired ==> cap.flags as int / 2 % 2 == 1)
    && (service.licensed ==> cap.flags as int / 4 % 2 == 1)
  }

  lemma IssuersAreListed(service: Service)
    ensures forall issuer :: ListsIssuer(service, issuer) <==> issuer in Issuers(service)
    ensures NamesIssuer(service) <==> exists issuer :: ListsIssuer(service, issuer)
  {
    if NamesIssuer(service) {
      assert Issuers(service)[0] in Issuers(service);
    }
  }

  lemma AcceptsIsHonours(service: Service, cap: Capability)
    ensures ServiceAccepts(service, cap) <==> Honours(service, cap)
  {
    FlagBits(cap.flags);
    IssuersAreListed(service);
  }

  ghost predicate SomeServiceHonours(services: seq<Service>, cap: Capability) {
    exists i :: 0 <= i < |services| && Honours(services[i], cap)
  }

  ghost predicate SomeServiceLists(services: seq<Service>, issuer: H32) {
    exists i :: 0 <= i < |services| && ListsIssuer(services[i], issuer)
  }

  /** The issuers the one query admits: those some service lists, or, when no service lists
      any, those of the page's configuration, or all when that has none either. */
  ghost predicate Admits(services: seq<Service>, configured: Option<seq<Bytes>>, issuer: H32) {
    if exists id :: SomeServiceLists(services, id) then SomeServiceLists(services, issuer)
    else
      configured.None? || (forall v :: v in configured.value ==> |v| == 0) || issuer in configured.value
  }

  lemma SomeAcceptsIsSomeHonours(services: seq<Service>, cap: Capability)
    ensures SomeServiceAccepts(services, cap) <==> SomeServiceHonours(services, cap)
  {
    forall i | 0 <= i < |services|
      ensures ServiceAccepts(services[i], cap) <==> Honours(services[i], cap)
    {
      AcceptsIsHonours(services[i], cap);
    }
  }

  lemma AllIssuersAreListed(services: seq<Service>)
    ensures forall id :: id in AllIssuers(services) <==> SomeServiceLists(services, id)
    ensures AllIssuers(services) != [] <==> exists id :: SomeServiceLists(services, id)
  {
    forall i | 0 <= i < |services|
      ensures forall issuer :: ListsIssuer(services[i], issuer) <==> issuer in Issuers(services[i])
    {
      IssuersAreListed(services[i]);
    }
    if AllIssuers(services) != [] {
      assert AllIssuers(services)[0] in AllIssuers(services);
    }
  }

  /** A capability passes both stages exactly when some service honours it and the query admits
      its issuer. */
  lemma TwoStagesInNumbers(services: seq<Service>, configured: Option<seq<Bytes>>, cap: Capability)
    requires ParseQuery(Prefilter(services, configured)).Ok?
    ensures Passes(ParseQuery(Prefilter(services, configured)).value, cap) && SomeServiceAccepts(services, cap) <==>
              SomeServiceHonours(services, cap) && Admits(services, configured, cap.issuerId)
  {
    PrefilterParsed(services, configured);
    AllIssuersAreListed(services);
    SomeAcceptsIsSomeHonours(services, cap);
    TwoStagesExact(services, configured, cap);
    var q := Prefilter(services, configured);
    IssuerSetIsList(q.trustedIssuerIds, q.trustedIssuerId);
  }

  /** The page shows exactly the owner's live, genuine rights that some service honours and
      whose issuer the query admits, in discovery order. */
  lemma RefreshShowsExactly(chain: Chain, s: State, owner: Script, services: seq<Service>,
                            configured: Option<seq<Bytes>>, listing: seq<Listed>, now: int, found: seq<Found>,
                            o: OutPoint)
    requires ParseQuery(Prefilter(services, configured)).Ok?
    requires Lists(s.live, owner, listing)
    requires Discovers(chain.deployment, ParseQuery(Prefilter(services, configured)).value, listing, now, found)
    ensures (exists x :: x in Keep(services, found) && x.outPoint == o) <==>
              && o in s.live && s.live[o].lock == owner && Genuine(chain.deployment, s.live[o])
              && DecodeCapability(s.live[o].data).Ok?
              && var cap := DecodeCapability(s.live[o].data).value;
                 SomeServiceHonours(services, cap) && Admits(services, configured, cap.issuerId)
    ensures InOrder(Keep(services, found), now) && forall x :: multiset(Keep(services, found))[x] <= 1
  {
    var f := ParseQuery(Prefilter(services, configured)).value;
    DiscoveryIsExact(chain, s, owner, f, listing, now, found, o);
    KeepSorted(services, found, now);
    SortedOrder(Keep(services, found), now);
    forall x
      ensures multiset(Keep(services, found))[x] <= 1
    {
      KeptAsFound(services, found, x);
    }
    KeptExactly(chain.deployment, s.live, services, found, o);
    if o in s.live {
      SelectedAndKept(chain.deployment, services, configured, s.live[o]);
    }
  }

  /** What one query selects and one service accepts, said without either. */
  lemma SelectedAndKept(deployment: Deployment, services: seq<Service>, configured: Option<seq<Bytes>>, cell: Cell)
    requires ParseQuery(Prefilter(services, configured)).Ok?
    ensures Genuine(deployment, cell) ==> DecodeCapability(cell.data).Ok?
    ensures Selects(deployment, ParseQuery(Prefilter(services, configured)).value, cell)
            && SomeServiceAccepts(services, ReadCapability(deployment, cell).value) <==>
              && Genuine(deployment, cell)
              && var cap := DecodeCapability(cell.data).value;
                 SomeServiceHonours(services, cap) && Admits(services, configured, cap.issuerId)
  {
    ReadsExactlyGenuine(deployment, cell);
    if Genuine(deployment, cell) {
      TwoStagesInNumbers(services, configured, ReadCapability(deployment, cell).value);
    }
  }

  /** Of what was found, the page keeps what some service accepts. */
  lemma KeptExactly(deployment: Deployment, live: map<OutPoint, Cell>, services: seq<Service>, found: seq<Found>,
                    o: OutPoint)
    requires forall x :: x in found ==> x.outPoint in live && x.cell == live[x.outPoint]
                                        && ReadCapability(deployment, x.cell) == Ok(x.capability)
    ensures (exists x :: x in Keep(services, found) && x.outPoint == o) <==>
              && (exists x :: x in found && x.outPoint == o)
              && SomeServiceAccepts(services, ReadCapability(deployment, live[o]).value)
  {
  }

  /** When every service lists an issuer, what some service honours is admitted. */
  lemma HonouredIsAdmitted(services: seq<Service>, configured: Option<seq<Bytes>>, cap: Capability)
    requires forall i :: 0 <= i < |services| ==> NamesIssuer(services[i])
    requires SomeServiceHonours(services, cap)
    ensures Admits(services, configured, cap.issuerId)
  {
    var i :| 0 <= i < |services| && Honours(services[i], cap);
    IssuersAreListed(services[i]);
    assert SomeServiceLists(services, cap.issuerId);
  }

  /** The page keeps a record as often as it was found, or not at all. */
  lemma {:induction false} KeptAsFound(services: seq<Service>, found: seq<Found>, x: Found)
    ensures multiset(Keep(services, found))[x] ==
              if SomeServiceAccepts(services, x.capability) then multiset(found)[x] else 0
  {
    if found != [] {
      KeptAsFound(services, found[1..], x);
      assert found == [found[0]] + found[1..];
    }
  }

  lemma {:induction false} KeepSorted(services: seq<Service>, found: seq<Found>, now: int)
    requires Sorted(found, now)
    ensures Sorted(Keep(services, found), now)
  {
    if found != [] {
      KeepSorted(services, found[1..], now);
      var rest := Keep(services, found[1..]);
      forall j | 0 <= j < |rest|
        ensures Compare(found[0], rest[j], now) <= 0
      {
        assert rest[j] in found[1..];
      }
    }
  }
}
