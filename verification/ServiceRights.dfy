/** The provider's own policy check, against what the web client shows for the provider's services. */
module ServiceRights {
  import opened Wrappers
  import opened ByteStrings
  import opened CapabilityFormat
  import opened CapabilityCodec
  import opened Ckb
  import opened Ledger
  import opened LiveVerifier
  import opened AuthorityGuarantees
  import opened ServiceCatalog

  /** A created policy. Creation refuses to leave the first two lists empty. */
  datatype ServicePolicy = ServicePolicy(
    serviceId: H32, entitlementIds: seq<H32>, trustedIssuerIds: seq<H32>,
    requireTransferable: bool, requireDelegatable: bool, license: bool,
    requireSubjectBinding: bool, acceptedSubjectTypes: seq<byte>, requiredPolicyHash: Option<H32>)

  datatype RightError =
    | WrongService
    | NotATrustedIssuer
    | NotPortable
    | NotDelegatable
    | NotRevocable
    | RightExpired
    | SubjectBindingRequired
    | SubjectTypeNotAccepted
    | PolicyCommitmentMismatch

  predicate Created(policy: ServicePolicy) {
    policy.entitlementIds != [] && policy.trustedIssuerIds != []
  }

  function VerifyServicePolicy(cap: Capability, policy: ServicePolicy, now: int): Result<(), RightError> {
    if cap.serviceId !in policy.entitlementIds then Err(WrongService)
    else if cap.issuerId !in policy.trustedIssuerIds then Err(NotATrustedIssuer)
    else if policy.requireTransferable && !HasFlag(cap.flags, FLAG_TRANSFERABLE) then Err(NotPortable)
    else if policy.requireDelegatable && !HasFlag(cap.flags, FLAG_DELEGATABLE) then Err(NotDelegatable)
    else if policy.license && !HasFlag(cap.flags, FLAG_REVOCABLE) then Err(NotRevocable)
    else if !IsActive(cap, now) then Err(RightExpired)
    else if policy.requireSubjectBinding
            && (cap.V1? || cap.subjectType == SUBJECT_NONE || cap.bindingMode == BINDING_HOLDER)
      then Err(SubjectBindingRequired)
    else if cap.V2? && policy.acceptedSubjectTypes != [] && cap.subjectType !in policy.acceptedSubjectTypes
      then Err(SubjectTypeNotAccepted)
    else if policy.requiredPolicyHash.Some? && (cap.V1? || cap.policyHash != policy.requiredPolicyHash.value)
      then Err(PolicyCommitmentMismatch)
    else Ok(())
  }

  /** The right fails the policy as the error says, in numbers. */
  predicate RightAtFault(cap: Capability, policy: ServicePolicy, now: int, e: RightError) {
    match e
    case WrongService => cap.serviceId !in policy.entitlementIds
    case NotATrustedIssuer => cap.issuerId !in policy.trustedIssuerIds
    case NotPortable => policy.requireTransferable && cap.flags as int % 2 == 0
    case NotDelegatable => policy.requireDelegatable && cap.flags as int / 2 % 2 == 0
    case NotRevocable => policy.license && cap.flags as int / 4 % 2 == 0
    case RightExpired => cap.expiry <= now
    case SubjectBindingRequired =>
      policy.requireSubjectBinding && (cap.V2? ==> cap.subjectType == 0 || cap.bindingMode == 0)
    case SubjectTypeNotAccepted =>
      cap.V2? && policy.acceptedSubjectTypes != [] && cap.subjectType !in policy.acceptedSubjectTypes
    case PolicyCommitmentMismatch =>
      policy.requiredPolicyHash.Some? && (cap.V2? ==> policy.requiredPolicyHash != Some(cap.policyHash))
  }

  lemma ProviderNamesAFault(cap: Capability, policy: ServicePolicy, now: int)
    ensures var r := VerifyServicePolicy(cap, policy, now);
            r.Err? ==> RightAtFault(cap, policy, now, r.error)
  {
    FlagBits(cap.flags);
  }

  /** What the provider publishes of a policy for clients to filter by. */
  function Descriptor(policy: ServicePolicy): Service
    requires Created(policy)
  {
    Service(policy.serviceId, Some(policy.entitlementIds),
            Some(policy.trustedIssuerIds[0]), Some(policy.trustedIssuerIds),
            policy.requireTransferable, policy.requireDelegatable, policy.license)
  }

  /** What the descriptor leaves out: the conditions on the subject and the policy commitment. */
  predicate SubjectFits(policy: ServicePolicy, cap: Capability) {
    && (policy.requireSubjectBinding ==> cap.V2? && cap.subjectType != 0 && cap.bindingMode != 0)
    && (cap.V2? && |policy.acceptedSubjectTypes| > 0 ==> cap.subjectType in policy.acceptedSubjectTypes)
    && (policy.requiredPolicyHash.Some? ==> cap.V2? && cap.policyHash == policy.requiredPolicyHash.value)
  }

  /** The provider accepts exactly the unexpired rights that a client honours for the published
      descriptor and whose subject and policy commitment fit. */
  lemma ProviderAcceptsExactly(policy: ServicePolicy, cap: Capability, now: int)
    requires Created(policy)
    ensures VerifyServicePolicy(cap, policy, now).Ok? <==>
              Honours(Descriptor(policy), cap) && now < cap.expiry && SubjectFits(policy, cap)
  {
    var service := Descriptor(policy);
    FlagBits(cap.flags);
    assert ListsIssuer(service, policy.trustedIssuerIds[0]);
    assert forall issuer :: ListsIssuer(service, issuer) <==> issuer in policy.trustedIssuerIds;
  }

  function Descriptors(policies: seq<ServicePolicy>): (services: seq<Service>)
    requires forall i :: 0 <= i < |policies| ==> Created(policies[i])
    ensures |services| == |policies|
    ensures forall i :: 0 <= i < |policies| ==> services[i] == Descriptor(policies[i])
  {
    seq(|policies|, i requires 0 <= i < |policies| => Descriptor(policies[i]))
  }

  predicate SomeProviderAccepts(policies: seq<ServicePolicy>, cap: Capability, now: int) {
    exists i :: 0 <= i < |policies| && VerifyServicePolicy(cap, policies[i], now).Ok?
  }

  lemma AcceptedIsHonoured(policies: seq<ServicePolicy>, cap: Capability, now: int)
    requires forall i :: 0 <= i < |policies| ==> Created(policies[i])
    ensures SomeProviderAccepts(policies, cap, now) ==> SomeServiceHonours(Descriptors(policies), cap)
    ensures SomeServiceHonours(Descriptors(policies), cap) && now < cap.expiry
            && (forall i :: 0 <= i < |policies| ==> SubjectFits(policies[i], cap)) ==>
              SomeProviderAccepts(policies, cap, now)
  {
    var services := Descriptors(policies);
    forall i | 0 <= i < |policies|
      ensures VerifyServicePolicy(cap, policies[i], now).Ok? <==>
                Honours(services[i], cap) && now < cap.expiry && SubjectFits(policies[i], cap)
    {
      ProviderAcceptsExactly(policies[i], cap, now);
    }
  }

  /** Nothing usable is hidden: a live right of the owner that some provider accepts is on the
      page. And nothing useless is shown but for what descriptors do not say: an unexpired right
      on the page whose subject and policy commitment fit, some provider accepts. */
  lemma ShownIsUsable(chain: Chain, s: State, owner: Script, policies: seq<ServicePolicy>,
                      configured: Option<seq<Bytes>>, listing: seq<Listed>, now: int, found: seq<Found>, o: OutPoint)
    requires forall i :: 0 <= i < |policies| ==> Created(policies[i])
    requires ParseQuery(Prefilter(Descriptors(policies), configured)).Ok? && Lists(s.live, owner, listing)
    requires Discovers(chain.deployment, ParseQuery(Prefilter(Descriptors(policies), configured)).value,
                       listing, now, found)
    requires o in s.live && s.live[o].lock == owner && Genuine(chain.deployment, s.live[o])
    ensures DecodeCapability(s.live[o].data).Ok?
    ensures var cap := DecodeCapability(s.live[o].data).value;
            var shown := exists x :: x in Keep(Descriptors(policies), found) && x.outPoint == o;
            && (SomeProviderAccepts(policies, cap, now) ==> shown)
            && (shown && now < cap.expiry && (forall i :: 0 <= i < |policies| ==> SubjectFits(policies[i], cap)) ==>
                  SomeProviderAccepts(policies, cap, now))
  {
    DecoderAgreesWithContract(s.live[o].data);
    var cap, services := DecodeCapability(s.live[o].data).value, Descriptors(policies);
    AcceptedIsHonoured(policies, cap, now);
    RefreshShowsExactly(chain, s, owner, services, configured, listing, now, found, o);
    if SomeServiceHonours(services, cap) {
      HonouredIsAdmitted(services, configured, cap);
    }
  }
}
