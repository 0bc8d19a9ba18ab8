/** The on-chain parser: `parse_capability` of the Type Script. */
module ContractParser {
  import opened Wrappers
  import opened ByteStrings
  import opened CapabilityFormat

  /** The contract's own error codes; syscall failures do not arise on the resolved
      transactions this model runs the script on. */
  datatype ContractError =
    | MalformedData
    | UnsupportedVersion
    | UnknownFlags
    | InvalidArgs
    | IdentityMismatch
    | MissingIssuerAuthorization
    | ImmutableFieldChanged
    | TransferForbidden
    | InvalidGroupShape
    | InvalidCreationId

  /** What the contract keeps of a payload. The subject and policy fields of the second
      format are checked but not kept. */
  datatype CapabilityData = CapabilityData(
    version: byte, flags: byte, serviceId: H32, issuerId: H32, capabilityId: H32, expiry: U64)

  function ParseCapability(data: Bytes): (r: Result<CapabilityData, ContractError>)
    ensures r.Err? ==> r.error in {UnsupportedVersion, UnknownFlags, MalformedData}
  {
    if data == [] then Err(MalformedData)
    else if data[0] == VERSION_V1 && |data| == DATA_LEN_V1 then ParseFields(data)
    else if data[0] == VERSION_V2 && |data| == DATA_LEN_V2 then ParseFields(data)
    else if data[0] == VERSION_V1 || data[0] == VERSION_V2 then Err(MalformedData)
    else Err(UnsupportedVersion)
  }

  function ParseFields(data: Bytes): (r: Result<CapabilityData, ContractError>)
    requires |data| == DATA_LEN_V1 || (|data| == DATA_LEN_V2 && data[0] == VERSION_V2)
    requires |data| == DATA_LEN_V1 ==> data[0] == VERSION_V1
    ensures r.Err? ==> r.error in {UnknownFlags, MalformedData}
  {
    if HasUnknownFlags(data[1]) then Err(UnknownFlags)
    else if data[0] == VERSION_V2 && data[107] > BINDING_LICENSE then Err(MalformedData)
    else if data[0] == VERSION_V2 && (data[106] == SUBJECT_NONE) != AllZero(data[108..140]) then Err(MalformedData)
    else if data[0] == VERSION_V2 && data[107] != BINDING_HOLDER && data[106] == SUBJECT_NONE then Err(MalformedData)
    else
      Ok(CapabilityData(data[0], data[1], data[2..34], data[34..66], data[66..98], U64FromLe(data[98..106])))
  }

  predicate AllZero(b: Bytes) {
    forall k :: 0 <= k < |b| ==> b[k] == 0
  }

  /** The part of a capability the contract's struct holds. */
  function Kept(cap: Capability): CapabilityData {
    CapabilityData(Version(cap), cap.flags, cap.serviceId, cap.issuerId, cap.capabilityId, cap.expiry)
  }

  /** The capability a payload of the right shape encodes. */
  function Reading(data: Bytes): Capability
    requires |data| == DATA_LEN_V1 || |data| == DATA_LEN_V2
  {
    if |data| == DATA_LEN_V1 then
      V1(data[1], data[2..34], data[34..66], data[66..98], U64FromLe(data[98..106]))
    else
      V2(data[1], data[2..34], data[34..66], data[66..98], U64FromLe(data[98..106]),
         data[106], data[107], data[108..140], data[140..172])
  }

  /** Reading and encoding are inverse on every payload of the right shape. */
  lemma ReadingEncodes(data: Bytes)
    requires || (|data| == DATA_LEN_V1 && data[0] == VERSION_V1)
             || (|data| == DATA_LEN_V2 && data[0] == VERSION_V2)
    ensures Encoding(Reading(data)) == data
  {
    var cap := Reading(data);
    FromLeRoundTrip(data[98..106]);
    assert Header(cap) == data[..106] by {
      assert data[..106] == data[..2] + data[2..34] + data[34..66] + data[66..98] + data[98..106];
      assert data[..2] == [Version(cap), cap.flags];
    }
    if cap.V2? {
      assert data[106..] == [data[106], data[107]] + data[108..140] + data[140..172];
      assert data == data[..106] + data[106..];
    } else {
      assert data == data[..106];
    }
  }

  lemma AllZeroIsZero32(b: H32)
    ensures AllZero(b) <==> b == ZERO32
  {
  }

  /** Every well-formed capability survives the trip through its wire image. */
  lemma ParseOfEncoding(cap: Capability)
    ensures WellFormed(cap) ==> ParseCapability(Encoding(cap)) == Ok(Kept(cap))
    ensures !WellFormed(cap) ==> ParseCapability(Encoding(cap)).Err?
  {
    EncodingLayout(cap);
    if cap.V2? {
      AllZeroIsZero32(cap.subjectId);
    }
  }

  /** The parser accepts exactly the wire images of well-formed capabilities, and what it
      returns is what the image says. */
  lemma ParserAcceptsExactlyEncodings(data: Bytes)
    ensures ParseCapability(data).Ok? <==> exists cap :: WellFormed(cap) && Encoding(cap) == data
    ensures forall cap :: WellFormed(cap) && Encoding(cap) == data ==> ParseCapability(data) == Ok(Kept(cap))
  {
    forall cap | WellFormed(cap) && Encoding(cap) == data
      ensures ParseCapability(data) == Ok(Kept(cap))
    {
      ParseOfEncoding(cap);
    }
    if ParseCapability(data).Ok? {
      ReadingEncodes(data);
      ParseOfEncoding(Reading(data));
      assert WellFormed(Reading(data));
    }
  }

  /** The accepted payloads, byte by byte and in numbers. */
  lemma AcceptedInNumbers(data: Bytes)
    ensures ParseCapability(data).Ok? <==>
              || (|data| == 106 && data[0] == 1 && data[1] < 8)
              || (|data| == 172 && data[0] == 2 && data[1] < 8 && data[107] <= 3
                  && (data[106] == 0 <==> forall k :: 108 <= k < 140 ==> data[k] == 0)
                  && (data[106] == 0 ==> data[107] == 0))
  {
    if |data| > 1 {
      FlagBits(data[1]);
    }
    if |data| == 172 {
      assert forall k :: 108 <= k < 140 ==> data[k] == data[108..140][k - 108];
    }
  }

  /** Which parsed-struct comparison means what: the struct sees the first 106 bytes and no
      more, so it decides a version 1 payload and leaves 66 bytes of a version 2 payload open. */
  lemma StructEqualityIsHeaderEquality(a: Bytes, b: Bytes)
    requires ParseCapability(a).Ok? && ParseCapability(b).Ok?
    ensures ParseCapability(a) == ParseCapability(b) <==> |a| == |b| && a[..106] == b[..106]
    ensures a[0] == VERSION_V1 ==> (ParseCapability(a) == ParseCapability(b) <==> a == b)
  {
    var ca, cb := Reading(a), Reading(b);
    ReadingEncodes(a);
    ReadingEncodes(b);
    ParseOfEncoding(ca);
    ParseOfEncoding(cb);
    assert a[..106] == Header(ca) && b[..106] == Header(cb);
    HeaderLayout(ca);
    HeaderLayout(cb);
    U64RoundTrip(ca.expiry);
    U64RoundTrip(cb.expiry);
    if |a| == 106 {
      assert a == a[..106];
      if |b| == 106 {
        assert b == b[..106];
      }
    }
  }

  /** Two different accepted version 2 payloads can parse to the same struct, so the byte
      comparison in the transition rule is what protects their subject and policy. */
  lemma StructEqualityMissesPolicy(flags: byte, service: H32, issuer: H32, id: H32, expiry: U64, policy: H32,
                                   policy': H32)
    requires !HasUnknownFlags(flags) && policy != policy'
    ensures var a := Encoding(V2(flags, service, issuer, id, expiry, SUBJECT_NONE, BINDING_HOLDER, ZERO32, policy));
            var b := Encoding(V2(flags, service, issuer, id, expiry, SUBJECT_NONE, BINDING_HOLDER, ZERO32, policy'));
            a != b && ParseCapability(a).Ok? && ParseCapability(a) == ParseCapability(b)
  {
    var a := V2(flags, service, issuer, id, expiry, SUBJECT_NONE, BINDING_HOLDER, ZERO32, policy);
    var b := V2(flags, service, issuer, id, expiry, SUBJECT_NONE, BINDING_HOLDER, ZERO32, policy');
    ParseOfEncoding(a);
    ParseOfEncoding(b);
    if Encoding(a) == Encoding(b) {
      EncodingInjective(a, b);
    }
  }
}
