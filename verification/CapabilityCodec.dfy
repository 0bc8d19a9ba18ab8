/** The client-side codec: normalisation, encoding, decoding, and its agreement with the contract. */
module CapabilityCodec {
  import opened Wrappers
  import opened ByteStrings
  import opened CapabilityFormat
  import opened ContractParser

  datatype CodecError =
    | InvalidLength
    | CodecUnsupportedVersion
    | InvalidFlags
    | CodecUnknownFlags
    | InvalidExpiry
    | InvalidSubjectType
    | InvalidBindingMode
    | InvalidSubject

  /** The loosely typed object `normalizeCapability` takes. Identifiers are the bytes their
      hex text denotes, of any length. */
  datatype CapabilityInput = CapabilityInput(
    version: Option<int>, flags: Option<int>, serviceId: Bytes, issuerId: Bytes, capabilityId: Bytes, expiry: int,
    subjectType: Option<int>, bindingMode: Option<int>, subjectId: Option<Bytes>, policyHash: Option<Bytes>)

  function ValidateFlags(flags: int): Result<byte, CodecError> {
    if flags < 0 || flags > 0xff then Err(InvalidFlags)
    else if HasUnknownFlags(flags as byte) then Err(CodecUnknownFlags)
    else Ok(flags as byte)
  }

  /** The fields both versions share, checked in the source's order. */
  function NormalizeCommon(input: CapabilityInput): Result<Capability, CodecError> {
    match ValidateFlags(input.flags.GetOr(0))
    case Err(e) => Err(e)
    case Ok(flags) =>
      if |input.serviceId| != 32 || |input.issuerId| != 32 || |input.capabilityId| != 32 then Err(InvalidLength)
      else if input.expiry < 0 || input.expiry >= 0x1_0000_0000_0000_0000 then Err(InvalidExpiry)
      else Ok(V1(flags, input.serviceId, input.issuerId, input.capabilityId, input.expiry))
  }

  function NormalizeCapability(input: CapabilityInput): Result<Capability, CodecError> {
    var version := input.version.GetOr(1);
    if version == 1 then NormalizeCommon(input)
    else if version != 2 then Err(CodecUnsupportedVersion)
    else
      var subjectType := input.subjectType.GetOr(0);
      var bindingMode := input.bindingMode.GetOr(0);
      var subjectId := input.subjectId.GetOr(ZERO32);
      var policyHash := input.policyHash.GetOr(ZERO32);
      if subjectType < 0 || subjectType > 0xff then Err(InvalidSubjectType)
      else if bindingMode !in {0, 1, 2, 3} then Err(InvalidBindingMode)
      else if |subjectId| != 32 || |policyHash| != 32 then Err(InvalidLength)
      else if subjectType == 0 && subjectId != ZERO32 then Err(InvalidSubject)
      else if subjectType != 0 && subjectId == ZERO32 then Err(InvalidSubject)
      else if bindingMode != 0 && subjectType == 0 then Err(InvalidBindingMode)
      else
        match NormalizeCommon(input)
        case Err(e) => Err(e)
        case Ok(c) => Ok(V2(c.flags, c.serviceId, c.issuerId, c.capabilityId, c.expiry,
                            subjectType as byte, bindingMode as byte, subjectId, policyHash))
  }

  /** The input object that spells out a capability. */
  function InputOf(cap: Capability): CapabilityInput {
    match cap
    case V1(flags, service, issuer, id, expiry) =>
      CapabilityInput(Some(1), Some(flags as int), service, issuer, id, expiry, None, None, None, None)
    case V2(flags, service, issuer, id, expiry, subjectType, bindingMode, subject, policy) =>
      CapabilityInput(Some(2), Some(flags as int), service, issuer, id, expiry,
                      Some(subjectType as int), Some(bindingMode as int), Some(subject), Some(policy))
  }

  /** Normalisation returns well-formed capabilities only, changes none of them, and refuses
      every spelled-out capability that is not well formed. */
  lemma NormalizeIsExact(input: CapabilityInput, cap: Capability)
    ensures NormalizeCapability(input).Ok? ==> WellFormed(NormalizeCapability(input).value)
    ensures WellFormed(cap) <==> NormalizeCapability(InputOf(cap)) == Ok(cap)
    ensures !WellFormed(cap) <==> NormalizeCapability(InputOf(cap)).Err?
  {
  }

  /** What a normalised capability says: the given fields, and zero for the ones not given. */
  lemma NormalizedFields(input: CapabilityInput)
    requires NormalizeCapability(input).Ok?
    ensures var cap := NormalizeCapability(input).value;
            && cap.serviceId == input.serviceId && cap.issuerId == input.issuerId
            && cap.capabilityId == input.capabilityId && cap.expiry == input.expiry
            && cap.flags as int == input.flags.GetOr(0)
            && (cap.V2? <==> input.version == Some(2))
            && (cap.V2? ==>
                  && cap.subjectType as int == input.subjectType.GetOr(0)
                  && cap.bindingMode as int == input.bindingMode.GetOr(0)
                  && cap.subjectId == input.subjectId.GetOr(ZERO32)
                  && cap.policyHash == input.policyHash.GetOr(ZERO32))
  {
  }

  method EncodeCapability(input: CapabilityInput) returns (r: Result<array<byte>, CodecError>)
    ensures NormalizeCapability(input).Err? ==> r == Err(NormalizeCapability(input).error)
    ensures NormalizeCapability(input).Ok? ==>
              r.Ok? && fresh(r.value) && r.value[..] == Encoding(NormalizeCapability(input).value)
  {
    match NormalizeCapability(input)
    case Err(e) =>
      return Err(e);
    case Ok(cap) =>
      var out := new byte[if cap.V2? then DATA_LEN_V2 else DATA_LEN_V1](_ => 0);
      WriteHeader(out, Version(cap), cap.flags, cap.serviceId, cap.issuerId, cap.capabilityId, cap.expiry);
      if cap.V2? {
        WriteSubject(out, cap.subjectType, cap.bindingMode, cap.subjectId, cap.policyHash);
      } else {
        assert out[..] == out[..106];
      }
      return Ok(out);
  }

  function DecodeCapability(data: Bytes): Result<Capability, CodecError> {
    if |data| == DATA_LEN_V1 then
      if data[0] != VERSION_V1 then Err(CodecUnsupportedVersion) else DecodeFields(data)
    else if |data| == DATA_LEN_V2 then
      if data[0] != VERSION_V2 then Err(CodecUnsupportedVersion) else DecodeFields(data)
    else Err(InvalidLength)
  }

  function DecodeFields(data: Bytes): Result<Capability, CodecError>
    requires |data| == DATA_LEN_V1 || |data| == DATA_LEN_V2
  {
    match ValidateFlags(data[1] as int)
    case Err(e) => Err(e)
    case Ok(flags) =>
      if |data| == DATA_LEN_V1 then
        Ok(V1(flags, data[2..34], data[34..66], data[66..98], U64FromLe(data[98..106])))
      else
        NormalizeCapability(CapabilityInput(
          Some(2), Some(flags as int), data[2..34], data[34..66], data[66..98], U64FromLe(data[98..106]),
          Some(data[106] as int), Some(data[107] as int), Some(data[108..140]), Some(data[140..172])))
  }

  /** Decoding inverts encoding in both directions: a payload decodes to `cap` exactly when
      `cap` is well formed and the payload is its wire image. */
  lemma DecodeInvertsEncode(data: Bytes, cap: Capability)
    ensures DecodeCapability(data) == Ok(cap) <==> WellFormed(cap) && data == Encoding(cap)
  {
    if DecodeCapability(data).Ok? {
      ReadingEncodes(data);
      assert DecodeCapability(data) == Ok(Reading(data));
    }
    EncodingLayout(cap);
  }

  /** The client decoder and the on-chain parser accept the same byte strings and read the
      same fields from them, although they check in different orders. */
  lemma DecoderAgreesWithContract(data: Bytes)
    ensures DecodeCapability(data).Ok? <==> ParseCapability(data).Ok?
    ensures DecodeCapability(data).Ok? ==> ParseCapability(data) == Ok(Kept(DecodeCapability(data).value))
  {
  }

  /** The payload is at fault as the decoder's error says, in numbers. */
  predicate PayloadAtFault(data: Bytes, e: CodecError) {
    match e
    case InvalidLength => |data| != 106 && |data| != 172
    case CodecUnsupportedVersion => (|data| == 106 && data[0] != 1) || (|data| == 172 && data[0] != 2)
    case CodecUnknownFlags => |data| > 1 && data[1] >= 8
    case InvalidBindingMode => |data| == 172 && (data[107] > 3 || (data[106] == 0 && data[107] != 0))
    case InvalidSubject => |data| == 172 && (data[106] == 0 <==> data[108..140] != ZERO32)
    case _ => false
  }

  lemma DecoderNamesAFault(data: Bytes)
    ensures DecodeCapability(data).Err? ==> PayloadAtFault(data, DecodeCapability(data).error)
  {
    if |data| > 1 {
      FlagBits(data[1]);
    }
  }

  /** The 64 bytes of a capability's Type Script args. */
  function EncodeTypeArgs(issuerId: H32, capabilityId: H32): (args: Bytes)
    ensures |args| == 64 && args[..32] == issuerId && args[32..] == capabilityId
  {
    issuerId + capabilityId
  }

  predicate IsActive(cap: Capability, now: int) {
    now < cap.expiry
  }
}
