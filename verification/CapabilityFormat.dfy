/** The two wire formats of a capability, and the byte-vector builders of the contract's test suite. */
module CapabilityFormat {
  import opened ByteStrings

  const DATA_LEN_V1 := 106
  const DATA_LEN_V2 := 172
  const VERSION_V1: byte := 1
  const VERSION_V2: byte := 2
  const SUBJECT_NONE: byte := 0
  const BINDING_HOLDER: byte := 0
  const BINDING_ATOMIC: byte := 2
  const BINDING_LICENSE: byte := 3
  const FLAG_TRANSFERABLE: bv8 := 1
  const FLAG_DELEGATABLE: bv8 := 2
  const FLAG_REVOCABLE: bv8 := 4
  const KNOWN_FLAGS_MASK: bv8 := FLAG_TRANSFERABLE | FLAG_DELEGATABLE | FLAG_REVOCABLE

  datatype Capability =
    | V1(flags: byte, serviceId: H32, issuerId: H32, capabilityId: H32, expiry: U64)
    | V2(flags: byte, serviceId: H32, issuerId: H32, capabilityId: H32, expiry: U64,
         subjectType: byte, bindingMode: byte, subjectId: H32, policyHash: H32)

  predicate HasUnknownFlags(flags: byte) {
    (flags as bv8) & !KNOWN_FLAGS_MASK != 0
  }

  predicate HasFlag(flags: byte, flag: bv8) {
    (flags as bv8) & flag == flag
  }

  /** The flags in numbers: three bits are known, and each flag is one of them. */
  lemma FlagBits(flags: byte)
    ensures HasUnknownFlags(flags) <==> flags as int >= 8
    ensures HasFlag(flags, FLAG_TRANSFERABLE) <==> flags as int % 2 == 1
    ensures HasFlag(flags, FLAG_DELEGATABLE) <==> flags as int / 2 % 2 == 1
    ensures HasFlag(flags, FLAG_REVOCABLE) <==> flags as int / 4 % 2 == 1
  {
    var b: bv8 := flags as bv8;
    assert b & !7 != 0 <==> b >= 8;
    assert b & 1 == 1 <==> b % 2 == 1;
    assert b & 2 == 2 <==> (b / 2) % 2 == 1;
    assert b & 4 == 4 <==> (b / 4) % 2 == 1;
  }

  /** What every implementation promises about a capability it accepts. */
  predicate WellFormed(cap: Capability) {
    && !HasUnknownFlags(cap.flags)
    && (cap.V2? ==>
          && cap.bindingMode <= BINDING_LICENSE
          && (cap.subjectType == SUBJECT_NONE <==> cap.subjectId == ZERO32)
          && (cap.bindingMode != BINDING_HOLDER ==> cap.subjectType != SUBJECT_NONE))
  }

  function Version(cap: Capability): byte {
    if cap.V1? then VERSION_V1 else VERSION_V2
  }

  /** The fields both formats share, at bytes 0 to 105. */
  function Header(cap: Capability): (b: Bytes)
    ensures |b| == DATA_LEN_V1
  {
    [Version(cap), cap.flags] + cap.serviceId + cap.issuerId + cap.capabilityId + Le(cap.expiry, 8)
  }

  function Encoding(cap: Capability): (b: Bytes)
    ensures |b| == if cap.V1? then DATA_LEN_V1 else DATA_LEN_V2
  {
    match cap
    case V1(_, _, _, _, _) => Header(cap)
    case V2(_, _, _, _, _, subjectType, bindingMode, subjectId, policyHash) =>
      Header(cap) + ([subjectType, bindingMode] + subjectId + policyHash)
  }

  lemma HeaderLayout(cap: Capability)
    ensures var b := Header(cap);
            && b[0] == Version(cap) && b[1] == cap.flags
            && b[2..34] == cap.serviceId && b[34..66] == cap.issuerId
            && b[66..98] == cap.capabilityId && b[98..106] == Le(cap.expiry, 8)
  {
  }

  /** Where each field of an encoding sits. */
  lemma EncodingLayout(cap: Capability)
    ensures var b := Encoding(cap);
            && b[0] == Version(cap) && b[1] == cap.flags
            && b[2..34] == cap.serviceId && b[34..66] == cap.issuerId
            && b[66..98] == cap.capabilityId && U64FromLe(b[98..106]) == cap.expiry
    ensures cap.V2? ==> var b := Encoding(cap);
                        && b[106] == cap.subjectType && b[107] == cap.bindingMode
                        && b[108..140] == cap.subjectId && b[140..172] == cap.policyHash
  {
    HeaderLayout(cap);
    U64RoundTrip(cap.expiry);
    if cap.V2? {
      var tail := [cap.subjectType, cap.bindingMode] + cap.subjectId + cap.policyHash;
      InHeader(Header(cap), tail);
      assert Encoding(cap)[108..140] == tail[2..34] && Encoding(cap)[140..172] == tail[34..66];
    }
  }

  /** What follows a header does not disturb its fields. */
  lemma InHeader(header: Bytes, tail: Bytes)
    requires |header| == DATA_LEN_V1
    ensures var b := header + tail;
            && b[0] == header[0] && b[1] == header[1] && b[2..34] == header[2..34] && b[34..66] == header[34..66]
            && b[66..98] == header[66..98] && b[98..106] == header[98..106]
  {
  }

  /** A wire image names at most one capability. */
  lemma EncodingInjective(a: Capability, b: Capability)
    requires Encoding(a) == Encoding(b)
    ensures a == b
  {
    EncodingLayout(a);
    EncodingLayout(b);
  }

  // ---- The reference builders, which write slices of a byte vector in place ----

  method CopyFromSlice(out: array<byte>, start: nat, src: Bytes)
    requires start + |src| <= out.Length
    modifies out
    ensures out[..start] == old(out[..start])
    ensures out[..start + |src|] == old(out[..start]) + src
    ensures out[start + |src|..] == old(out[start + |src|..])
  {
    for i := 0 to |src|
      invariant out[..start + i] == old(out[..start]) + src[..i]
      invariant out[start + i..] == old(out[start + i..])
    {
      out[start + i] := src[i];
      assert out[..start + i + 1] == out[..start + i] + [src[i]];
      assert out[start + i + 1..] == old(out[start + i..])[1..];
    }
    assert out[..start] == out[..start + |src|][..start];
  }

  method WriteHeader(out: array<byte>, version: byte, flags: byte, service: H32, issuer: H32, capId: H32, expiry: U64)
    requires out.Length >= DATA_LEN_V1
    modifies out
    ensures out[..106] == [version, flags] + service + issuer + capId + Le(expiry, 8)
  {
    out[0] := version;
    out[1] := flags;
    assert out[..2] == [version, flags];
    CopyFromSlice(out, 2, service);
    CopyFromSlice(out, 34, issuer);
    CopyFromSlice(out, 66, capId);
    CopyFromSlice(out, 98, Le(expiry, 8));
  }

  method WriteSubject(out: array<byte>, subjectType: byte, bindingMode: byte, subjectId: H32, policyHash: H32)
    requires out.Length == DATA_LEN_V2
    modifies out
    ensures out[..] == old(out[..106]) + ([subjectType, bindingMode] + subjectId + policyHash)
  {
    ghost var header := out[..106];
    out[106] := subjectType;
    out[107] := bindingMode;
    assert out[..108] == header + [subjectType, bindingMode];
    CopyFromSlice(out, 108, subjectId);
    CopyFromSlice(out, 140, policyHash);
    assert out[..] == out[..172];
  }

  method CapabilityData(flags: byte, service: H32, issuer: H32, capId: H32, expiry: U64)
      returns (out: array<byte>)
    ensures fresh(out) && out[..] == Encoding(V1(flags, service, issuer, capId, expiry))
  {
    out := new byte[DATA_LEN_V1](_ => 0);
    WriteHeader(out, VERSION_V1, flags, service, issuer, capId, expiry);
    assert out[..] == out[..106];
  }

  method CapabilityDataV2(flags: byte, service: H32, issuer: H32, capId: H32, expiry: U64,
                          subjectType: byte, bindingMode: byte, subjectId: H32, policyHash: H32)
      returns (out: array<byte>)
    ensures fresh(out)
    ensures out[..] == Encoding(V2(flags, service, issuer, capId, expiry,
                                   subjectType, bindingMode, subjectId, policyHash))
  {
    out := new byte[DATA_LEN_V2](_ => 0);
    WriteHeader(out, VERSION_V2, flags, service, issuer, capId, expiry);
    WriteSubject(out, subjectType, bindingMode, subjectId, policyHash);
  }
}
