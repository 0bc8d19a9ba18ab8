/** The JavaScript reference of the transition rules, against the contract it stands in for. */
module ReferenceModel {
  import opened Wrappers
  import opened ByteStrings
  import opened CapabilityFormat
  import opened ContractParser
  import opened CapabilityCodec
  import opened Ckb
  import opened CapabilityType

  datatype ProtocolError =
    | CodecFailure(error: CodecError)
    | ArgsLength
    | IssuerArgsMismatch
    | CapabilityArgsMismatch
    | MissingIssuerAuth
    | ImmutableField
    | ArgsIdentityMismatch
    | TransferForbiddenByRule
    | GroupShape

  function ValidateIssue(outputData: Bytes, typeArgs: Bytes, inputLockHashes: seq<H32>): Result<Capability,
                         ProtocolError> {
    match DecodeCapability(outputData)
    case Err(e) => Err(CodecFailure(e))
    case Ok(cap) =>
      if |typeArgs| != 64 then Err(ArgsLength)
      else if cap.issuerId != typeArgs[..32] then Err(IssuerArgsMismatch)
      else if cap.capabilityId != typeArgs[32..] then Err(CapabilityArgsMismatch)
      else if typeArgs[..32] !in inputLockHashes then Err(MissingIssuerAuth)
      else Ok(cap)
  }

  /** The field-by-field comparison: the six common fields, and the four subject fields as
      soon as either side has them. */
  predicate SameFields(before: Capability, after: Capability) {
    && Version(before) == Version(after)
    && before.flags == after.flags && before.serviceId == after.serviceId && before.issuerId == after.issuerId
    && before.capabilityId == after.capabilityId && before.expiry == after.expiry
    && (before.V2? && after.V2? ==>
          && before.subjectType == after.subjectType && before.bindingMode == after.bindingMode
          && before.subjectId == after.subjectId && before.policyHash == after.policyHash)
  }

  function ValidateTransition(inputData: Bytes, outputData: Bytes, inputLockHash: H32, outputLockHash: H32,
                              typeArgs: Bytes)
      : Result<Capability, ProtocolError>
  {
    match DecodeCapability(inputData)
    case Err(e) => Err(CodecFailure(e))
    case Ok(before) =>
      match DecodeCapability(outputData)
      case Err(e) => Err(CodecFailure(e))
      case Ok(after) =>
        if |typeArgs| != 64 then Err(ArgsLength)
        else if !SameFields(before, after) then Err(ImmutableField)
        else if before.issuerId != typeArgs[..32] || before.capabilityId != typeArgs[32..]
             then Err(ArgsIdentityMismatch)
        else if inputLockHash != outputLockHash && !HasFlag(before.flags, FLAG_TRANSFERABLE)
             then Err(TransferForbiddenByRule)
        else Ok(after)
  }

  function ValidateSurrender(inputData: Bytes, typeArgs: Bytes): Result<Capability, ProtocolError> {
    match DecodeCapability(inputData)
    case Err(e) => Err(CodecFailure(e))
    case Ok(cap) =>
      if |typeArgs| != 64 then Err(ArgsLength)
      else if cap.issuerId != typeArgs[..32] || cap.capabilityId != typeArgs[32..] then Err(ArgsIdentityMismatch)
      else Ok(cap)
  }

  datatype Shape = ISSUE | TRANSITION | SURRENDER

  function ValidateGroupShape(inputCount: nat, outputCount: nat): Result<Shape, ProtocolError> {
    if inputCount == 0 && outputCount == 1 then Ok(ISSUE)
    else if inputCount == 1 && outputCount == 1 then Ok(TRANSITION)
    else if inputCount == 1 && outputCount == 0 then Ok(SURRENDER)
    else Err(GroupShape)
  }

  /** Comparing all decoded fields is comparing the payloads byte for byte. */
  lemma FieldsAreBytes(a: Bytes, b: Bytes)
    requires DecodeCapability(a).Ok? && DecodeCapability(b).Ok?
    ensures SameFields(DecodeCapability(a).value, DecodeCapability(b).value) <==> a == b
  {
    DecodeInvertsEncode(a, DecodeCapability(a).value);
    DecodeInvertsEncode(b, DecodeCapability(b).value);
  }

  function LockHashes(chain: Chain, cells: seq<Cell>): (hashes: seq<H32>)
    ensures |hashes| == |cells| && forall j :: 0 <= j < |cells| ==> hashes[j] == chain.scriptHash(cells[j].lock)
  {
    if cells == [] then [] else [chain.scriptHash(cells[0].lock)] + LockHashes(chain, cells[1..])
  }

  /** The reference, run the way the contract is run: on one script group of a transaction. */
  function Reference(chain: Chain, script: Script, tx: Tx, consumed: seq<Cell>): Result<Capability, ProtocolError> {
    var ins, outs := Group(consumed, script), Group(tx.outputs, script);
    match ValidateGroupShape(|ins|, |outs|)
    case Err(e) => Err(e)
    case Ok(ISSUE) =>
      assert outs[0] in outs;
      ValidateIssue(tx.outputs[outs[0]].data, script.args, LockHashes(chain, consumed))
    case Ok(TRANSITION) =>
      assert ins[0] in ins && outs[0] in outs;
      ValidateTransition(consumed[ins[0]].data, tx.outputs[outs[0]].data,
                         chain.scriptHash(consumed[ins[0]].lock),
                         chain.scriptHash(tx.outputs[outs[0]].lock), script.args)
    case Ok(SURRENDER) =>
      assert ins[0] in ins;
      ValidateSurrender(consumed[ins[0]].data, script.args)
  }

  lemma IssueAgrees(chain: Chain, tx: Tx, consumed: seq<Cell>, index: nat, args: Bytes)
    requires index < |tx.outputs| && |args| == 64
    ensures VerifyIssue(chain, tx, consumed, index, args[..32], args[32..]).Ok? <==>
              && ValidateIssue(tx.outputs[index].data, args, LockHashes(chain, consumed)).Ok?
              && VerifyCreationId(chain, tx, index, args[32..]).Ok?
  {
    DecoderAgreesWithContract(tx.outputs[index].data);
    AuthorizedByHash(chain, consumed, args[..32]);
  }

  lemma TransitionAgrees(chain: Chain, input: Cell, output: Cell, args: Bytes)
    requires |args| == 64
    ensures VerifyTransition(chain, input, output, args[..32], args[32..]).Ok? <==>
              ValidateTransition(input.data, output.data, chain.scriptHash(input.lock),
                                 chain.scriptHash(output.lock), args).Ok?
  {
    DecoderAgreesWithContract(input.data);
    DecoderAgreesWithContract(output.data);
    if DecodeCapability(input.data).Ok? && DecodeCapability(output.data).Ok? {
      FieldsAreBytes(input.data, output.data);
      FlagTestsAgree(DecodeCapability(input.data).value.flags);
    }
  }

  lemma SurrenderAgrees(input: Cell, args: Bytes)
    requires |args| == 64
    ensures VerifySurrender(input, args[..32], args[32..]).Ok? <==> ValidateSurrender(input.data, args).Ok?
  {
  }

  /** The reference accepts exactly what the contract accepts, but for one rule it does not
      have: the contract also demands the creation id of an issue. */
  lemma ContractIsReferencePlusCreationId(chain: Chain, script: Script, tx: Tx, consumed: seq<Cell>)
    ensures var outs := Group(tx.outputs, script);
            Run(chain, script, tx, consumed).Ok? <==>
              && Reference(chain, script, tx, consumed).Ok?
              && (Group(consumed, script) == [] ==>
                    |outs| == 1 && VerifyCreationId(chain, tx, outs[0], script.args[32..]).Ok?)
  {
    var ins, outs := Group(consumed, script), Group(tx.outputs, script);
    if |script.args| == 64 {
      if |ins| == 0 && |outs| == 1 {
        assert outs[0] in outs;
        IssueAgrees(chain, tx, consumed, outs[0], script.args);
      } else if |ins| == 1 && |outs| == 1 {
        assert ins[0] in ins && outs[0] in outs;
        TransitionAgrees(chain, consumed[ins[0]], tx.outputs[outs[0]], script.args);
      } else if |ins| == 1 && |outs| == 0 {
        assert ins[0] in ins;
        SurrenderAgrees(consumed[ins[0]], script.args);
      }
    }
  }

  lemma AuthorizedByHash(chain: Chain, consumed: seq<Cell>, issuer: H32)
    ensures IssuerAuthorized(chain, consumed, issuer) <==> issuer in LockHashes(chain, consumed)
  {
  }

  /** The contract's name for the rule a reference error stands for. */
  function AsContract(e: ProtocolError): ContractError {
    match e
    case CodecFailure(_) => MalformedData
    case ArgsLength => InvalidArgs
    case IssuerArgsMismatch => ContractError.IdentityMismatch
    case CapabilityArgsMismatch => ContractError.IdentityMismatch
    case ArgsIdentityMismatch => ContractError.IdentityMismatch
    case MissingIssuerAuth => MissingIssuerAuthorization
    case ImmutableField => ImmutableFieldChanged
    case TransferForbiddenByRule => TransferForbidden
    case GroupShape => InvalidGroupShape
  }

  /** The reference never misnames what is wrong either. */
  lemma ReferenceNamesABreach(chain: Chain, script: Script, tx: Tx, consumed: seq<Cell>)
    ensures var r := Reference(chain, script, tx, consumed);
            r.Err? ==> Named(chain, script, tx, consumed, r.error)
  {
    var ins, outs := Group(consumed, script), Group(tx.outputs, script);
    if |ins| == 0 && |outs| == 1 {
      assert outs[0] in outs;
      IssueBreach(chain, script, tx, consumed, outs[0]);
    } else if |ins| == 1 && |outs| == 1 {
      assert ins[0] in ins && outs[0] in outs;
      TransitionBreach(chain, script, tx, consumed, ins[0], outs[0]);
    } else if |ins| == 1 && |outs| == 0 {
      assert ins[0] in ins;
      SurrenderBreach(chain, script, tx, consumed, ins[0]);
    }
  }

  ghost predicate Named(chain: Chain, script: Script, tx: Tx, consumed: seq<Cell>, e: ProtocolError) {
    if e.CodecFailure? then exists data :: InGroup(script, tx, consumed, data) && ParseCapability(data).Err?
    else BreaksRule(chain, script, tx, consumed, AsContract(e))
  }

  lemma IssueBreach(chain: Chain, script: Script, tx: Tx, consumed: seq<Cell>, k: nat)
    requires k < |tx.outputs| && tx.outputs[k].typ == Some(script)
    ensures var r := ValidateIssue(tx.outputs[k].data, script.args, LockHashes(chain, consumed));
            r.Err? ==> Named(chain, script, tx, consumed, r.error)
  {
    DecoderAgreesWithContract(tx.outputs[k].data);
    assert InGroup(script, tx, consumed, tx.outputs[k].data);
    if |script.args| == 64 {
      AuthorizedByHash(chain, consumed, script.args[..32]);
    }
  }

  lemma TransitionBreach(chain: Chain, script: Script, tx: Tx, consumed: seq<Cell>, j: nat, k: nat)
    requires j < |consumed| && k < |tx.outputs| && consumed[j].typ == tx.outputs[k].typ == Some(script)
    ensures var r := ValidateTransition(consumed[j].data, tx.outputs[k].data, chain.scriptHash(consumed[j].lock),
                                        chain.scriptHash(tx.outputs[k].lock), script.args);
            r.Err? ==> Named(chain, script, tx, consumed, r.error)
  {
    DecoderAgreesWithContract(consumed[j].data);
    DecoderAgreesWithContract(tx.outputs[k].data);
    assert InGroup(script, tx, consumed, consumed[j].data) && InGroup(script, tx, consumed, tx.outputs[k].data);
    if |consumed[j].data| > 1 {
      FlagBits(consumed[j].data[1]);
    }
    if DecodeCapability(consumed[j].data).Ok? && DecodeCapability(tx.outputs[k].data).Ok? {
      FieldsAreBytes(consumed[j].data, tx.outputs[k].data);
    }
  }

  lemma SurrenderBreach(chain: Chain, script: Script, tx: Tx, consumed: seq<Cell>, j: nat)
    requires j < |consumed| && consumed[j].typ == Some(script)
    ensures var r := ValidateSurrender(consumed[j].data, script.args);
            r.Err? ==> Named(chain, script, tx, consumed, r.error)
  {
    DecoderAgreesWithContract(consumed[j].data);
    assert InGroup(script, tx, consumed, consumed[j].data);
  }
}
