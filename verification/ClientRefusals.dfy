/** What the client's refusals say: whatever error a builder or the policy check reports, the
    call, the cell or the wallet's result is at fault in the way the error names. */
module ClientRefusals {
  import opened Wrappers
  import opened ByteStrings
  import opened CapabilityFormat
  import opened ContractParser
  import opened CapabilityCodec
  import opened Ckb
  import opened Builders
  import opened LiveVerifier

  // ---- The cell a transfer or a surrender starts from ----

  predicate CellAtFault(deployment: Deployment, live: map<OutPoint, Cell>, o: OutPoint, owner: Script, e: BuildError) {
    if o !in live then e == CellNotLive
    else
      var cell := live[o];
      match e
      case NotACapability => cell.typ == None
      case WrongDeployment =>
        cell.typ.Some?
        && (cell.typ.value.codeHash != deployment.codeHash || cell.typ.value.hashType != deployment.hashType)
      case Codec(_) => ParseCapability(cell.data).Err?
      case IdentityDataMismatch =>
        && cell.typ.Some? && ParseCapability(cell.data).Ok?
        && var cap := ParseCapability(cell.data).value; cell.typ.value.args != cap.issuerId + cap.capabilityId
      case NotTheOwner => cell.lock != owner
      case _ => false
  }

  lemma OwnedNamesAFault(deployment: Deployment, live: map<OutPoint, Cell>, o: OutPoint, owner: Script)
    ensures var r := OwnedCapability(deployment, live, o, owner);
            && (r.Err? ==> CellAtFault(deployment, live, o, owner, r.error))
            && (r.Ok? ==> o in live && r.value.0 == live[o] && live[o].lock == owner && live[o].typ.Some?
                          && ParseCapability(live[o].data) == Ok(Kept(r.value.1))
                          && (r.value.1.V2? ==> |live[o].data| == 172 && live[o].data[107] == r.value.1.bindingMode))
  {
    if o in live {
      DecoderAgreesWithContract(live[o].data);
      if DecodeCapability(live[o].data).Ok? {
        var cap := DecodeCapability(live[o].data).value;
        DecodeInvertsEncode(live[o].data, cap);
        EncodingLayout(cap);
      }
    }
  }

  /** An input from position `first` on is known to be a capability. */
  predicate FundedByCapability(deployment: Deployment, d: Draft, first: nat) {
    exists i :: first <= i < |d.inputs| && d.inputs[i].cellOutput.Some? && d.inputs[i].cellOutput.value.typ.Some?
                && d.inputs[i].cellOutput.value.typ.value.codeHash == deployment.codeHash
                && d.inputs[i].cellOutput.value.typ.value.hashType == deployment.hashType
  }

  // ---- Transfer ----

  predicate TransferAtFault(chain: Chain, wallet: Wallet, cell: Cell, o: OutPoint, recipient: Address, now: int,
                            e: BuildError) {
    match e
    case NonTransferable => |cell.data| > 1 && cell.data[1] as int % 2 == 0
    case AtomicReserved => |cell.data| == 172 && cell.data[107] == 2
    case ExpiredCapability => ParseCapability(cell.data).Ok? && ParseCapability(cell.data).value.expiry <= now
    case InvalidAddress => recipient == Malformed
    case AlreadyOwned => recipient == Valid(cell.lock)
    case _ => recipient.Valid? && CompletionAtFault(chain, wallet, cell, o, recipient.script, e)
  }

  predicate CompletionAtFault(chain: Chain, wallet: Wallet, cell: Cell, o: OutPoint, recipient: Script, e: BuildError) {
    var completed := wallet.completeFee(Draft([TxInput(o, 0, Some(CellOutput(cell.capacity, cell.lock, cell.typ)))],
                                              [CellOutput(cell.capacity, recipient, cell.typ)], [cell.data]));
    if completed.None? then e == WalletFailed
    else
      var d := completed.value;
      match e
      case CapabilityAsFunding => FundedByCapability(chain.deployment, d, 1)
      case CapabilityInputChanged => |d.inputs| == 0 || d.inputs[0].previousOutput != o
      case TypeChanged => |d.outputs| == 0 || d.outputs[0].typ != cell.typ
      case DataChanged => |d.outputsData| == 0 || d.outputsData[0] != cell.data
      case RecipientChanged => |d.outputs| > 0 && d.outputs[0].lock != recipient
      case _ => false
  }

  lemma TransferNamesAFault(chain: Chain, wallet: Wallet, live: map<OutPoint, Cell>, o: OutPoint, recipient: Address,
                            now: int)
    ensures var r := TransferResult(chain, wallet, live, o, recipient, now);
            r.Err? ==> || (r.error == RecipientRequired && recipient == Blank)
                       || CellAtFault(chain.deployment, live, o, wallet.lock, r.error)
                       || (o in live && TransferAtFault(chain, wallet, live[o], o, recipient, now, r.error))
  {
    OwnedNamesAFault(chain.deployment, live, o, wallet.lock);
    if o in live && |live[o].data| > 1 {
      FlagBits(live[o].data[1]);
    }
    if o in live && live[o].typ.Some? && recipient.Valid? {
      CheckedNamesAFault(chain, wallet, o, live[o], recipient.script);
    }
  }

  lemma CheckedNamesAFault(chain: Chain, wallet: Wallet, o: OutPoint, cell: Cell, recipient: Script)
    requires cell.typ.Some?
    ensures var r := TransferChecked(chain, wallet, o, cell, recipient);
            r.Err? ==> CompletionAtFault(chain, wallet, cell, o, recipient, r.error)
  {
  }

  // ---- Surrender ----

  predicate RetirementAtFault(chain: Chain, wallet: Wallet, cell: Cell, o: OutPoint, e: BuildError) {
    var completed := wallet.completeFee(Draft([TxInput(o, 0, Some(CellOutput(cell.capacity, cell.lock, cell.typ)))],
                                              [CellOutput(cell.capacity, cell.lock, None)], [[]]));
    if completed.None? then e == WalletFailed
    else
      var d := completed.value;
      match e
      case CapabilityInputChanged => |d.inputs| == 0 || d.inputs[0].previousOutput != o
      case SuccessorCreated =>
        exists k :: 0 <= k < |d.outputs| && d.outputs[k].typ.Some?
                    && d.outputs[k].typ.value.codeHash == chain.deployment.codeHash
                    && d.outputs[k].typ.value.hashType == chain.deployment.hashType
      case CapabilityAsFunding => FundedByCapability(chain.deployment, d, 1)
      case _ => false
  }

  lemma SurrenderNamesAFault(chain: Chain, wallet: Wallet, live: map<OutPoint, Cell>, o: OutPoint)
    ensures var r := SurrenderResult(chain, wallet, live, o);
            r.Err? ==> || CellAtFault(chain.deployment, live, o, wallet.lock, r.error)
                       || (o in live && RetirementAtFault(chain, wallet, live[o], o, r.error))
  {
    OwnedNamesAFault(chain.deployment, live, o, wallet.lock);
  }

  // ---- Issue ----

  predicate ParametersAtFault(p: IssueParams, now: int, e: BuildError) {
    match e
    case RecipientRequired => p.recipient == Blank
    case InvalidAddress => p.recipient == Malformed
    case FlagsNotAByte => p.flags < 0 || p.flags >= 256
    case ExpiryNotInFuture => p.expiry <= now
    case VersionUnsupported => p.version.Some? && p.version.value != 1 && p.version.value != 2
    case AtomicReserved => p.version == Some(2) && p.bindingMode == Some(2)
    case Codec(error) => FieldsAtFault(p, error)
    case _ => false
  }

  /** The codec's refusals of issue parameters, in numbers. */
  predicate FieldsAtFault(p: IssueParams, e: CodecError) {
    var subjectType, bindingMode := p.subjectType.GetOr(0), p.bindingMode.GetOr(0);
    match e
    case InvalidLength =>
      || |p.serviceId| != 32
      || (p.version == Some(2) && (|p.subjectId.GetOr(ZERO32)| != 32 || |p.policyHash.GetOr(ZERO32)| != 32))
    case CodecUnknownFlags => p.flags >= 8
    case InvalidExpiry => p.expiry < 0 || p.expiry >= 0x1_0000_0000_0000_0000
    case InvalidSubjectType => p.version == Some(2) && (subjectType < 0 || subjectType > 255)
    case InvalidBindingMode =>
      p.version == Some(2) && (bindingMode < 0 || bindingMode > 3 || (bindingMode != 0 && subjectType == 0))
    case InvalidSubject => p.version == Some(2) && (subjectType == 0 <==> p.subjectId.GetOr(ZERO32) != ZERO32)
    case _ => false
  }

  predicate FundingAtFault(chain: Chain, wallet: Wallet, d: Draft, e: BuildError) {
    match e
    case NoFundingInput => |d.inputs| == 0
    case CapabilityAsFunding => FundedByCapability(chain.deployment, d, 0)
    case OutputMissing => |d.outputs| == 0
    case _ => false
  }

  /** The wallet's second completion is at fault, given the first one. */
  ghost predicate FeeAtFault(chain: Chain, wallet: Wallet, funded: Draft, e: BuildError) {
    exists named: Draft ::
      && named.inputs == funded.inputs
      && match wallet.completeFee(named)
         case None => e == WalletFailed
         case Some(d) =>
           || FundingAtFault(chain, wallet, d, e)
           || (e == FirstInputChanged && |d.inputs| > 0 && |funded.inputs| > 0
               && CreationId(chain, PlainInput(d.inputs[0]), 0) != CreationId(chain, PlainInput(funded.inputs[0]), 0))
  }

  ghost predicate IssueCompletionAtFault(chain: Chain, wallet: Wallet, e: BuildError) {
    exists before: Draft ::
      && before.inputs == []
      && match wallet.completeInputs(before)
         case None => e == WalletFailed
         case Some(funded) => FundingAtFault(chain, wallet, funded, e) || FeeAtFault(chain, wallet, funded, e)
  }

  lemma FieldsNameAFault(p: IssueParams, issuerId: H32, id: H32)
    ensures var r := NormalizeCapability(IssueInput(p, issuerId, id));
            r.Err? && 0 <= p.flags < 256 && p.version.GetOr(1) in {1, 2} ==> FieldsAtFault(p, r.error)
  {
    if 0 <= p.flags < 256 {
      FlagBits(p.flags as byte);
    }
  }

  lemma IssueNamesAFault(chain: Chain, wallet: Wallet, p: IssueParams, now: int)
    ensures var r := IssueResult(chain, wallet, p, now);
            r.Err? ==> ParametersAtFault(p, now, r.error) || IssueCompletionAtFault(chain, wallet, r.error)
  {
    var issuerId := chain.scriptHash(wallet.lock);
    if IssueRefusal(p, now).None? && NormalizeCapability(IssueInput(p, issuerId, ZERO32)).Ok? {
      var placeholder := NormalizeCapability(IssueInput(p, issuerId, ZERO32)).value;
      var before := IssueDraft(chain, p.recipient.script, issuerId, placeholder);
      var completed := wallet.completeInputs(before);
      if IssueResult(chain, wallet, p, now).Err? {
        if completed.Some? && completed.value.inputs != [] {
          FundedNamesAFault(chain, wallet, p, issuerId, completed.value);
        }
        assert IssueCompletionAtFault(chain, wallet, IssueResult(chain, wallet, p, now).error) by {
          assert before.inputs == [];
        }
      }
    } else {
      RefusedNamesAFault(p, now, issuerId);
    }
  }

  lemma RefusedNamesAFault(p: IssueParams, now: int, issuerId: H32)
    ensures var e := IssueRefusal(p, now);
            && (e.Some? ==> ParametersAtFault(p, now, e.value))
            && (e.None? && NormalizeCapability(IssueInput(p, issuerId, ZERO32)).Err? ==>
                  ParametersAtFault(p, now, Codec(NormalizeCapability(IssueInput(p, issuerId, ZERO32)).error)))
  {
    FieldsNameAFault(p, issuerId, ZERO32);
  }

  lemma FundedNamesAFault(chain: Chain, wallet: Wallet, p: IssueParams, issuerId: H32, funded: Draft)
    requires funded.inputs != [] && p.recipient.Valid? && NormalizeCapability(IssueInput(p, issuerId, ZERO32)).Ok?
    ensures var r := IssueFunded(chain, wallet, p, issuerId, funded);
            r.Err? ==> FundingAtFault(chain, wallet, funded, r.error) || FeeAtFault(chain, wallet, funded, r.error)
  {
    var id := CreationId(chain, PlainInput(funded.inputs[0]), 0);
    assert NormalizeCapability(IssueInput(p, issuerId, id)).Ok?;
    var cap := NormalizeCapability(IssueInput(p, issuerId, id)).value;
    if funded.outputs != [] {
      var named := Named(funded, CapabilityTypeScript(chain.deployment, issuerId, id), Encoding(cap));
      assert named.inputs == funded.inputs;
    }
  }

  // ---- Verification ----

  /** A policy's refusals, in numbers. */
  predicate PolicyAtFault(cap: Capability, policy: Policy, now: int, e: VerifyError) {
    match e
    case MalformedId =>
      || |policy.expectedServiceId| != 32
      || (policy.trustedIssuerIds.Some? && exists v :: v in policy.trustedIssuerIds.value && |v| != 0 && |v| != 32)
      || (policy.trustedIssuerId.Some? && |policy.trustedIssuerId.value| != 0 && |policy.trustedIssuerId.value| != 32)
    case OtherService => cap.serviceId != policy.expectedServiceId
    case UntrustedIssuer =>
      && (policy.trustedIssuerIds.Some? ==> cap.issuerId !in policy.trustedIssuerIds.value)
      && (policy.trustedIssuerIds.None? ==> policy.trustedIssuerId != Some(cap.issuerId))
    case MustBeTransferable => policy.requireTransferable != Some(false) && cap.flags as int % 2 == 0
    case Expired => cap.expiry <= now
    case _ => false
  }

  lemma PolicyNamesAFault(cap: Capability, policy: Policy, now: int)
    ensures var e := CheckPolicy(cap, policy, now);
            e.Some? ==> PolicyAtFault(cap, policy, now, e.value)
  {
    FlagBits(cap.flags);
  }
}
