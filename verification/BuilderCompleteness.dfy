/** The other half of the builders' promise: their guards refuse nothing an honest wallet does. */
module BuilderCompleteness {
  import opened Wrappers
  import opened ByteStrings
  import opened CapabilityFormat
  import opened ContractParser
  import opened CapabilityCodec
  import opened Ckb
  import opened Builders
  import opened BuilderGuarantees
  import opened BuilderExactness
  import opened LiveVerifier

  /** Completion that only appends: plain outputs, and inputs that are not capability cells. */
  predicate Honest(deployment: Deployment, before: Draft, after: Draft) {
    && before.inputs <= after.inputs && before.outputs <= after.outputs && before.outputsData <= after.outputsData
    && (forall i :: |before.inputs| <= i < |after.inputs| ==> !IsCapabilityInput(deployment, after.inputs[i]))
    && (forall k :: |before.outputs| <= k < |after.outputs| ==> !IsCapabilityType(deployment, after.outputs[k].typ))
  }

  ghost predicate HonestWallet(deployment: Deployment, wallet: Wallet) {
    && (forall d :: wallet.completeInputs(d).Some? ==> Honest(deployment, d, wallet.completeInputs(d).value))
    && (forall d :: wallet.completeFee(d).Some? ==> Honest(deployment, d, wallet.completeFee(d).value))
  }

  /** The right at `o` is live, readable and owned by `owner`. */
  predicate Owns(deployment: Deployment, live: map<OutPoint, Cell>, o: OutPoint, owner: Script) {
    o in live && ReadCapability(deployment, live[o]).Ok? && live[o].lock == owner
  }

  /** With an honest wallet that completes, a transfer is built exactly when the connected
      owner holds a live, transferable, active right that is not atomically bound and names a
      different recipient; and what is built meets every condition of its acceptance. */
  lemma HonestTransferExact(chain: Chain, wallet: Wallet, live: map<OutPoint, Cell>, o: OutPoint, recipient: Script,
                            now: int)
    requires HonestWallet(chain.deployment, wallet) && forall d :: wallet.completeFee(d).Some?
    ensures TransferResult(chain, wallet, live, o, Valid(recipient), now).Ok? <==>
              && Owns(chain.deployment, live, o, wallet.lock)
              && var cap := ReadCapability(chain.deployment, live[o]).value;
                 HasFlag(cap.flags, FLAG_TRANSFERABLE) && !Atomic(live[o].data)
                 && IsActive(cap, now) && recipient != wallet.lock
    ensures TransferResult(chain, wallet, live, o, Valid(recipient), now).Ok? ==>
              var d := TransferResult(chain, wallet, live, o, Valid(recipient), now).value;
              && PlainChange(chain.deployment, d)
              && d.inputs != [] && d.inputs[0] == TxInput(o, 0, Some(OutputPart(live[o])))
              && d.outputs != [] && d.outputs[0] == OutputPart(live[o]).(lock := recipient)
  {
  }

  /** With an honest wallet that completes, a surrender is built exactly for the owner of a
      live right, transferable or not, active or expired; the first output is then the refund. */
  lemma HonestSurrenderExact(chain: Chain, wallet: Wallet, live: map<OutPoint, Cell>, o: OutPoint)
    requires HonestWallet(chain.deployment, wallet) && forall d :: wallet.completeFee(d).Some?
    ensures SurrenderResult(chain, wallet, live, o).Ok? <==> Owns(chain.deployment, live, o, wallet.lock)
    ensures SurrenderResult(chain, wallet, live, o).Ok? ==>
              var d := SurrenderResult(chain, wallet, live, o).value.0;
              && d.inputs != [] && d.inputs[0] == TxInput(o, 0, Some(OutputPart(live[o])))
              && d.outputs != [] && d.outputs[0] == OutputPart(Refund(live[o]))
              && d.outputsData != [] && d.outputsData[0] == []
  {
  }

  /** A payload that encodes with one id encodes with any other. */
  lemma EncodableWithAnyId(p: IssueParams, issuerId: H32, id: H32, id': H32)
    ensures NormalizeCapability(IssueInput(p, issuerId, id)).Ok? <==>
              NormalizeCapability(IssueInput(p, issuerId, id')).Ok?
  {
  }

  /** The parameters an issue can be built from, in numbers. */
  predicate Acceptable(p: IssueParams, now: int) {
    && p.recipient.Valid? && p.version in {None, Some(1), Some(2)}
    && 0 <= p.flags < 8 && now < p.expiry && 0 <= p.expiry < 0x1_0000_0000_0000_0000 && |p.serviceId| == 32
    && (p.version == Some(2) ==>
          var subjectType, bindingMode := p.subjectType.GetOr(0), p.bindingMode.GetOr(0);
          var subjectId, policyHash := p.subjectId.GetOr(ZERO32), p.policyHash.GetOr(ZERO32);
          && 0 <= subjectType < 256 && bindingMode in {0, 1, 3} && |subjectId| == |policyHash| == 32
          && (subjectType == 0 <==> forall k :: 0 <= k < 32 ==> subjectId[k] == 0)
          && (subjectType == 0 ==> bindingMode == 0))
  }

  lemma AcceptableExactly(p: IssueParams, now: int, issuerId: H32, id: H32)
    ensures Acceptable(p, now) <==> IssueRefusal(p, now).None? && NormalizeCapability(IssueInput(p, issuerId, id)).Ok?
  {
    if 0 <= p.flags < 256 {
      FlagBits(p.flags as byte);
    }
    if |p.subjectId.GetOr(ZERO32)| == 32 {
      AllZeroIsZero32(p.subjectId.GetOr(ZERO32));
    }
  }

  /** With an honest wallet that completes and selects an input, an issue is built exactly for
      acceptable parameters; the first output is then the new right, under the recipient's lock. */
  lemma HonestIssueExact(chain: Chain, wallet: Wallet, p: IssueParams, now: int)
    requires HonestWallet(chain.deployment, wallet) && forall d :: wallet.completeFee(d).Some?
    requires forall d :: wallet.completeInputs(d).Some? && wallet.completeInputs(d).value.inputs != []
    ensures IssueResult(chain, wallet, p, now).Ok? <==> Acceptable(p, now)
    ensures IssueResult(chain, wallet, p, now).Ok? ==>
              var issued := IssueResult(chain, wallet, p, now).value;
              && KeepsFirstOutput(issued.tx, IssuedScript(chain, issued), issued.data)
              && PlainChange(chain.deployment, issued.tx)
              && issued.tx.outputs[0].lock == p.recipient.script
  {
    var issuerId := chain.scriptHash(wallet.lock);
    AcceptableExactly(p, now, issuerId, ZERO32);
    if IssueRefusal(p, now).None? && NormalizeCapability(IssueInput(p, issuerId, ZERO32)).Ok? {
      var placeholder := NormalizeCapability(IssueInput(p, issuerId, ZERO32)).value;
      var draft := IssueDraft(chain, p.recipient.script, issuerId, placeholder);
      var funded := wallet.completeInputs(draft).value;
      assert Honest(chain.deployment, draft, funded);
      HonestFunding(chain, wallet, p, issuerId, draft, funded);
    }
  }

  /** The second phase: once an honest wallet has funded the placeholder, nothing fails. */
  lemma HonestFunding(chain: Chain, wallet: Wallet, p: IssueParams, issuerId: H32, draft: Draft, funded: Draft)
    requires HonestWallet(chain.deployment, wallet) && forall d :: wallet.completeFee(d).Some?
    requires p.recipient.Valid? && NormalizeCapability(IssueInput(p, issuerId, ZERO32)).Ok?
    requires draft.inputs == [] && |draft.outputs| == |draft.outputsData| == 1
    requires draft.outputs[0].lock == p.recipient.script
    requires Honest(chain.deployment, draft, funded) && funded.inputs != []
    ensures NoCapabilityFunding(chain.deployment, funded.inputs, 0)
    ensures IssueFunded(chain, wallet, p, issuerId, funded).Ok?
    ensures var issued := IssueFunded(chain, wallet, p, issuerId, funded).value;
            && KeepsFirstOutput(issued.tx, IssuedScript(chain, issued), issued.data)
            && PlainChange(chain.deployment, issued.tx)
            && issued.tx.outputs[0].lock == p.recipient.script
  {
    var id := CreationId(chain, PlainInput(funded.inputs[0]), 0);
    EncodableWithAnyId(p, issuerId, ZERO32, id);
    var cap := NormalizeCapability(IssueInput(p, issuerId, id)).value;
    var typ := CapabilityTypeScript(chain.deployment, issuerId, id);
    var named := Named(funded, typ, Encoding(cap));
    var final := wallet.completeFee(named).value;
    assert Honest(chain.deployment, named, final);
    assert final.inputs[0] == named.inputs[0] && final.outputs[0] == named.outputs[0]
           && final.outputsData[0] == named.outputsData[0];
    assert named.outputs[0].lock == p.recipient.script;
    forall i | 0 <= i < |final.inputs|
      ensures !IsCapabilityInput(chain.deployment, final.inputs[i])
    {
      if i < |named.inputs| {
        assert final.inputs[i] == funded.inputs[i];
      }
    }
    forall k | 1 <= k < |final.outputs|
      ensures !IsCapabilityType(chain.deployment, final.outputs[k].typ)
    {
      if k < |named.outputs| {
        assert final.outputs[k] == funded.outputs[k];
      }
    }
  }
}
