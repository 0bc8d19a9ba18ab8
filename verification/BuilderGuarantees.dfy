/** The builders against the Type Script: what they return is accepted, is the step it claims
    to be, and disturbs no other right. */
module BuilderGuarantees {
  import opened Wrappers
  import opened ByteStrings
  import opened CapabilityFormat
  import opened ContractParser
  import opened CapabilityCodec
  import opened Ckb
  import opened CapabilityType
  import opened Ledger
  import opened Lifecycle
  import opened Builders

  /** The transaction a finished draft is broadcast as. */
  function ToTx(d: Draft): (tx: Tx)
    requires |d.outputs| == |d.outputsData|
    ensures |tx.inputs| == |d.inputs| && |tx.outputs| == |d.outputs|
    ensures forall i :: 0 <= i < |d.inputs| ==> tx.inputs[i] == CellInput(d.inputs[i].previousOutput, d.inputs[i].since)
  {
    Tx(seq(|d.inputs|, i requires 0 <= i < |d.inputs| => PlainInput(d.inputs[i])),
       seq(|d.outputs|, k requires 0 <= k < |d.outputs| =>
           Cell(d.outputs[k].capacity, d.outputs[k].lock, d.outputs[k].typ, d.outputsData[k])))
  }

  /** What the ledger asks of any transaction: its inputs are live and distinct. */
  predicate Sendable(live: map<OutPoint, Cell>, d: Draft) {
    && |d.outputs| == |d.outputsData| < OUTPUT_LIMIT
    && Resolves(live, ToTx(d))
  }

  /** What completion must deliver besides for the guards to see anything: each input carries
      the output it spends. */
  predicate Broadcastable(live: map<OutPoint, Cell>, d: Draft) {
    && Sendable(live, d)
    && forall i :: 0 <= i < |d.inputs| ==>
                     d.inputs[i].previousOutput in live
                     && d.inputs[i].cellOutput == Some(OutputPart(live[d.inputs[i].previousOutput]))
  }

  /** Outputs beyond the first are not capability cells. */
  predicate PlainChange(deployment: Deployment, d: Draft) {
    forall k :: 1 <= k < |d.outputs| ==> !IsCapabilityType(deployment, d.outputs[k].typ)
  }

  /** The live rights. */
  function Rights(chain: Chain, live: map<OutPoint, Cell>): map<OutPoint, Cell> {
    map o | o in live && IsCapability(chain, live[o]) :: live[o]
  }

  ghost predicate FreshFor(chain: Chain, s: State, tx: Tx) {
    forall o {:trigger o in s.live} :: o in s.live ==> o.txHash != chain.txHash(tx)
  }

  /** On a collision-free run every accepted transaction is fresh. */
  lemma AcceptedIsFresh(chain: Chain, genesis: map<OutPoint, Cell>, s: State, t: Spend)
    requires Step(chain, genesis, s, t)
    ensures FreshFor(chain, s, t.tx)
  {
    FreshHash(chain, genesis, s, t);
  }

  // ---- What the guards say about the broadcast transaction ----

  lemma GuardedInputs(chain: Chain, live: map<OutPoint, Cell>, d: Draft, first: nat)
    requires Broadcastable(live, d) && NoCapabilityFunding(chain.deployment, d.inputs, first)
    ensures forall j :: first <= j < |d.inputs| ==> !IsCapability(chain, Consumed(live, ToTx(d))[j])
  {
  }

  /** If a transaction's only mentioned capability script passes, all its scripts pass. */
  lemma OnlyScriptPasses(chain: Chain, tx: Tx, consumed: seq<Cell>, only: Script)
    requires Run(chain, only, tx, consumed).Ok?
    requires forall j :: 0 <= j < |consumed| && IsCapability(chain, consumed[j]) ==> consumed[j].typ == Some(only)
    requires forall k :: 0 <= k < |tx.outputs| && IsCapability(chain, tx.outputs[k]) ==> tx.outputs[k].typ == Some(only)
    ensures ScriptsPass(chain, tx, consumed)
  {
  }

  /** When the first output carries the only capability script in sight, acceptance is that
      script's verdict. */
  lemma AcceptsIfOneScriptPasses(chain: Chain, s: State, t: Spend, only: Script)
    requires Resolves(s.live, t.tx) && 0 < |t.tx.outputs| < OUTPUT_LIMIT && LocksPass(Consumed(s.live, t.tx), t.signers)
    requires InDeployment(chain.deployment, only) && t.tx.outputs[0].typ == Some(only)
    requires forall k :: 1 <= k < |t.tx.outputs| ==> !IsCapability(chain, t.tx.outputs[k])
    requires forall j :: 0 <= j < |t.tx.inputs| ==> !IsCapability(chain, Consumed(s.live, t.tx)[j])
    ensures Accepts(chain, s, t) <==> Run(chain, only, t.tx, Consumed(s.live, t.tx)).Ok?
  {
  }

  /** How a step changes the set of live rights. */
  lemma RightsAfter(chain: Chain, s: State, t: Spend)
    requires Resolves(s.live, t.tx) && |t.tx.outputs| < OUTPUT_LIMIT && FreshFor(chain, s, t.tx)
    ensures Rights(chain, Next(chain, s, t).live) ==
              (Rights(chain, s.live) - SpentBy(t.tx)) + Rights(chain, CreatedBy(chain, t.tx))
  {
  }

  lemma SpentNoRights(chain: Chain, s: State, tx: Tx)
    requires Resolves(s.live, tx)
    requires forall j :: 0 <= j < |tx.inputs| ==> !IsCapability(chain, Consumed(s.live, tx)[j])
    ensures Rights(chain, s.live) - SpentBy(tx) == Rights(chain, s.live)
  {
    forall o | o in SpentBy(tx)
      ensures o !in Rights(chain, s.live)
    {
      var j :| 0 <= j < |tx.inputs| && tx.inputs[j].previousOutput == o;
      assert Consumed(s.live, tx)[j] == s.live[o];
    }
  }

  /** When only the first input is a capability, its cell is the only right spent. */
  lemma SpentOneRight(chain: Chain, s: State, tx: Tx)
    requires Resolves(s.live, tx)
    requires forall j :: 1 <= j < |tx.inputs| ==> !IsCapability(chain, Consumed(s.live, tx)[j])
    ensures Rights(chain, s.live) - SpentBy(tx) == Rights(chain, s.live) - {tx.inputs[0].previousOutput}
  {
    forall o | o in SpentBy(tx) && o in Rights(chain, s.live)
      ensures o == tx.inputs[0].previousOutput
    {
      var j :| 0 <= j < |tx.inputs| && tx.inputs[j].previousOutput == o;
      assert Consumed(s.live, tx)[j] == s.live[o];
    }
    assert tx.inputs[0].previousOutput in SpentBy(tx);
  }

  /** When only the first output is a capability, it is the only right created. */
  lemma CreatesOneRight(chain: Chain, tx: Tx)
    requires 0 < |tx.outputs| < OUTPUT_LIMIT && IsCapability(chain, tx.outputs[0])
    requires forall k :: 1 <= k < |tx.outputs| ==> !IsCapability(chain, tx.outputs[k])
    ensures Rights(chain, CreatedBy(chain, tx)) == map[OutputPoint(chain, tx, 0) := tx.outputs[0]]
  {
  }

  lemma CreatesNoRight(chain: Chain, tx: Tx)
    requires |tx.outputs| < OUTPUT_LIMIT
    requires forall k :: 0 <= k < |tx.outputs| ==> !IsCapability(chain, tx.outputs[k])
    ensures Rights(chain, CreatedBy(chain, tx)) == map[]
  {
  }

  /** Exactly the right at `o` became `cell`, at a new outpoint. */
  predicate Relocated(before: map<OutPoint, Cell>, after: map<OutPoint, Cell>, o: OutPoint, o': OutPoint, cell: Cell) {
    && o in before && o' !in before
    && after == (before - {o})[o' := cell]
    && |after| == |before|
  }

  predicate Added(before: map<OutPoint, Cell>, after: map<OutPoint, Cell>, o: OutPoint, cell: Cell) {
    && o !in before
    && after == before[o := cell]
    && |after| == |before| + 1
  }

  predicate Removed(before: map<OutPoint, Cell>, after: map<OutPoint, Cell>, o: OutPoint) {
    && o in before
    && after == before - {o}
    && |after| == |before| - 1
  }

  lemma AddedSize(before: map<OutPoint, Cell>, o: OutPoint, cell: Cell)
    requires o !in before
    ensures Added(before, before + map[o := cell], o, cell)
  {
  }

  lemma NewPointIsNew(chain: Chain, s: State, tx: Tx)
    requires FreshFor(chain, s, tx)
    ensures OutputPoint(chain, tx, 0) !in Rights(chain, s.live)
  {
  }

  lemma RemovedSize(before: map<OutPoint, Cell>, o: OutPoint)
    requires o in before
    ensures Removed(before, before - {o}, o)
  {
  }

  lemma IssueEffect(chain: Chain, s: State, t: Spend)
    requires Resolves(s.live, t.tx) && 0 < |t.tx.outputs| < OUTPUT_LIMIT && FreshFor(chain, s, t.tx)
    requires forall j :: 0 <= j < |t.tx.inputs| ==> !IsCapability(chain, Consumed(s.live, t.tx)[j])
    requires IsCapability(chain, t.tx.outputs[0])
    requires forall k :: 1 <= k < |t.tx.outputs| ==> !IsCapability(chain, t.tx.outputs[k])
    ensures Added(Rights(chain, s.live), Rights(chain, Next(chain, s, t).live),
                  OutputPoint(chain, t.tx, 0), t.tx.outputs[0])
  {
    var before, created := Rights(chain, s.live), Rights(chain, CreatedBy(chain, t.tx));
    assert Rights(chain, Next(chain, s, t).live) == before + created by {
      RightsAfter(chain, s, t);
      SpentNoRights(chain, s, t.tx);
    }
    CreatesOneRight(chain, t.tx);
    NewPointIsNew(chain, s, t.tx);
    AddedSize(before, OutputPoint(chain, t.tx, 0), t.tx.outputs[0]);
  }

  lemma TransferEffect(chain: Chain, s: State, t: Spend)
    requires Resolves(s.live, t.tx) && 0 < |t.tx.outputs| < OUTPUT_LIMIT && FreshFor(chain, s, t.tx)
    requires IsCapability(chain, Consumed(s.live, t.tx)[0])
    requires forall j :: 1 <= j < |t.tx.inputs| ==> !IsCapability(chain, Consumed(s.live, t.tx)[j])
    requires IsCapability(chain, t.tx.outputs[0])
    requires forall k :: 1 <= k < |t.tx.outputs| ==> !IsCapability(chain, t.tx.outputs[k])
    ensures Relocated(Rights(chain, s.live), Rights(chain, Next(chain, s, t).live),
                      t.tx.inputs[0].previousOutput, OutputPoint(chain, t.tx, 0), t.tx.outputs[0])
  {
    var before, created, o := Rights(chain, s.live), Rights(chain, CreatedBy(chain, t.tx)),
                              t.tx.inputs[0].previousOutput;
    assert Rights(chain, Next(chain, s, t).live) == (before - {o}) + created by {
      RightsAfter(chain, s, t);
      SpentOneRight(chain, s, t.tx);
    }
    CreatesOneRight(chain, t.tx);
    NewPointIsNew(chain, s, t.tx);
    FirstRight(chain, s, t.tx);
    RemovedSize(before, o);
    AddedSize(before - {o}, OutputPoint(chain, t.tx, 0), t.tx.outputs[0]);
  }

  lemma FirstRight(chain: Chain, s: State, tx: Tx)
    requires Resolves(s.live, tx) && IsCapability(chain, Consumed(s.live, tx)[0])
    ensures tx.inputs[0].previousOutput in Rights(chain, s.live)
  {
  }

  lemma SurrenderEffect(chain: Chain, s: State, t: Spend)
    requires Resolves(s.live, t.tx) && |t.tx.outputs| < OUTPUT_LIMIT && FreshFor(chain, s, t.tx)
    requires IsCapability(chain, Consumed(s.live, t.tx)[0])
    requires forall j :: 1 <= j < |t.tx.inputs| ==> !IsCapability(chain, Consumed(s.live, t.tx)[j])
    requires forall k :: 0 <= k < |t.tx.outputs| ==> !IsCapability(chain, t.tx.outputs[k])
    ensures Removed(Rights(chain, s.live), Rights(chain, Next(chain, s, t).live), t.tx.inputs[0].previousOutput)
  {
    var before, o := Rights(chain, s.live), t.tx.inputs[0].previousOutput;
    assert Rights(chain, Next(chain, s, t).live) == before - {o} by {
      RightsAfter(chain, s, t);
      SpentOneRight(chain, s, t.tx);
      CreatesNoRight(chain, t.tx);
    }
    FirstRight(chain, s, t.tx);
    RemovedSize(before, o);
  }

  /** The cells a draft spends when it is broadcast. */
  function SpentCells(live: map<OutPoint, Cell>, d: Draft): seq<Cell>
    requires Sendable(live, d)
  {
    Consumed(live, ToTx(d))
  }

  // ---- Issue ----

  /** The payload is well formed and names this issuer and this id. */
  predicate Names(data: Bytes, issuerId: H32, id: H32) {
    && ParseCapability(data).Ok?
    && ParseCapability(data).value.issuerId == issuerId && ParseCapability(data).value.capabilityId == id
  }

  predicate KeepsFirstOutput(d: Draft, typ: Script, data: Bytes) {
    && d.outputs != [] && d.outputsData != []
    && d.outputs[0].typ == Some(typ) && d.outputsData[0] == data
  }

  /** A payload that binds its right atomically to a subject. */
  predicate Atomic(data: Bytes) {
    && DecodeCapability(data).Ok?
    && DecodeCapability(data).value.V2? && DecodeCapability(data).value.bindingMode == BINDING_ATOMIC
  }

  function IssuedScript<T>(chain: Chain, issued: Issued<T>): Script {
    CapabilityTypeScript(chain.deployment, issued.issuerId, issued.capabilityId)
  }

  /** The payload an issue builder writes names the wallet's lock as issuer and the derived
      id, and is never atomically bound. */
  lemma IssuedPayload(p: IssueParams, issuerId: H32, id: H32)
    requires NormalizeCapability(IssueInput(p, issuerId, id)).Ok?
    requires p.version.GetOr(1) == 2 ==> p.bindingMode != Some(BINDING_ATOMIC as int)
    ensures var data := Encoding(NormalizeCapability(IssueInput(p, issuerId, id)).value);
            Names(data, issuerId, id) && !Atomic(data)
  {
    var input := IssueInput(p, issuerId, id);
    var cap := NormalizeCapability(input).value;
    NormalizeIsExact(input, cap);
    ParseOfEncoding(cap);
    DecodeInvertsEncode(Encoding(cap), cap);
  }

  /** An atomically bound payload, in numbers. */
  lemma AtomicInNumbers(data: Bytes)
    ensures Atomic(data) <==> ParseCapability(data).Ok? && |data| == 172 && data[107] == 2
  {
    DecoderAgreesWithContract(data);
  }

  /** The payload says what the issuer asked for, and zero where nothing was asked. */
  predicate SaysWhatWasAsked(data: Bytes, p: IssueParams, issuerId: H32, id: H32) {
    && DecodeCapability(data).Ok?
    && var cap := DecodeCapability(data).value;
       && cap.serviceId == p.serviceId && cap.issuerId == issuerId && cap.capabilityId == id
       && cap.flags as int == p.flags && cap.expiry == p.expiry
       && (cap.V2? <==> p.version == Some(2))
       && (cap.V2? ==>
             && cap.subjectType as int == p.subjectType.GetOr(0) && cap.bindingMode as int == p.bindingMode.GetOr(0)
             && cap.subjectId == p.subjectId.GetOr(ZERO32) && cap.policyHash == p.policyHash.GetOr(ZERO32))
  }

  lemma EncodedAsAsked(p: IssueParams, issuerId: H32, id: H32)
    requires NormalizeCapability(IssueInput(p, issuerId, id)).Ok?
    ensures SaysWhatWasAsked(Encoding(NormalizeCapability(IssueInput(p, issuerId, id)).value), p, issuerId, id)
  {
    var input := IssueInput(p, issuerId, id);
    var cap := NormalizeCapability(input).value;
    NormalizedFields(input);
    NormalizeIsExact(input, cap);
    DecodeInvertsEncode(Encoding(cap), cap);
  }

  /** The payload of a built issue is the right that was asked for, not yet expired, for the
      recipient that was named. */
  lemma IssuedAsAsked(chain: Chain, wallet: Wallet, p: IssueParams, now: int, issued: Issued<Draft>)
    requires IssueResult(chain, wallet, p, now) == Ok(issued)
    ensures SaysWhatWasAsked(issued.data, p, chain.scriptHash(wallet.lock), issued.capabilityId)
    ensures p.expiry > now && issued.issuerId == chain.scriptHash(wallet.lock)
    ensures issued.tx.inputs != []
            && var input := CellInput(issued.tx.inputs[0].previousOutput, issued.tx.inputs[0].since);
               issued.capabilityId == CreationId(chain, input, 0)
    ensures p.recipient.Valid? && issued.recipientLockHash == chain.scriptHash(p.recipient.script)
  {
    var issuerId := chain.scriptHash(wallet.lock);
    var placeholder := NormalizeCapability(IssueInput(p, issuerId, ZERO32)).value;
    var funded := wallet.completeInputs(IssueDraft(chain, p.recipient.script, issuerId, placeholder)).value;
    FundedAsAsked(chain, wallet, p, issuerId, funded, issued);
  }

  lemma FundedAsAsked(chain: Chain, wallet: Wallet, p: IssueParams, issuerId: H32, funded: Draft, issued: Issued<Draft>)
    requires funded.inputs != [] && p.recipient.Valid?
    requires IssueFunded(chain, wallet, p, issuerId, funded) == Ok(issued)
    ensures SaysWhatWasAsked(issued.data, p, issuerId, issued.capabilityId) && issued.issuerId == issuerId
    ensures issued.recipientLockHash == chain.scriptHash(p.recipient.script)
  {
    EncodedAsAsked(p, issuerId, CreationId(chain, PlainInput(funded.inputs[0]), 0));
  }

  /** The two phases of a built issue: the wallet funds the placeholder, from no known capability,
      and then completes the fee of the same draft with the announced script and payload. */
  lemma IssueInTwoPhases(chain: Chain, wallet: Wallet, p: IssueParams, now: int, issued: Issued<Draft>)
      returns (placeholder: Capability, funded: Draft)
    requires IssueResult(chain, wallet, p, now) == Ok(issued)
    ensures wallet.completeInputs(IssueDraft(chain, p.recipient.script, issued.issuerId, placeholder)) == Some(funded)
    ensures NormalizeCapability(IssueInput(p, issued.issuerId, ZERO32)) == Ok(placeholder)
    ensures |funded.inputs| > 0 && NoCapabilityFunding(chain.deployment, funded.inputs, 0)
    ensures |funded.outputs| > 0 && CompletesFee(wallet, funded, IssuedScript(chain, issued), issued.data, issued.tx)
  {
    placeholder := NormalizeCapability(IssueInput(p, chain.scriptHash(wallet.lock), ZERO32)).value;
    var draft := IssueDraft(chain, p.recipient.script, chain.scriptHash(wallet.lock), placeholder);
    funded := wallet.completeInputs(draft).value;
    SecondPhase(chain, wallet, p, chain.scriptHash(wallet.lock), funded, issued);
  }

  /** The wallet's fee completion turns the funded draft, with only the script and the payload of
      its first output replaced, into the result. */
  predicate CompletesFee(wallet: Wallet, funded: Draft, script: Script, data: Bytes, result: Draft)
    requires |funded.outputs| > 0
  {
    wallet.completeFee(Announcing(funded, script, data)) == Some(result)
  }

  /** The draft with the script and the payload of its first output replaced. */
  function Announcing(d: Draft, script: Script, data: Bytes): Draft
    requires |d.outputs| > 0
  {
    var first, rest := d.outputs[0], if |d.outputsData| > 0 then d.outputsData[1..] else [];
    Draft(d.inputs, [CellOutput(first.capacity, first.lock, Some(script))] + d.outputs[1..], [data] + rest)
  }

  lemma NamedIsAnnouncing(d: Draft, script: Script, data: Bytes)
    requires |d.outputs| > 0
    ensures Named(d, script, data) == Announcing(d, script, data)
  {
    var named := Named(d, script, data);
    assert named.outputs == [named.outputs[0]] + d.outputs[1..];
    assert named.outputsData == [data] + if |d.outputsData| > 0 then d.outputsData[1..] else [];
  }

  lemma SecondPhase(chain: Chain, wallet: Wallet, p: IssueParams, issuerId: H32, funded: Draft, issued: Issued<Draft>)
    requires funded.inputs != [] && p.recipient.Valid?
    requires IssueFunded(chain, wallet, p, issuerId, funded) == Ok(issued)
    ensures |funded.outputs| > 0 && issued.issuerId == issuerId
    ensures CompletesFee(wallet, funded, IssuedScript(chain, issued), issued.data, issued.tx)
  {
    NamedIsAnnouncing(funded, IssuedScript(chain, issued), issued.data);
  }

  /** The placeholder the wallet funds takes as many bytes as what replaces it. */
  lemma PlaceholderFits(chain: Chain, owner: Script, p: IssueParams, issuerId: H32, id: H32)
    requires NormalizeCapability(IssueInput(p, issuerId, ZERO32)).Ok?
    ensures NormalizeCapability(IssueInput(p, issuerId, id)).Ok?
    ensures var d := IssueDraft(chain, owner, issuerId, NormalizeCapability(IssueInput(p, issuerId, ZERO32)).value);
            && |d.outputs| == |d.outputsData| == 1 && d.inputs == [] && d.outputs[0].lock == owner
            && |d.outputsData[0]| == |Encoding(NormalizeCapability(IssueInput(p, issuerId, id)).value)|
            && d.outputs[0].typ.Some? && InDeployment(chain.deployment, d.outputs[0].typ.value)
            && |d.outputs[0].typ.value.args| == |CapabilityTypeScript(chain.deployment, issuerId, id).args|
  {
  }

  lemma FundedGuards(chain: Chain, wallet: Wallet, p: IssueParams, issuerId: H32, funded: Draft, issued: Issued<Draft>)
    requires funded.inputs != [] && p.recipient.Valid?
    requires p.version.GetOr(1) == 2 ==> p.bindingMode != Some(BINDING_ATOMIC as int)
    requires IssueFunded(chain, wallet, p, issuerId, funded) == Ok(issued)
    ensures issued.issuerId == issuerId
    ensures Names(issued.data, issuerId, issued.capabilityId) && !Atomic(issued.data)
    ensures NoCapabilityFunding(chain.deployment, issued.tx.inputs, 0)
    ensures issued.tx.inputs != [] && issued.capabilityId == CreationId(chain, PlainInput(issued.tx.inputs[0]), 0)
  {
    IssuedPayload(p, issuerId, CreationId(chain, PlainInput(funded.inputs[0]), 0));
  }

  /** What the guards of a successful issue build establish. */
  lemma IssueGuards(chain: Chain, wallet: Wallet, p: IssueParams, now: int, issued: Issued<Draft>)
    requires IssueResult(chain, wallet, p, now) == Ok(issued)
    ensures issued.issuerId == chain.scriptHash(wallet.lock)
    ensures Names(issued.data, issued.issuerId, issued.capabilityId) && !Atomic(issued.data)
    ensures NoCapabilityFunding(chain.deployment, issued.tx.inputs, 0)
    ensures issued.tx.inputs != [] && issued.capabilityId == CreationId(chain, PlainInput(issued.tx.inputs[0]), 0)
  {
    var issuerId := chain.scriptHash(wallet.lock);
    var placeholder := NormalizeCapability(IssueInput(p, issuerId, ZERO32)).value;
    var funded := wallet.completeInputs(IssueDraft(chain, p.recipient.script, issuerId, placeholder)).value;
    FundedGuards(chain, wallet, p, issuerId, funded, issued);
  }

  lemma IssueGroup(chain: Chain, live: map<OutPoint, Cell>, d: Draft, issuerId: H32, id: H32, data: Bytes)
    requires Broadcastable(live, d) && NoCapabilityFunding(chain.deployment, d.inputs, 0)
    requires d.inputs != [] && id == CreationId(chain, PlainInput(d.inputs[0]), 0) && Names(data, issuerId, id)
    requires KeepsFirstOutput(d, CapabilityTypeScript(chain.deployment, issuerId, id), data)
    ensures var typ := CapabilityTypeScript(chain.deployment, issuerId, id);
            Run(chain, typ, ToTx(d), SpentCells(live, d)).Ok? <==>
              && (forall k :: 1 <= k < |d.outputs| ==> d.outputs[k].typ != Some(typ))
              && IssuerAuthorized(chain, SpentCells(live, d), issuerId)
    ensures var typ := CapabilityTypeScript(chain.deployment, issuerId, id);
            Run(chain, typ, ToTx(d), SpentCells(live, d)).Ok? ==> Issues(chain, typ, ToTx(d), SpentCells(live, d), 0)
  {
    var typ, tx, consumed := CapabilityTypeScript(chain.deployment, issuerId, id), ToTx(d), SpentCells(live, d);
    GuardedInputs(chain, live, d, 0);
    assert tx.inputs[0] == PlainInput(d.inputs[0]);
    assert tx.outputs[0].typ == Some(typ) && Identified(tx.outputs[0]);
    assert forall k: nat :: k < |d.outputs| ==> tx.outputs[k].typ == d.outputs[k].typ;
    if Run(chain, typ, tx, consumed).Ok? {
      AcceptedShape(chain, typ, tx, consumed);
      var k: nat :| Issues(chain, typ, tx, consumed, k);
      assert k == 0;
    } else if Issues(chain, typ, tx, consumed, 0) {
      IssueAccepted(chain, typ, tx, consumed, 0);
    }
  }

  /** The script accepts the group of the right being issued exactly when the wallet put in a
      cell of the issuer and copied the new Type Script to no second output. */
  lemma IssueGroupExact(chain: Chain, wallet: Wallet, p: IssueParams, now: int, live: map<OutPoint, Cell>,
                        issued: Issued<Draft>)
    requires IssueResult(chain, wallet, p, now) == Ok(issued)
    requires Broadcastable(live, issued.tx) && KeepsFirstOutput(issued.tx, IssuedScript(chain, issued), issued.data)
    ensures Run(chain, IssuedScript(chain, issued), ToTx(issued.tx), SpentCells(live, issued.tx)).Ok? <==>
              && (forall k :: 1 <= k < |issued.tx.outputs| ==>
                    issued.tx.outputs[k].typ != Some(IssuedScript(chain, issued)))
              && IssuerAuthorized(chain, SpentCells(live, issued.tx), chain.scriptHash(wallet.lock))
    ensures Run(chain, IssuedScript(chain, issued), ToTx(issued.tx), SpentCells(live, issued.tx)).Ok? ==>
              Issues(chain, IssuedScript(chain, issued), ToTx(issued.tx), SpentCells(live, issued.tx), 0)
  {
    IssueGuards(chain, wallet, p, now, issued);
    IssueGroup(chain, live, issued.tx, issued.issuerId, issued.capabilityId, issued.data);
  }

  /** Given plain change and a kept first output, a built issue is accepted exactly when some
      input carries the issuer's lock, and then as one issue. */
  lemma IssueRefinesContract(chain: Chain, wallet: Wallet, p: IssueParams, now: int, s: State, issued: Issued<Draft>,
                             signers: set<Script>)
    requires IssueResult(chain, wallet, p, now) == Ok(issued)
    requires Broadcastable(s.live, issued.tx) && KeepsFirstOutput(issued.tx, IssuedScript(chain, issued), issued.data)
    requires PlainChange(chain.deployment, issued.tx) && LocksPass(SpentCells(s.live, issued.tx), signers)
    ensures Accepts(chain, s, Spend(ToTx(issued.tx), signers)) <==>
              IssuerAuthorized(chain, SpentCells(s.live, issued.tx), chain.scriptHash(wallet.lock))
    ensures Accepts(chain, s, Spend(ToTx(issued.tx), signers)) ==>
              Issues(chain, IssuedScript(chain, issued), ToTx(issued.tx), SpentCells(s.live, issued.tx), 0)
  {
    IssueGroupExact(chain, wallet, p, now, s.live, issued);
    IssueGuards(chain, wallet, p, now, issued);
    GuardedInputs(chain, s.live, issued.tx, 0);
    PlainRest(chain, issued.tx);
    AcceptsIfOneScriptPasses(chain, s, Spend(ToTx(issued.tx), signers), IssuedScript(chain, issued));
  }

  /** The step a built issue takes adds its one right and changes no other. */
  lemma IssueConserves(chain: Chain, wallet: Wallet, p: IssueParams, now: int, s: State, issued: Issued<Draft>,
                       signers: set<Script>)
    requires IssueResult(chain, wallet, p, now) == Ok(issued)
    requires Broadcastable(s.live, issued.tx) && KeepsFirstOutput(issued.tx, IssuedScript(chain, issued), issued.data)
    requires PlainChange(chain.deployment, issued.tx) && FreshFor(chain, s, ToTx(issued.tx))
    ensures var cell := ToTx(issued.tx).outputs[0];
            && cell.typ == Some(IssuedScript(chain, issued)) && cell.data == issued.data && !Atomic(cell.data)
            && Added(Rights(chain, s.live), Rights(chain, Next(chain, s, Spend(ToTx(issued.tx), signers)).live),
                     OutputPoint(chain, ToTx(issued.tx), 0), cell)
  {
    IssueGuards(chain, wallet, p, now, issued);
    GuardedInputs(chain, s.live, issued.tx, 0);
    PlainRest(chain, issued.tx);
    IssueEffect(chain, s, Spend(ToTx(issued.tx), signers));
  }

  // ---- Transfer ----

  lemma OwnedIsIdentified(chain: Chain, live: map<OutPoint, Cell>, o: OutPoint, owner: Script)
    requires OwnedCapability(chain.deployment, live, o, owner).Ok?
    ensures o in live && IsCapability(chain, live[o]) && Identified(live[o]) && live[o].lock == owner
    ensures var (cell, cap) := OwnedCapability(chain.deployment, live, o, owner).value;
            cell == live[o] && DecodeCapability(cell.data) == Ok(cap) && ParseCapability(cell.data) == Ok(Kept(cap))
  {
  }

  /** What the guards of a successful transfer build establish. */
  predicate TransferGuarded(chain: Chain, live: map<OutPoint, Cell>, o: OutPoint, recipient: Script, d: Draft) {
    && o in live && IsCapability(chain, live[o]) && Identified(live[o]) && Transferable(live[o])
    && NoCapabilityFunding(chain.deployment, d.inputs, 1) && StartsWith(d, o)
    && KeepsFirstOutput(d, live[o].typ.value, live[o].data) && d.outputs[0].lock == recipient
  }

  lemma TransferGuards(chain: Chain, wallet: Wallet, live: map<OutPoint, Cell>, o: OutPoint, recipient: Address,
                       now: int, d: Draft)
    requires TransferResult(chain, wallet, live, o, recipient, now) == Ok(d)
    ensures recipient.Valid? && TransferGuarded(chain, live, o, recipient.script, d)
  {
    OwnedIsIdentified(chain, live, o, wallet.lock);
  }

  lemma TransferGroup(chain: Chain, live: map<OutPoint, Cell>, o: OutPoint, recipient: Script, d: Draft)
    requires TransferGuarded(chain, live, o, recipient, d) && Broadcastable(live, d)
    ensures Run(chain, live[o].typ.value, ToTx(d), SpentCells(live, d)).Ok? <==>
              forall k :: 1 <= k < |d.outputs| ==> d.outputs[k].typ != live[o].typ
    ensures Run(chain, live[o].typ.value, ToTx(d), SpentCells(live, d)).Ok? ==>
              Moves(chain, live[o].typ.value, ToTx(d), SpentCells(live, d), 0, 0)
  {
    GuardedInputs(chain, live, d, 1);
    var typ, tx, consumed := live[o].typ.value, ToTx(d), SpentCells(live, d);
    assert consumed[0] == live[o] && tx.outputs[0].typ == Some(typ);
    assert forall k: nat :: k < |d.outputs| ==> tx.outputs[k].typ == d.outputs[k].typ;
    if Run(chain, typ, tx, consumed).Ok? {
      AcceptedShape(chain, typ, tx, consumed);
    } else if Moves(chain, typ, tx, consumed, 0, 0) {
      MoveAccepted(chain, typ, tx, consumed, 0, 0);
    }
  }

  /** The script accepts the group being transferred exactly when the wallet copied its Type
      Script to no second output: the one thing the builder's guards do not look at. */
  lemma TransferGroupExact(chain: Chain, wallet: Wallet, live: map<OutPoint, Cell>, o: OutPoint, recipient: Address,
                           now: int, d: Draft)
    requires TransferResult(chain, wallet, live, o, recipient, now) == Ok(d) && Broadcastable(live, d)
    ensures o in live && live[o].typ.Some?
    ensures Run(chain, live[o].typ.value, ToTx(d), SpentCells(live, d)).Ok? <==>
              forall k :: 1 <= k < |d.outputs| ==> d.outputs[k].typ != live[o].typ
  {
    TransferGuards(chain, wallet, live, o, recipient, now, d);
    TransferGroup(chain, live, o, recipient.script, d);
  }

  /** Given plain change, a built transfer is accepted as one move of the named right. */
  lemma TransferRefinesContract(chain: Chain, wallet: Wallet, s: State, o: OutPoint, recipient: Address, now: int,
                                d: Draft, signers: set<Script>)
    requires TransferResult(chain, wallet, s.live, o, recipient, now) == Ok(d) && Broadcastable(s.live, d)
    requires PlainChange(chain.deployment, d) && LocksPass(SpentCells(s.live, d), signers)
    ensures Accepts(chain, s, Spend(ToTx(d), signers))
    ensures o in s.live && s.live[o].typ.Some?
              && Moves(chain, s.live[o].typ.value, ToTx(d), SpentCells(s.live, d), 0, 0)
  {
    TransferGuards(chain, wallet, s.live, o, recipient, now, d);
    TransferGroup(chain, s.live, o, recipient.script, d);
    GuardedInputs(chain, s.live, d, 1);
    PlainRest(chain, d);
    assert SpentCells(s.live, d)[0] == s.live[o];
    OnlyScriptPasses(chain, ToTx(d), SpentCells(s.live, d), s.live[o].typ.value);
  }

  /** The step a built transfer takes puts the same right under the recipient's lock and
      changes no other right. */
  lemma TransferConserves(chain: Chain, wallet: Wallet, s: State, o: OutPoint, recipient: Address, now: int, d: Draft,
                          signers: set<Script>)
    requires TransferResult(chain, wallet, s.live, o, recipient, now) == Ok(d) && Broadcastable(s.live, d)
    requires PlainChange(chain.deployment, d) && FreshFor(chain, s, ToTx(d))
    ensures d.outputs != [] && recipient.Valid?
    ensures var cell := ToTx(d).outputs[0];
            && o in s.live && cell.typ == s.live[o].typ && cell.data == s.live[o].data && cell.lock == recipient.script
            && Relocated(Rights(chain, s.live), Rights(chain, Next(chain, s, Spend(ToTx(d), signers)).live),
                         o, OutputPoint(chain, ToTx(d), 0), cell)
  {
    TransferGuards(chain, wallet, s.live, o, recipient, now, d);
    GuardedInputs(chain, s.live, d, 1);
    PlainRest(chain, d);
    assert SpentCells(s.live, d)[0] == s.live[o];
    TransferEffect(chain, s, Spend(ToTx(d), signers));
  }

  lemma PlainRest(chain: Chain, d: Draft)
    requires |d.outputs| == |d.outputsData| && PlainChange(chain.deployment, d)
    ensures forall k :: 1 <= k < |d.outputs| ==>
              !IsCapability(chain, ToTx(d).outputs[k]) && ToTx(d).outputs[k].typ == d.outputs[k].typ
  {
  }

  // ---- Surrender ----

  /** What the guards of a successful surrender build establish about the broadcast transaction. */
  lemma SurrenderGuards(chain: Chain, wallet: Wallet, live: map<OutPoint, Cell>, o: OutPoint, d: Draft, cap: Capability)
    requires SurrenderResult(chain, wallet, live, o) == Ok((d, cap)) && Broadcastable(live, d)
    ensures o in live && IsCapability(chain, live[o]) && Identified(live[o])
              && DecodeCapability(live[o].data) == Ok(cap)
    ensures ToTx(d).inputs[0].previousOutput == o && SpentCells(live, d)[0] == live[o]
    ensures forall j :: 1 <= j < |d.inputs| ==> !IsCapability(chain, SpentCells(live, d)[j])
    ensures forall k :: 0 <= k < |d.outputs| ==> !IsCapability(chain, ToTx(d).outputs[k])
  {
  }

  /** A built surrender is accepted as the retirement of exactly the named right, whatever
      else the wallet did: the builder's guards alone force it. */
  lemma SurrenderRefinesContract(chain: Chain, wallet: Wallet, s: State, o: OutPoint, d: Draft, cap: Capability,
                                 signers: set<Script>)
    requires SurrenderResult(chain, wallet, s.live, o) == Ok((d, cap)) && Broadcastable(s.live, d)
    requires LocksPass(SpentCells(s.live, d), signers)
    ensures Accepts(chain, s, Spend(ToTx(d), signers))
    ensures o in s.live && s.live[o].typ.Some? && Retires(s.live[o].typ.value, ToTx(d), SpentCells(s.live, d), 0)
  {
    SurrenderGuards(chain, wallet, s.live, o, d, cap);
    var typ, tx, consumed := s.live[o].typ.value, ToTx(d), SpentCells(s.live, d);
    assert Retires(typ, tx, consumed, 0);
    RetireAccepted(chain, typ, tx, consumed, 0);
    OnlyScriptPasses(chain, tx, consumed, typ);
  }

  /** The step a built surrender takes removes that right and changes no other. */
  lemma SurrenderConserves(chain: Chain, wallet: Wallet, s: State, o: OutPoint, d: Draft, cap: Capability,
                           signers: set<Script>)
    requires SurrenderResult(chain, wallet, s.live, o) == Ok((d, cap)) && Broadcastable(s.live, d)
    requires FreshFor(chain, s, ToTx(d))
    ensures Removed(Rights(chain, s.live), Rights(chain, Next(chain, s, Spend(ToTx(d), signers)).live), o)
  {
    SurrenderGuards(chain, wallet, s.live, o, d, cap);
    SurrenderEffect(chain, s, Spend(ToTx(d), signers));
  }
}
