/** The client's transaction builders: they change a transaction step by step around two
    wallet completions they do not control, then check it again. */
module Builders {
  import opened Wrappers
  import opened ByteStrings
  import opened CapabilityFormat
  import opened CapabilityCodec
  import opened Ckb

  datatype CellOutput = CellOutput(capacity: nat, lock: Script, typ: Option<Script>)

  /** A transaction input as the client library holds it: the resolved output may be missing. */
  datatype TxInput = TxInput(previousOutput: OutPoint, since: U64, cellOutput: Option<CellOutput>)

  /** The contents of a transaction under construction. */
  datatype Draft = Draft(inputs: seq<TxInput>, outputs: seq<CellOutput>, outputsData: seq<Bytes>)

  /** A connected wallet. Its completions may do anything to a transaction, or throw. */
  datatype Wallet = Wallet(lock: Script, completeInputs: Draft -> Option<Draft>, completeFee: Draft -> Option<Draft>)

  datatype Address = Blank | Malformed | Valid(script: Script)

  datatype BuildError =
    | RecipientRequired
    | InvalidAddress
    | FlagsNotAByte
    | ExpiryNotInFuture
    | VersionUnsupported
    | AtomicReserved
    | Codec(error: CodecError)
    | WalletFailed
    | NoFundingInput
    | CapabilityAsFunding
    | OutputMissing
    | FirstInputChanged
    | CellNotLive
    | NotACapability
    | WrongDeployment
    | IdentityDataMismatch
    | NotTheOwner
    | NonTransferable
    | ExpiredCapability
    | AlreadyOwned
    | CapabilityInputChanged
    | TypeChanged
    | DataChanged
    | RecipientChanged
    | SuccessorCreated

  datatype IssueParams = IssueParams(
    recipient: Address, serviceId: Bytes, expiry: int, flags: int, version: Option<int>,
    subjectType: Option<int>, bindingMode: Option<int>, subjectId: Option<Bytes>, policyHash: Option<Bytes>)

  /** A transaction object, changed in place by the builders. */
  class Transaction {
    var inputs: seq<TxInput>
    var outputs: seq<CellOutput>
    var outputsData: seq<Bytes>

    function Contents(): Draft
      reads this
    {
      Draft(inputs, outputs, outputsData)
    }

    constructor (draft: Draft)
      ensures Contents() == draft
    {
      inputs, outputs, outputsData := draft.inputs, draft.outputs, draft.outputsData;
    }

    method AddInput(o: OutPoint, cell: Cell)
      modifies this
      ensures Contents() == old(Contents()).(inputs := old(inputs) + [TxInput(o, 0, Some(OutputPart(cell)))])
    {
      inputs := inputs + [TxInput(o, 0, Some(OutputPart(cell)))];
    }

    method AddOutput(output: CellOutput, data: Bytes)
      modifies this
      ensures Contents() == old(Contents()).(outputs := old(outputs) + [output],
                                              outputsData := old(outputsData) + [data])
    {
      outputs, outputsData := outputs + [output], outputsData + [data];
    }

    /** Let the wallet have its way with the transaction. */
    method CompleteBy(completion: Draft -> Option<Draft>) returns (ok: bool)
      modifies this
      ensures ok <==> completion(old(Contents())).Some?
      ensures ok ==> Contents() == completion(old(Contents())).value
    {
      match completion(Contents())
      case None =>
        ok := false;
      case Some(d) =>
        inputs, outputs, outputsData := d.inputs, d.outputs, d.outputsData;
        ok := true;
    }
  }

  function OutputPart(cell: Cell): CellOutput {
    CellOutput(cell.capacity, cell.lock, cell.typ)
  }

  predicate IsCapabilityType(deployment: Deployment, typ: Option<Script>) {
    typ.Some? && InDeployment(deployment, typ.value)
  }

  predicate IsCapabilityInput(deployment: Deployment, input: TxInput) {
    input.cellOutput.Some? && IsCapabilityType(deployment, input.cellOutput.value.typ)
  }

  /** No input from position `first` on is known to be a capability cell. */
  predicate NoCapabilityFunding(deployment: Deployment, inputs: seq<TxInput>, first: nat) {
    forall i :: first <= i < |inputs| ==> !IsCapabilityInput(deployment, inputs[i])
  }

  method AssertNoCapabilityFundingInputs(deployment: Deployment, inputs: seq<TxInput>, first: nat) returns (ok: bool)
    ensures ok <==> NoCapabilityFunding(deployment, inputs, first)
  {
    var i := first;
    while i < |inputs|
      invariant first <= i
      invariant forall k :: first <= k < i && k < |inputs| ==> !IsCapabilityInput(deployment, inputs[k])
    {
      if IsCapabilityInput(deployment, inputs[i]) {
        return false;
      }
      i := i + 1;
    }
    ok := true;
  }

  function PlainInput(input: TxInput): CellInput {
    CellInput(input.previousOutput, input.since)
  }

  const MAX_SAFE_INTEGER := 0x1F_FFFF_FFFF_FFFF

  /** The creation id, hashed from a buffer filled piece by piece. */
  method DeriveCapabilityId(chain: Chain, firstInput: CellInput, outputIndex: int) returns (r: Option<H32>)
    ensures r.Some? <==> 0 <= outputIndex < 0x20_0000_0000_0000
    ensures r.Some? ==> r.value == CreationId(chain, firstInput, outputIndex)
    ensures r.Some? ==> r.value == chain.blake2b(Le(firstInput.since, 8) + firstInput.previousOutput.txHash
                                                 + Le(firstInput.previousOutput.index, 4) + Le(outputIndex, 8))
  {
    if outputIndex < 0 || outputIndex > MAX_SAFE_INTEGER {
      return None;
    }
    var inputBytes := SerializeInput(firstInput);
    var indexBytes := Le(outputIndex, 8);
    var material := new byte[|inputBytes| + |indexBytes|](_ => 0);
    CopyFromSlice(material, 0, inputBytes);
    CopyFromSlice(material, |inputBytes|, indexBytes);
    assert material[..] == material[..52] == CreationMaterial(firstInput, outputIndex);
    return Some(chain.blake2b(material[..]));
  }

  function CapabilityTypeScript(deployment: Deployment, issuerId: H32, capabilityId: H32): Script {
    Script(deployment.codeHash, deployment.hashType, EncodeTypeArgs(issuerId, capabilityId))
  }

  // ---- Issue ----

  function IssueRefusal(p: IssueParams, now: int): Option<BuildError> {
    if p.recipient.Blank? then Some(RecipientRequired)
    else if p.flags < 0 || p.flags > 0xff then Some(FlagsNotAByte)
    else if p.expiry <= now then Some(ExpiryNotInFuture)
    else if p.version.GetOr(1) !in {1, 2} then Some(VersionUnsupported)
    else if p.version.GetOr(1) == 2 && p.bindingMode == Some(BINDING_ATOMIC as int) then Some(AtomicReserved)
    else if p.recipient.Malformed? then Some(InvalidAddress)
    else None
  }

  function IssueInput(p: IssueParams, issuerId: H32, id: H32): CapabilityInput {
    var v2 := p.version.GetOr(1) == 2;
    CapabilityInput(Some(p.version.GetOr(1)), Some(p.flags), p.serviceId, issuerId, id, p.expiry,
                    if v2 then p.subjectType else None, if v2 then p.bindingMode else None,
                    if v2 then p.subjectId else None, if v2 then p.policyHash else None)
  }

  /** What an issue transaction looks like before the wallet sees it. */
  function IssueDraft(chain: Chain, owner: Script, issuerId: H32, placeholder: Capability): Draft {
    Draft([], [CellOutput(0, owner, Some(CapabilityTypeScript(chain.deployment, issuerId, ZERO32)))],
          [Encoding(placeholder)])
  }

  /** Replace the placeholder type and data of the first output. */
  function Named(d: Draft, typ: Script, data: Bytes): Draft
    requires d.outputs != []
  {
    d.(outputs := d.outputs[0 := d.outputs[0].(typ := Some(typ))],
       outputsData := if d.outputsData == [] then [data] else d.outputsData[0 := data])
  }

  datatype Issued<T> = Issued(tx: T, issuerId: H32, capabilityId: H32, data: Bytes, recipientLockHash: H32)

  function IssueResult(chain: Chain, wallet: Wallet, p: IssueParams, now: int): Result<Issued<Draft>, BuildError> {
    if IssueRefusal(p, now).Some? then Err(IssueRefusal(p, now).value)
    else
      var issuerId := chain.scriptHash(wallet.lock);
      match NormalizeCapability(IssueInput(p, issuerId, ZERO32))
      case Err(e) => Err(Codec(e))
      case Ok(placeholder) =>
        match wallet.completeInputs(IssueDraft(chain, p.recipient.script, issuerId, placeholder))
        case None => Err(WalletFailed)
        case Some(funded) =>
          if funded.inputs == [] then Err(NoFundingInput)
          else if !NoCapabilityFunding(chain.deployment, funded.inputs, 0) then Err(CapabilityAsFunding)
          else IssueFunded(chain, wallet, p, issuerId, funded)
  }

  function IssueFunded(chain: Chain, wallet: Wallet, p: IssueParams, issuerId: H32, funded: Draft)
      : Result<Issued<Draft>, BuildError>
    requires funded.inputs != [] && p.recipient.Valid?
  {
    var id := CreationId(chain, PlainInput(funded.inputs[0]), 0);
    match NormalizeCapability(IssueInput(p, issuerId, id))
    case Err(e) => Err(Codec(e))
    case Ok(cap) =>
      if funded.outputs == [] then Err(OutputMissing)
      else
        match wallet.completeFee(Named(funded, CapabilityTypeScript(chain.deployment, issuerId, id), Encoding(cap)))
        case None => Err(WalletFailed)
        case Some(final) =>
          if !NoCapabilityFunding(chain.deployment, final.inputs, 0) then Err(CapabilityAsFunding)
          else if final.inputs == [] then Err(NoFundingInput)
          else if CreationId(chain, PlainInput(final.inputs[0]), 0) != id then Err(FirstInputChanged)
          else Ok(Issued(final, issuerId, id, Encoding(cap), chain.scriptHash(p.recipient.script)))
  }

  method BuildIssueCapabilityTx(chain: Chain, wallet: Wallet, p: IssueParams, now: int)
      returns (r: Result<Issued<Transaction>, BuildError>)
    ensures IssueResult(chain, wallet, p, now).Err? ==> r == Err(IssueResult(chain, wallet, p, now).error)
    ensures IssueResult(chain, wallet, p, now).Ok? ==>
              && r.Ok? && fresh(r.value.tx)
              && Issued(r.value.tx.Contents(), r.value.issuerId, r.value.capabilityId, r.value.data,
                        r.value.recipientLockHash)
                 == IssueResult(chain, wallet, p, now).value
  {
    match IssueRefusal(p, now) {
      case Some(e) => return Err(e);
      case None =>
    }
    var issuerId := chain.scriptHash(wallet.lock);
    var owner := p.recipient.script;
    var placeholder := EncodeCapability(IssueInput(p, issuerId, ZERO32));
    if placeholder.Err? {
      return Err(Codec(placeholder.error));
    }
    var type0 := CapabilityTypeScript(chain.deployment, issuerId, ZERO32);
    var tx := new Transaction(Draft([], [CellOutput(0, owner, Some(type0))], [placeholder.value[..]]));
    var ok := tx.CompleteBy(wallet.completeInputs);
    if !ok {
      return Err(WalletFailed);
    }
    if tx.inputs == [] {
      return Err(NoFundingInput);
    }
    ok := AssertNoCapabilityFundingInputs(chain.deployment, tx.inputs, 0);
    if !ok {
      return Err(CapabilityAsFunding);
    }
    var derived := DeriveCapabilityId(chain, PlainInput(tx.inputs[0]), 0);
    var id := derived.value;
    var data := EncodeCapability(IssueInput(p, issuerId, id));
    if data.Err? {
      return Err(Codec(data.error));
    }
    if tx.outputs == [] {
      return Err(OutputMissing);
    }
    tx.outputs := tx.outputs[0 := tx.outputs[0].(typ := Some(CapabilityTypeScript(chain.deployment, issuerId, id)))];
    tx.outputsData := if tx.outputsData == [] then [data.value[..]] else tx.outputsData[0 := data.value[..]];
    ok := tx.CompleteBy(wallet.completeFee);
    if !ok {
      return Err(WalletFailed);
    }
    ok := AssertNoCapabilityFundingInputs(chain.deployment, tx.inputs, 0);
    if !ok {
      return Err(CapabilityAsFunding);
    }
    if tx.inputs == [] {
      return Err(NoFundingInput);
    }
    var postFee := DeriveCapabilityId(chain, PlainInput(tx.inputs[0]), 0);
    if postFee.value != id {
      return Err(FirstInputChanged);
    }
    return Ok(Issued(tx, issuerId, id, data.value[..], chain.scriptHash(owner)));
  }

  // ---- The cell a transfer or a surrender starts from ----

  /** The checks both builders make on the named cell before they touch a transaction. */
  function OwnedCapability(deployment: Deployment, live: map<OutPoint, Cell>, o: OutPoint, owner: Script)
      : Result<(Cell, Capability), BuildError>
  {
    if o !in live then Err(CellNotLive)
    else
      var cell := live[o];
      if cell.typ.None? then Err(NotACapability)
      else if !InDeployment(deployment, cell.typ.value) then Err(WrongDeployment)
      else
        match DecodeCapability(cell.data)
        case Err(e) => Err(Codec(e))
        case Ok(cap) =>
          if cell.typ.value.args != EncodeTypeArgs(cap.issuerId, cap.capabilityId) then Err(IdentityDataMismatch)
          else if cell.lock != owner then Err(NotTheOwner)
          else Ok((cell, cap))
  }

  /** The first input is still the named cell. */
  predicate StartsWith(d: Draft, o: OutPoint) {
    d.inputs != [] && d.inputs[0].previousOutput == o
  }

  // ---- Transfer ----

  function TransferResult(chain: Chain, wallet: Wallet, live: map<OutPoint, Cell>, o: OutPoint, recipient: Address,
                          now: int)
      : Result<Draft, BuildError>
  {
    if recipient.Blank? then Err(RecipientRequired)
    else
      match OwnedCapability(chain.deployment, live, o, wallet.lock)
      case Err(e) => Err(e)
      case Ok((cell, cap)) =>
        if !HasFlag(cap.flags, FLAG_TRANSFERABLE) then Err(NonTransferable)
        else if cap.V2? && cap.bindingMode == BINDING_ATOMIC then Err(AtomicReserved)
        else if !IsActive(cap, now) then Err(ExpiredCapability)
        else if recipient.Malformed? then Err(InvalidAddress)
        else if cell.lock == recipient.script then Err(AlreadyOwned)
        else TransferChecked(chain, wallet, o, cell, recipient.script)
  }

  function TransferDraft(o: OutPoint, cell: Cell, recipient: Script): Draft {
    Draft([TxInput(o, 0, Some(OutputPart(cell)))], [OutputPart(cell).(lock := recipient)], [cell.data])
  }

  function TransferChecked(chain: Chain, wallet: Wallet, o: OutPoint, cell: Cell, recipient: Script)
      : Result<Draft, BuildError>
    requires cell.typ.Some?
  {
    match wallet.completeFee(TransferDraft(o, cell, recipient))
    case None => Err(WalletFailed)
    case Some(final) =>
      if !NoCapabilityFunding(chain.deployment, final.inputs, 1) then Err(CapabilityAsFunding)
      else if !StartsWith(final, o) then Err(CapabilityInputChanged)
      else if final.outputs == [] || final.outputs[0].typ != cell.typ then Err(TypeChanged)
      else if final.outputsData == [] || final.outputsData[0] != cell.data then Err(DataChanged)
      else if final.outputs[0].lock != recipient then Err(RecipientChanged)
      else Ok(final)
  }

  method BuildTransferCapabilityTx(chain: Chain, wallet: Wallet, live: map<OutPoint, Cell>, o: OutPoint,
                                   recipient: Address, now: int)
      returns (r: Result<Transaction, BuildError>)
    ensures TransferResult(chain, wallet, live, o, recipient, now).Err? ==>
              r == Err(TransferResult(chain, wallet, live, o, recipient, now).error)
    ensures TransferResult(chain, wallet, live, o, recipient, now).Ok? ==>
              r.Ok? && fresh(r.value)
              && r.value.Contents() == TransferResult(chain, wallet, live, o, recipient, now).value
  {
    if recipient.Blank? {
      return Err(RecipientRequired);
    }
    var owned := OwnedCapability(chain.deployment, live, o, wallet.lock);
    if owned.Err? {
      return Err(owned.error);
    }
    var (cell, cap) := owned.value;
    if !HasFlag(cap.flags, FLAG_TRANSFERABLE) {
      return Err(NonTransferable);
    }
    if cap.V2? && cap.bindingMode == BINDING_ATOMIC {
      return Err(AtomicReserved);
    }
    if !IsActive(cap, now) {
      return Err(ExpiredCapability);
    }
    if recipient.Malformed? {
      return Err(InvalidAddress);
    }
    if cell.lock == recipient.script {
      return Err(AlreadyOwned);
    }
    var tx := new Transaction(Draft([], [], []));
    tx.AddInput(o, cell);
    tx.AddOutput(CellOutput(cell.capacity, recipient.script, cell.typ), cell.data);
    assert tx.Contents() == TransferDraft(o, cell, recipient.script);
    var ok := tx.CompleteBy(wallet.completeFee);
    if !ok {
      return Err(WalletFailed);
    }
    ok := AssertNoCapabilityFundingInputs(chain.deployment, tx.inputs, 1);
    if !ok {
      return Err(CapabilityAsFunding);
    }
    if tx.inputs == [] || tx.inputs[0].previousOutput != o {
      return Err(CapabilityInputChanged);
    }
    if tx.outputs == [] || tx.outputs[0].typ != cell.typ {
      return Err(TypeChanged);
    }
    if tx.outputsData == [] || tx.outputsData[0] != cell.data {
      return Err(DataChanged);
    }
    if tx.outputs[0].lock != recipient.script {
      return Err(RecipientChanged);
    }
    return Ok(tx);
  }

  // ---- Surrender ----

  function SurrenderResult(chain: Chain, wallet: Wallet, live: map<OutPoint, Cell>, o: OutPoint)
      : Result<(Draft, Capability), BuildError>
  {
    match OwnedCapability(chain.deployment, live, o, wallet.lock)
    case Err(e) => Err(e)
    case Ok((cell, cap)) =>
      match wallet.completeFee(SurrenderDraft(o, cell))
      case None => Err(WalletFailed)
      case Some(final) =>
        if !StartsWith(final, o) then Err(CapabilityInputChanged)
        else if exists k :: 0 <= k < |final.outputs| && IsCapabilityType(chain.deployment, final.outputs[k].typ)
             then Err(SuccessorCreated)
        else if !NoCapabilityFunding(chain.deployment, final.inputs, 1) then Err(CapabilityAsFunding)
        else Ok((final, cap))
  }

  function SurrenderDraft(o: OutPoint, cell: Cell): Draft {
    Draft([TxInput(o, 0, Some(OutputPart(cell)))], [CellOutput(cell.capacity, cell.lock, None)], [[]])
  }

  method BuildSurrenderCapabilityTx(chain: Chain, wallet: Wallet, live: map<OutPoint, Cell>, o: OutPoint)
      returns (r: Result<(Transaction, Capability), BuildError>)
    ensures SurrenderResult(chain, wallet, live, o).Err? ==> r == Err(SurrenderResult(chain, wallet, live, o).error)
    ensures SurrenderResult(chain, wallet, live, o).Ok? ==>
              r.Ok? && fresh(r.value.0)
              && (r.value.0.Contents(), r.value.1) == SurrenderResult(chain, wallet, live, o).value
  {
    var owned := OwnedCapability(chain.deployment, live, o, wallet.lock);
    if owned.Err? {
      return Err(owned.error);
    }
    var (cell, cap) := owned.value;
    var tx := new Transaction(Draft([], [], []));
    tx.AddInput(o, cell);
    tx.AddOutput(CellOutput(cell.capacity, cell.lock, None), []);
    assert tx.Contents() == SurrenderDraft(o, cell);
    var ok := tx.CompleteBy(wallet.completeFee);
    if !ok {
      return Err(WalletFailed);
    }
    if tx.inputs == [] || tx.inputs[0].previousOutput != o {
      return Err(CapabilityInputChanged);
    }
    for k := 0 to |tx.outputs|
      invariant forall i :: 0 <= i < k ==> !IsCapabilityType(chain.deployment, tx.outputs[i].typ)
    {
      if IsCapabilityType(chain.deployment, tx.outputs[k].typ) {
        return Err(SuccessorCreated);
      }
    }
    ok := AssertNoCapabilityFundingInputs(chain.deployment, tx.inputs, 1);
    if !ok {
      return Err(CapabilityAsFunding);
    }
    return Ok((tx, cap));
  }
}
