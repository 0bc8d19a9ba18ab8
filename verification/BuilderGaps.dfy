/** Where the builders' guards fall short: wallets whose completions pass every guard and yield a
    transaction the ledger refuses, or accepts although it does something else than asked. */
module BuilderGaps {
  import opened Wrappers
  import opened ByteStrings
  import opened CapabilityFormat
  import opened ContractParser
  import opened CapabilityCodec
  import opened Ckb
  import opened CapabilityType
  import opened Ledger
  import opened Builders
  import opened BuilderGuarantees
  import opened BuilderCompleteness
  import opened BuilderExactness
  import opened LiveVerifier
  import opened AuthorityGuarantees

  /** Fee completion that appends a copy of the first output. */
  function CopyFirstOutput(d: Draft): Option<Draft> {
    if d.outputs == [] || d.outputsData == [] then None
    else Some(Draft(d.inputs, d.outputs + [d.outputs[0]], d.outputsData + [d.outputsData[0]]))
  }

  /** Every transfer the builder would make for this owner it also makes when the wallet copies
      the output, and then no set of signers makes the ledger accept it. */
  lemma CopiedTransferIsRefused(chain: Chain, s: State, o: OutPoint, owner: Script, recipient: Script, now: int)
      returns (d: Draft)
    requires Owns(chain.deployment, s.live, o, owner) && recipient != owner
    requires var cap := ReadCapability(chain.deployment, s.live[o]).value;
             HasFlag(cap.flags, FLAG_TRANSFERABLE) && !Atomic(s.live[o].data) && IsActive(cap, now)
    ensures TransferResult(chain, Wallet(owner, _ => None, CopyFirstOutput), s.live, o, Valid(recipient), now) == Ok(d)
    ensures Broadcastable(s.live, d) && forall signers :: !Accepts(chain, s, Spend(ToTx(d), signers))
  {
    var wallet, cell := Wallet(owner, _ => None, CopyFirstOutput), s.live[o];
    d := CopyFirstOutput(TransferDraft(o, cell, recipient)).value;
    assert d.outputs[1].typ == cell.typ && ToTx(d).outputs[0].typ == cell.typ;
    TransferGroupExact(chain, wallet, s.live, o, Valid(recipient), now, d);
    assert Mentions(ToTx(d), SpentCells(s.live, d), cell.typ.value);
  }

  /** Fee completion that appends an output of the deployment without any args. */
  function AppendNameless(deployment: Deployment, d: Draft): Option<Draft> {
    if d.outputs == [] then None
    else
      var nameless := Script(deployment.codeHash, deployment.hashType, []);
      Some(Draft(d.inputs, d.outputs + [d.outputs[0].(typ := Some(nameless))], d.outputsData + [[]]))
  }

  /** A second such wallet: here the moved right's own script group passes, and the appended
      output's script is the one that fails. */
  lemma NamelessOutputIsRefused(chain: Chain, s: State, o: OutPoint, owner: Script, recipient: Script, now: int)
      returns (d: Draft)
    requires Owns(chain.deployment, s.live, o, owner) && recipient != owner
    requires var cap := ReadCapability(chain.deployment, s.live[o]).value;
             HasFlag(cap.flags, FLAG_TRANSFERABLE) && !Atomic(s.live[o].data) && IsActive(cap, now)
    ensures TransferResult(chain, Wallet(owner, _ => None, x => AppendNameless(chain.deployment, x)),
                           s.live, o, Valid(recipient), now) == Ok(d)
    ensures Broadcastable(s.live, d) && Run(chain, s.live[o].typ.value, ToTx(d), SpentCells(s.live, d)).Ok?
    ensures forall signers :: !Accepts(chain, s, Spend(ToTx(d), signers))
  {
    var wallet, cell := Wallet(owner, _ => None, x => AppendNameless(chain.deployment, x)), s.live[o];
    d := AppendNameless(chain.deployment, TransferDraft(o, cell, recipient)).value;
    assert d.inputs == [TxInput(o, 0, Some(OutputPart(cell)))];
    TransferGroupExact(chain, wallet, s.live, o, Valid(recipient), now, d);
    var nameless := d.outputs[1].typ.value;
    assert ToTx(d).outputs[1].typ == Some(nameless);
    assert Mentions(ToTx(d), SpentCells(s.live, d), nameless);
    assert Run(chain, nameless, ToTx(d), SpentCells(s.live, d)) == Err(InvalidArgs);
  }

  /** Input selection that puts in the one cell at `o`. */
  function FundFrom(o: OutPoint, cell: Cell, d: Draft): Option<Draft> {
    Some(d.(inputs := [TxInput(o, 0, Some(OutputPart(cell)))]))
  }

  /** An issue funded from a cell of another lock is built, and no set of signers makes the
      ledger accept it: the builder nowhere checks for an input of the issuer. */
  lemma ForeignFundedIssueIsRefused(chain: Chain, s: State, p: IssueParams, now: int, issuer: Script, o: OutPoint)
      returns (issued: Issued<Draft>)
    requires o in s.live && !IsCapability(chain, s.live[o])
    requires chain.scriptHash(s.live[o].lock) != chain.scriptHash(issuer)
    requires IssueRefusal(p, now).None? && NormalizeCapability(IssueInput(p, chain.scriptHash(issuer), ZERO32)).Ok?
    ensures IssueResult(chain, Wallet(issuer, d => FundFrom(o, s.live[o], d), d => Some(d)), p, now) == Ok(issued)
    ensures Broadcastable(s.live, issued.tx) && KeepsFirstOutput(issued.tx, IssuedScript(chain, issued), issued.data)
    ensures forall signers :: !Accepts(chain, s, Spend(ToTx(issued.tx), signers))
  {
    var wallet := Wallet(issuer, d => FundFrom(o, s.live[o], d), d => Some(d));
    var id := CreationId(chain, CellInput(o, 0), 0);
    EncodableWithAnyId(p, chain.scriptHash(issuer), ZERO32, id);
    issued := IssueResult(chain, wallet, p, now).value;
    assert issued.tx.inputs == [TxInput(o, 0, Some(OutputPart(s.live[o])))];
    IssueGroupExact(chain, wallet, p, now, s.live, issued);
    assert Mentions(ToTx(issued.tx), SpentCells(s.live, issued.tx), IssuedScript(chain, issued));
  }

  /** Fee completion that empties the first output's data. */
  function ErasePayload(d: Draft): Option<Draft> {
    if d.outputsData == [] then None else Some(d.(outputsData := d.outputsData[0 := []]))
  }

  /** An issue whose payload the wallet erased is built, although the issuer funds it and no
      output is added, and no set of signers makes the ledger accept it. */
  lemma ErasedIssueIsRefused(chain: Chain, s: State, p: IssueParams, now: int, o: OutPoint)
      returns (issued: Issued<Draft>)
    requires o in s.live && !IsCapability(chain, s.live[o])
    requires IssueRefusal(p, now).None?
    requires NormalizeCapability(IssueInput(p, chain.scriptHash(s.live[o].lock), ZERO32)).Ok?
    ensures IssueResult(chain, Wallet(s.live[o].lock, d => FundFrom(o, s.live[o], d), ErasePayload), p, now)
              == Ok(issued)
    ensures Broadcastable(s.live, issued.tx) && PlainChange(chain.deployment, issued.tx)
    ensures IssuerAuthorized(chain, SpentCells(s.live, issued.tx), chain.scriptHash(s.live[o].lock))
    ensures forall signers :: !Accepts(chain, s, Spend(ToTx(issued.tx), signers))
  {
    var issuer := s.live[o].lock;
    var wallet := Wallet(issuer, d => FundFrom(o, s.live[o], d), ErasePayload);
    var id := CreationId(chain, CellInput(o, 0), 0);
    EncodableWithAnyId(p, chain.scriptHash(issuer), ZERO32, id);
    issued := IssueResult(chain, wallet, p, now).value;
    assert issued.tx.inputs == [TxInput(o, 0, Some(OutputPart(s.live[o])))];
    assert SpentCells(s.live, issued.tx)[0] == s.live[o];
    var script := IssuedScript(chain, issued);
    assert ToTx(issued.tx).outputs[0].typ == Some(script) && ToTx(issued.tx).outputs[0].data == [];
    RefusedWithoutPayload(chain, s, ToTx(issued.tx), script);
  }

  lemma RefusedWithoutPayload(chain: Chain, s: State, tx: Tx, script: Script)
    requires Resolves(s.live, tx) && 0 < |tx.outputs| < OUTPUT_LIMIT && InDeployment(chain.deployment, script)
    requires tx.outputs[0].typ == Some(script) && tx.outputs[0].data == []
    requires forall j :: 0 <= j < |tx.inputs| ==> !IsCapability(chain, Consumed(s.live, tx)[j])
    ensures forall signers :: !Accepts(chain, s, Spend(tx, signers))
  {
    OnlyIssues(chain, tx, Consumed(s.live, tx));
  }

  // ---- Accepted, but not what was asked for ----

  /** Fee completion that puts another lock on the first output. */
  function Relock(d: Draft, lock: Script): Option<Draft> {
    if d.outputs == [] then None else Some(d.(outputs := d.outputs[0 := d.outputs[0].(lock := lock)]))
  }

  /** The issue builder does not look at the recipient again: with such a wallet the ledger
      accepts the issue, the right is another owner's, and the builder still reports the
      recipient's lock hash. */
  lemma RelockedIssueIsAccepted(chain: Chain, s: State, p: IssueParams, now: int, o: OutPoint, other: Script)
      returns (issued: Issued<Draft>)
    requires o in s.live && !IsCapability(chain, s.live[o])
    requires IssueRefusal(p, now).None? && other != p.recipient.script
    requires NormalizeCapability(IssueInput(p, chain.scriptHash(s.live[o].lock), ZERO32)).Ok?
    ensures var wallet := Wallet(s.live[o].lock, d => FundFrom(o, s.live[o], d), d => Relock(d, other));
            IssueResult(chain, wallet, p, now) == Ok(issued)
    ensures Broadcastable(s.live, issued.tx) && PlainChange(chain.deployment, issued.tx)
    ensures KeepsFirstOutput(issued.tx, IssuedScript(chain, issued), issued.data)
    ensures IssuerAuthorized(chain, SpentCells(s.live, issued.tx), chain.scriptHash(s.live[o].lock))
    ensures Accepts(chain, s, Spend(ToTx(issued.tx), {s.live[o].lock}))
    ensures ToTx(issued.tx).outputs[0].lock == other
    ensures issued.recipientLockHash == chain.scriptHash(p.recipient.script)
  {
    var issuer := s.live[o].lock;
    var wallet := Wallet(issuer, d => FundFrom(o, s.live[o], d), d => Relock(d, other));
    EncodableWithAnyId(p, chain.scriptHash(issuer), ZERO32, CreationId(chain, CellInput(o, 0), 0));
    issued := IssueResult(chain, wallet, p, now).value;
    assert issued.tx.inputs == [TxInput(o, 0, Some(OutputPart(s.live[o])))];
    assert SpentCells(s.live, issued.tx)[0] == s.live[o];
    IssueRefinesContract(chain, wallet, p, now, s, issued, {issuer});
  }

  /** Nor does the surrender builder look at the refund again: with such a wallet the ledger
      accepts the surrender, and the capacity goes to another owner. */
  lemma RelockedRefundIsAccepted(chain: Chain, s: State, o: OutPoint, owner: Script, other: Script) returns (d: Draft)
    requires Owns(chain.deployment, s.live, o, owner) && other != owner
    ensures SurrenderResult(chain, Wallet(owner, _ => None, x => Relock(x, other)), s.live, o) ==
              Ok((d, ReadCapability(chain.deployment, s.live[o]).value))
    ensures Broadcastable(s.live, d) && Accepts(chain, s, Spend(ToTx(d), {owner}))
    ensures ToTx(d).outputs == [Refund(s.live[o]).(lock := other)]
  {
    var wallet := Wallet(owner, _ => None, x => Relock(x, other));
    d := Relock(SurrenderDraft(o, s.live[o]), other).value;
    assert d.inputs == [TxInput(o, 0, Some(OutputPart(s.live[o])))];
    assert SpentCells(s.live, d) == [s.live[o]];
    SurrenderRefinesContract(chain, wallet, s, o, d, ReadCapability(chain.deployment, s.live[o]).value, {owner});
  }

  /** Fee completion that changes the capacity of the first output. */
  function Resize(d: Draft, capacity: nat): Option<Draft> {
    if d.outputs == [] then None else Some(d.(outputs := d.outputs[0 := d.outputs[0].(capacity := capacity)]))
  }

  /** The transfer builder does not look at the capacity: with such a wallet the ledger accepts
      the transfer, and the recipient's cell holds another capacity than the owner's. */
  lemma ResizedTransferIsAccepted(chain: Chain, s: State, o: OutPoint, owner: Script, recipient: Script, now: int,
                                  capacity: nat) returns (d: Draft)
    requires Owns(chain.deployment, s.live, o, owner) && recipient != owner && capacity != s.live[o].capacity
    requires var cap := ReadCapability(chain.deployment, s.live[o]).value;
             HasFlag(cap.flags, FLAG_TRANSFERABLE) && !Atomic(s.live[o].data) && IsActive(cap, now)
    ensures TransferResult(chain, Wallet(owner, _ => None, x => Resize(x, capacity)),
                           s.live, o, Valid(recipient), now) == Ok(d)
    ensures Broadcastable(s.live, d) && Accepts(chain, s, Spend(ToTx(d), {owner}))
    ensures ToTx(d).outputs == [s.live[o].(lock := recipient, capacity := capacity)]
  {
    var wallet := Wallet(owner, _ => None, x => Resize(x, capacity));
    d := Resize(TransferDraft(o, s.live[o], recipient), capacity).value;
    assert d.inputs == [TxInput(o, 0, Some(OutputPart(s.live[o])))];
    assert SpentCells(s.live, d) == [s.live[o]];
    TransferRefinesContract(chain, wallet, s, o, Valid(recipient), now, d, {owner});
  }

  /** Fee completion that adds an input without saying which output it spends. */
  function AddUnresolved(d: Draft, o: OutPoint): Option<Draft> {
    Some(d.(inputs := d.inputs + [TxInput(o, 0, None)]))
  }

  /** The funding guards see only resolved inputs: with such a wallet the ledger accepts the
      surrender of one right, and a second right of the owner is retired with it. */
  lemma UnresolvedInputRetiresASecondRight(chain: Chain, s: State, o: OutPoint, o': OutPoint, owner: Script)
      returns (d: Draft)
    requires Owns(chain.deployment, s.live, o, owner) && Owns(chain.deployment, s.live, o', owner)
    requires s.live[o].typ != s.live[o'].typ
    ensures SurrenderResult(chain, Wallet(owner, _ => None, x => AddUnresolved(x, o')), s.live, o) ==
              Ok((d, ReadCapability(chain.deployment, s.live[o]).value))
    ensures Sendable(s.live, d) && Accepts(chain, s, Spend(ToTx(d), {owner}))
    ensures s.live[o'].typ.Some? && Retires(s.live[o'].typ.value, ToTx(d), SpentCells(s.live, d), 1)
  {
    d := AddUnresolved(SurrenderDraft(o, s.live[o]), o').value;
    var tx, consumed := ToTx(d), SpentCells(s.live, d);
    assert consumed == [s.live[o], s.live[o']];
    ReadsExactlyIdentified(chain, s.live[o]);
    ReadsExactlyIdentified(chain, s.live[o']);
    TwoRetired(chain, tx, consumed);
  }

  lemma TwoRetired(chain: Chain, tx: Tx, consumed: seq<Cell>)
    requires |consumed| == 2 && Identified(consumed[0]) && Identified(consumed[1]) && consumed[0].typ != consumed[1].typ
    requires forall k :: 0 <= k < |tx.outputs| ==> tx.outputs[k].typ.None?
    ensures ScriptsPass(chain, tx, consumed) && Retires(consumed[1].typ.value, tx, consumed, 1)
  {
    RetireAccepted(chain, consumed[0].typ.value, tx, consumed, 0);
    RetireAccepted(chain, consumed[1].typ.value, tx, consumed, 1);
  }
}
