/** The Type Script: one run of the contract on one script group of one transaction. */
module CapabilityType {
  import opened Wrappers
  import opened ByteStrings
  import opened CapabilityFormat
  import opened ContractParser
  import opened Ckb

  const ARGS_LEN := 64

  function LoadArgs(script: Script): Result<(H32, H32), ContractError> {
    if |script.args| != ARGS_LEN then Err(InvalidArgs) else Ok((script.args[..32], script.args[32..]))
  }

  function EnforceIdentity(cap: CapabilityData, issuer: H32, id: H32): Result<(), ContractError> {
    if cap.issuerId != issuer || cap.capabilityId != id then Err(IdentityMismatch) else Ok(())
  }

  /** The Type ID creation rule: the id is the hash of the transaction's first input and the
      absolute index of the created output. */
  function VerifyCreationId(chain: Chain, tx: Tx, index: nat, id: H32): Result<(), ContractError> {
    if tx.inputs != [] && CreationId(chain, tx.inputs[0], index) == id then Ok(()) else Err(InvalidCreationId)
  }

  predicate IssuerAuthorized(chain: Chain, consumed: seq<Cell>, issuer: H32) {
    exists j :: 0 <= j < |consumed| && chain.scriptHash(consumed[j].lock) == issuer
  }

  function VerifyIssue(chain: Chain, tx: Tx, consumed: seq<Cell>, index: nat, issuer: H32, id: H32)
      : (r: Result<(), ContractError>)
    requires index < |tx.outputs|
    ensures r != Err(InvalidArgs) && r != Err(InvalidGroupShape)
  {
    match ParseCapability(tx.outputs[index].data)
    case Err(e) => Err(e)
    case Ok(cap) =>
      if EnforceIdentity(cap, issuer, id).Err? then EnforceIdentity(cap, issuer, id)
      else if VerifyCreationId(chain, tx, index, id).Err? then VerifyCreationId(chain, tx, index, id)
      else if !IssuerAuthorized(chain, consumed, issuer) then Err(MissingIssuerAuthorization)
      else Ok(())
  }

  function VerifyTransition(chain: Chain, input: Cell, output: Cell, issuer: H32, id: H32)
      : (r: Result<(), ContractError>)
    ensures r != Err(InvalidArgs) && r != Err(InvalidGroupShape)
  {
    match ParseCapability(input.data)
    case Err(e) => Err(e)
    case Ok(before) =>
      match ParseCapability(output.data)
      case Err(e) => Err(e)
      case Ok(after) =>
        if EnforceIdentity(before, issuer, id).Err? then EnforceIdentity(before, issuer, id)
        else if EnforceIdentity(after, issuer, id).Err? then EnforceIdentity(after, issuer, id)
        else if input.data != output.data || before != after then Err(ImmutableFieldChanged)
        else if chain.scriptHash(input.lock) != chain.scriptHash(output.lock)
                && (before.flags as bv8) & FLAG_TRANSFERABLE == 0 then Err(TransferForbidden)
        else Ok(())
  }

  function VerifySurrender(input: Cell, issuer: H32, id: H32): (r: Result<(), ContractError>)
    ensures r != Err(InvalidArgs) && r != Err(InvalidGroupShape)
  {
    match ParseCapability(input.data)
    case Err(e) => Err(e)
    case Ok(cap) => EnforceIdentity(cap, issuer, id)
  }

  /** The script's entry point, run on the group of `script` in a transaction whose inputs
      resolve to the cells `consumed`. */
  function Run(chain: Chain, script: Script, tx: Tx, consumed: seq<Cell>): Result<(), ContractError> {
    var ins := Group(consumed, script);
    var outs := Group(tx.outputs, script);
    match LoadArgs(script)
    case Err(e) => Err(e)
    case Ok((issuer, id)) =>
      if |ins| == 0 && |outs| == 1 then
        assert outs[0] in outs;
        VerifyIssue(chain, tx, consumed, outs[0], issuer, id)
      else if |ins| == 1 && |outs| == 1 then
        assert ins[0] in ins && outs[0] in outs;
        VerifyTransition(chain, consumed[ins[0]], tx.outputs[outs[0]], issuer, id)
      else if |ins| == 1 && |outs| == 0 then
        assert ins[0] in ins;
        VerifySurrender(consumed[ins[0]], issuer, id)
      else Err(InvalidGroupShape)
  }

  /** The capability id a Type Script names. */
  function IdOf(script: Script): H32
    requires |script.args| == ARGS_LEN
  {
    script.args[32..]
  }

  function IssuerOf(script: Script): H32
    requires |script.args| == ARGS_LEN
  {
    script.args[..32]
  }

  /** The cell's payload is well formed and says what its Type Script args say. */
  predicate Identified(cell: Cell) {
    && cell.typ.Some? && |cell.typ.value.args| == ARGS_LEN
    && ParseCapability(cell.data).Ok?
    && ParseCapability(cell.data).value.issuerId == IssuerOf(cell.typ.value)
    && ParseCapability(cell.data).value.capabilityId == IdOf(cell.typ.value)
  }

  predicate Transferable(cell: Cell) {
    ParseCapability(cell.data).Ok? && HasFlag(ParseCapability(cell.data).value.flags, FLAG_TRANSFERABLE)
  }

  /** The contract tests a flag by "not zero", the client by "equal to the flag". */
  lemma FlagTestsAgree(flags: byte)
    ensures (flags as bv8) & FLAG_TRANSFERABLE == 0 <==> !HasFlag(flags, FLAG_TRANSFERABLE)
  {
  }

  // ---- The three accepted shapes, stated without the script's own control flow ----

  predicate Issues(chain: Chain, script: Script, tx: Tx, consumed: seq<Cell>, k: nat) {
    && k < |tx.outputs| && tx.outputs[k].typ == Some(script) && Identified(tx.outputs[k])
    && (forall j :: 0 <= j < |tx.outputs| && tx.outputs[j].typ == Some(script) ==> j == k)
    && (forall j :: 0 <= j < |consumed| ==> consumed[j].typ != Some(script))
    && tx.inputs != [] && CreationId(chain, tx.inputs[0], k) == IdOf(script)
    && IssuerAuthorized(chain, consumed, IssuerOf(script))
  }

  predicate Moves(chain: Chain, script: Script, tx: Tx, consumed: seq<Cell>, j: nat, k: nat) {
    && k < |tx.outputs| && tx.outputs[k].typ == Some(script)
    && j < |consumed| && consumed[j].typ == Some(script) && Identified(consumed[j])
    && (forall k' :: 0 <= k' < |tx.outputs| && tx.outputs[k'].typ == Some(script) ==> k' == k)
    && (forall j' :: 0 <= j' < |consumed| && consumed[j'].typ == Some(script) ==> j' == j)
    && tx.outputs[k].data == consumed[j].data
    && (chain.scriptHash(tx.outputs[k].lock) == chain.scriptHash(consumed[j].lock) || Transferable(consumed[j]))
  }

  predicate Retires(script: Script, tx: Tx, consumed: seq<Cell>, j: nat) {
    && j < |consumed| && consumed[j].typ == Some(script) && Identified(consumed[j])
    && (forall k :: 0 <= k < |tx.outputs| ==> tx.outputs[k].typ != Some(script))
    && (forall j' :: 0 <= j' < |consumed| && consumed[j'].typ == Some(script) ==> j' == j)
  }

  /** The transition rule is whole-payload preservation: given one parsable, identified
      input, the combined byte and struct tests pass exactly when the payload is unchanged,
      and the lock may change exactly when the right is transferable. */
  lemma TransitionRule(chain: Chain, input: Cell, output: Cell)
    requires Identified(input)
    ensures VerifyTransition(chain, input, output, IssuerOf(input.typ.value), IdOf(input.typ.value)).Ok? <==>
              && output.data == input.data
              && (chain.scriptHash(output.lock) == chain.scriptHash(input.lock) || Transferable(input))
  {
  }

  /** The script accepts a group exactly when it issues, moves or retires one right. */
  lemma RunIsOneLifecycleStep(chain: Chain, script: Script, tx: Tx, consumed: seq<Cell>)
    ensures Run(chain, script, tx, consumed).Ok? <==>
              || (exists k :: Issues(chain, script, tx, consumed, k))
              || (exists j, k :: Moves(chain, script, tx, consumed, j, k))
              || (exists j :: Retires(script, tx, consumed, j))
  {
    if Run(chain, script, tx, consumed).Ok? {
      AcceptedShape(chain, script, tx, consumed);
    }
    if k :| Issues(chain, script, tx, consumed, k) {
      IssueAccepted(chain, script, tx, consumed, k);
    }
    if j, k :| Moves(chain, script, tx, consumed, j, k) {
      MoveAccepted(chain, script, tx, consumed, j, k);
    }
    if j :| Retires(script, tx, consumed, j) {
      RetireAccepted(chain, script, tx, consumed, j);
    }
  }

  lemma AcceptedShape(chain: Chain, script: Script, tx: Tx, consumed: seq<Cell>)
    requires Run(chain, script, tx, consumed).Ok?
    ensures || (exists k :: Issues(chain, script, tx, consumed, k))
            || (exists j, k :: Moves(chain, script, tx, consumed, j, k))
            || (exists j :: Retires(script, tx, consumed, j))
  {
    var ins := Group(consumed, script);
    var outs := Group(tx.outputs, script);
    EmptyGroup(consumed, script);
    EmptyGroup(tx.outputs, script);
    if |outs| == 1 {
      assert outs[0] in outs;
      SingletonGroup(tx.outputs, script, outs[0]);
    }
    if |ins| == 1 {
      assert ins[0] in ins;
      SingletonGroup(consumed, script, ins[0]);
    }
    if |ins| == 0 {
      assert Issues(chain, script, tx, consumed, outs[0]);
    } else if |outs| == 1 {
      TransitionRule(chain, consumed[ins[0]], tx.outputs[outs[0]]);
      assert Moves(chain, script, tx, consumed, ins[0], outs[0]);
    } else {
      assert Retires(script, tx, consumed, ins[0]);
    }
  }

  lemma IssueAccepted(chain: Chain, script: Script, tx: Tx, consumed: seq<Cell>, k: nat)
    requires Issues(chain, script, tx, consumed, k)
    ensures Run(chain, script, tx, consumed).Ok?
  {
    EmptyGroup(consumed, script);
    SingletonGroup(tx.outputs, script, k);
  }

  lemma MoveAccepted(chain: Chain, script: Script, tx: Tx, consumed: seq<Cell>, j: nat, k: nat)
    requires Moves(chain, script, tx, consumed, j, k)
    ensures Run(chain, script, tx, consumed).Ok?
  {
    SingletonGroup(consumed, script, j);
    SingletonGroup(tx.outputs, script, k);
    TransitionRule(chain, consumed[j], tx.outputs[k]);
  }

  lemma RetireAccepted(chain: Chain, script: Script, tx: Tx, consumed: seq<Cell>, j: nat)
    requires Retires(script, tx, consumed, j)
    ensures Run(chain, script, tx, consumed).Ok?
  {
    SingletonGroup(consumed, script, j);
    EmptyGroup(tx.outputs, script);
  }

  // ---- What a refusal says ----

  /** The payload breaks the rule the parser's error names, in numbers. */
  predicate BreaksFormat(data: Bytes, e: ContractError) {
    match e
    case UnsupportedVersion => |data| > 0 && data[0] != 1 && data[0] != 2
    case UnknownFlags => |data| > 1 && data[1] >= 8
    case MalformedData =>
      || |data| == 0
      || (data[0] == 1 && |data| != 106)
      || (data[0] == 2 && |data| != 172)
      || (|data| == 172 && (|| data[107] > 3
                            || (data[106] == 0 && data[107] != 0)
                            || (data[106] == 0 <==> exists k :: 108 <= k < 140 && data[k] != 0)))
    case _ => false
  }

  lemma ParserNamesABreach(data: Bytes)
    ensures ParseCapability(data).Err? ==> BreaksFormat(data, ParseCapability(data).error)
  {
    if |data| > 1 {
      FlagBits(data[1]);
    }
    if |data| == 172 {
      assert forall k :: 108 <= k < 140 ==> data[k] == data[108..140][k - 108];
      assert forall k :: 0 <= k < 32 ==> data[108..140][k] == data[108 + k];
    }
  }

  /** Some cell of the group carries the payload. */
  predicate InGroup(script: Script, tx: Tx, consumed: seq<Cell>, data: Bytes) {
    || (exists j :: 0 <= j < |consumed| && consumed[j].typ == Some(script) && consumed[j].data == data)
    || (exists k :: 0 <= k < |tx.outputs| && tx.outputs[k].typ == Some(script) && tx.outputs[k].data == data)
  }

  /** The transaction breaks the rule the script's error names. */
  ghost predicate BreaksRule(chain: Chain, script: Script, tx: Tx, consumed: seq<Cell>, e: ContractError) {
    match e
    case InvalidArgs => |script.args| != 64
    case InvalidGroupShape =>
      (|Group(consumed, script)|, |Group(tx.outputs, script)|) !in {(0, 1), (1, 1), (1, 0)}
    case IdentityMismatch =>
      exists data :: && InGroup(script, tx, consumed, data) && ParseCapability(data).Ok?
                     && script.args != ParseCapability(data).value.issuerId + ParseCapability(data).value.capabilityId
    case InvalidCreationId =>
      exists k :: && 0 <= k < |tx.outputs| && tx.outputs[k].typ == Some(script)
                  && (tx.inputs == [] || script.args[|script.args| / 2..] != CreationId(chain, tx.inputs[0], k))
    case MissingIssuerAuthorization =>
      forall j :: 0 <= j < |consumed| ==> chain.scriptHash(consumed[j].lock) != script.args[..|script.args| / 2]
    case ImmutableFieldChanged =>
      exists j, k :: 0 <= j < |consumed| && 0 <= k < |tx.outputs|
                     && consumed[j].typ == tx.outputs[k].typ == Some(script) && consumed[j].data != tx.outputs[k].data
    case TransferForbidden =>
      exists j, k :: 0 <= j < |consumed| && 0 <= k < |tx.outputs|
                     && consumed[j].typ == tx.outputs[k].typ == Some(script)
                     && chain.scriptHash(consumed[j].lock) != chain.scriptHash(tx.outputs[k].lock)
                     && |consumed[j].data| > 1 && consumed[j].data[1] as int % 2 == 0
    case _ => exists data :: InGroup(script, tx, consumed, data) && BreaksFormat(data, e)
  }

  /** The script never misnames what is wrong: whatever error it returns, the transaction breaks
      the rule that error stands for. */
  lemma RefusalsNameABreach(chain: Chain, script: Script, tx: Tx, consumed: seq<Cell>)
    ensures Run(chain, script, tx, consumed).Err? ==>
              BreaksRule(chain, script, tx, consumed, Run(chain, script, tx, consumed).error)
  {
    var ins, outs := Group(consumed, script), Group(tx.outputs, script);
    if |script.args| == 64 && |ins| <= 1 && |outs| == 1 {
      var k := outs[0];
      assert k in outs;
      if |ins| == 0 {
        IssueNamesABreach(chain, script, tx, consumed, k);
      } else {
        assert ins[0] in ins;
        MoveNamesABreach(chain, script, tx, consumed, ins[0], k);
      }
    } else if |script.args| == 64 && |ins| == 1 && |outs| == 0 {
      assert ins[0] in ins;
      SurrenderNamesABreach(chain, script, tx, consumed, ins[0]);
    }
  }

  lemma IssueNamesABreach(chain: Chain, script: Script, tx: Tx, consumed: seq<Cell>, k: nat)
    requires |script.args| == 64 && k < |tx.outputs| && tx.outputs[k].typ == Some(script)
    ensures var r := VerifyIssue(chain, tx, consumed, k, script.args[..32], script.args[32..]);
            r.Err? ==> BreaksRule(chain, script, tx, consumed, r.error)
  {
    ParserNamesABreach(tx.outputs[k].data);
    assert InGroup(script, tx, consumed, tx.outputs[k].data);
    if ParseCapability(tx.outputs[k].data).Ok? {
      MisnamedArgs(script, tx.outputs[k].data);
    }
  }

  lemma MoveNamesABreach(chain: Chain, script: Script, tx: Tx, consumed: seq<Cell>, j: nat, k: nat)
    requires |script.args| == 64 && j < |consumed| && k < |tx.outputs|
    requires consumed[j].typ == tx.outputs[k].typ == Some(script)
    ensures var r := VerifyTransition(chain, consumed[j], tx.outputs[k], script.args[..32], script.args[32..]);
            r.Err? ==> BreaksRule(chain, script, tx, consumed, r.error)
  {
    ParserNamesABreach(consumed[j].data);
    ParserNamesABreach(tx.outputs[k].data);
    assert InGroup(script, tx, consumed, consumed[j].data) && InGroup(script, tx, consumed, tx.outputs[k].data);
    if ParseCapability(consumed[j].data).Ok? {
      MisnamedArgs(script, consumed[j].data);
    }
    if ParseCapability(tx.outputs[k].data).Ok? {
      MisnamedArgs(script, tx.outputs[k].data);
    }
    if |consumed[j].data| > 1 {
      FlagBits(consumed[j].data[1]);
      FlagTestsAgree(consumed[j].data[1]);
    }
  }

  lemma SurrenderNamesABreach(chain: Chain, script: Script, tx: Tx, consumed: seq<Cell>, j: nat)
    requires |script.args| == 64 && j < |consumed| && consumed[j].typ == Some(script)
    ensures var r := VerifySurrender(consumed[j], script.args[..32], script.args[32..]);
            r.Err? ==> BreaksRule(chain, script, tx, consumed, r.error)
  {
    ParserNamesABreach(consumed[j].data);
    assert InGroup(script, tx, consumed, consumed[j].data);
    if ParseCapability(consumed[j].data).Ok? {
      MisnamedArgs(script, consumed[j].data);
    }
  }

  lemma MisnamedArgs(script: Script, data: Bytes)
    requires |script.args| == 64 && ParseCapability(data).Ok?
    ensures var cap := ParseCapability(data).value;
            EnforceIdentity(cap, script.args[..32], script.args[32..]).Err? <==>
              script.args != cap.issuerId + cap.capabilityId
  {
    assert script.args == script.args[..32] + script.args[32..];
  }
}
