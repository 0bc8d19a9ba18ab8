/** Exactly which built transactions the ledger accepts when the wallet resolves its inputs, and,
    for every wallet, exactly which do what the builder set out to do and nothing else. */
module BuilderExactness {
  import opened Wrappers
  import opened ByteStrings
  import opened CapabilityFormat
  import opened Ckb
  import opened CapabilityType
  import opened Ledger
  import opened Lifecycle
  import opened Builders
  import opened BuilderGuarantees

  // ---- Outputs after the first ----

  /** Without capability inputs a transaction passes exactly when every capability output is
      an issue. */
  lemma OnlyIssues(chain: Chain, tx: Tx, consumed: seq<Cell>)
    requires forall j :: 0 <= j < |consumed| ==> !IsCapability(chain, consumed[j])
    ensures ScriptsPass(chain, tx, consumed) <==>
              forall k: nat :: k < |tx.outputs| && IsCapability(chain, tx.outputs[k]) ==>
                                 Issues(chain, tx.outputs[k].typ.value, tx, consumed, k)
  {
    if ScriptsPass(chain, tx, consumed) {
      forall k: nat | k < |tx.outputs| && IsCapability(chain, tx.outputs[k])
        ensures Issues(chain, tx.outputs[k].typ.value, tx, consumed, k)
      {
        OutputCases(chain, tx, consumed, k);
      }
    } else {
      var script :| InDeployment(chain.deployment, script) && Mentions(tx, consumed, script)
                    && !Run(chain, script, tx, consumed).Ok?;
      var k: nat :| k < |tx.outputs| && tx.outputs[k].typ == Some(script);
      if Issues(chain, script, tx, consumed, k) {
        IssueAccepted(chain, script, tx, consumed, k);
      }
    }
  }

  /** When the first input and the first output carry the one moved script, a transaction passes
      exactly when that script passes and every other capability output is an issue. */
  lemma MoveAndIssues(chain: Chain, tx: Tx, consumed: seq<Cell>, moved: Script)
    requires consumed != [] && consumed[0].typ == Some(moved) && tx.outputs != [] && tx.outputs[0].typ == Some(moved)
    requires InDeployment(chain.deployment, moved)
    requires forall j :: 1 <= j < |consumed| ==> !IsCapability(chain, consumed[j])
    ensures ScriptsPass(chain, tx, consumed) <==>
              && Run(chain, moved, tx, consumed).Ok?
              && forall k: nat :: 1 <= k < |tx.outputs| && IsCapability(chain, tx.outputs[k]) ==>
                                    Issues(chain, tx.outputs[k].typ.value, tx, consumed, k)
  {
    assert Mentions(tx, consumed, moved);
    if ScriptsPass(chain, tx, consumed) {
      forall k: nat | 1 <= k < |tx.outputs| && IsCapability(chain, tx.outputs[k])
        ensures Issues(chain, tx.outputs[k].typ.value, tx, consumed, k)
      {
        OutputCases(chain, tx, consumed, k);
      }
    } else {
      var script :| InDeployment(chain.deployment, script) && Mentions(tx, consumed, script)
                    && !Run(chain, script, tx, consumed).Ok?;
      if script != moved {
        var k: nat :| k < |tx.outputs| && tx.outputs[k].typ == Some(script);
        if Issues(chain, script, tx, consumed, k) {
          IssueAccepted(chain, script, tx, consumed, k);
        }
      }
    }
  }

  /** A capability output of a fresh transaction is a new live right at its own outpoint. */
  lemma CreatedRight(chain: Chain, s: State, t: Spend, k: nat)
    requires Resolves(s.live, t.tx) && |t.tx.outputs| < OUTPUT_LIMIT && FreshFor(chain, s, t.tx)
    ensures OutputPoint(chain, t.tx, 0) !in s.live
    ensures k < |t.tx.outputs| && IsCapability(chain, t.tx.outputs[k]) ==>
              OutputPoint(chain, t.tx, k) in Rights(chain, Next(chain, s, t).live)
              && OutputPoint(chain, t.tx, k) !in s.live
  {
  }

  /** When a step changes the rights by one new cell, at its first output, that output is the
      cell, and the others are no capabilities. */
  lemma OneNewRight(chain: Chain, s: State, t: Spend, kept: map<OutPoint, Cell>, cell: Cell)
    requires Resolves(s.live, t.tx) && |t.tx.outputs| < OUTPUT_LIMIT && FreshFor(chain, s, t.tx)
    requires forall o :: o in kept ==> o in s.live
    requires Rights(chain, Next(chain, s, t).live) == kept[OutputPoint(chain, t.tx, 0) := cell]
    ensures t.tx.outputs != [] && t.tx.outputs[0] == cell
    ensures forall k :: 1 <= k < |t.tx.outputs| ==> !IsCapability(chain, t.tx.outputs[k])
  {
    var o', after := OutputPoint(chain, t.tx, 0), Next(chain, s, t).live;
    CreatedRight(chain, s, t, 0);
    assert o' in Rights(chain, after);
    assert o' in CreatedBy(chain, t.tx);
    forall k: nat | 1 <= k < |t.tx.outputs|
      ensures !IsCapability(chain, t.tx.outputs[k])
    {
      CreatedRight(chain, s, t, k);
    }
  }

  // ---- Issue ----

  /** The ledger accepts a built issue exactly when each of its capability outputs, wherever
      the wallet put it, is an issue by the Type Script's rules. */
  lemma IssueAcceptedExactly(chain: Chain, wallet: Wallet, p: IssueParams, now: int, s: State, issued: Issued<Draft>,
                             signers: set<Script>)
    requires IssueResult(chain, wallet, p, now) == Ok(issued) && Broadcastable(s.live, issued.tx)
    requires LocksPass(SpentCells(s.live, issued.tx), signers)
    ensures Accepts(chain, s, Spend(ToTx(issued.tx), signers)) <==>
              forall k: nat :: k < |issued.tx.outputs|
                               && IsCapabilityType(chain.deployment, issued.tx.outputs[k].typ) ==>
                                 Issues(chain, issued.tx.outputs[k].typ.value, ToTx(issued.tx),
                                        SpentCells(s.live, issued.tx), k)
  {
    IssueGuards(chain, wallet, p, now, issued);
    GuardedInputs(chain, s.live, issued.tx, 0);
    OnlyIssues(chain, ToTx(issued.tx), SpentCells(s.live, issued.tx));
    OutputTypes(chain, issued.tx);
  }

  lemma OutputTypes(chain: Chain, d: Draft)
    requires |d.outputs| == |d.outputsData|
    ensures forall k: nat :: k < |d.outputs| ==>
              && ToTx(d).outputs[k].typ == d.outputs[k].typ
              && (IsCapability(chain, ToTx(d).outputs[k]) <==> IsCapabilityType(chain.deployment, d.outputs[k].typ))
  {
  }

  /** No input from position `first` on is a capability, whether or not the draft says so. */
  predicate PlainFunding(chain: Chain, live: map<OutPoint, Cell>, d: Draft, first: nat)
    requires Sendable(live, d)
  {
    forall j :: first <= j < |d.inputs| ==> !IsCapability(chain, SpentCells(live, d)[j])
  }

  /** The step is accepted and changes the live rights by the announced right alone, which is
      the announced owner's. */
  ghost predicate IssuesOnly(chain: Chain, s: State, t: Spend, script: Script, owner: Script, data: Bytes)
    requires Resolves(s.live, t.tx) && |t.tx.outputs| < OUTPUT_LIMIT
  {
    && Accepts(chain, s, t)
    && exists cell: Cell :: cell.typ == Some(script) && cell.lock == owner && cell.data == data
                            && Added(Rights(chain, s.live), Rights(chain, Next(chain, s, t).live),
                                     OutputPoint(chain, t.tx, 0), cell)
  }

  /** A built issue is accepted and gives the recipient the announced right and changes no other
      exactly when the wallet left the first output as it was, added plain change only, funded
      it from no capability, and put in a cell of the issuer. */
  lemma IssueDoneExactly(chain: Chain, wallet: Wallet, p: IssueParams, now: int, s: State,
                         issued: Issued<Draft>, signers: set<Script>)
    requires IssueResult(chain, wallet, p, now) == Ok(issued) && Sendable(s.live, issued.tx)
    requires LocksPass(SpentCells(s.live, issued.tx), signers) && FreshFor(chain, s, ToTx(issued.tx))
    ensures p.recipient.Valid?
    ensures IssuesOnly(chain, s, Spend(ToTx(issued.tx), signers),
                       IssuedScript(chain, issued), p.recipient.script, issued.data) <==>
              && KeepsFirstOutput(issued.tx, IssuedScript(chain, issued), issued.data)
              && issued.tx.outputs[0].lock == p.recipient.script
              && PlainChange(chain.deployment, issued.tx)
              && PlainFunding(chain, s.live, issued.tx, 0)
              && IssuerAuthorized(chain, SpentCells(s.live, issued.tx), chain.scriptHash(wallet.lock))
  {
    var d, script := issued.tx, IssuedScript(chain, issued);
    IssueGuards(chain, wallet, p, now, issued);
    if IssuesOnly(chain, s, Spend(ToTx(d), signers), script, p.recipient.script, issued.data) {
      IssueLeft(chain, s, d, signers, script, p.recipient.script, issued.data);
      IssuedByIssuer(chain, ToTx(d), SpentCells(s.live, d), script);
    }
    if KeepsFirstOutput(d, script, issued.data) && PlainChange(chain.deployment, d)
       && PlainFunding(chain, s.live, d, 0)
       && IssuerAuthorized(chain, SpentCells(s.live, d), issued.issuerId) {
      PlainIssue(chain, s, d, signers, issued.issuerId, issued.capabilityId, issued.data);
    }
  }

  /** If a draft's step adds the announced right alone, the draft still has it, under the
      announced lock, with plain change and plain funding. */
  lemma IssueLeft(chain: Chain, s: State, d: Draft, signers: set<Script>, script: Script, owner: Script, data: Bytes)
    requires Sendable(s.live, d) && FreshFor(chain, s, ToTx(d))
    requires IssuesOnly(chain, s, Spend(ToTx(d), signers), script, owner, data)
    ensures KeepsFirstOutput(d, script, data) && d.outputs[0].lock == owner
    ensures PlainChange(chain.deployment, d) && PlainFunding(chain, s.live, d, 0)
  {
    var t := Spend(ToTx(d), signers);
    var before, after := Rights(chain, s.live), Rights(chain, Next(chain, s, t).live);
    var cell: Cell :| cell.typ == Some(script) && cell.lock == owner && cell.data == data
                      && Added(before, after, OutputPoint(chain, t.tx, 0), cell);
    OneNewRight(chain, s, t, before, cell);
    OutputTypes(chain, d);
    forall j: nat | j < |d.inputs|
      ensures !IsCapability(chain, SpentCells(s.live, d)[j])
    {
      if IsCapability(chain, SpentCells(s.live, d)[j]) {
        SpentRightIsGone(chain, s, t, j);
      }
    }
  }

  /** An accepted first output without capability inputs was signed for by its issuer. */
  lemma IssuedByIssuer(chain: Chain, tx: Tx, consumed: seq<Cell>, script: Script)
    requires ScriptsPass(chain, tx, consumed) && forall j :: 0 <= j < |consumed| ==> !IsCapability(chain, consumed[j])
    requires tx.outputs != [] && tx.outputs[0].typ == Some(script) && InDeployment(chain.deployment, script)
    ensures |script.args| == ARGS_LEN && IssuerAuthorized(chain, consumed, IssuerOf(script))
  {
    OnlyIssues(chain, tx, consumed);
  }

  /** A kept first output, plain change and plain funding make an accepted issue of one right. */
  lemma PlainIssue(chain: Chain, s: State, d: Draft, signers: set<Script>, issuerId: H32, id: H32, data: Bytes)
    requires Sendable(s.live, d) && LocksPass(SpentCells(s.live, d), signers) && FreshFor(chain, s, ToTx(d))
    requires KeepsFirstOutput(d, CapabilityTypeScript(chain.deployment, issuerId, id), data)
    requires PlainChange(chain.deployment, d) && PlainFunding(chain, s.live, d, 0)
    requires d.inputs != [] && id == CreationId(chain, PlainInput(d.inputs[0]), 0) && Names(data, issuerId, id)
    requires IssuerAuthorized(chain, SpentCells(s.live, d), issuerId)
    ensures IssuesOnly(chain, s, Spend(ToTx(d), signers),
                       CapabilityTypeScript(chain.deployment, issuerId, id), d.outputs[0].lock, data)
  {
    var t, script := Spend(ToTx(d), signers), CapabilityTypeScript(chain.deployment, issuerId, id);
    PlainRest(chain, d);
    var cell := t.tx.outputs[0];
    assert cell.typ == Some(script) && cell.lock == d.outputs[0].lock && cell.data == data;
    assert Issues(chain, script, t.tx, SpentCells(s.live, d), 0);
    IssueAccepted(chain, script, t.tx, SpentCells(s.live, d), 0);
    OnlyScriptPasses(chain, t.tx, SpentCells(s.live, d), script);
    IssueEffect(chain, s, t);
  }

  // ---- Transfer ----

  /** The ledger accepts a built transfer exactly when every capability output the wallet added
      is an issue of another right by the Type Script's rules. */
  lemma TransferAcceptedExactly(chain: Chain, wallet: Wallet, s: State, o: OutPoint, recipient: Address, now: int,
                                d: Draft, signers: set<Script>)
    requires TransferResult(chain, wallet, s.live, o, recipient, now) == Ok(d) && Broadcastable(s.live, d)
    requires LocksPass(SpentCells(s.live, d), signers)
    ensures o in s.live
    ensures Accepts(chain, s, Spend(ToTx(d), signers)) <==>
              forall k: nat :: 1 <= k < |d.outputs| && IsCapabilityType(chain.deployment, d.outputs[k].typ) ==>
                                 && d.outputs[k].typ != s.live[o].typ
                                 && Issues(chain, d.outputs[k].typ.value, ToTx(d), SpentCells(s.live, d), k)
  {
    TransferGuards(chain, wallet, s.live, o, recipient, now, d);
    TransferGroup(chain, s.live, o, recipient.script, d);
    GuardedInputs(chain, s.live, d, 1);
    OutputTypes(chain, d);
    assert SpentCells(s.live, d)[0] == s.live[o];
    MoveAndIssues(chain, ToTx(d), SpentCells(s.live, d), s.live[o].typ.value);
  }

  /** A built transfer is accepted and moves the named right to the first output and changes no
      other exactly when the wallet added plain change and plain funding only. */
  lemma TransferMovesExactly(chain: Chain, wallet: Wallet, s: State, o: OutPoint, recipient: Address, now: int,
                             d: Draft, signers: set<Script>)
    requires TransferResult(chain, wallet, s.live, o, recipient, now) == Ok(d) && Sendable(s.live, d)
    requires LocksPass(SpentCells(s.live, d), signers) && FreshFor(chain, s, ToTx(d))
    ensures d.outputs != []
    ensures var t, o' := Spend(ToTx(d), signers), OutputPoint(chain, ToTx(d), 0);
            && Accepts(chain, s, t)
            && Relocated(Rights(chain, s.live), Rights(chain, Next(chain, s, t).live), o, o', ToTx(d).outputs[0])
            <==> PlainChange(chain.deployment, d) && PlainFunding(chain, s.live, d, 1)
  {
    var t, o' := Spend(ToTx(d), signers), OutputPoint(chain, ToTx(d), 0);
    TransferGuards(chain, wallet, s.live, o, recipient, now, d);
    if PlainChange(chain.deployment, d) && PlainFunding(chain, s.live, d, 1) {
      PlainTransfer(chain, s, o, recipient.script, d, signers);
    }
    if Relocated(Rights(chain, s.live), Rights(chain, Next(chain, s, t).live), o, o', t.tx.outputs[0]) {
      TransferLeft(chain, s, o, d, signers);
    }
  }

  /** If a draft's step only relocates the right of its first input, change and funding are plain. */
  lemma TransferLeft(chain: Chain, s: State, o: OutPoint, d: Draft, signers: set<Script>)
    requires Sendable(s.live, d) && FreshFor(chain, s, ToTx(d)) && StartsWith(d, o) && d.outputs != []
    requires Relocated(Rights(chain, s.live), Rights(chain, Next(chain, s, Spend(ToTx(d), signers)).live),
                       o, OutputPoint(chain, ToTx(d), 0), ToTx(d).outputs[0])
    ensures PlainChange(chain.deployment, d) && PlainFunding(chain, s.live, d, 1)
  {
    var t := Spend(ToTx(d), signers);
    OneNewRight(chain, s, t, Rights(chain, s.live) - {o}, t.tx.outputs[0]);
    OutputTypes(chain, d);
    forall j: nat | 1 <= j < |d.inputs|
      ensures !IsCapability(chain, SpentCells(s.live, d)[j])
    {
      if IsCapability(chain, SpentCells(s.live, d)[j]) {
        SpentRightIsGone(chain, s, t, j);
      }
    }
  }

  lemma PlainTransfer(chain: Chain, s: State, o: OutPoint, recipient: Script, d: Draft, signers: set<Script>)
    requires Sendable(s.live, d) && LocksPass(SpentCells(s.live, d), signers) && FreshFor(chain, s, ToTx(d))
    requires TransferGuarded(chain, s.live, o, recipient, d)
    requires PlainChange(chain.deployment, d) && PlainFunding(chain, s.live, d, 1)
    ensures var t, o' := Spend(ToTx(d), signers), OutputPoint(chain, ToTx(d), 0);
            && Accepts(chain, s, t)
            && Relocated(Rights(chain, s.live), Rights(chain, Next(chain, s, t).live), o, o', ToTx(d).outputs[0])
  {
    var t, consumed, script := Spend(ToTx(d), signers), SpentCells(s.live, d), s.live[o].typ.value;
    PlainRest(chain, d);
    assert t.tx.inputs[0].previousOutput == o && consumed[0] == s.live[o];
    assert Moves(chain, script, t.tx, consumed, 0, 0);
    MoveAccepted(chain, script, t.tx, consumed, 0, 0);
    OnlyScriptPasses(chain, t.tx, consumed, script);
    TransferEffect(chain, s, t);
  }

  /** What a transfer is for: the named right under the recipient's lock, otherwise the same
      cell, and no other right changed. A built transfer does this exactly when the wallet
      besides kept the cell's capacity, which no guard looks at. */
  lemma TransferDoneExactly(chain: Chain, wallet: Wallet, s: State, o: OutPoint, recipient: Address, now: int,
                            d: Draft, signers: set<Script>)
    requires TransferResult(chain, wallet, s.live, o, recipient, now) == Ok(d) && Sendable(s.live, d)
    requires LocksPass(SpentCells(s.live, d), signers) && FreshFor(chain, s, ToTx(d))
    ensures o in s.live && recipient.Valid? && d.outputs != []
    ensures var t, o' := Spend(ToTx(d), signers), OutputPoint(chain, ToTx(d), 0);
            && Accepts(chain, s, t)
            && Relocated(Rights(chain, s.live), Rights(chain, Next(chain, s, t).live),
                         o, o', s.live[o].(lock := recipient.script))
            <==> && PlainChange(chain.deployment, d) && PlainFunding(chain, s.live, d, 1)
                 && d.outputs[0].capacity == s.live[o].capacity
  {
    TransferGuards(chain, wallet, s.live, o, recipient, now, d);
    TransferMovesExactly(chain, wallet, s, o, recipient, now, d, signers);
    SuccessorCell(chain, s.live, o, recipient.script, d);
    RelocatedIsFirst(chain, s, Spend(ToTx(d), signers), o, s.live[o].(lock := recipient.script));
  }

  lemma SuccessorCell(chain: Chain, live: map<OutPoint, Cell>, o: OutPoint, recipient: Script, d: Draft)
    requires TransferGuarded(chain, live, o, recipient, d) && |d.outputs| == |d.outputsData|
    ensures ToTx(d).outputs[0] == live[o].(lock := recipient) <==> d.outputs[0].capacity == live[o].capacity
  {
  }

  lemma RelocatedIsFirst(chain: Chain, s: State, t: Spend, o: OutPoint, cell: Cell)
    requires Resolves(s.live, t.tx) && |t.tx.outputs| < OUTPUT_LIMIT && FreshFor(chain, s, t.tx)
    ensures Relocated(Rights(chain, s.live), Rights(chain, Next(chain, s, t).live),
                      o, OutputPoint(chain, t.tx, 0), cell) ==>
              t.tx.outputs != [] && t.tx.outputs[0] == cell
  {
    var before, after := Rights(chain, s.live), Rights(chain, Next(chain, s, t).live);
    if Relocated(before, after, o, OutputPoint(chain, t.tx, 0), cell) {
      OneNewRight(chain, s, t, before - {o}, cell);
    }
  }

  // ---- Surrender ----

  /** A built surrender is accepted and removes the named right alone exactly when no other input
      is a capability, resolved in the draft or not. */
  lemma SurrenderRemovesExactly(chain: Chain, wallet: Wallet, s: State, o: OutPoint, d: Draft, cap: Capability,
                                signers: set<Script>)
    requires SurrenderResult(chain, wallet, s.live, o) == Ok((d, cap)) && Sendable(s.live, d)
    requires LocksPass(SpentCells(s.live, d), signers) && FreshFor(chain, s, ToTx(d))
    ensures o in s.live
    ensures var t := Spend(ToTx(d), signers);
            && Accepts(chain, s, t)
            && Removed(Rights(chain, s.live), Rights(chain, Next(chain, s, t).live), o)
            <==> PlainFunding(chain, s.live, d, 1)
  {
    var t, consumed := Spend(ToTx(d), signers), SpentCells(s.live, d);
    OwnedIsIdentified(chain, s.live, o, wallet.lock);
    OutputTypes(chain, d);
    assert t.tx.inputs[0].previousOutput == o && consumed[0] == s.live[o];
    if PlainFunding(chain, s.live, d, 1) {
      var typ := s.live[o].typ.value;
      assert Retires(typ, t.tx, consumed, 0);
      RetireAccepted(chain, typ, t.tx, consumed, 0);
      OnlyScriptPasses(chain, t.tx, consumed, typ);
      SurrenderEffect(chain, s, t);
    } else {
      var j: nat :| 1 <= j < |d.inputs| && IsCapability(chain, consumed[j]);
      SpentRightIsGone(chain, s, t, j);
    }
  }

  /** The ordinary cell a surrender turns the right into: same capacity, same owner. */
  function Refund(cell: Cell): Cell {
    Cell(cell.capacity, cell.lock, None, [])
  }

  /** The first output is live with the refund in it. */
  ghost predicate Refunds(chain: Chain, s: State, t: Spend, cell: Cell)
    requires Resolves(s.live, t.tx) && |t.tx.outputs| < OUTPUT_LIMIT
  {
    var o', after := OutputPoint(chain, t.tx, 0), Next(chain, s, t).live;
    o' in after && after[o'] == Refund(cell)
  }

  /** What a surrender is for: the right is gone, no other is changed, and its capacity is back
      with its owner. A built surrender does this exactly when the wallet kept the first output,
      which no guard looks at again, and no other input is a capability. */
  lemma SurrenderDoneExactly(chain: Chain, wallet: Wallet, s: State, o: OutPoint, d: Draft, cap: Capability,
                             signers: set<Script>)
    requires SurrenderResult(chain, wallet, s.live, o) == Ok((d, cap)) && Sendable(s.live, d)
    requires LocksPass(SpentCells(s.live, d), signers) && FreshFor(chain, s, ToTx(d))
    ensures o in s.live
    ensures var t := Spend(ToTx(d), signers);
            && Accepts(chain, s, t)
            && Removed(Rights(chain, s.live), Rights(chain, Next(chain, s, t).live), o)
            && Refunds(chain, s, t, s.live[o])
            <==> && PlainFunding(chain, s.live, d, 1)
                 && d.outputs != [] && d.outputs[0] == OutputPart(Refund(s.live[o])) && d.outputsData[0] == []
  {
    SurrenderRemovesExactly(chain, wallet, s, o, d, cap, signers);
    RefundIsFirstOutput(chain, s, d, signers, s.live[o]);
  }

  lemma RefundIsFirstOutput(chain: Chain, s: State, d: Draft, signers: set<Script>, cell: Cell)
    requires Sendable(s.live, d) && FreshFor(chain, s, ToTx(d))
    ensures Refunds(chain, s, Spend(ToTx(d), signers), cell) <==>
              d.outputs != [] && d.outputs[0] == OutputPart(Refund(cell)) && d.outputsData[0] == []
  {
    var t := Spend(ToTx(d), signers);
    CreatedRight(chain, s, t, 0);
    assert OutputPoint(chain, t.tx, 0) in Next(chain, s, t).live ==>
             OutputPoint(chain, t.tx, 0) in CreatedBy(chain, t.tx);
  }

  /** A consumed right is no longer live. */
  lemma SpentRightIsGone(chain: Chain, s: State, t: Spend, j: nat)
    requires Resolves(s.live, t.tx) && |t.tx.outputs| < OUTPUT_LIMIT && FreshFor(chain, s, t.tx)
    requires j < |t.tx.inputs| && IsCapability(chain, Consumed(s.live, t.tx)[j])
    ensures t.tx.inputs[j].previousOutput in Rights(chain, s.live)
    ensures t.tx.inputs[j].previousOutput !in Rights(chain, Next(chain, s, t).live)
    ensures j > 0 ==> t.tx.inputs[j].previousOutput != t.tx.inputs[0].previousOutput
  {
    var o := t.tx.inputs[j].previousOutput;
    assert o in SpentBy(t.tx) && Consumed(s.live, t.tx)[j] == s.live[o];
  }
}
