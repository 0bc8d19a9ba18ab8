/** Runs made of builder transactions: how many rights they leave, and which they never hold. */
module BuilderRuns {
  import opened Wrappers
  import opened ByteStrings
  import opened CapabilityFormat
  import opened ContractParser
  import opened CapabilityCodec
  import opened Ckb
  import opened CapabilityType
  import opened Ledger
  import opened Lifecycle
  import opened Builders
  import opened BuilderGuarantees

  /** A builder call, or a transaction that touches no capability at all. */
  datatype Action =
    | Issue(wallet: Wallet, p: IssueParams, now: int)
    | Transfer(wallet: Wallet, o: OutPoint, recipient: Address, now: int)
    | Surrender(wallet: Wallet, o: OutPoint)
    | Unrelated

  /** The accepted transaction `t` is what the builder call returned, after a wallet
      completion that appended plain outputs and kept an issue's first output. */
  ghost predicate Performs(chain: Chain, s: State, a: Action, t: Spend) {
    && Accepts(chain, s, t)
    && match a
       case Issue(wallet, p, now) =>
         var r := IssueResult(chain, wallet, p, now);
         && r.Ok? && Broadcastable(s.live, r.value.tx) && t.tx == ToTx(r.value.tx)
         && KeepsFirstOutput(r.value.tx, IssuedScript(chain, r.value), r.value.data)
         && PlainChange(chain.deployment, r.value.tx)
       case Transfer(wallet, o, recipient, now) =>
         var r := TransferResult(chain, wallet, s.live, o, recipient, now);
         && r.Ok? && Broadcastable(s.live, r.value) && t.tx == ToTx(r.value) && PlainChange(chain.deployment, r.value)
       case Surrender(wallet, o) =>
         var r := SurrenderResult(chain, wallet, s.live, o);
         && r.Ok? && Broadcastable(s.live, r.value.0) && t.tx == ToTx(r.value.0)
       case Unrelated =>
         && (forall j :: 0 <= j < |t.tx.inputs| ==> !IsCapability(chain, Consumed(s.live, t.tx)[j]))
         && (forall k :: 0 <= k < |t.tx.outputs| ==> !IsCapability(chain, t.tx.outputs[k]))
  }

  ghost predicate Scripted(chain: Chain, genesis: map<OutPoint, Cell>, actions: seq<Action>, run: seq<Spend>) {
    && |actions| == |run|
    && forall n :: 0 <= n < |run| ==>
                     After(chain, genesis, run[..n]).Some?
                     && Performs(chain, After(chain, genesis, run[..n]).value, actions[n], run[n])
  }

  function IssueCount(actions: seq<Action>): nat {
    if actions == [] then 0
    else IssueCount(actions[..|actions| - 1]) + if actions[|actions| - 1].Issue? then 1 else 0
  }

  function SurrenderCount(actions: seq<Action>): nat {
    if actions == [] then 0
    else SurrenderCount(actions[..|actions| - 1]) + if actions[|actions| - 1].Surrender? then 1 else 0
  }

  /** The change of the live rights a builder call announces. */
  predicate Announces(a: Action, before: map<OutPoint, Cell>, after: map<OutPoint, Cell>, o': OutPoint,
                      first: Option<Cell>) {
    match a
    case Issue(_, _, _) => first.Some? && Added(before, after, o', first.value) && !Atomic(first.value.data)
    case Transfer(_, o, _, _) =>
      && first.Some? && Relocated(before, after, o, o', first.value)
      && first.value.data == before[o].data && first.value.typ == before[o].typ
    case Surrender(_, o) => Removed(before, after, o)
    case Unrelated => after == before
  }

  function FirstOutput(tx: Tx): Option<Cell> {
    if tx.outputs == [] then None else Some(tx.outputs[0])
  }

  /** Each builder step changes the live rights by exactly what it announces. */
  lemma PerformedEffect(chain: Chain, s: State, a: Action, t: Spend)
    requires Performs(chain, s, a, t) && FreshFor(chain, s, t.tx)
    ensures Announces(a, Rights(chain, s.live), Rights(chain, Next(chain, s, t).live),
                      OutputPoint(chain, t.tx, 0), FirstOutput(t.tx))
  {
    match a
    case Issue(wallet, p, now) =>
      var issued := IssueResult(chain, wallet, p, now).value;
      IssueConserves(chain, wallet, p, now, s, issued, t.signers);
    case Transfer(wallet, o, recipient, now) =>
      TransferConserves(chain, wallet, s, o, recipient, now,
                        TransferResult(chain, wallet, s.live, o, recipient, now).value, t.signers);
    case Surrender(wallet, o) =>
      var (d, cap) := SurrenderResult(chain, wallet, s.live, o).value;
      SurrenderConserves(chain, wallet, s, o, d, cap, t.signers);
    case Unrelated =>
      RightsAfter(chain, s, t);
      SpentNoRights(chain, s, t.tx);
      CreatesNoRight(chain, t.tx);
  }

  lemma ScriptedPrefix(chain: Chain, genesis: map<OutPoint, Cell>, actions: seq<Action>, run: seq<Spend>)
    requires Scripted(chain, genesis, actions, run) && run != []
    ensures Scripted(chain, genesis, actions[..|run| - 1], run[..|run| - 1])
  {
    var m := |run| - 1;
    forall n | 0 <= n < m
      ensures After(chain, genesis, run[..m][..n]).Some?
      ensures Performs(chain, After(chain, genesis, run[..m][..n]).value, actions[..m][n], run[..m][n])
    {
      assert run[..m][..n] == run[..n];
    }
  }

  /** Conservation: a builder run leaves as many live rights as it issued and did not
      surrender; no right is ever consumed as fee capacity. */
  lemma {:induction false} Census(chain: Chain, genesis: map<OutPoint, Cell>, actions: seq<Action>, run: seq<Spend>,
                                  s: State)
    requires Reachable(chain, genesis, run, s) && Scripted(chain, genesis, actions, run)
    ensures |Rights(chain, s.live)| == IssueCount(actions) - SurrenderCount(actions)
    decreases |run|
  {
    if run == [] {
      assert Rights(chain, s.live) == map[];
    } else {
      var m := |run| - 1;
      var before := LastStep(chain, genesis, run, s);
      ScriptedPrefix(chain, genesis, actions, run);
      Census(chain, genesis, actions[..m], run[..m], before);
      ReachableInv(chain, genesis, run[..m], before);
      AcceptedIsFresh(chain, genesis, before, run[m]);
      PerformedEffect(chain, before, actions[m], run[m]);
    }
  }

  predicate AtomicFree(rights: map<OutPoint, Cell>) {
    forall o :: o in rights ==> !Atomic(rights[o].data)
  }

  lemma AtomicFreeStep(chain: Chain, s: State, a: Action, t: Spend)
    requires Performs(chain, s, a, t) && FreshFor(chain, s, t.tx) && AtomicFree(Rights(chain, s.live))
    ensures AtomicFree(Rights(chain, Next(chain, s, t).live))
  {
    PerformedEffect(chain, s, a, t);
  }

  /** Builder runs never hold an atomically bound right. */
  lemma {:induction false} BuildersNeverHoldAtomic(chain: Chain, genesis: map<OutPoint, Cell>, actions: seq<Action>,
                                                   run: seq<Spend>, s: State)
    requires Reachable(chain, genesis, run, s) && Scripted(chain, genesis, actions, run)
    ensures AtomicFree(Rights(chain, s.live))
    decreases |run|
  {
    if run != [] {
      var m := |run| - 1;
      var before := LastStep(chain, genesis, run, s);
      ScriptedPrefix(chain, genesis, actions, run);
      BuildersNeverHoldAtomic(chain, genesis, actions[..m], run[..m], before);
      ReachableInv(chain, genesis, run[..m], before);
      AcceptedIsFresh(chain, genesis, before, run[m]);
      AtomicFreeStep(chain, before, actions[m], run[m]);
    }
  }

  /** An atomically bound payload naming this issuer and id. */
  lemma AtomicPayload(issuer: H32, id: H32, subject: H32, expiry: U64) returns (data: Bytes)
    requires subject != ZERO32
    ensures Names(data, issuer, id) && Atomic(data)
  {
    var cap := V2(0, ZERO32, issuer, id, expiry, 1, BINDING_ATOMIC, subject, ZERO32);
    data := Encoding(cap);
    assert (0 as bv8) & !KNOWN_FLAGS_MASK == 0;
    ParseOfEncoding(cap);
    DecodeInvertsEncode(data, cap);
  }

  /** The contract alone is no such barrier: from any state, whoever owns an ordinary cell
      can issue an atomically bound right that the Type Script accepts. */
  lemma ContractAdmitsAtomic(chain: Chain, s: State, o: OutPoint, subject: H32, expiry: U64) returns (t: Spend)
    requires o in s.live && !IsCapability(chain, s.live[o]) && subject != ZERO32
    ensures Accepts(chain, s, t) && t.signers == {s.live[o].lock}
    ensures |t.tx.outputs| == 1 && IsCapability(chain, t.tx.outputs[0]) && Atomic(t.tx.outputs[0].data)
  {
    var input, lock := CellInput(o, 0), s.live[o].lock;
    var issuer, id := chain.scriptHash(lock), CreationId(chain, input, 0);
    var data := AtomicPayload(issuer, id, subject, expiry);
    t := Spend(Tx([input], [Cell(0, lock, Some(CapabilityTypeScript(chain.deployment, issuer, id)), data)]), {lock});
    LoneIssueAccepted(chain, s, t.tx, data);
  }

  /** One ordinary input and one properly named output make an acceptable issue. */
  lemma LoneIssueAccepted(chain: Chain, s: State, tx: Tx, data: Bytes)
    requires Resolves(s.live, tx) && |tx.inputs| == |tx.outputs| == 1
    requires !IsCapability(chain, s.live[tx.inputs[0].previousOutput])
    requires var issuer, id := chain.scriptHash(s.live[tx.inputs[0].previousOutput].lock),
                            CreationId(chain, tx.inputs[0], 0);
             tx.outputs[0].typ == Some(CapabilityTypeScript(chain.deployment, issuer, id)) && Names(data, issuer, id)
    requires tx.outputs[0].data == data
    ensures Accepts(chain, s, Spend(tx, {s.live[tx.inputs[0].previousOutput].lock}))
  {
    var typ, consumed := tx.outputs[0].typ.value, Consumed(s.live, tx);
    assert consumed[0] == s.live[tx.inputs[0].previousOutput];
    assert Issues(chain, typ, tx, consumed, 0);
    IssueAccepted(chain, typ, tx, consumed, 0);
    OnlyScriptPasses(chain, tx, consumed, typ);
  }

  /** A run of one accepted transaction with one output. */
  lemma OneStepRun(chain: Chain, genesis: map<OutPoint, Cell>, t: Spend)
    requires NoCapabilities(chain, genesis) && Accepts(chain, State(genesis, []), t) && |t.tx.outputs| == 1
    requires forall o :: o in genesis ==> o.txHash != chain.txHash(t.tx)
    ensures Reachable(chain, genesis, [t], Next(chain, State(genesis, []), t))
  {
    assert [t][..0] == [];
    assert After(chain, genesis, [t][..0]) == Some(State(genesis, []));
  }

  /** So an atomically bound right is reachable, unlike in a builder run: one transaction from
      a ledger with a single ordinary cell suffices. */
  lemma AtomicRightIsReachable(chain: Chain, o: OutPoint, cell: Cell, subject: H32, expiry: U64) returns (t: Spend)
    requires !IsCapability(chain, cell) && subject != ZERO32
    ensures Resolves(map[o := cell], t.tx) && |t.tx.outputs| == 1
    ensures var s := Next(chain, State(map[o := cell], []), t);
            chain.txHash(t.tx) != o.txHash ==>
              Reachable(chain, map[o := cell], [t], s) && !AtomicFree(Rights(chain, s.live))
  {
    var start := State(map[o := cell], []);
    t := ContractAdmitsAtomic(chain, start, o, subject, expiry);
    var rights, o' := Rights(chain, Next(chain, start, t).live), OutputPoint(chain, t.tx, 0);
    assert o' in CreatedBy(chain, t.tx);
    assert o' in rights && rights[o'] == t.tx.outputs[0];
    if chain.txHash(t.tx) != o.txHash {
      OneStepRun(chain, map[o := cell], t);
    }
  }
}
