/** What every run of the ledger keeps: the invariant behind the protocol's promises. */
module Lifecycle {
  import opened ByteStrings
  import opened Ckb
  import opened CapabilityType
  import opened Ledger

  ghost predicate Spent(log: seq<Entry>, o: OutPoint) {
    exists i, j :: 0 <= i < |log| && 0 <= j < |log[i].tx.inputs| && log[i].tx.inputs[j].previousOutput == o
  }

  ghost predicate Known(chain: Chain, genesis: map<OutPoint, Cell>, log: seq<Entry>, hash: H32) {
    || (exists o {:trigger o in genesis} :: o in genesis && o.txHash == hash)
    || (exists i :: 0 <= i < |log| && chain.txHash(log[i].tx) == hash)
  }

  /** Entry `i` creates the right named `id` at output `k`: no input carries that Type Script. */
  ghost predicate IssuedAt(chain: Chain, log: seq<Entry>, i: nat, k: nat, id: H32) {
    && i < |log| && k < |log[i].tx.outputs|
    && IsCapability(chain, log[i].tx.outputs[k])
    && |log[i].tx.outputs[k].typ.value.args| == ARGS_LEN && IdOf(log[i].tx.outputs[k].typ.value) == id
    && (forall j :: 0 <= j < |log[i].consumed| ==> log[i].consumed[j].typ != log[i].tx.outputs[k].typ)
  }

  /** The live cell at `o` is the right named `id`. */
  predicate Holds(chain: Chain, s: State, o: OutPoint, id: H32) {
    && o in s.live && IsCapability(chain, s.live[o])
    && |s.live[o].typ.value.args| == ARGS_LEN && IdOf(s.live[o].typ.value) == id
  }

  /** The cell is what the output at (`i`, `k`) became: same script, same bytes, and the same
      owner unless the right may be transferred. */
  ghost predicate Descends(chain: Chain, log: seq<Entry>, cell: Cell, i: nat, k: nat) {
    && i < |log| && k < |log[i].tx.outputs|
    && cell.typ == log[i].tx.outputs[k].typ
    && cell.data == log[i].tx.outputs[k].data
    && (chain.scriptHash(cell.lock) == chain.scriptHash(log[i].tx.outputs[k].lock) || Transferable(cell))
  }

  ghost predicate Traced(chain: Chain, log: seq<Entry>, cell: Cell) {
    && Identified(cell)
    && exists i, k :: IssuedAt(chain, log, i, k, IdOf(cell.typ.value)) && Descends(chain, log, cell, i, k)
  }

  ghost predicate OutPointsSound(chain: Chain, genesis: map<OutPoint, Cell>, s: State) {
    && (forall o {:trigger o in s.live} :: o in s.live ==> Known(chain, genesis, s.log, o.txHash))
    && (forall o {:trigger Spent(s.log, o)} :: Spent(s.log, o) ==>
              Known(chain, genesis, s.log, o.txHash) && o !in s.live)
  }

  ghost predicate EntrySound(chain: Chain, e: Entry) {
    && e.tx.inputs != [] && |e.tx.outputs| < OUTPUT_LIMIT && |e.consumed| == |e.tx.inputs|
    && LocksPass(e.consumed, e.signers) && ScriptsPass(chain, e.tx, e.consumed)
  }

  ghost predicate LogSound(chain: Chain, log: seq<Entry>) {
    && (forall i :: 0 <= i < |log| ==> EntrySound(chain, log[i]))
    && (forall i, j :: 0 <= i < j < |log| ==>
                         log[i].tx.inputs[0].previousOutput != log[j].tx.inputs[0].previousOutput)
  }

  ghost predicate CapabilitiesTraced(chain: Chain, s: State) {
    forall o :: o in s.live && IsCapability(chain, s.live[o]) ==> Traced(chain, s.log, s.live[o])
  }

  ghost predicate IdsUnique(chain: Chain, s: State) {
    forall o, o', id :: Holds(chain, s, o, id) && Holds(chain, s, o', id) ==> o == o'
  }

  ghost predicate Inv(chain: Chain, genesis: map<OutPoint, Cell>, s: State) {
    && OutPointsSound(chain, genesis, s)
    && LogSound(chain, s.log)
    && CapabilitiesTraced(chain, s)
    && IdsUnique(chain, s)
  }

  /** An accepted transaction in a sound state, whose hashes collide with none before it. */
  ghost predicate Step(chain: Chain, genesis: map<OutPoint, Cell>, s: State, t: Spend) {
    && Inv(chain, genesis, s)
    && Accepts(chain, s, t)
    && CollisionFree(chain, genesis, Next(chain, s, t).log)
  }

  // ---- One accepted transaction ----

  /** An accepted transaction's hash is new: it can neither repeat an old transaction, whose
      inputs are gone, nor collide with one. */
  lemma FreshHash(chain: Chain, genesis: map<OutPoint, Cell>, s: State, t: Spend)
    requires OutPointsSound(chain, genesis, s) && LogSound(chain, s.log) && Accepts(chain, s, t)
    requires CollisionFree(chain, genesis, Next(chain, s, t).log)
    ensures !Known(chain, genesis, s.log, chain.txHash(t.tx))
  {
    var log := Next(chain, s, t).log;
    var n := |s.log|;
    assert log[n].tx == t.tx;
    if i: nat :| i < |s.log| && chain.txHash(s.log[i].tx) == chain.txHash(t.tx) {
      assert log[i] == s.log[i];
      assert s.log[i].tx == t.tx;
      assert EntrySound(chain, s.log[i]);
      assert Spent(s.log, t.tx.inputs[0].previousOutput);
    }
  }

  lemma OutPointsStep(chain: Chain, genesis: map<OutPoint, Cell>, s: State, t: Spend)
    requires OutPointsSound(chain, genesis, s) && Accepts(chain, s, t)
    requires !Known(chain, genesis, s.log, chain.txHash(t.tx))
    ensures OutPointsSound(chain, genesis, Next(chain, s, t))
  {
    var s' := Next(chain, s, t);
    var n := |s.log|;
    assert s'.log[n].tx == t.tx;
    forall h | Known(chain, genesis, s.log, h)
      ensures Known(chain, genesis, s'.log, h)
    {
      if i: nat :| i < n && chain.txHash(s.log[i].tx) == h {
        assert s'.log[i] == s.log[i];
      }
    }
    forall o | Spent(s'.log, o)
      ensures Known(chain, genesis, s'.log, o.txHash) && o !in s'.live
    {
      var i, j :| 0 <= i < |s'.log| && 0 <= j < |s'.log[i].tx.inputs| && s'.log[i].tx.inputs[j].previousOutput == o;
      if i < n {
        assert s'.log[i] == s.log[i];
        assert Spent(s.log, o);
      } else {
        assert o in SpentBy(t.tx);
        assert o in s.live;
      }
    }
  }

  lemma LogStep(chain: Chain, genesis: map<OutPoint, Cell>, s: State, t: Spend)
    requires OutPointsSound(chain, genesis, s) && LogSound(chain, s.log) && Accepts(chain, s, t)
    ensures LogSound(chain, Next(chain, s, t).log)
  {
    var log := Next(chain, s, t).log;
    forall i | 0 <= i < |s.log|
      ensures s.log[i].tx.inputs != [] && log[|s.log|].tx.inputs != []
      ensures s.log[i].tx.inputs[0].previousOutput != log[|s.log|].tx.inputs[0].previousOutput
    {
      assert EntrySound(chain, s.log[i]);
      assert Spent(s.log, s.log[i].tx.inputs[0].previousOutput);
    }
  }

  /** A capability output of an accepted transaction is either a new right or the successor
      of exactly one consumed cell of the same script. */
  lemma OutputCases(chain: Chain, tx: Tx, consumed: seq<Cell>, k: nat)
    requires ScriptsPass(chain, tx, consumed) && k < |tx.outputs| && IsCapability(chain, tx.outputs[k])
    ensures || Issues(chain, tx.outputs[k].typ.value, tx, consumed, k)
            || exists j :: Moves(chain, tx.outputs[k].typ.value, tx, consumed, j, k)
  {
    var script := tx.outputs[k].typ.value;
    assert Mentions(tx, consumed, script);
    AcceptedShape(chain, script, tx, consumed);
  }

  /** A consumed capability is the predecessor of one output or of none. */
  lemma InputCases(chain: Chain, tx: Tx, consumed: seq<Cell>, j: nat)
    requires ScriptsPass(chain, tx, consumed) && j < |consumed| && IsCapability(chain, consumed[j])
    ensures || Retires(consumed[j].typ.value, tx, consumed, j)
            || exists k :: Moves(chain, consumed[j].typ.value, tx, consumed, j, k)
  {
    var script := consumed[j].typ.value;
    assert Mentions(tx, consumed, script);
    AcceptedShape(chain, script, tx, consumed);
  }

  /** An issue consumes no cell of its own script, so it shows in the log as one. */
  lemma IssueIsLogged(chain: Chain, log: seq<Entry>, i: nat, k: nat)
    requires i < |log| && k < |log[i].tx.outputs| && IsCapability(chain, log[i].tx.outputs[k])
    requires Issues(chain, log[i].tx.outputs[k].typ.value, log[i].tx, log[i].consumed, k)
    ensures IssuedAt(chain, log, i, k, IdOf(log[i].tx.outputs[k].typ.value))
  {
  }

  /** Whatever the log shows as an issue was accepted as one. */
  lemma LoggedIssue(chain: Chain, log: seq<Entry>, i: nat, k: nat, id: H32)
    requires LogSound(chain, log) && IssuedAt(chain, log, i, k, id)
    ensures Issues(chain, log[i].tx.outputs[k].typ.value, log[i].tx, log[i].consumed, k)
    ensures CreationId(chain, log[i].tx.inputs[0], k) == id
  {
  }

  /** An id is issued once in a whole run: two issues of it would hash the same first input
      and output index, and an input is spent once. */
  lemma IssuedOnce(chain: Chain, genesis: map<OutPoint, Cell>, log: seq<Entry>, id: H32, i: nat, k: nat, i': nat,
                   k': nat)
    requires LogSound(chain, log) && CollisionFree(chain, genesis, log)
    requires IssuedAt(chain, log, i, k, id) && IssuedAt(chain, log, i', k', id)
    ensures i == i' && k == k'
  {
    LoggedIssue(chain, log, i, k, id);
    LoggedIssue(chain, log, i', k', id);
    assert EntrySound(chain, log[i]) && EntrySound(chain, log[i']);
    CreationMaterialInjective(log[i].tx.inputs[0], k, log[i'].tx.inputs[0], k');
  }

  lemma IssuePersists(chain: Chain, log: seq<Entry>, more: seq<Entry>, i: nat, k: nat, id: H32)
    requires IssuedAt(chain, log, i, k, id)
    ensures IssuedAt(chain, log + more, i, k, id)
  {
  }

  /** History only grows. */
  lemma TracedGrows(chain: Chain, log: seq<Entry>, more: seq<Entry>, cell: Cell)
    requires Traced(chain, log, cell)
    ensures Traced(chain, log + more, cell)
  {
    var i: nat, k: nat :| IssuedAt(chain, log, i, k, IdOf(cell.typ.value)) && Descends(chain, log, cell, i, k);
    assert (log + more)[i] == log[i];
    assert IssuedAt(chain, log + more, i, k, IdOf(cell.typ.value)) && Descends(chain, log + more, cell, i, k);
  }

  /** A successor has the history of the cell it replaces. */
  lemma InheritTrace(chain: Chain, log: seq<Entry>, before: Cell, after: Cell)
    requires Traced(chain, log, before)
    requires after.typ == before.typ && after.data == before.data
    requires chain.scriptHash(after.lock) == chain.scriptHash(before.lock) || Transferable(before)
    ensures Traced(chain, log, after)
  {
  }

  lemma OutputTraced(chain: Chain, genesis: map<OutPoint, Cell>, s: State, t: Spend, k: nat)
    requires Inv(chain, genesis, s) && Accepts(chain, s, t)
    requires k < |t.tx.outputs| && IsCapability(chain, t.tx.outputs[k])
    ensures Traced(chain, Next(chain, s, t).log, t.tx.outputs[k])
  {
    var cell, consumed := t.tx.outputs[k], Consumed(s.live, t.tx);
    var log, n := Next(chain, s, t).log, |s.log|;
    assert log[n] == Entry(t.tx, consumed, t.signers);
    OutputCases(chain, t.tx, consumed, k);
    if Issues(chain, cell.typ.value, t.tx, consumed, k) {
      IssueIsLogged(chain, log, n, k);
      assert Descends(chain, log, cell, n, k);
    } else {
      var j: nat :| Moves(chain, cell.typ.value, t.tx, consumed, j, k);
      assert Traced(chain, s.log, consumed[j]);
      TracedGrows(chain, s.log, [log[n]], consumed[j]);
      InheritTrace(chain, log, consumed[j], cell);
    }
  }

  lemma TracedStep(chain: Chain, genesis: map<OutPoint, Cell>, s: State, t: Spend)
    requires Inv(chain, genesis, s) && Accepts(chain, s, t)
    ensures CapabilitiesTraced(chain, Next(chain, s, t))
  {
    var s' := Next(chain, s, t);
    forall o | o in s'.live && IsCapability(chain, s'.live[o])
      ensures Traced(chain, s'.log, s'.live[o])
    {
      if o in CreatedBy(chain, t.tx) {
        OutputTraced(chain, genesis, s, t, o.index);
      } else {
        TracedGrows(chain, s.log, [s'.log[|s.log|]], s.live[o]);
      }
    }
  }

  /** The cell at `p` is consumed and the output at `o` is its one successor. */
  ghost predicate Succeeds(chain: Chain, s: State, t: Spend, p: OutPoint, o: OutPoint)
    requires Resolves(s.live, t.tx) && |t.tx.outputs| < OUTPUT_LIMIT
  {
    && p in s.live && s.live[p].typ.Some? && o in CreatedBy(chain, t.tx)
    && exists j :: 0 <= j < |t.tx.inputs| && t.tx.inputs[j].previousOutput == p
                   && Moves(chain, s.live[p].typ.value, t.tx, Consumed(s.live, t.tx), j, o.index)
  }

  /** The step issues `id` at the output `o`. */
  ghost predicate Creates(chain: Chain, s: State, t: Spend, o: OutPoint, id: H32)
    requires Resolves(s.live, t.tx) && |t.tx.outputs| < OUTPUT_LIMIT
  {
    o in CreatedBy(chain, t.tx) && IssuedAt(chain, Next(chain, s, t).log, |s.log|, o.index, id)
  }

  /** Where the holder of `id` after a step comes from: it was there already and stayed, the
      step issues `id`, or it succeeds a holder the step consumes. */
  lemma HolderOrigin(chain: Chain, s: State, t: Spend, o: OutPoint, id: H32)
    requires Accepts(chain, s, t) && Holds(chain, Next(chain, s, t), o, id)
    ensures || (Holds(chain, s, o, id) && o !in SpentBy(t.tx))
            || Creates(chain, s, t, o, id)
            || exists p :: Holds(chain, s, p, id) && Succeeds(chain, s, t, p, o)
  {
    if o in CreatedBy(chain, t.tx) {
      var k, consumed := o.index, Consumed(s.live, t.tx);
      var log := Next(chain, s, t).log;
      assert log[|s.log|] == Entry(t.tx, consumed, t.signers);
      OutputCases(chain, t.tx, consumed, k);
      if Issues(chain, t.tx.outputs[k].typ.value, t.tx, consumed, k) {
        IssueIsLogged(chain, log, |s.log|, k);
      } else {
        var j: nat :| Moves(chain, t.tx.outputs[k].typ.value, t.tx, consumed, j, k);
        var p := t.tx.inputs[j].previousOutput;
        assert consumed[j] == s.live[p];
        assert Holds(chain, s, p, id) && Succeeds(chain, s, t, p, o);
      }
    }
  }

  /** An id that was ever issued cannot be issued by the next transaction. */
  lemma IssuedIsNotReissued(chain: Chain, genesis: map<OutPoint, Cell>, s: State, t: Spend, k: nat, id: H32)
    requires Step(chain, genesis, s, t) && exists i, l :: IssuedAt(chain, s.log, i, l, id)
    ensures !IssuedAt(chain, Next(chain, s, t).log, |s.log|, k, id)
  {
    var log := Next(chain, s, t).log;
    LogStep(chain, genesis, s, t);
    var i: nat, l: nat :| IssuedAt(chain, s.log, i, l, id);
    IssuePersists(chain, s.log, [log[|s.log|]], i, l, id);
    if IssuedAt(chain, log, |s.log|, k, id) {
      IssuedOnce(chain, genesis, log, id, i, l, |s.log|, k);
    }
  }

  /** The holder of an id that was held before the step: the same cell, or its successor. */
  lemma HeldHolder(chain: Chain, genesis: map<OutPoint, Cell>, s: State, t: Spend, p: OutPoint, o: OutPoint, id: H32)
    requires Step(chain, genesis, s, t) && Holds(chain, s, p, id) && Holds(chain, Next(chain, s, t), o, id)
    ensures (o == p && p !in SpentBy(t.tx)) || Succeeds(chain, s, t, p, o)
  {
    HolderOrigin(chain, s, t, o, id);
    assert Traced(chain, s.log, s.live[p]);
    IssuedIsNotReissued(chain, genesis, s, t, o.index, id);
  }

  /** A consumed cell has one successor at most, and a cell that stays has none. */
  lemma OneSuccessor(chain: Chain, s: State, t: Spend, p: OutPoint, o: OutPoint, o': OutPoint)
    requires Resolves(s.live, t.tx) && |t.tx.outputs| < OUTPUT_LIMIT && Succeeds(chain, s, t, p, o)
    ensures p in SpentBy(t.tx)
    ensures Succeeds(chain, s, t, p, o') ==> o == o'
  {
  }

  /** A new id is issued at one output only. */
  lemma OneCreation(chain: Chain, genesis: map<OutPoint, Cell>, s: State, t: Spend, o: OutPoint, o': OutPoint, id: H32)
    requires Step(chain, genesis, s, t) && Creates(chain, s, t, o, id) && Creates(chain, s, t, o', id)
    ensures o == o'
  {
    LogStep(chain, genesis, s, t);
    IssuedOnce(chain, genesis, Next(chain, s, t).log, id, |s.log|, o.index, |s.log|, o'.index);
  }

  lemma UniqueHolder(chain: Chain, genesis: map<OutPoint, Cell>, s: State, t: Spend, o: OutPoint, o': OutPoint, id: H32)
    requires Step(chain, genesis, s, t)
    requires Holds(chain, Next(chain, s, t), o, id) && Holds(chain, Next(chain, s, t), o', id)
    ensures o == o'
  {
    if p :| Holds(chain, s, p, id) {
      HeldHolder(chain, genesis, s, t, p, o, id);
      HeldHolder(chain, genesis, s, t, p, o', id);
      if Succeeds(chain, s, t, p, o) {
        OneSuccessor(chain, s, t, p, o, o');
      } else if Succeeds(chain, s, t, p, o') {
        OneSuccessor(chain, s, t, p, o', o);
      }
    } else {
      HolderOrigin(chain, s, t, o, id);
      HolderOrigin(chain, s, t, o', id);
      OneCreation(chain, genesis, s, t, o, o', id);
    }
  }

  lemma UniqueStep(chain: Chain, genesis: map<OutPoint, Cell>, s: State, t: Spend)
    requires Step(chain, genesis, s, t)
    ensures IdsUnique(chain, Next(chain, s, t))
  {
    var s' := Next(chain, s, t);
    forall o, o', id | Holds(chain, s', o, id) && Holds(chain, s', o', id)
      ensures o == o'
    {
      UniqueHolder(chain, genesis, s, t, o, o', id);
    }
  }

  lemma InvStep(chain: Chain, genesis: map<OutPoint, Cell>, s: State, t: Spend)
    requires Step(chain, genesis, s, t)
    ensures Inv(chain, genesis, Next(chain, s, t))
  {
    FreshHash(chain, genesis, s, t);
    OutPointsStep(chain, genesis, s, t);
    LogStep(chain, genesis, s, t);
    TracedStep(chain, genesis, s, t);
    UniqueStep(chain, genesis, s, t);
  }

  /** Every reachable state satisfies the invariant. */
  lemma {:induction false} ReachableInv(chain: Chain, genesis: map<OutPoint, Cell>, run: seq<Spend>, s: State)
    requires Reachable(chain, genesis, run, s)
    ensures Inv(chain, genesis, s)
    decreases |run|
  {
    if run != [] {
      var before := LastStep(chain, genesis, run, s);
      ReachableInv(chain, genesis, run[..|run| - 1], before);
      InvStep(chain, genesis, before, run[|run| - 1]);
    }
  }

  /** A run that ends in another run's continuation ends in one step from a reachable state. */
  lemma LastOfMore(chain: Chain, genesis: map<OutPoint, Cell>, run: seq<Spend>, more: seq<Spend>, s': State)
      returns (before: State)
    requires Reachable(chain, genesis, run + more, s') && more != []
    ensures Reachable(chain, genesis, run + more[..|more| - 1], before)
    ensures Step(chain, genesis, before, more[|more| - 1]) && s' == Next(chain, before, more[|more| - 1])
  {
    before := LastStep(chain, genesis, run + more, s');
    assert (run + more)[..|run + more| - 1] == run + more[..|more| - 1];
    ReachableInv(chain, genesis, run + more[..|more| - 1], before);
  }
}
