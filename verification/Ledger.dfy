/** The ledger: which transactions are accepted, what they change, and the runs they form. */
module Ledger {
  import opened Wrappers
  import opened Ckb
  import opened CapabilityType

  /** A transaction together with the locks whose scripts accept it. */
  datatype Spend = Spend(tx: Tx, signers: set<Script>)

  /** A committed transaction with the cells its inputs resolved to. */
  datatype Entry = Entry(tx: Tx, consumed: seq<Cell>, signers: set<Script>)

  datatype State = State(live: map<OutPoint, Cell>, log: seq<Entry>)

  /** Every input names a live cell, and no cell twice. */
  predicate Resolves(live: map<OutPoint, Cell>, tx: Tx) {
    && tx.inputs != []
    && (forall i :: 0 <= i < |tx.inputs| ==> tx.inputs[i].previousOutput in live)
    && (forall i, j :: 0 <= i < j < |tx.inputs| ==> tx.inputs[i].previousOutput != tx.inputs[j].previousOutput)
  }

  function Consumed(live: map<OutPoint, Cell>, tx: Tx): (cells: seq<Cell>)
    requires Resolves(live, tx)
    ensures |cells| == |tx.inputs|
  {
    seq(|tx.inputs|, i requires 0 <= i < |tx.inputs| => live[tx.inputs[i].previousOutput])
  }

  predicate Mentions(tx: Tx, consumed: seq<Cell>, script: Script) {
    || (exists j :: 0 <= j < |consumed| && consumed[j].typ == Some(script))
    || (exists k :: 0 <= k < |tx.outputs| && tx.outputs[k].typ == Some(script))
  }

  /** The Type Script runs once for every capability script the transaction mentions. */
  ghost predicate ScriptsPass(chain: Chain, tx: Tx, consumed: seq<Cell>) {
    forall script :: InDeployment(chain.deployment, script) && Mentions(tx, consumed, script) ==>
                       Run(chain, script, tx, consumed).Ok?
  }

  predicate LocksPass(consumed: seq<Cell>, signers: set<Script>) {
    forall j :: 0 <= j < |consumed| ==> consumed[j].lock in signers
  }

  ghost predicate Accepts(chain: Chain, s: State, t: Spend) {
    && Resolves(s.live, t.tx)
    && |t.tx.outputs| < OUTPUT_LIMIT
    && LocksPass(Consumed(s.live, t.tx), t.signers)
    && ScriptsPass(chain, t.tx, Consumed(s.live, t.tx))
  }

  function OutputPoint(chain: Chain, tx: Tx, k: nat): OutPoint
    requires k < OUTPUT_LIMIT
  {
    OutPoint(chain.txHash(tx), k)
  }

  function SpentBy(tx: Tx): set<OutPoint> {
    set i | 0 <= i < |tx.inputs| :: tx.inputs[i].previousOutput
  }

  function CreatedBy(chain: Chain, tx: Tx): (m: map<OutPoint, Cell>)
    requires |tx.outputs| < OUTPUT_LIMIT
    ensures forall k: nat :: k < |tx.outputs| ==>
              OutputPoint(chain, tx, k) in m && m[OutputPoint(chain, tx, k)] == tx.outputs[k]
    ensures forall o {:trigger o in m} :: o in m ==> o.txHash == chain.txHash(tx) && o.index < |tx.outputs|
  {
    var points := set k: nat | k < |tx.outputs| :: OutputPoint(chain, tx, k);
    map o | o in points :: tx.outputs[o.index]
  }

  function Next(chain: Chain, s: State, t: Spend): State
    requires Resolves(s.live, t.tx) && |t.tx.outputs| < OUTPUT_LIMIT
  {
    State((s.live - SpentBy(t.tx)) + CreatedBy(chain, t.tx),
          s.log + [Entry(t.tx, Consumed(s.live, t.tx), t.signers)])
  }

  /** The state after a run from the cells in `genesis`, if every transaction is accepted. */
  ghost function After(chain: Chain, genesis: map<OutPoint, Cell>, run: seq<Spend>): Option<State> {
    if run == [] then Some(State(genesis, []))
    else
      var last := |run| - 1;
      match After(chain, genesis, run[..last])
      case None => None
      case Some(s) => if Accepts(chain, s, run[last]) then Some(Next(chain, s, run[last])) else None
  }

  /** A starting point that holds no capability. */
  ghost predicate NoCapabilities(chain: Chain, live: map<OutPoint, Cell>) {
    forall o :: o in live ==> !IsCapability(chain, live[o])
  }

  /** The transactions of the run, and the creation ids they could have minted, hash without
      collision; so do the outpoints the run started from. */
  ghost predicate CollisionFree(chain: Chain, genesis: map<OutPoint, Cell>, log: seq<Entry>) {
    && (forall i, j :: 0 <= i < |log| && 0 <= j < |log| && chain.txHash(log[i].tx) == chain.txHash(log[j].tx) ==>
                         log[i].tx == log[j].tx)
    && (forall o, i {:trigger log[i], o in genesis} ::
              o in genesis && 0 <= i < |log| ==> o.txHash != chain.txHash(log[i].tx))
    && (forall i, j, k, l :: 0 <= i < |log| && 0 <= j < |log|
                             && 0 <= k < |log[i].tx.outputs| && 0 <= l < |log[j].tx.outputs|
                             && log[i].tx.inputs != [] && log[j].tx.inputs != []
                             && CreationId(chain, log[i].tx.inputs[0], k)
                                == CreationId(chain, log[j].tx.inputs[0], l) ==>
                               CreationMaterial(log[i].tx.inputs[0], k) == CreationMaterial(log[j].tx.inputs[0], l))
  }

  /** A reachable state: some run from a capability-free start, without hash collisions, ends in it. */
  ghost predicate Reachable(chain: Chain, genesis: map<OutPoint, Cell>, run: seq<Spend>, s: State) {
    && NoCapabilities(chain, genesis)
    && After(chain, genesis, run) == Some(s)
    && CollisionFree(chain, genesis, s.log)
  }

  /** Reachability splits at the last step. */
  lemma LastStep(chain: Chain, genesis: map<OutPoint, Cell>, run: seq<Spend>, s: State) returns (before: State)
    requires Reachable(chain, genesis, run, s) && run != []
    ensures Reachable(chain, genesis, run[..|run| - 1], before)
    ensures Accepts(chain, before, run[|run| - 1]) && s == Next(chain, before, run[|run| - 1])
  {
    before := After(chain, genesis, run[..|run| - 1]).value;
    assert before.log == s.log[..|before.log|];
    forall i | 0 <= i < |before.log|
      ensures before.log[i] == s.log[i]
    {
    }
  }
}
