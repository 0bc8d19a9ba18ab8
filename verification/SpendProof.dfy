/** The consumption proof of the lifecycle script: when a polled node may be believed that a cell was spent. */
module SpendProof {
  import opened ByteStrings
  import opened Ckb
  import opened Ledger
  import opened Lifecycle
  import opened Guarantees
  import opened Builders
  import opened LiveVerifier
  import opened AuthorityGuarantees

  datatype CellStatus = StatusLive | StatusUnknown | StatusDead | StatusOther
  datatype TxStatus = TxCommitted | TxOther

  /** One round of node answers, or the failure of one of its calls. */
  datatype Poll =
    | RpcFailure
    | Answers(cellStatus: CellStatus, txStatus: TxStatus, confirmations: int, consumesOutpoint: bool)

  datatype Proof = Proof(spentCellNotLive: bool, spenderCommitted: bool,
                         spenderConsumesExactOutpoint: bool, spenderConfirmed: bool)

  const ATTEMPTS := 24

  function AssessConsumptionProof(p: Poll, minConfirmations: int): Proof
    requires p.Answers?
  {
    Proof(p.cellStatus == StatusUnknown || p.cellStatus == StatusDead,
          p.txStatus == TxCommitted,
          p.consumesOutpoint,
          minConfirmations >= 1 && p.confirmations >= minConfirmations)
  }

  predicate Passed(proof: Proof) {
    proof.spentCellNotLive && proof.spenderCommitted && proof.spenderConsumesExactOutpoint && proof.spenderConfirmed
  }

  predicate Proves(p: Poll) {
    p.Answers? && Passed(AssessConsumptionProof(p, 1))
  }

  /** A committed transaction that does not spend the cell: polling cannot mend that. */
  predicate Refutes(p: Poll) {
    p.Answers? && p.txStatus == TxCommitted && !p.consumesOutpoint
  }

  datatype Outcome = Consumed(attempt: nat) | Mismatch(attempt: nat) | TimedOut

  method AwaitConsumed(poll: nat -> Poll) returns (r: Outcome)
    ensures r.Consumed? ==> r.attempt < 24 && Proves(poll(r.attempt))
                            && forall m :: 0 <= m < r.attempt ==> !Proves(poll(m)) && !Refutes(poll(m))
    ensures r.Mismatch? ==> r.attempt < 24 && Refutes(poll(r.attempt))
                            && forall m :: 0 <= m < r.attempt ==> !Proves(poll(m)) && !Refutes(poll(m))
    ensures r.TimedOut? <==> forall m :: 0 <= m < 24 ==> !Proves(poll(m)) && !Refutes(poll(m))
  {
    for n := 0 to ATTEMPTS
      invariant forall m :: 0 <= m < n ==> !Proves(poll(m)) && !Refutes(poll(m))
    {
      var p := poll(n);
      if p.Answers? {
        var proof := AssessConsumptionProof(p, 1);
        if Passed(proof) {
          return Outcome.Consumed(n);
        }
        if p.txStatus == TxCommitted && !proof.spenderConsumesExactOutpoint {
          return Mismatch(n);
        }
      }
    }
    return TimedOut;
  }

  /** The answers describe the ledger state `s`, for the cell at `o` and the transaction with
      hash `spender`. A cell that is not live is reported unknown or dead, spent or not. */
  ghost predicate Truthful(chain: Chain, s: State, o: OutPoint, spender: H32, p: Poll) {
    p.Answers? ==>
      && (p.cellStatus == StatusLive <==> o in s.live)
      && (p.cellStatus != StatusLive ==> p.cellStatus == StatusUnknown || p.cellStatus == StatusDead)
      && (p.txStatus == TxCommitted ==> exists i :: 0 <= i < |s.log| && chain.txHash(s.log[i].tx) == spender
                                                    && (p.consumesOutpoint <==> o in SpentBy(s.log[i].tx)))
  }

  /** On a truthful node the proof passes exactly when the named transaction is committed and
      confirmed and spends the very outpoint; that the cell is not live then follows. */
  lemma ProofExact(chain: Chain, genesis: map<OutPoint, Cell>, run: seq<Spend>, s: State, o: OutPoint, spender: H32,
                   p: Poll)
    requires Reachable(chain, genesis, run, s) && p.Answers? && Truthful(chain, s, o, spender, p)
    ensures Proves(p) <==> p.txStatus == TxCommitted && p.consumesOutpoint && p.confirmations >= 1
    ensures Proves(p) ==> Spent(s.log, o)
  {
    if p.txStatus == TxCommitted && p.consumesOutpoint {
      var i :| 0 <= i < |s.log| && chain.txHash(s.log[i].tx) == spender && o in SpentBy(s.log[i].tx);
      assert Spent(s.log, o);
      ReachableInv(chain, genesis, run, s);
    }
  }

  /** What decides a poll: it proves consumption by a committed, confirmed transaction that names
      a cell no longer live, and refutes it by a committed one that does not name the cell. */
  lemma PollVerdicts(p: Poll)
    ensures Proves(p) <==>
              exists cell, n: int ::
                n >= 1 && cell in {StatusUnknown, StatusDead} && p == Answers(cell, TxCommitted, n, true)
    ensures Refutes(p) <==> exists cell, n: int :: p == Answers(cell, TxCommitted, n, false)
  {
    if Proves(p) {
      assert p == Answers(p.cellStatus, TxCommitted, p.confirmations, true);
    }
    if Refutes(p) {
      assert p == Answers(p.cellStatus, TxCommitted, p.confirmations, false);
    }
  }

  /** A refutation is final too: once a truthful node shows the named transaction committed
      without the cell among its inputs, no later truthful answer is a proof. */
  lemma RefutationIsFinal(chain: Chain, genesis: map<OutPoint, Cell>, run: seq<Spend>, more: seq<Spend>, s: State,
                          s': State, o: OutPoint, spender: H32, p: Poll, p': Poll)
    requires Reachable(chain, genesis, run, s) && Reachable(chain, genesis, run + more, s')
    requires Truthful(chain, s, o, spender, p) && Refutes(p) && Truthful(chain, s', o, spender, p')
    ensures !Proves(p')
  {
    var _ := PrefixReachable(chain, genesis, run, more, s');
    var i :| 0 <= i < |s.log| && chain.txHash(s.log[i].tx) == spender && o !in SpentBy(s.log[i].tx);
    assert s'.log[i] == s.log[i];
    forall j | 0 <= j < |s'.log| && chain.txHash(s'.log[j].tx) == spender
      ensures o !in SpentBy(s'.log[j].tx)
    {
      assert s'.log[j].tx == s'.log[i].tx;
    }
  }

  /** A passed proof is final: in no continuation of the run is the cell live again or does it
      authorize anyone. */
  lemma ProofIsFinal(chain: Chain, genesis: map<OutPoint, Cell>, run: seq<Spend>, more: seq<Spend>, s: State, s': State,
                     o: OutPoint, spender: H32, p: Poll, requester: Address, policy: Policy, now: int)
    requires Reachable(chain, genesis, run, s) && Reachable(chain, genesis, run + more, s')
    requires Truthful(chain, s, o, spender, p) && Proves(p)
    ensures o !in s'.live && !Authorized(chain.deployment, s'.live, o, requester, policy, now)
  {
    ProofExact(chain, genesis, run, s, o, spender, p);
    SpentForever(chain, genesis, run, more, s, s', o);
  }

  /** The status "unknown" alone proves nothing: before any accepted transaction a truthful
      node reports its outputs unknown, and one step later they are live. */
  lemma UnknownIsNoProof(chain: Chain, genesis: map<OutPoint, Cell>, s: State, t: Spend, k: nat, spender: H32)
    requires Step(chain, genesis, s, t) && k < |t.tx.outputs|
    ensures Truthful(chain, s, OutputPoint(chain, t.tx, k), spender, Answers(StatusUnknown, TxOther, 0, false))
    ensures OutputPoint(chain, t.tx, k) in Next(chain, s, t).live
  {
    FreshHash(chain, genesis, s, t);
  }
}
