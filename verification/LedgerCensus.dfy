/** How many rights are live: in every run, what was issued less what was retired. */
module LedgerCensus {
  import opened Ckb
  import opened CapabilityType
  import opened Ledger
  import opened Lifecycle
  import opened BuilderGuarantees

  function CapabilitiesIn(chain: Chain, cells: seq<Cell>): set<nat> {
    set k: nat | k < |cells| && IsCapability(chain, cells[k])
  }

  /** The outputs of an entry that create a right: their script is on no input. */
  function IssuedBy(chain: Chain, e: Entry): set<nat> {
    set k: nat | k < |e.tx.outputs| && IsCapability(chain, e.tx.outputs[k])
                 && forall j :: 0 <= j < |e.consumed| ==> e.consumed[j].typ != e.tx.outputs[k].typ
  }

  /** The inputs of an entry that end a right: their script is on no output. */
  function RetiredBy(chain: Chain, e: Entry): set<nat> {
    set j: nat | j < |e.consumed| && IsCapability(chain, e.consumed[j])
                 && forall k :: 0 <= k < |e.tx.outputs| ==> e.tx.outputs[k].typ != e.consumed[j].typ
  }

  function Issuances(chain: Chain, log: seq<Entry>): nat {
    if log == [] then 0 else Issuances(chain, log[..|log| - 1]) + |IssuedBy(chain, log[|log| - 1])|
  }

  function Retirements(chain: Chain, log: seq<Entry>): nat {
    if log == [] then 0 else Retirements(chain, log[..|log| - 1]) + |RetiredBy(chain, log[|log| - 1])|
  }

  /** The counted outputs and inputs are those the Type Script accepted as issues and surrenders. */
  lemma CountedAsAccepted(chain: Chain, e: Entry, k: nat)
    requires EntrySound(chain, e)
    ensures k in IssuedBy(chain, e) <==>
              && k < |e.tx.outputs| && IsCapability(chain, e.tx.outputs[k])
              && Issues(chain, e.tx.outputs[k].typ.value, e.tx, e.consumed, k)
    ensures k in RetiredBy(chain, e) <==>
              && k < |e.consumed| && IsCapability(chain, e.consumed[k])
              && Retires(e.consumed[k].typ.value, e.tx, e.consumed, k)
  {
    if k in IssuedBy(chain, e) {
      OutputCases(chain, e.tx, e.consumed, k);
    }
    if k in RetiredBy(chain, e) {
      InputCases(chain, e.tx, e.consumed, k);
    }
  }

  // ---- Counting by injective maps ----

  lemma {:induction false} InjectiveSize<A, B>(m: map<A, B>)
    requires forall a, b :: a in m && b in m && m[a] == m[b] ==> a == b
    ensures |m.Values| == |m|
    decreases |m|
  {
    if a :| a in m {
      var rest := m - {a};
      InjectiveSize(rest);
      assert m.Keys == rest.Keys + {a};
      assert m.Values == rest.Values + {m[a]};
    }
  }

  /** Two finite sets matched one to one by `m` have one size. */
  lemma MatchedSize<A, B>(m: map<A, B>, from: set<A>, to: set<B>)
    requires m.Keys == from
    requires forall a :: a in m ==> m[a] in to
    requires forall b :: b in to ==> exists a :: a in m && m[a] == b
    requires forall a, b :: a in m && b in m && m[a] == m[b] ==> a == b
    ensures |from| == |to|
  {
    InjectiveSize(m);
    assert m.Values == to;
  }

  function MovedIn(chain: Chain, e: Entry): set<nat> {
    CapabilitiesIn(chain, e.consumed) - RetiredBy(chain, e)
  }

  function MovedOut(chain: Chain, e: Entry): set<nat> {
    CapabilitiesIn(chain, e.tx.outputs) - IssuedBy(chain, e)
  }

  /** The output a moved cell becomes. */
  ghost function Successor(chain: Chain, e: Entry, j: nat): (k: nat)
    requires EntrySound(chain, e) && j in MovedIn(chain, e)
    ensures Moves(chain, e.consumed[j].typ.value, e.tx, e.consumed, j, k) && k in MovedOut(chain, e)
  {
    InputCases(chain, e.tx, e.consumed, j);
    var k: nat :| Moves(chain, e.consumed[j].typ.value, e.tx, e.consumed, j, k);
    k
  }

  lemma SuccessorIsInjective(chain: Chain, e: Entry, i: nat, j: nat)
    requires EntrySound(chain, e) && i in MovedIn(chain, e) && j in MovedIn(chain, e)
    requires Successor(chain, e, i) == Successor(chain, e, j)
    ensures i == j
  {
  }

  lemma Predecessor(chain: Chain, e: Entry, k: nat) returns (j: nat)
    requires EntrySound(chain, e) && k in MovedOut(chain, e)
    ensures j in MovedIn(chain, e) && Successor(chain, e, j) == k
  {
    OutputCases(chain, e.tx, e.consumed, k);
    j :| Moves(chain, e.tx.outputs[k].typ.value, e.tx, e.consumed, j, k);
  }

  /** As many rights leave an entry moved as came in to be moved. */
  lemma MovesBalance(chain: Chain, e: Entry)
    requires EntrySound(chain, e)
    ensures |MovedIn(chain, e)| == |MovedOut(chain, e)|
  {
    var m := map j | j in MovedIn(chain, e) :: Successor(chain, e, j);
    forall k | k in MovedOut(chain, e)
      ensures exists j :: j in m && m[j] == k
    {
      var j := Predecessor(chain, e, k);
      assert j in m;
    }
    forall i, j | i in m && j in m && m[i] == m[j]
      ensures i == j
    {
      SuccessorIsInjective(chain, e, i, j);
    }
    MatchedSize(m, MovedIn(chain, e), MovedOut(chain, e));
  }

  /** What an entry consumes and creates differs by what it retires and issues. */
  lemma EntryBalance(chain: Chain, e: Entry)
    requires EntrySound(chain, e)
    ensures |CapabilitiesIn(chain, e.consumed)| - |RetiredBy(chain, e)|
              == |CapabilitiesIn(chain, e.tx.outputs)| - |IssuedBy(chain, e)|
  {
    MovesBalance(chain, e);
    assert RetiredBy(chain, e) <= CapabilitiesIn(chain, e.consumed)
           && IssuedBy(chain, e) <= CapabilitiesIn(chain, e.tx.outputs);
  }

  function SpentRights(chain: Chain, s: State, tx: Tx): set<OutPoint> {
    Rights(chain, s.live).Keys * SpentBy(tx)
  }

  /** Every consumed capability is one spent right. */
  lemma SpentRightsSize(chain: Chain, s: State, tx: Tx)
    requires Resolves(s.live, tx)
    ensures |SpentRights(chain, s, tx)| == |CapabilitiesIn(chain, Consumed(s.live, tx))|
  {
    var caps := CapabilitiesIn(chain, Consumed(s.live, tx));
    var m := map j | j in caps :: tx.inputs[j].previousOutput;
    forall o | o in SpentRights(chain, s, tx)
      ensures exists j :: j in m && m[j] == o
    {
      var j: nat :| j < |tx.inputs| && tx.inputs[j].previousOutput == o;
      assert j in m;
    }
    MatchedSize(m, caps, SpentRights(chain, s, tx));
  }

  /** A step takes one live right away for every capability it consumes. */
  lemma SpentSize(chain: Chain, s: State, tx: Tx)
    requires Resolves(s.live, tx)
    ensures |Rights(chain, s.live) - SpentBy(tx)|
              == |Rights(chain, s.live)| - |CapabilitiesIn(chain, Consumed(s.live, tx))|
  {
    SpentRightsSize(chain, s, tx);
    assert (Rights(chain, s.live) - SpentBy(tx)).Keys == Rights(chain, s.live).Keys - SpentRights(chain, s, tx);
  }

  lemma CreatedSize(chain: Chain, tx: Tx)
    requires |tx.outputs| < OUTPUT_LIMIT
    ensures |Rights(chain, CreatedBy(chain, tx))| == |CapabilitiesIn(chain, tx.outputs)|
  {
    var created, caps := Rights(chain, CreatedBy(chain, tx)), CapabilitiesIn(chain, tx.outputs);
    var m := map k | k in caps :: OutputPoint(chain, tx, k);
    forall o | o in created.Keys
      ensures exists k :: k in m && m[k] == o
    {
      assert o == OutputPoint(chain, tx, o.index);
      assert o.index in m;
    }
    MatchedSize(m, caps, created.Keys);
  }

  /** Any accepted step changes the number of live rights by its issues less its retirements. */
  lemma CensusStep(chain: Chain, s: State, t: Spend)
    requires Accepts(chain, s, t) && FreshFor(chain, s, t.tx)
    ensures var e := Entry(t.tx, Consumed(s.live, t.tx), t.signers);
            |Rights(chain, Next(chain, s, t).live)|
              == |Rights(chain, s.live)| + |IssuedBy(chain, e)| - |RetiredBy(chain, e)|
  {
    var kept, created := Rights(chain, s.live) - SpentBy(t.tx), Rights(chain, CreatedBy(chain, t.tx));
    RightsAfter(chain, s, t);
    SpentSize(chain, s, t.tx);
    CreatedSize(chain, t.tx);
    EntryBalance(chain, Entry(t.tx, Consumed(s.live, t.tx), t.signers));
    assert kept.Keys !! created.Keys;
    assert (kept + created).Keys == kept.Keys + created.Keys;
  }

  /** Conservation over every run, of any transactions: as many rights are live as were issued
      and not retired. */
  lemma {:induction false} RightsAreIssuedLessRetired(chain: Chain, genesis: map<OutPoint, Cell>, run: seq<Spend>,
                                                      s: State)
    requires Reachable(chain, genesis, run, s)
    ensures |Rights(chain, s.live)| == Issuances(chain, s.log) - Retirements(chain, s.log)
    decreases |run|
  {
    if run == [] {
      assert Rights(chain, s.live) == map[];
    } else {
      var m := |run| - 1;
      var before := LastStep(chain, genesis, run, s);
      RightsAreIssuedLessRetired(chain, genesis, run[..m], before);
      ReachableInv(chain, genesis, run[..m], before);
      AcceptedIsFresh(chain, genesis, before, run[m]);
      CensusStep(chain, before, run[m]);
      assert s.log[..|s.log| - 1] == before.log;
    }
  }
}
