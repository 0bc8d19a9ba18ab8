/** The protocol's promises about every run of the ledger, for arbitrary transactions. */
module Guarantees {
  import opened ByteStrings
  import opened ContractParser
  import opened Ckb
  import opened CapabilityType
  import opened Ledger
  import opened Lifecycle

  /** At most one live cell carries a capability id, whichever issuer the scripts name. */
  lemma Singleton(chain: Chain, genesis: map<OutPoint, Cell>, run: seq<Spend>, s: State, o: OutPoint, o': OutPoint,
                  id: H32)
    requires Reachable(chain, genesis, run, s)
    requires Holds(chain, s, o, id) && Holds(chain, s, o', id)
    ensures o == o'
  {
    ReachableInv(chain, genesis, run, s);
  }

  /** Every live capability cell is well formed and names itself truthfully. */
  lemma LiveRightsAreIdentified(chain: Chain, genesis: map<OutPoint, Cell>, run: seq<Spend>, s: State, o: OutPoint)
    requires Reachable(chain, genesis, run, s) && o in s.live && IsCapability(chain, s.live[o])
    ensures Identified(s.live[o]) && Holds(chain, s, o, IdOf(s.live[o].typ.value))
  {
    LiveRightIsTraced(chain, genesis, run, s, o);
  }

  lemma LiveRightIsTraced(chain: Chain, genesis: map<OutPoint, Cell>, run: seq<Spend>, s: State, o: OutPoint)
    requires Reachable(chain, genesis, run, s) && o in s.live && IsCapability(chain, s.live[o])
    ensures Traced(chain, s.log, s.live[o])
  {
    ReachableInv(chain, genesis, run, s);
  }

  /** An id is issued at most once in any run. */
  lemma IssuedAtMostOnce(chain: Chain, genesis: map<OutPoint, Cell>, run: seq<Spend>, s: State, id: H32, i: nat,
                         k: nat, i': nat, k': nat)
    requires Reachable(chain, genesis, run, s)
    requires IssuedAt(chain, s.log, i, k, id) && IssuedAt(chain, s.log, i', k', id)
    ensures i == i' && k == k'
  {
    ReachableInv(chain, genesis, run, s);
    IssuedOnce(chain, genesis, s.log, id, i, k, i', k');
  }

  // ---- Phases of an id ----

  datatype Phase = Unborn | Alive | Retired

  ghost predicate Held(chain: Chain, s: State, id: H32) {
    exists o :: Holds(chain, s, o, id)
  }

  ghost predicate EverIssued(chain: Chain, log: seq<Entry>, id: H32) {
    exists i, k :: IssuedAt(chain, log, i, k, id)
  }

  ghost function PhaseOf(chain: Chain, s: State, id: H32): Phase {
    if Held(chain, s, id) then Alive else if EverIssued(chain, s.log, id) then Retired else Unborn
  }

  predicate Follows(before: Phase, after: Phase) {
    match before
    case Unborn => after != Retired
    case Alive => after != Unborn
    case Retired => after == Retired
  }

  lemma PhaseStep(chain: Chain, genesis: map<OutPoint, Cell>, s: State, t: Spend, id: H32)
    requires Step(chain, genesis, s, t)
    ensures Follows(PhaseOf(chain, s, id), PhaseOf(chain, Next(chain, s, t), id))
  {
    HeldWasIssued(chain, genesis, s, id);
    IssuesPersist(chain, s, t, id);
    NewIssueIsHeld(chain, s, t, id);
    if EverIssued(chain, s.log, id) && !Held(chain, s, id) {
      RetiredStays(chain, genesis, s, t, id);
    }
  }

  lemma HeldWasIssued(chain: Chain, genesis: map<OutPoint, Cell>, s: State, id: H32)
    requires Inv(chain, genesis, s)
    ensures Held(chain, s, id) ==> EverIssued(chain, s.log, id)
  {
  }

  lemma IssuesPersist(chain: Chain, s: State, t: Spend, id: H32)
    requires Resolves(s.live, t.tx) && |t.tx.outputs| < OUTPUT_LIMIT
    ensures EverIssued(chain, s.log, id) ==> EverIssued(chain, Next(chain, s, t).log, id)
  {
    if i: nat, k: nat :| IssuedAt(chain, s.log, i, k, id) {
      IssuePersists(chain, s.log, [Next(chain, s, t).log[|s.log|]], i, k, id);
    }
  }

  lemma RetiredStays(chain: Chain, genesis: map<OutPoint, Cell>, s: State, t: Spend, id: H32)
    requires Step(chain, genesis, s, t)
    requires EverIssued(chain, s.log, id) && !Held(chain, s, id)
    ensures !Held(chain, Next(chain, s, t), id)
  {
    if o :| Holds(chain, Next(chain, s, t), o, id) {
      HolderOrigin(chain, s, t, o, id);
      IssuedIsNotReissued(chain, genesis, s, t, o.index, id);
    }
  }

  /** What a transaction issues is live right after it. */
  lemma NewIssueIsHeld(chain: Chain, s: State, t: Spend, id: H32)
    requires Accepts(chain, s, t)
    ensures EverIssued(chain, Next(chain, s, t).log, id) && !EverIssued(chain, s.log, id) ==>
              Held(chain, Next(chain, s, t), id)
  {
    var s' := Next(chain, s, t);
    if i: nat, k: nat :| IssuedAt(chain, s'.log, i, k, id) {
      if i < |s.log| {
        assert s'.log[i] == s.log[i];
        assert IssuedAt(chain, s.log, i, k, id);
      } else {
        assert Holds(chain, s', OutputPoint(chain, t.tx, k), id);
      }
    }
  }

  // ---- Extensions of a run ----

  /** A run reaches its prefix's state on the way, and the log records it in order. */
  lemma {:induction false} PrefixReachable(chain: Chain, genesis: map<OutPoint, Cell>, run: seq<Spend>,
                                           more: seq<Spend>, s': State)
      returns (s: State)
    requires Reachable(chain, genesis, run + more, s')
    ensures Reachable(chain, genesis, run, s)
    ensures s.log <= s'.log
    decreases |more|
  {
    if more == [] {
      assert run + more == run;
      s := s';
    } else {
      var before := LastOfMore(chain, genesis, run, more, s');
      s := PrefixReachable(chain, genesis, run, more[..|more| - 1], before);
    }
  }

  /** No rebirth: an id never moves backwards, so a surrendered right stays retired through
      every continuation of the run, whatever its transactions are. */
  lemma {:induction false} NoRebirth(chain: Chain, genesis: map<OutPoint, Cell>, run: seq<Spend>, more: seq<Spend>,
                                     s: State, s': State, id: H32)
    requires Reachable(chain, genesis, run, s) && Reachable(chain, genesis, run + more, s')
    ensures PhaseOf(chain, s, id) == Retired ==> PhaseOf(chain, s', id) == Retired
    ensures PhaseOf(chain, s, id) == Alive ==> PhaseOf(chain, s', id) != Unborn
    decreases |more|
  {
    if more == [] {
      assert run + more == run;
    } else {
      var before := LastOfMore(chain, genesis, run, more, s');
      NoRebirth(chain, genesis, run, more[..|more| - 1], s, before, id);
      PhaseStep(chain, genesis, before, more[|more| - 1], id);
    }
  }

  /** A spent outpoint is never live again. */
  lemma SpentForever(chain: Chain, genesis: map<OutPoint, Cell>, run: seq<Spend>, more: seq<Spend>, s: State,
                     s': State, o: OutPoint)
    requires Reachable(chain, genesis, run, s) && Reachable(chain, genesis, run + more, s')
    requires Spent(s.log, o)
    ensures o !in s.live && o !in s'.live
  {
    var p := PrefixReachable(chain, genesis, run, more, s');
    var i: nat, j: nat :| i < |s.log| && j < |s.log[i].tx.inputs| && s.log[i].tx.inputs[j].previousOutput == o;
    assert s'.log[i] == s.log[i];
    assert Spent(s'.log, o);
    ReachableInv(chain, genesis, run, s);
    ReachableInv(chain, genesis, run + more, s');
  }

  // ---- Provenance and immutability ----

  /** Some input of the transaction is locked by the issuer the payload names, and that lock
      accepted the transaction. */
  ghost predicate IssuerSigned(chain: Chain, e: Entry, data: Bytes) {
    && ParseCapability(data).Ok?
    && exists j :: 0 <= j < |e.consumed| && e.consumed[j].lock in e.signers
                   && chain.scriptHash(e.consumed[j].lock) == ParseCapability(data).value.issuerId
  }

  /** What the log shows as an issue was signed by its issuer and carries its creation id. */
  lemma IssueWasSigned(chain: Chain, log: seq<Entry>, i: nat, k: nat, id: H32)
    requires LogSound(chain, log) && IssuedAt(chain, log, i, k, id)
    ensures IssuerSigned(chain, log[i], log[i].tx.outputs[k].data)
    ensures log[i].tx.inputs != [] && id == CreationId(chain, log[i].tx.inputs[0], k)
  {
  }

  /** A live right's bytes are those of its one issuing transaction, which its issuer signed. */
  lemma Provenance(chain: Chain, genesis: map<OutPoint, Cell>, run: seq<Spend>, s: State, o: OutPoint, id: H32)
      returns (i: nat, k: nat)
    requires Reachable(chain, genesis, run, s) && Holds(chain, s, o, id)
    ensures IssuedAt(chain, s.log, i, k, id)
    ensures forall i', k' :: IssuedAt(chain, s.log, i', k', id) ==> i' == i && k' == k
    ensures s.live[o].typ == s.log[i].tx.outputs[k].typ && s.live[o].data == s.log[i].tx.outputs[k].data
    ensures IssuerSigned(chain, s.log[i], s.live[o].data)
    ensures s.log[i].tx.inputs != [] && id == CreationId(chain, s.log[i].tx.inputs[0], k)
    ensures !Transferable(s.live[o]) ==>
              chain.scriptHash(s.live[o].lock) == chain.scriptHash(s.log[i].tx.outputs[k].lock)
  {
    ReachableInv(chain, genesis, run, s);
    i, k := IssueOf(chain, s, o, id);
    IssueWasSigned(chain, s.log, i, k, id);
    forall i': nat, k': nat | IssuedAt(chain, s.log, i', k', id)
      ensures i' == i && k' == k
    {
      IssuedOnce(chain, genesis, s.log, id, i, k, i', k');
    }
  }

  lemma IssueOf(chain: Chain, s: State, o: OutPoint, id: H32) returns (i: nat, k: nat)
    requires CapabilitiesTraced(chain, s) && Holds(chain, s, o, id)
    ensures IssuedAt(chain, s.log, i, k, id) && Descends(chain, s.log, s.live[o], i, k)
  {
    assert Traced(chain, s.log, s.live[o]);
    i, k :| IssuedAt(chain, s.log, i, k, id) && Descends(chain, s.log, s.live[o], i, k);
  }

  /** Two cells traced to an issue of the same id are the same right. */
  lemma SameRight(chain: Chain, genesis: map<OutPoint, Cell>, log: seq<Entry>, a: Cell, b: Cell)
    requires LogSound(chain, log) && CollisionFree(chain, genesis, log)
    requires Traced(chain, log, a) && Traced(chain, log, b) && IdOf(a.typ.value) == IdOf(b.typ.value)
    ensures a.typ == b.typ && a.data == b.data
    ensures !Transferable(a) ==> chain.scriptHash(a.lock) == chain.scriptHash(b.lock)
  {
    var id := IdOf(a.typ.value);
    var i: nat, k: nat :| IssuedAt(chain, log, i, k, id) && Descends(chain, log, a, i, k);
    var i': nat, k': nat :| IssuedAt(chain, log, i', k', id) && Descends(chain, log, b, i', k');
    IssuedOnce(chain, genesis, log, id, i, k, i', k');
  }

  lemma TracedInLonger(chain: Chain, log: seq<Entry>, longer: seq<Entry>, cell: Cell)
    requires log <= longer && Traced(chain, log, cell)
    ensures Traced(chain, longer, cell)
  {
    TracedGrows(chain, log, longer[|log|..], cell);
    assert longer == log + longer[|log|..];
  }

  /** What a right was traced to stays in the log of every continuation. */
  lemma TracedLater(chain: Chain, genesis: map<OutPoint, Cell>, run: seq<Spend>, more: seq<Spend>, s: State, s': State,
                    o: OutPoint)
    requires Reachable(chain, genesis, run, s) && Reachable(chain, genesis, run + more, s')
    requires o in s.live && IsCapability(chain, s.live[o])
    ensures Traced(chain, s'.log, s.live[o])
  {
    var p := PrefixReachable(chain, genesis, run, more, s');
    LiveRightIsTraced(chain, genesis, run, s, o);
    TracedInLonger(chain, s.log, s'.log, s.live[o]);
  }

  /** Between any two moments of a run a right keeps its script and every payload byte, and a
      non-transferable right keeps its lock. */
  lemma LifelongIdentity(chain: Chain, genesis: map<OutPoint, Cell>, run: seq<Spend>, more: seq<Spend>,
                         s: State, s': State, o: OutPoint, o': OutPoint, id: H32)
    requires Reachable(chain, genesis, run, s) && Reachable(chain, genesis, run + more, s')
    requires Holds(chain, s, o, id) && Holds(chain, s', o', id)
    ensures s'.live[o'].typ == s.live[o].typ && s'.live[o'].data == s.live[o].data
    ensures !Transferable(s.live[o]) ==> chain.scriptHash(s'.live[o'].lock) == chain.scriptHash(s.live[o].lock)
  {
    TracedLater(chain, genesis, run, more, s, s', o);
    LiveRightIsTraced(chain, genesis, run + more, s', o');
    ReachableInv(chain, genesis, run + more, s');
    SameRight(chain, genesis, s'.log, s.live[o], s'.live[o']);
  }

  /** Only the current owner ends or moves a right: if the holder of an id changes in a step,
      the old cell was consumed, its lock signed, and a new lock needs the transferable flag. */
  lemma OwnerAuthorizesChange(chain: Chain, genesis: map<OutPoint, Cell>, s: State, t: Spend, o: OutPoint, id: H32)
    requires Step(chain, genesis, s, t) && Holds(chain, s, o, id)
    requires !Holds(chain, Next(chain, s, t), o, id) || Next(chain, s, t).live[o] != s.live[o]
    ensures o in SpentBy(t.tx) && s.live[o].lock in t.signers
    ensures forall o' :: Holds(chain, Next(chain, s, t), o', id) ==>
              var after := Next(chain, s, t).live[o'];
              && after.data == s.live[o].data && after.typ == s.live[o].typ
              && (chain.scriptHash(after.lock) != chain.scriptHash(s.live[o].lock) ==> Transferable(s.live[o]))
  {
    var s' := Next(chain, s, t);
    if !exists j :: 0 <= j < |t.tx.inputs| && t.tx.inputs[j].previousOutput == o {
      UntouchedStays(chain, genesis, s, t, o);
    }
    SpentIsSigned(chain, s, t, o);
    forall o' | Holds(chain, s', o', id)
      ensures s'.live[o'].data == s.live[o].data && s'.live[o'].typ == s.live[o].typ
      ensures chain.scriptHash(s'.live[o'].lock) != chain.scriptHash(s.live[o].lock) ==> Transferable(s.live[o])
    {
      HeldHolder(chain, genesis, s, t, o, o', id);
      SuccessorKeeps(chain, s, t, o, o');
    }
  }

  /** A consumed cell's lock signed the transaction. */
  lemma SpentIsSigned(chain: Chain, s: State, t: Spend, o: OutPoint)
    requires Accepts(chain, s, t) && o in SpentBy(t.tx)
    ensures o in s.live && s.live[o].lock in t.signers
  {
    var j: nat :| j < |t.tx.inputs| && t.tx.inputs[j].previousOutput == o;
    assert Consumed(s.live, t.tx)[j] == s.live[o];
  }

  /** A successor has its predecessor's script and payload, and its lock unless transferable. */
  lemma SuccessorKeeps(chain: Chain, s: State, t: Spend, o: OutPoint, o': OutPoint)
    requires Resolves(s.live, t.tx) && |t.tx.outputs| < OUTPUT_LIMIT && Succeeds(chain, s, t, o, o')
    ensures o' in Next(chain, s, t).live
    ensures var before, after := s.live[o], Next(chain, s, t).live[o'];
            && after.data == before.data && after.typ == before.typ
            && (chain.scriptHash(after.lock) != chain.scriptHash(before.lock) ==> Transferable(before))
  {
  }

  /** A consumed right is surrendered or lives on in a successor, never both. */
  lemma SpentRight(chain: Chain, genesis: map<OutPoint, Cell>, s: State, t: Spend, o: OutPoint, id: H32, j: nat)
    requires Step(chain, genesis, s, t) && Holds(chain, s, o, id)
    requires j < |t.tx.inputs| && t.tx.inputs[j].previousOutput == o
    ensures Retires(s.live[o].typ.value, t.tx, Consumed(s.live, t.tx), j) <==> !Held(chain, Next(chain, s, t), id)
  {
    var s', consumed := Next(chain, s, t), Consumed(s.live, t.tx);
    assert consumed[j] == s.live[o] && o in SpentBy(t.tx);
    InputCases(chain, t.tx, consumed, j);
    if Retires(s.live[o].typ.value, t.tx, consumed, j) {
      if o' :| Holds(chain, s', o', id) {
        HeldHolder(chain, genesis, s, t, o, o', id);
      }
    } else {
      var k: nat :| Moves(chain, s.live[o].typ.value, t.tx, consumed, j, k);
      assert Holds(chain, s', OutputPoint(chain, t.tx, k), id);
    }
  }

  /** A live right is retired by a step exactly when the step surrenders its cell. */
  lemma RetiredExactlyBySurrender(chain: Chain, genesis: map<OutPoint, Cell>, s: State, t: Spend, o: OutPoint, id: H32)
    requires Step(chain, genesis, s, t) && Holds(chain, s, o, id)
    ensures PhaseOf(chain, Next(chain, s, t), id) == Retired <==>
              exists j: nat :: j < |t.tx.inputs| && t.tx.inputs[j].previousOutput == o
                               && Retires(s.live[o].typ.value, t.tx, Consumed(s.live, t.tx), j)
  {
    PhaseStep(chain, genesis, s, t, id);
    assert Held(chain, s, id);
    if j: nat :| j < |t.tx.inputs| && t.tx.inputs[j].previousOutput == o {
      SpentRight(chain, genesis, s, t, o, id, j);
    } else {
      UntouchedStays(chain, genesis, s, t, o);
      assert Holds(chain, Next(chain, s, t), o, id);
    }
  }

  /** A cell no input names stays as it is. */
  lemma UntouchedStays(chain: Chain, genesis: map<OutPoint, Cell>, s: State, t: Spend, o: OutPoint)
    requires Step(chain, genesis, s, t) && o in s.live
    requires forall j :: 0 <= j < |t.tx.inputs| ==> t.tx.inputs[j].previousOutput != o
    ensures o in Next(chain, s, t).live && Next(chain, s, t).live[o] == s.live[o]
  {
    FreshHash(chain, genesis, s, t);
  }

  /** While the owner signs nothing, nothing happens to the right: over any continuation in
      which no transaction carries the owner's lock among its signers, the cell stays live at
      its outpoint, unchanged. */
  lemma {:induction false} OwnerSilenceKeepsRight(chain: Chain, genesis: map<OutPoint, Cell>, run: seq<Spend>,
                                                  more: seq<Spend>, s: State, s': State, o: OutPoint)
    requires Reachable(chain, genesis, run, s) && Reachable(chain, genesis, run + more, s')
    requires o in s.live && forall n :: 0 <= n < |more| ==> s.live[o].lock !in more[n].signers
    ensures o in s'.live && s'.live[o] == s.live[o]
    decreases |more|
  {
    if more == [] {
      assert run + more == run;
    } else {
      var m := |more| - 1;
      var before := LastOfMore(chain, genesis, run, more, s');
      OwnerSilenceKeepsRight(chain, genesis, run, more[..m], s, before, o);
      UnsignedStays(chain, genesis, before, more[m], o);
    }
  }

  lemma UnsignedStays(chain: Chain, genesis: map<OutPoint, Cell>, s: State, t: Spend, o: OutPoint)
    requires Step(chain, genesis, s, t)
    requires o in s.live && s.live[o].lock !in t.signers
    ensures o in Next(chain, s, t).live && Next(chain, s, t).live[o] == s.live[o]
  {
    forall j: nat | j < |t.tx.inputs|
      ensures t.tx.inputs[j].previousOutput != o
    {
      assert Consumed(s.live, t.tx)[j].lock in t.signers;
    }
    UntouchedStays(chain, genesis, s, t, o);
  }
}
