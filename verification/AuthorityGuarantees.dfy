/** What the two client views promise together with the ledger. */
module AuthorityGuarantees {
  import opened Wrappers
  import opened ByteStrings
  import opened CapabilityFormat
  import opened ContractParser
  import opened CapabilityCodec
  import opened Ckb
  import opened CapabilityType
  import opened Ledger
  import opened Lifecycle
  import opened Guarantees
  import opened Builders
  import opened BuilderGuarantees
  import opened LiveVerifier

  /** The client reads a capability from a cell exactly when the contract would accept the
      cell as an instance of its own script. */
  lemma ReadsExactlyIdentified(chain: Chain, cell: Cell)
    ensures ReadCapability(chain.deployment, cell).Ok? <==> IsCapability(chain, cell) && Identified(cell)
    ensures ReadCapability(chain.deployment, cell).Ok? ==>
              var cap := ReadCapability(chain.deployment, cell).value;
              && cap.capabilityId == IdOf(cell.typ.value)
              && ParseCapability(cell.data) == Ok(Kept(cap))
              && (Transferable(cell) <==> HasFlag(cap.flags, FLAG_TRANSFERABLE))
  {
    DecoderAgreesWithContract(cell.data);
    if IsCapability(chain, cell) && DecodeCapability(cell.data).Ok? && |cell.typ.value.args| == ARGS_LEN {
      var args := cell.typ.value.args;
      assert args == args[..32] + args[32..];
    }
  }

  /** On a reachable ledger the identity and decoding refusals of both views are never taken. */
  lemma LiveRightsAlwaysRead(chain: Chain, genesis: map<OutPoint, Cell>, run: seq<Spend>, s: State, o: OutPoint)
    requires Reachable(chain, genesis, run, s) && o in s.live && IsCapability(chain, s.live[o])
    ensures ReadCapability(chain.deployment, s.live[o]).Ok?
    ensures Holds(chain, s, o, ReadCapability(chain.deployment, s.live[o]).value.capabilityId)
  {
    LiveRightsAreIdentified(chain, genesis, run, s, o);
    ReadsExactlyIdentified(chain, s.live[o]);
  }

  /** The address of the cell's lock, if the cell is live. */
  function OwnerOf(live: map<OutPoint, Cell>, o: OutPoint): Address {
    if o in live then Valid(live[o].lock) else Blank
  }

  /** What a refusal says on a reachable ledger: the first says the cell is gone, the next two
      that it is no capability, and every other blames the policy, the clock or the requester;
      with all of these in order the refusal is the owner check. */
  lemma RefusalsTellTheLedger(chain: Chain, genesis: map<OutPoint, Cell>, run: seq<Spend>, s: State, o: OutPoint,
                              requester: Address, policy: Policy, now: int)
    requires Reachable(chain, genesis, run, s)
    ensures var r := VerifyLiveCapability(chain.deployment, s.live, o, requester, policy, now);
            var owners := VerifyLiveCapability(chain.deployment, s.live, o, OwnerOf(s.live, o), policy, now);
            && (r == Err(MissingOrConsumed) <==> o !in s.live)
            && (r.Err? && r.error in {NoTypeScript, OtherDeployment} <==>
                  o in s.live && !IsCapability(chain, s.live[o]))
            && (r.Err? ==> !r.error.Undecodable? && r.error != VerifyError.IdentityMismatch)
            && (r == Err(BadRequester) <==> !requester.Valid? && owners.Ok?)
            && (r == Err(NotInControl) <==> requester.Valid? && requester != OwnerOf(s.live, o) && owners.Ok?)
            && (r.Ok? <==> requester == OwnerOf(s.live, o) && owners.Ok?)
  {
    if o in s.live && IsCapability(chain, s.live[o]) {
      LiveRightsAlwaysRead(chain, genesis, run, s, o);
    }
  }

  predicate Authorized(deployment: Deployment, live: map<OutPoint, Cell>, o: OutPoint, requester: Address,
                       policy: Policy, now: int) {
    VerifyLiveCapability(deployment, live, o, requester, policy, now).Ok?
  }

  function AuthorizedId(deployment: Deployment, live: map<OutPoint, Cell>, o: OutPoint, requester: Address,
                        policy: Policy, now: int): H32
    requires Authorized(deployment, live, o, requester, policy, now)
  {
    VerifyLiveCapability(deployment, live, o, requester, policy, now).value.1.capabilityId
  }

  /** The cell is an instance of the capability its payload spells, under the deployment's code. */
  predicate Genuine(deployment: Deployment, cell: Cell) {
    && ParseCapability(cell.data).Ok?
    && var cap := ParseCapability(cell.data).value;
       cell.typ == Some(Script(deployment.codeHash, deployment.hashType, cap.issuerId + cap.capabilityId))
  }

  lemma ReadsExactlyGenuine(deployment: Deployment, cell: Cell)
    ensures ReadCapability(deployment, cell).Ok? <==> Genuine(deployment, cell)
    ensures ReadCapability(deployment, cell).Ok? ==>
              ParseCapability(cell.data) == Ok(Kept(ReadCapability(deployment, cell).value))
  {
    DecoderAgreesWithContract(cell.data);
  }

  /** The issuer ids a configuration lists: the list if there is one, else the single id. */
  function ListedIssuers(ids: Option<seq<Bytes>>, id: Option<Bytes>): seq<Bytes> {
    match (ids, id)
    case (Some(list), _) => list
    case (None, Some(single)) => [single]
    case (None, None) => []
  }

  predicate WellTyped(ids: seq<Bytes>) {
    forall v :: v in ids ==> |v| == 0 || |v| == 32
  }

  /** What verification comes to, in the contract's terms and in numbers: the requester is the
      owner of a live, genuine, unexpired right of the expected service, from a listed issuer,
      and transferable unless that was waived. */
  lemma AuthorizedExactly(deployment: Deployment, live: map<OutPoint, Cell>, o: OutPoint, requester: Address,
                          policy: Policy, now: int)
    ensures Authorized(deployment, live, o, requester, policy, now) <==>
              && o in live && requester == Valid(live[o].lock) && Genuine(deployment, live[o])
              && var cap := ParseCapability(live[o].data).value;
                 && cap.serviceId == policy.expectedServiceId
                 && WellTyped(ListedIssuers(policy.trustedIssuerIds, policy.trustedIssuerId))
                 && cap.issuerId in ListedIssuers(policy.trustedIssuerIds, policy.trustedIssuerId)
                 && (policy.requireTransferable == Some(false) || cap.flags as int % 2 == 1)
                 && now < cap.expiry
    ensures Authorized(deployment, live, o, requester, policy, now) ==>
              var (cell, cap) := VerifyLiveCapability(deployment, live, o, requester, policy, now).value;
              cell == live[o] && DecodeCapability(cell.data) == Ok(cap)
  {
    if o in live {
      ReadsExactlyGenuine(deployment, live[o]);
      if ReadCapability(deployment, live[o]).Ok? {
        PolicyInNumbers(ReadCapability(deployment, live[o]).value, policy, now);
      }
    }
  }

  lemma PolicyInNumbers(cap: Capability, policy: Policy, now: int)
    ensures CheckPolicy(cap, policy, now).None? <==>
              && cap.serviceId == policy.expectedServiceId
              && WellTyped(ListedIssuers(policy.trustedIssuerIds, policy.trustedIssuerId))
              && cap.issuerId in ListedIssuers(policy.trustedIssuerIds, policy.trustedIssuerId)
              && (policy.requireTransferable == Some(false) || cap.flags as int % 2 == 1)
              && now < cap.expiry
  {
    FlagBits(cap.flags);
    IssuerSetIsList(policy.trustedIssuerIds, policy.trustedIssuerId);
  }

  /** The parsed issuer set holds the listed ids that are not blank; without any there is none. */
  lemma IssuerSetIsList(ids: Option<seq<Bytes>>, id: Option<Bytes>)
    ensures var r := NormalizeTrustedIssuerSet(ids, id);
            && (r.Ok? <==> WellTyped(ListedIssuers(ids, id)))
            && (r.Ok? ==>
                  && (r.value.None? <==> forall v :: v in ListedIssuers(ids, id) ==> |v| == 0)
                  && (r.value.Some? ==> forall h: H32 :: h in r.value.value <==> h in ListedIssuers(ids, id)))
  {
    var list := ListedIssuers(ids, id);
    var r := NormalizeAll(list);
    if r.Ok? && r.value != {} {
      var h: H32 :| h in r.value;
      assert h in list && |h| == 32;
    }
  }

  /** The service ids a query lists: the list if it has any, else the single id unless blank. */
  function ListedServices(q: Query): seq<Bytes> {
    if q.expectedServiceIds.GetOr([]) != [] then q.expectedServiceIds.value
    else if q.expectedServiceId.GetOr([]) != [] then [q.expectedServiceId.value]
    else []
  }

  lemma QueryAcceptedExactly(q: Query)
    ensures ParseQuery(q).Ok? <==>
              && WellTyped(ListedIssuers(q.trustedIssuerIds, q.trustedIssuerId))
              && forall v :: v in ListedServices(q) ==> |v| == 32
  {
    IssuerSetIsList(q.trustedIssuerIds, q.trustedIssuerId);
  }

  /** What discovery selects, in the contract's terms and in numbers: genuine rights of a listed
      service and a listed issuer, where any are listed, and transferable if that was asked. */
  lemma SelectsExactly(deployment: Deployment, q: Query, cell: Cell)
    requires ParseQuery(q).Ok?
    ensures Selects(deployment, ParseQuery(q).value, cell) <==>
              && Genuine(deployment, cell)
              && var cap := ParseCapability(cell.data).value;
                 var issuers := ListedIssuers(q.trustedIssuerIds, q.trustedIssuerId);
                 && (ListedServices(q) != [] ==> cap.serviceId in ListedServices(q))
                 && ((exists v :: v in issuers && |v| > 0) ==> cap.issuerId in issuers)
                 && (q.requireTransferable == Some(true) ==> cap.flags as int % 2 == 1)
  {
    ReadsExactlyGenuine(deployment, cell);
    IssuerSetIsList(q.trustedIssuerIds, q.trustedIssuerId);
    if ReadCapability(deployment, cell).Ok? {
      FlagBits(ReadCapability(deployment, cell).value.flags);
    }
  }

  lemma AuthorizedHolds(chain: Chain, s: State, o: OutPoint, requester: Address, policy: Policy, now: int)
    requires Authorized(chain.deployment, s.live, o, requester, policy, now)
    ensures Holds(chain, s, o, AuthorizedId(chain.deployment, s.live, o, requester, policy, now))
    ensures requester == Valid(s.live[o].lock) && Identified(s.live[o])
    ensures now < ParseCapability(s.live[o].data).value.expiry
  {
    ReadsExactlyIdentified(chain, s.live[o]);
  }

  /** Exclusive authority: in a reachable state at most one requester, at one outpoint, passes
      verification for an id, whatever the policies and clocks of the providers that ask. */
  lemma ExclusiveAuthority(chain: Chain, genesis: map<OutPoint, Cell>, run: seq<Spend>, s: State,
                           o: OutPoint, a: Address, p: Policy, now: int,
                           o': OutPoint, a': Address, p': Policy, now': int)
    requires Reachable(chain, genesis, run, s)
    requires Authorized(chain.deployment, s.live, o, a, p, now)
    requires Authorized(chain.deployment, s.live, o', a', p', now')
    requires AuthorizedId(chain.deployment, s.live, o, a, p, now)
               == AuthorizedId(chain.deployment, s.live, o', a', p', now')
    ensures o == o' && a == a'
  {
    AuthorizedHolds(chain, s, o, a, p, now);
    AuthorizedHolds(chain, s, o', a', p', now');
    Singleton(chain, genesis, run, s, o, o', AuthorizedId(chain.deployment, s.live, o, a, p, now));
  }

  /** A spent outpoint never passes again, in any continuation, for anyone. */
  lemma SpentNeverAuthorizes(chain: Chain, genesis: map<OutPoint, Cell>, run: seq<Spend>, more: seq<Spend>, s: State,
                             s': State, o: OutPoint, requester: Address, policy: Policy, now: int)
    requires Reachable(chain, genesis, run, s) && Reachable(chain, genesis, run + more, s') && Spent(s.log, o)
    ensures !Authorized(chain.deployment, s'.live, o, requester, policy, now)
  {
    SpentForever(chain, genesis, run, more, s, s', o);
  }

  /** A retired id never passes again, at any outpoint, in any continuation. */
  lemma RetiredNeverAuthorizes(chain: Chain, genesis: map<OutPoint, Cell>, run: seq<Spend>, more: seq<Spend>, s: State,
                               s': State, id: H32, o: OutPoint, requester: Address, policy: Policy, now: int)
    requires Reachable(chain, genesis, run, s) && Reachable(chain, genesis, run + more, s')
    requires PhaseOf(chain, s, id) == Retired && Authorized(chain.deployment, s'.live, o, requester, policy, now)
    ensures AuthorizedId(chain.deployment, s'.live, o, requester, policy, now) != id
  {
    NoRebirth(chain, genesis, run, more, s, s', id);
    AuthorizedHolds(chain, s', o, requester, policy, now);
    assert !Held(chain, s', id);
  }

  /** Once the clock has reached a right's expiry, that id never passes again, however the
      right moves and however often the run continues. */
  lemma ExpiredNeverAuthorizes(chain: Chain, genesis: map<OutPoint, Cell>, run: seq<Spend>, more: seq<Spend>, s: State,
                               s': State,
                               id: H32, held: OutPoint, o: OutPoint, requester: Address, policy: Policy, now: int)
    requires Reachable(chain, genesis, run, s) && Reachable(chain, genesis, run + more, s')
    requires Holds(chain, s, held, id) && ParseCapability(s.live[held].data).Ok?
    requires now >= ParseCapability(s.live[held].data).value.expiry
    requires Authorized(chain.deployment, s'.live, o, requester, policy, now)
    ensures AuthorizedId(chain.deployment, s'.live, o, requester, policy, now) != id
  {
    AuthorizedHolds(chain, s', o, requester, policy, now);
    if AuthorizedId(chain.deployment, s'.live, o, requester, policy, now) == id {
      LifelongIdentity(chain, genesis, run, more, s, s', held, o, id);
    }
  }

  /** Verification looks at a cell only through its lock and its capability. */
  lemma SameCellSameVerdict(deployment: Deployment, live: map<OutPoint, Cell>, live': map<OutPoint, Cell>, o: OutPoint,
                            o': OutPoint, policy: Policy, now: int, a: Address)
    requires o in live && o' in live' && live'[o'].typ == live[o].typ && live'[o'].data == live[o].data
    ensures Authorized(deployment, live, o, Valid(live[o].lock), policy, now) <==>
              Authorized(deployment, live', o', Valid(live'[o'].lock), policy, now)
    ensures a != Valid(live[o].lock) ==> !Authorized(deployment, live, o, a, policy, now)
  {
  }

  /** Transport of authority: when an accepted transaction moves a right, every policy that
      accepted the old owner at the old outpoint accepts the new owner at the new one at the
      same time, and from then on accepts nobody at the old outpoint and nobody but the new
      owner at the new. */
  lemma AuthorityMovesWithTheCell(chain: Chain, genesis: map<OutPoint, Cell>, s: State, t: Spend, o: OutPoint,
                                  o': OutPoint, id: H32, policy: Policy, now: int, a: Address)
    requires Step(chain, genesis, s, t)
    requires Holds(chain, s, o, id) && o in SpentBy(t.tx) && Holds(chain, Next(chain, s, t), o', id)
    ensures var live, live' := s.live, Next(chain, s, t).live;
            && (Authorized(chain.deployment, live, o, Valid(live[o].lock), policy, now) <==>
                  Authorized(chain.deployment, live', o', Valid(live'[o'].lock), policy, now))
            && !Authorized(chain.deployment, live', o, a, policy, now)
            && (a != Valid(live'[o'].lock) ==> !Authorized(chain.deployment, live', o', a, policy, now))
  {
    var s' := Next(chain, s, t);
    FreshHash(chain, genesis, s, t);
    assert o !in s'.live;
    OwnerAuthorizesChange(chain, genesis, s, t, o, id);
    SameCellSameVerdict(chain.deployment, s.live, s'.live, o, o', policy, now, a);
    SameCellSameVerdict(chain.deployment, s'.live, s'.live, o', o', policy, now, a);
  }

  /** A built transfer, accepted: the right is at a new outpoint, under the recipient's lock. */
  lemma BuiltTransferSucceeds(chain: Chain, wallet: Wallet, s: State, o: OutPoint, recipient: Script,
                              builtAt: int, d: Draft, signers: set<Script>) returns (id: H32)
    requires TransferResult(chain, wallet, s.live, o, Valid(recipient), builtAt) == Ok(d) && Broadcastable(s.live, d)
    requires PlainChange(chain.deployment, d) && LocksPass(SpentCells(s.live, d), signers)
    ensures Accepts(chain, s, Spend(ToTx(d), signers)) && o in SpentBy(ToTx(d))
    ensures Holds(chain, s, o, id) && s.live[o].lock == wallet.lock != recipient
    ensures var s', o' := Next(chain, s, Spend(ToTx(d), signers)), OutputPoint(chain, ToTx(d), 0);
            Holds(chain, s', o', id) && s'.live[o'].lock == recipient
  {
    OwnedIsIdentified(chain, s.live, o, wallet.lock);
    TransferGuards(chain, wallet, s.live, o, Valid(recipient), builtAt, d);
    id := IdOf(s.live[o].typ.value);
    TransferRefinesContract(chain, wallet, s, o, Valid(recipient), builtAt, d, signers);
    FirstOutputLives(chain, s, Spend(ToTx(d), signers));
    assert ToTx(d).inputs[0].previousOutput == o;
  }

  lemma FirstOutputLives(chain: Chain, s: State, t: Spend)
    requires Resolves(s.live, t.tx) && 0 < |t.tx.outputs| < OUTPUT_LIMIT
    ensures OutputPoint(chain, t.tx, 0) in Next(chain, s, t).live
    ensures Next(chain, s, t).live[OutputPoint(chain, t.tx, 0)] == t.tx.outputs[0]
  {
  }

  /** The same for the transfer builder: for all providers at once, a built transfer from A to
      B hands A's authorization to B and leaves A none. */
  lemma BuiltTransferMovesAuthority(chain: Chain, genesis: map<OutPoint, Cell>, wallet: Wallet, s: State, o: OutPoint,
                                    recipient: Script,
                                    builtAt: int, d: Draft, signers: set<Script>, policy: Policy, now: int)
    requires Inv(chain, genesis, s)
    requires TransferResult(chain, wallet, s.live, o, Valid(recipient), builtAt) == Ok(d) && Broadcastable(s.live, d)
    requires PlainChange(chain.deployment, d) && LocksPass(SpentCells(s.live, d), signers)
    requires CollisionFree(chain, genesis, Next(chain, s, Spend(ToTx(d), signers)).log)
    ensures var live' := Next(chain, s, Spend(ToTx(d), signers)).live;
            var o' := OutputPoint(chain, ToTx(d), 0);
            && (Authorized(chain.deployment, s.live, o, Valid(wallet.lock), policy, now) <==>
                  Authorized(chain.deployment, live', o', Valid(recipient), policy, now))
            && !Authorized(chain.deployment, live', o, Valid(wallet.lock), policy, now)
            && !Authorized(chain.deployment, live', o', Valid(wallet.lock), policy, now)
  {
    var id := BuiltTransferSucceeds(chain, wallet, s, o, recipient, builtAt, d, signers);
    AuthorityMovesWithTheCell(chain, genesis, s, Spend(ToTx(d), signers), o,
                              OutputPoint(chain, ToTx(d), 0), id, policy, now, Valid(wallet.lock));
  }

  // ---- Discovery ----

  /** What an indexer returns for an owner: each live cell under that lock once, in any order. */
  ghost predicate Lists(live: map<OutPoint, Cell>, owner: Script, listing: seq<Listed>) {
    && (forall x :: x in listing ==> x.outPoint in live && live[x.outPoint] == x.cell && x.cell.lock == owner)
    && (forall o :: o in live && live[o].lock == owner ==> Listed(o, live[o]) in listing)
    && (forall i, j :: 0 <= i < j < |listing| ==> listing[i].outPoint != listing[j].outPoint)
  }

  /** What discovery promises of its result. */
  ghost predicate Discovers(deployment: Deployment, f: Filter, listing: seq<Listed>, now: int, found: seq<Found>) {
    Sorted(found, now) && multiset(found) == multiset(Selected(deployment, f, listing))
  }

  lemma DiscoveredMembers(deployment: Deployment, f: Filter, listing: seq<Listed>, now: int, found: seq<Found>,
                          x: Found)
    requires Discovers(deployment, f, listing, now, found)
    ensures x in found <==>
              && Listed(x.outPoint, x.cell) in listing
              && Selects(deployment, f, x.cell) && ReadCapability(deployment, x.cell) == Ok(x.capability)
  {
    assert x in found <==> x in multiset(found);
    assert x in Selected(deployment, f, listing) <==> x in multiset(Selected(deployment, f, listing));
  }

  lemma {:induction false} SelectedOnce(deployment: Deployment, f: Filter, listing: seq<Listed>)
    requires forall i, j :: 0 <= i < j < |listing| ==> listing[i].outPoint != listing[j].outPoint
    ensures forall x :: multiset(Selected(deployment, f, listing))[x] <= 1
    decreases |listing|
  {
    if listing != [] {
      var m := |listing| - 1;
      SelectedOnce(deployment, f, listing[..m]);
      forall x | x in Selected(deployment, f, listing[..m])
        ensures x.outPoint != listing[m].outPoint
      {
        var i :| 0 <= i < m && listing[..m][i] == Listed(x.outPoint, x.cell);
      }
    }
  }

  /** Discovery is exact: its records are precisely the owner's live cells the filter selects,
      each once, active rights first, then by expiry, then by id. */
  lemma DiscoveryIsExact(chain: Chain, s: State, owner: Script, f: Filter, listing: seq<Listed>, now: int,
                         found: seq<Found>, o: OutPoint)
    requires Lists(s.live, owner, listing) && Discovers(chain.deployment, f, listing, now, found)
    ensures (exists x :: x in found && x.outPoint == o) <==>
              o in s.live && s.live[o].lock == owner && Selects(chain.deployment, f, s.live[o])
    ensures forall x :: x in found ==> x.outPoint in s.live && x.cell == s.live[x.outPoint]
                                       && ReadCapability(chain.deployment, x.cell) == Ok(x.capability)
    ensures forall x :: multiset(found)[x] <= 1
    ensures InOrder(found, now)
  {
    forall x
      ensures x in found <==> Listed(x.outPoint, x.cell) in listing
                              && Selects(chain.deployment, f, x.cell)
                              && ReadCapability(chain.deployment, x.cell) == Ok(x.capability)
    {
      DiscoveredMembers(chain.deployment, f, listing, now, found, x);
    }
    SelectedOnce(chain.deployment, f, listing);
    if o in s.live && s.live[o].lock == owner && Selects(chain.deployment, f, s.live[o]) {
      var x := Found(o, s.live[o], ReadCapability(chain.deployment, s.live[o]).value);
      assert Listed(x.outPoint, x.cell) in listing;
      assert x in found;
    }
    SortedOrder(found, now);
  }

  /** Active rights first, then the ones that expire sooner, then by id. */
  ghost predicate InOrder(found: seq<Found>, now: int) {
    forall i, j :: 0 <= i < j < |found| ==>
      var a, b := found[i].capability, found[j].capability;
      && (now < b.expiry ==> now < a.expiry)
      && ((now < a.expiry <==> now < b.expiry) ==> a.expiry <= b.expiry)
      && (a.expiry == b.expiry ==> LexLeq(a.capabilityId, b.capabilityId))
  }

  lemma SortedOrder(found: seq<Found>, now: int)
    requires Sorted(found, now)
    ensures InOrder(found, now)
  {
    forall i, j | 0 <= i < j < |found|
      ensures found[i].capability.expiry == found[j].capability.expiry ==>
                LexLeq(found[i].capability.capabilityId, found[j].capability.capabilityId)
    {
      assert Compare(found[i], found[j], now) <= 0;
      LexTotal(found[i].capability.capabilityId, found[j].capability.capabilityId);
    }
  }

  /** Records the comparator cannot tell apart are the same record. */
  ghost predicate Strict(found: seq<Found>, now: int) {
    forall x, y :: x in found && y in found && Compare(x, y, now) == 0 ==> x == y
  }

  lemma {:induction false} SortedUnique(a: seq<Found>, b: seq<Found>, now: int)
    requires Sorted(a, now) && Sorted(b, now) && multiset(a) == multiset(b) && Strict(a, now)
    ensures a == b
    decreases |a|
  {
    assert |a| == |multiset(a)| == |multiset(b)| == |b|;
    if a != [] {
      SameHead(a, b, now);
      TailMultiset(a);
      TailMultiset(b);
      SortedUnique(a[1..], b[1..], now);
    }
  }

  lemma TailMultiset(a: seq<Found>)
    requires a != []
    ensures multiset(a[1..]) == multiset(a) - multiset{a[0]} && a == [a[0]] + a[1..]
    ensures forall x :: x in a[1..] ==> x in a
  {
  }

  lemma SameHead(a: seq<Found>, b: seq<Found>, now: int)
    requires Sorted(a, now) && Sorted(b, now) && multiset(a) == multiset(b) && Strict(a, now)
    requires a != [] && b != []
    ensures a[0] == b[0]
  {
    assert a[0] in multiset(b) && b[0] in multiset(a);
    HeadIsLeast(a, b[0], now);
    HeadIsLeast(b, a[0], now);
    ComparePreorder(a[0], b[0], b[0], now);
  }

  lemma HeadIsLeast(a: seq<Found>, x: Found, now: int)
    requires Sorted(a, now) && x in a
    ensures Compare(a[0], x, now) <= 0
  {
  }

  /** On a reachable ledger no two discovered records tie, by the singleton property. */
  lemma DiscoveryNeverTies(chain: Chain, genesis: map<OutPoint, Cell>, run: seq<Spend>, s: State, owner: Script,
                           f: Filter, listing: seq<Listed>, now: int, found: seq<Found>)
    requires Reachable(chain, genesis, run, s) && Lists(s.live, owner, listing)
    requires Discovers(chain.deployment, f, listing, now, found)
    ensures Strict(found, now)
  {
    forall x, y | x in found && y in found && Compare(x, y, now) == 0
      ensures x == y
    {
      DiscoveredMembers(chain.deployment, f, listing, now, found, x);
      DiscoveredMembers(chain.deployment, f, listing, now, found, y);
      ComparePreorder(x, y, y, now);
      ReadsExactlyIdentified(chain, x.cell);
      ReadsExactlyIdentified(chain, y.cell);
      Singleton(chain, genesis, run, s, x.outPoint, y.outPoint, x.capability.capabilityId);
    }
  }

  /** Deterministic discovery: on a reachable ledger the result does not depend on the order in
      which the indexer lists the cells, nor on the sorting algorithm. */
  lemma DiscoveryIsDeterministic(chain: Chain, genesis: map<OutPoint, Cell>, run: seq<Spend>, s: State, owner: Script,
                                 f: Filter, now: int,
                                 listing: seq<Listed>, found: seq<Found>, listing': seq<Listed>, found': seq<Found>)
    requires Reachable(chain, genesis, run, s)
    requires Lists(s.live, owner, listing) && Discovers(chain.deployment, f, listing, now, found)
    requires Lists(s.live, owner, listing') && Discovers(chain.deployment, f, listing', now, found')
    ensures found == found'
  {
    DiscoveryNeverTies(chain, genesis, run, s, owner, f, listing, now, found);
    SelectedOnce(chain.deployment, f, listing);
    SelectedOnce(chain.deployment, f, listing');
    forall x
      ensures multiset(found)[x] == multiset(found')[x]
    {
      DiscoveredMembers(chain.deployment, f, listing, now, found, x);
      DiscoveredMembers(chain.deployment, f, listing', now, found', x);
      assert x in found <==> x in found';
    }
    SortedUnique(found, found', now);
  }

  /** The query that asks discovery what a policy asks verification. */
  function QueryOf(policy: Policy): Query {
    Query(Some(policy.expectedServiceId), None, policy.trustedIssuerId, policy.trustedIssuerIds,
          policy.requireTransferable)
  }

  /** The policy check is the query's filter, plus the clock, plus the two defaults. */
  lemma PolicyIsFilter(policy: Policy, cap: Capability, now: int)
    requires |policy.expectedServiceId| == 32 && ParseQuery(QueryOf(policy)).Ok?
    ensures CheckPolicy(cap, policy, now).None? <==>
              && ParseQuery(QueryOf(policy)).value.issuers.Some? && Passes(ParseQuery(QueryOf(policy)).value, cap)
              && IsActive(cap, now)
              && (policy.requireTransferable.GetOr(true) ==> HasFlag(cap.flags, FLAG_TRANSFERABLE))
  {
    assert ParseQuery(QueryOf(policy)).value.services == Some({policy.expectedServiceId});
  }

  /** Agreement of the two views. With the same configuration a cell is authorized for its
      owner exactly when its owner discovers it active, some issuer is configured, and the
      transferable requirement, which the two default differently, is met as verification
      reads it. */
  lemma DiscoveryAgreesWithVerification(chain: Chain, s: State, owner: Script, policy: Policy, listing: seq<Listed>,
                                        now: int, found: seq<Found>, o: OutPoint)
    requires |policy.expectedServiceId| == 32 && ParseQuery(QueryOf(policy)).Ok?
    requires Lists(s.live, owner, listing)
    requires Discovers(chain.deployment, ParseQuery(QueryOf(policy)).value, listing, now, found)
    ensures Authorized(chain.deployment, s.live, o, Valid(owner), policy, now) <==>
              && ParseQuery(QueryOf(policy)).value.issuers.Some?
              && exists x :: x in found && x.outPoint == o && IsActive(x.capability, now)
                             && (policy.requireTransferable.GetOr(true) ==>
                                   HasFlag(x.capability.flags, FLAG_TRANSFERABLE))
  {
    var f := ParseQuery(QueryOf(policy)).value;
    DiscoveryIsExact(chain, s, owner, f, listing, now, found, o);
    if o in s.live && ReadCapability(chain.deployment, s.live[o]).Ok? {
      PolicyIsFilter(policy, ReadCapability(chain.deployment, s.live[o]).value, now);
    }
  }
}
