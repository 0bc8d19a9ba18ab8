/** The simulator's chain object: a mutable map of cells and a set of issued identities. */
module InMemoryChain {
  import opened Wrappers
  import opened ByteStrings
  import opened CapabilityFormat
  import opened CapabilityCodec
  import opened ReferenceModel

  datatype ChainError =
    | Protocol(error: ProtocolError)
    | BadHash
    | AlreadyIssued
    | InputNotLive
    | NotController

  datatype SimCell = SimCell(lockHash: H32, typeArgs: Bytes, data: Bytes, live: bool)

  /** Outpoints are the numbers the simulator prints into its transaction hashes. */
  class Chain {
    var cells: map<nat, SimCell>
    var issued: set<Bytes>
    var counter: nat

    ghost predicate Valid()
      reads this
    {
      && (forall n :: n in cells ==> n < counter && CellSound(cells[n]) && cells[n].typeArgs in issued)
      && OneLiveEach(cells)
    }

    constructor ()
      ensures Valid() && cells == map[] && issued == {}
    {
      cells, issued, counter := map[], {}, 1;
    }

    /** Issue an identity once. A malformed owner hash is noticed only after the identity has
        been recorded, so it uses the identity up. */
    method Issue(ownerLockHash: Bytes, data: Bytes, issuerInputLockHash: Bytes) returns (r: Result<nat, ChainError>)
      requires Valid()
      modifies this
      ensures Valid()
      ensures r.Ok? <==> IssueRefusal(data, issuerInputLockHash, old(issued)).None? && |ownerLockHash| == 32
      ensures r.Ok? ==> r.value == old(counter)
                        && cells == old(cells)[r.value := SimCell(ownerLockHash, ArgsOf(data), data, true)]
      ensures r.Err? ==> cells == old(cells)
      ensures r.Err? ==> IssueAtFault(ownerLockHash, data, issuerInputLockHash, old(issued), r.error)
      ensures issued == if IssueRefusal(data, issuerInputLockHash, old(issued)).None?
                        then old(issued) + {ArgsOf(data)} else old(issued)
      ensures forall args: Bytes :: Gone(old(cells), old(issued), args) ==> Gone(cells, issued, args)
      ensures OneLivePerId(old(cells)) && r.Ok? ==>
                (OneLivePerId(cells) <==> !IdLives(old(cells), IdPart(ArgsOf(data))))
    {
      DecoderNamesAFault(data);
      match IssueRefusal(data, issuerInputLockHash, issued) {
        case Some(e) => return Err(e);
        case None =>
      }
      var typeArgs := ArgsOf(data);
      issued := issued + {typeArgs};
      var n := counter;
      counter := counter + 1;
      if |ownerLockHash| != 32 {
        return Err(BadHash);
      }
      NewIdentity(cells, old(issued), n, SimCell(ownerLockHash, typeArgs, data, true));
      NewId(cells, n, SimCell(ownerLockHash, typeArgs, data, true));
      cells := cells[n := SimCell(ownerLockHash, typeArgs, data, true)];
      return Ok(n);
    }

    /** What is returned is sound and is the identity's one live cell; nothing is returned
        exactly for numbers at which no identity lives. */
    method GetLiveCell(n: nat) returns (r: Option<SimCell>)
      requires Valid()
      ensures r.None? <==> forall args :: !LiveAt(cells, n, args)
      ensures r.Some? ==> CellSound(r.value) && r.value.typeArgs in issued && LiveAt(cells, n, r.value.typeArgs)
                          && cells[n] == r.value && forall m: nat :: LiveAt(cells, m, r.value.typeArgs) ==> m == n
    {
      if n !in cells || !cells[n].live {
        return None;
      }
      assert LiveAt(cells, n, cells[n].typeArgs);
      return Some(cells[n]);
    }

    method Transfer(n: nat, signerLockHash: Bytes, recipientLockHash: Bytes) returns (r: Result<nat, ChainError>)
      requires Valid()
      modifies this
      ensures Valid() && issued == old(issued)
      ensures r.Ok? <==> && n in old(cells) && old(cells)[n].live
                         && |recipientLockHash| == 32 && signerLockHash == old(cells)[n].lockHash
                         && (recipientLockHash == signerLockHash || TransferableData(old(cells)[n].data))
      ensures r.Ok? ==> r.value == old(counter) && cells ==
                          old(cells)[n := old(cells)[n].(live := false)]
                                   [r.value := old(cells)[n].(lockHash := recipientLockHash)]
      ensures r.Err? ==> cells == old(cells)
      ensures r.Err? ==> TransferAtFault(old(cells), n, signerLockHash, recipientLockHash, r.error)
      ensures forall args: Bytes :: Gone(old(cells), old(issued), args) ==> Gone(cells, issued, args)
      ensures OneLivePerId(old(cells)) ==> OneLivePerId(cells)
    {
      if n !in cells || !cells[n].live {
        return Err(InputNotLive);
      }
      var cell := cells[n];
      if |signerLockHash| != 32 {
        return Err(BadHash);
      }
      if cell.lockHash != signerLockHash {
        return Err(NotController);
      }
      if |recipientLockHash| != 32 {
        return Err(BadHash);
      }
      SoundTransition(cell, recipientLockHash);
      match ValidateTransition(cell.data, cell.data, cell.lockHash, recipientLockHash, cell.typeArgs) {
        case Err(e) => return Err(Protocol(e));
        case Ok(_) =>
      }
      var successor := counter;
      counter := counter + 1;
      Succession(cells, issued, n, successor, recipientLockHash);
      cells := cells[n := cell.(live := false)][successor := cell.(lockHash := recipientLockHash)];
      return Ok(successor);
    }

    method ConsumeUnsafeForTest(n: nat)
      requires Valid()
      modifies this
      ensures Valid() && issued == old(issued)
      ensures cells == if n in old(cells) then old(cells)[n := old(cells)[n].(live := false)] else old(cells)
      ensures forall args: Bytes :: Gone(old(cells), old(issued), args) ==> Gone(cells, issued, args)
      ensures OneLivePerId(old(cells)) ==> OneLivePerId(cells)
    {
      if n in cells {
        Consumption(cells, issued, n);
        cells := cells[n := cells[n].(live := false)];
      }
    }
  }

  /** The live cell at `n` holds the identity `args`. */
  predicate LiveAt(cells: map<nat, SimCell>, n: nat, args: Bytes) {
    n in cells && cells[n].live && cells[n].typeArgs == args
  }

  ghost predicate OneLiveEach(cells: map<nat, SimCell>) {
    forall n: nat, m: nat, args: Bytes :: LiveAt(cells, n, args) && LiveAt(cells, m, args) ==> n == m
  }

  /** An identity that was issued and is no longer live. */
  ghost predicate Gone(cells: map<nat, SimCell>, issued: set<Bytes>, args: Bytes) {
    args in issued && forall n: nat :: !LiveAt(cells, n, args)
  }

  /** The capability id in 64 bytes of args. */
  function IdPart(args: Bytes): Bytes {
    if |args| >= 32 then args[32..] else []
  }

  predicate IdAt(cells: map<nat, SimCell>, n: nat, id: Bytes) {
    n in cells && cells[n].live && IdPart(cells[n].typeArgs) == id
  }

  ghost predicate IdLives(cells: map<nat, SimCell>, id: Bytes) {
    exists n :: IdAt(cells, n, id)
  }

  /** What the ledger guarantees: ids, not pairs of issuer and id, are kept apart. */
  ghost predicate OneLivePerId(cells: map<nat, SimCell>) {
    forall n: nat, m: nat, id: Bytes :: IdAt(cells, n, id) && IdAt(cells, m, id) ==> n == m
  }

  /** A new cell keeps live ids apart exactly when its id was not live. */
  lemma NewId(cells: map<nat, SimCell>, n: nat, cell: SimCell)
    requires n !in cells && cell.live
    ensures OneLivePerId(cells) ==> (OneLivePerId(cells[n := cell]) <==> !IdLives(cells, IdPart(cell.typeArgs)))
  {
    var after, id := cells[n := cell], IdPart(cell.typeArgs);
    forall m: nat, i: Bytes | m != n
      ensures IdAt(after, m, i) <==> IdAt(cells, m, i)
    {
    }
    assert IdAt(after, n, id);
    if m: nat :| IdAt(cells, m, id) {
      assert IdAt(after, m, id);
    }
  }

  lemma NewIdentity(cells: map<nat, SimCell>, issued: set<Bytes>, n: nat, cell: SimCell)
    requires OneLiveEach(cells) && n !in cells && cell.typeArgs !in issued
    requires forall m :: m in cells ==> cells[m].typeArgs in issued
    ensures OneLiveEach(cells[n := cell])
    ensures forall args: Bytes :: Gone(cells, issued, args) ==> Gone(cells[n := cell], issued + {cell.typeArgs}, args)
  {
    var after := cells[n := cell];
    forall m: nat, args: Bytes | LiveAt(after, m, args)
      ensures if m == n then args == cell.typeArgs else LiveAt(cells, m, args)
    {
    }
    assert OneLiveEach(after);
    assert forall args: Bytes :: Gone(cells, issued, args) ==> Gone(after, issued + {cell.typeArgs}, args);
  }

  lemma Consumption(cells: map<nat, SimCell>, issued: set<Bytes>, n: nat)
    requires OneLiveEach(cells) && n in cells
    ensures OneLiveEach(cells[n := cells[n].(live := false)])
    ensures forall args: Bytes :: Gone(cells, issued, args) ==> Gone(cells[n := cells[n].(live := false)], issued, args)
    ensures OneLivePerId(cells) ==> OneLivePerId(cells[n := cells[n].(live := false)])
  {
    var after := cells[n := cells[n].(live := false)];
    forall m: nat, id: Bytes | IdAt(after, m, id)
      ensures IdAt(cells, m, id)
    {
    }
    forall m: nat, args: Bytes | LiveAt(after, m, args)
      ensures LiveAt(cells, m, args)
    {
    }
    assert OneLiveEach(after);
    assert forall args: Bytes :: Gone(cells, issued, args) ==> Gone(after, issued, args);
  }

  lemma Succession(cells: map<nat, SimCell>, issued: set<Bytes>, n: nat, successor: nat, owner: H32)
    requires OneLiveEach(cells) && n in cells && cells[n].live && successor !in cells
    ensures var after := cells[n := cells[n].(live := false)][successor := cells[n].(lockHash := owner)];
            && OneLiveEach(after) && (OneLivePerId(cells) ==> OneLivePerId(after))
            && forall args: Bytes :: Gone(cells, issued, args) ==> Gone(after, issued, args)
  {
    var after := cells[n := cells[n].(live := false)][successor := cells[n].(lockHash := owner)];
    forall m: nat, args: Bytes | LiveAt(after, m, args)
      ensures if m == successor then LiveAt(cells, n, args) else m != n && LiveAt(cells, m, args)
    {
    }
    forall m: nat, id: Bytes | IdAt(after, m, id)
      ensures if m == successor then IdAt(cells, n, id) else m != n && IdAt(cells, m, id)
    {
    }
  }

  predicate CellSound(cell: SimCell) {
    && DecodeCapability(cell.data).Ok? && cell.typeArgs == ArgsOf(cell.data)
  }

  predicate TransferableData(data: Bytes) {
    DecodeCapability(data).Ok? && HasFlag(DecodeCapability(data).value.flags, FLAG_TRANSFERABLE)
  }

  /** The args a payload names, for payloads that decode. */
  function ArgsOf(data: Bytes): Bytes {
    match DecodeCapability(data)
    case Ok(cap) => EncodeTypeArgs(cap.issuerId, cap.capabilityId)
    case Err(_) => []
  }

  /** Why an issue is refused before the simulator records anything. */
  function IssueRefusal(data: Bytes, issuerInputLockHash: Bytes, issued: set<Bytes>): Option<ChainError> {
    if DecodeCapability(data).Err? then Some(Protocol(CodecFailure(DecodeCapability(data).error)))
    else if |issuerInputLockHash| != 32 then Some(BadHash)
    else
      match ValidateIssue(data, ArgsOf(data), [issuerInputLockHash])
      case Err(e) => Some(Protocol(e))
      case Ok(_) => if ArgsOf(data) in issued then Some(AlreadyIssued) else None
  }

  /** An issue is at fault as the simulator's error says. */
  predicate IssueAtFault(ownerLockHash: Bytes, data: Bytes, issuerInputLockHash: Bytes, issued: set<Bytes>,
                         e: ChainError) {
    match e
    case Protocol(CodecFailure(error)) => PayloadAtFault(data, error)
    case Protocol(error) =>
      error == MissingIssuerAuth && DecodeCapability(data).Ok?
      && DecodeCapability(data).value.issuerId != issuerInputLockHash
    case BadHash => |ownerLockHash| != 32 || |issuerInputLockHash| != 32
    case AlreadyIssued => ArgsOf(data) in issued
    case _ => false
  }

  /** A transfer is at fault as the simulator's error says. */
  predicate TransferAtFault(cells: map<nat, SimCell>, n: nat, signer: Bytes, recipient: Bytes, e: ChainError) {
    match e
    case InputNotLive => !(n in cells && cells[n].live)
    case NotController => n in cells && cells[n].lockHash != signer
    case BadHash => |signer| != 32 || |recipient| != 32
    case Protocol(error) => error == TransferForbiddenByRule && n in cells && !TransferableData(cells[n].data)
    case AlreadyIssued => false
  }

  /** On a sound cell the reference refuses a transfer only for a missing flag. */
  lemma SoundTransition(cell: SimCell, recipient: H32)
    requires CellSound(cell)
    ensures ValidateTransition(cell.data, cell.data, cell.lockHash, recipient, cell.typeArgs).Ok? <==>
              recipient == cell.lockHash || TransferableData(cell.data)
    ensures var r := ValidateTransition(cell.data, cell.data, cell.lockHash, recipient, cell.typeArgs);
            r.Err? ==> r.error == TransferForbiddenByRule && !TransferableData(cell.data)
  {
  }

  /** An issue is refused before anything is recorded exactly when the payload does not decode,
      the named input is not its issuer's, or the identity was issued before. */
  lemma IssueRefusedExactly(data: Bytes, issuerInputLockHash: Bytes, issued: set<Bytes>)
    ensures IssueRefusal(data, issuerInputLockHash, issued).None? <==>
              && DecodeCapability(data).Ok? && issuerInputLockHash == DecodeCapability(data).value.issuerId
              && ArgsOf(data) !in issued
  {
  }

  /** Without that condition ids are not kept apart: unlike the ledger, the simulator lets two
      issuers hold the same capability id at once. */
  method TwoIssuersOneId(a: H32, b: H32, id: H32, owner: H32) returns (chain: Chain, m: nat, n: nat)
    requires a != b
    ensures chain.Valid() && m in chain.cells && n in chain.cells && m != n
            && chain.cells[m].live && chain.cells[n].live
    ensures IdAt(chain.cells, m, id) && IdAt(chain.cells, n, id) && !OneLivePerId(chain.cells)
  {
    var capA, capB := V1(0, ZERO32, a, id, 0), V1(0, ZERO32, b, id, 0);
    assert (0 as bv8) & !KNOWN_FLAGS_MASK == 0;
    DecodeInvertsEncode(Encoding(capA), capA);
    DecodeInvertsEncode(Encoding(capB), capB);
    chain := new Chain();
    IssueRefusedExactly(Encoding(capA), a, {});
    var first := chain.Issue(owner, Encoding(capA), a);
    assert EncodeTypeArgs(a, id)[..32] != EncodeTypeArgs(b, id)[..32];
    IssueRefusedExactly(Encoding(capB), b, chain.issued);
    assert first.value in chain.cells;
    var second := chain.Issue(owner, Encoding(capB), b);
    m, n := first.value, second.value;
    assert IdAt(chain.cells, m, id) && IdAt(chain.cells, n, id);
  }
}
