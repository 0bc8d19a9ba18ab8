/** The parts of the CKB transaction model the protocol relies on. */
module Ckb {
  import opened Wrappers
  import opened ByteStrings

  datatype HashType = Data | Data1 | Data2 | Type
  datatype Script = Script(codeHash: H32, hashType: HashType, args: Bytes)
  datatype OutPoint = OutPoint(txHash: H32, index: U32)
  datatype CellInput = CellInput(previousOutput: OutPoint, since: U64)
  datatype Cell = Cell(capacity: nat, lock: Script, typ: Option<Script>, data: Bytes)
  datatype Tx = Tx(inputs: seq<CellInput>, outputs: seq<Cell>)
  datatype Deployment = Deployment(codeHash: H32, hashType: HashType)

  const OUTPUT_LIMIT := 0x1_0000_0000

  /** The hash functions of the chain, as arbitrary functions. Nothing is assumed of them
      here; what a theorem needs is stated as a condition on the values hashed in a run. */
  datatype Chain = Chain(
    blake2b: Bytes -> H32,
    txHash: Tx -> H32,
    scriptHash: Script -> H32,
    deployment: Deployment)

  /** The 44-byte serialization of a cell input. */
  function SerializeInput(input: CellInput): (b: Bytes)
    ensures |b| == 44
  {
    Le(input.since, 8) + input.previousOutput.txHash + Le(input.previousOutput.index, 4)
  }

  /** What is hashed into a capability id: the first input, then the output index. */
  function CreationMaterial(input: CellInput, index: nat): (b: Bytes)
    ensures |b| == 52
  {
    SerializeInput(input) + Le(index, 8)
  }

  function CreationId(chain: Chain, input: CellInput, index: nat): H32 {
    chain.blake2b(CreationMaterial(input, index))
  }

  /** What is hashed, byte by byte: the input's since, its outpoint, and the output index. */
  lemma CreationLayout(input: CellInput, index: nat)
    ensures var m := CreationMaterial(input, index);
            && m[..8] == Le(input.since, 8)
            && m[8..40] == input.previousOutput.txHash
            && m[40..44] == Le(input.previousOutput.index, 4)
            && m[44..52] == Le(index, 8)
  {
  }

  lemma CreationMaterialInjective(a: CellInput, i: nat, b: CellInput, j: nat)
    requires i < OUTPUT_LIMIT && j < OUTPUT_LIMIT
    requires CreationMaterial(a, i) == CreationMaterial(b, j)
    ensures a == b && i == j
  {
    var m, n := CreationMaterial(a, i), CreationMaterial(b, j);
    assert m[..8] == Le(a.since, 8) && n[..8] == Le(b.since, 8);
    assert m[8..40] == a.previousOutput.txHash && n[8..40] == b.previousOutput.txHash;
    assert m[40..44] == Le(a.previousOutput.index, 4) && n[40..44] == Le(b.previousOutput.index, 4);
    assert m[44..] == Le(i, 8) && n[44..] == Le(j, 8);
    U64Width();
    LeInjective(a.since, b.since, 8);
    LeInjective(a.previousOutput.index, b.previousOutput.index, 4);
    LeInjective(i, j, 8);
  }

  predicate InDeployment(deployment: Deployment, script: Script) {
    script.codeHash == deployment.codeHash && script.hashType == deployment.hashType
  }

  predicate IsCapability(chain: Chain, cell: Cell) {
    cell.typ.Some? && InDeployment(chain.deployment, cell.typ.value)
  }

  /** The positions of a script group: the cells carrying exactly this Type Script, in order. */
  function Group(cells: seq<Cell>, script: Script): (g: seq<nat>)
    ensures forall k :: k in g ==> k < |cells| && cells[k].typ == Some(script)
    ensures forall k :: 0 <= k < |cells| && cells[k].typ == Some(script) ==> k in g
    ensures forall a, b :: 0 <= a < b < |g| ==> g[a] < g[b]
  {
    if cells == [] then []
    else
      var last := |cells| - 1;
      var rest := Group(cells[..last], script);
      assert forall a :: 0 <= a < |rest| ==> rest[a] in rest;
      if cells[last].typ == Some(script) then rest + [last] else rest
  }

  lemma EmptyGroup(cells: seq<Cell>, script: Script)
    ensures Group(cells, script) == [] <==> forall k :: 0 <= k < |cells| ==> cells[k].typ != Some(script)
  {
  }

  lemma SingletonGroup(cells: seq<Cell>, script: Script, k: nat)
    requires k < |cells| && cells[k].typ == Some(script)
    ensures |Group(cells, script)| == 1 <==> forall j :: 0 <= j < |cells| && cells[j].typ == Some(script) ==> j == k
    ensures |Group(cells, script)| == 1 ==> Group(cells, script) == [k]
  {
    var g := Group(cells, script);
    assert k in g;
    if |g| != 1 {
      assert g[0] in g && g[1] in g && g[0] < g[1];
    } else {
      assert g == [g[0]];
    }
  }
}
