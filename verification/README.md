# SkillPass Capability Cells: a verified model

A SkillPass capability is a right to use a service, held as a cell on the CKB ledger. The cell's
lock is the owner; its Type Script carries the issuer id and the capability id; its data is a
106-byte or 172-byte payload. This project models, in Dafny 4.11, the on-chain Type Script, the
client that builds transactions and verifies cells, and the ledger between them, and proves what
the protocol promises about every run of that ledger.

Run `dafny verify dfyconfig.toml`.

## How it is built

| file | what it models |
|---|---|
| ByteStrings, Wrappers | bytes, 32-byte ids, little-endian integers, Option and Result |
| CapabilityFormat | the two wire formats and the byte-vector builders of the contract's test suite |
| ContractParser | `parse_capability` |
| CapabilityCodec | the client codec: normalise, encode, decode |
| Ckb | scripts, cells, transactions, the creation-id preimage, script groups |
| CapabilityType | the Type Script's entry point and its three accepted shapes |
| Ledger | accepted transactions, their effect, runs, reachable states |
| Lifecycle | the invariant of every reachable state and its preservation |
| LedgerCensus | the number of live rights in every run |
| Guarantees | the protocol's promises over runs and their continuations |
| Builders | the three transaction builders, as methods on a mutable transaction |
| BuilderGuarantees, BuilderExactness, BuilderGaps | what the builders return against the Type Script: refinement, exact conditions, and wallets that break them |
| BuilderCompleteness, BuilderRuns | what an honest wallet gets, and whole runs of builder transactions |
| ClientRefusals | what the errors of builders and policy check say |
| LiveVerifier, AuthorityGuarantees | verification and discovery, and what they promise with the ledger |
| ServiceCatalog, ServiceRights | the web client's two-stage filter, and the provider's own policy check it stands for |
| SpendProof | the consumption-proof polling loop |
| ReferenceModel, InMemoryChain | the JavaScript transition rules and the simulator's chain object |
| AtomicAmount | the formatting of atomic amounts |

**Hashes.** The ledger's hash functions (`Chain`) are arbitrary functions. No theorem assumes them
injective: a function into 32 bytes cannot be. Theorems about runs assume `CollisionFree`, which
speaks only of the transactions that occur in the run, the creation ids they could have minted, and
the outpoints the run began with. The `Reachable` states are those of collision-free runs, of any
transactions, from any ledger that holds no capability cell. `AtomicRightIsReachable` exhibits one.

**Locks.** A `Spend` is a transaction with the set of lock scripts that accepted it. The ledger
requires every consumed cell's lock to be in that set; how a lock decides is not modelled. The
contract compares lock hashes, and so do the statements about it; the client compares lock scripts.

**Wallets.** A builder hands its transaction to the wallet twice (issue) or once, and the wallet may
return anything. A `Wallet` is therefore any pair of functions on drafts, and each builder theorem
states what it needs of the result: `Sendable` (inputs live and distinct, as the ledger demands of
any transaction), `Broadcastable` (each input besides carries the output it spends), `PlainChange`
(outputs after the first are not capability cells), `KeepsFirstOutput`. The refinement theorems assume
what they need of these. The `DoneExactly` theorems assume of it `Sendable` alone, besides passing
locks and a fresh hash, and say exactly when the builder's whole purpose is done and nothing else.

**Text and bytes.** Identifiers are bytes, not hex text, so case folding and the hex syntax checks do
not appear; a blank identifier is the empty byte string and a malformed one has another length.

## What was found

- The transfer builder's guards do not look at outputs after the first. A wallet can repeat the
  right's Type Script there (`CopiedTransferIsRefused`) or add any other capability output that the
  Type Script refuses (`NamelessOutputIsRefused`), and the builder returns a transaction the ledger
  does not accept. They do not look at the first output's capacity either
  (`ResizedTransferIsAccepted`). `TransferAcceptedExactly` gives the exact condition of acceptance,
  `TransferMovesExactly` the one under which the right moves and no other right changes, and
  `TransferDoneExactly` the one under which the lock is the only difference between the two cells.
- The issue builder has the same gap. It also never checks for an input of the issuer
  (`ForeignFundedIssueIsRefused`) and does not look at its first output again after fee completion:
  an erased payload is refused by the ledger (`ErasedIssueIsRefused`), but another owner's lock is
  accepted while the builder reports the recipient's (`RelockedIssueIsAccepted`).
  `IssueAcceptedExactly` is the exact condition of acceptance and `IssueDoneExactly` the one under
  which the recipient, and nobody else, gets the announced right.
- The surrender builder's transactions are always accepted when each input carries the output it
  spends, but its guards do not look at the refund (`RelockedRefundIsAccepted`).
  `SurrenderDoneExactly` is the exact condition under which the right is gone and its capacity back
  with the owner.
- No builder's guard sees what an unresolved input is: with one, a surrender can retire a second
  right (`UnresolvedInputRetiresASecondRight`).
- The two-stage filter is lossless only under a condition (`LosslessExactly`): one service without an
  issuer list, next to a service with one, loses the rights of every unlisted issuer.
- Verification refuses every cell when no issuer is configured and requires transferability unless
  told otherwise; discovery accepts every issuer and requires nothing. `DiscoveryAgreesWithVerification`
  gives the exact relation of the two.
- The contract's parsed-struct comparison is blind to the subject and policy bytes of a version 2
  payload (`StructEqualityMissesPolicy`); the byte comparison beside it is what protects them.
- The JavaScript reference of the transition rules lacks the creation-id rule and agrees with the
  contract on everything else (`ContractIsReferencePlusCreationId`).
- The simulator's chain object keeps identities apart by issuer and id together, where the ledger
  keeps ids apart. An issue keeps live ids apart if and only if no live cell carries its id
  (`NewId`, `TwoIssuersOneId`), and a malformed owner hash uses an identity up without creating a
  cell (`InMemoryChain.Chain.Issue`).
- Amounts of different size can be shown alike in a locale that separates thousands by dots
  (`DottedThousandsLookAlike`); `FaithfulExactly` says which locales avoid it.

## Model

| member | source | states |
|---|---|---|
| CapabilityFormat.CapabilityData | contracts/capability-type/tests/contract.rs:33-42 | the vector written slice by slice is the wire image of the version 1 capability |
| CapabilityFormat.CapabilityDataV2 | contracts/capability-type/tests/contract.rs:44-67 | the same for version 2, with subject, binding and policy in their places |
| CapabilityFormat.EncodingLayout | docs/capability-format.md:7-14 | every field of a wire image sits at its documented offset, the expiry little-endian |
| ByteStrings.FromLeConcat | contracts/capability-type/src/main.rs:98-99 | the expiry's bytes are read little-endian: later bytes weigh more, by powers of 256 |
| CapabilityFormat.FlagBits | contracts/capability-type/src/main.rs:24-25 | in numbers: a flag byte is known if and only if it is below 8, and the three flags are its bits 0, 1 and 2 |
| CapabilityFormat.EncodingInjective | docs/capability-format.md:3-14 | a wire image names one capability only |
| ContractParser.ParserAcceptsExactlyEncodings | contracts/capability-type/src/main.rs:75-114 | the parser accepts a byte string if and only if it is the wire image of a well-formed capability, and returns that capability's fields |
| ContractParser.AcceptedInNumbers | contracts/capability-type/src/main.rs:75-96 | the accepted payloads byte by byte, with lengths, versions, flags, binding modes and subject rules in numbers |
| ContractParser.ParseOfEncoding | contracts/capability-type/src/main.rs:75-114 | parsing undoes encoding for well-formed capabilities and refuses the images of all others |
| ContractParser.ReadingEncodes | contracts/capability-type/src/main.rs:98-113 | encoding undoes reading on every payload of the right version and length |
| ContractParser.StructEqualityIsHeaderEquality | contracts/capability-type/src/main.rs:59-67 | equal parsed structs mean equal first 106 bytes and equal length; that decides version 1 payloads |
| ContractParser.StructEqualityMissesPolicy | contracts/capability-type/src/main.rs:173-177 | two accepted version 2 payloads with different policies parse to the same struct |
| CapabilityCodec.NormalizeIsExact | packages/capability-codec/src/index.mjs:97-143 | normalisation returns only well-formed capabilities, returns each of them unchanged, and refuses every other |
| CapabilityCodec.NormalizedFields | packages/capability-codec/src/index.mjs:97-143 | a normalised capability has the given fields, and zero for those not given |
| CapabilityCodec.EncodeCapability | packages/capability-codec/src/index.mjs:145-161 | the buffer the client fills is the wire image of the normalised input; its errors are normalisation's |
| CapabilityCodec.DecoderNamesAFault | packages/capability-codec/src/index.mjs:167-206 | whatever error decoding reports, the payload is at fault as it says, in numbers |
| CapabilityCodec.DecodeInvertsEncode | packages/capability-codec/src/index.mjs:167-206 | a payload decodes to a capability if and only if the capability is well formed and the payload is its wire image |
| CapabilityCodec.DecoderAgreesWithContract | packages/capability-codec/src/index.mjs:167-206 | client decoder and contract parser accept the same bytes and read the same fields |
| Ckb.CreationLayout | contracts/capability-type/tests/contract.rs:139-150 | the hashed preimage is the input's since, transaction hash and index and then the output index, little-endian |
| Ckb.CreationMaterialInjective | contracts/capability-type/tests/contract.rs:139-150 | the hashed preimage determines the first input and the output index |
| CapabilityType.FlagTestsAgree | contracts/capability-type/src/main.rs:181 | the contract's "not zero" test of the transferable flag is the client's "equals the flag" test |
| CapabilityType.TransitionRule | contracts/capability-type/src/main.rs:162-185 | a transition of an identified cell passes if and only if the whole payload is unchanged and the lock is unchanged or the right transferable |
| CapabilityType.RunIsOneLifecycleStep | contracts/capability-type/src/main.rs:201-222 | the script accepts a group if and only if the transaction issues, moves or retires exactly one right |
| CapabilityType.RefusalsNameABreach | contracts/capability-type/src/main.rs:28-45 | whatever error the script returns, the transaction breaks the rule that error stands for |
| Lifecycle.IssuedOnce | docs/state-machine.md:13-23 | two issues of one id in a run are the same output of the same transaction, because the creation rule hashes an input that is spent once |
| Lifecycle.FreshHash | contracts/capability-type/src/main.rs:136-141 | an accepted transaction's hash is new to the run, so its outpoints are |
| Lifecycle.HeldHolder | contracts/capability-type/src/main.rs:206-216 | after a step the holder of an id that was held is the same unspent cell or the output a 1 to 1 group moved it to |
| Lifecycle.InvStep | contracts/capability-type/src/main.rs:201-222 | any accepted transaction preserves the ledger invariant |
| Lifecycle.ReachableInv | contracts/capability-type/src/main.rs:201-222 | every reachable state satisfies the ledger invariant |
| Guarantees.Singleton | contracts/capability-type/src/main.rs:139-150 | in every reachable state at most one live cell carries a capability id, whatever issuer its script names |
| Guarantees.LiveRightsAreIdentified | contracts/capability-type/src/main.rs:125-134 | every live capability cell is well formed and its data says what its args say |
| Guarantees.IssuedAtMostOnce | docs/capability-format.md:22 | no run issues an id twice |
| Guarantees.PhaseStep | docs/state-machine.md:5-74 | a transaction moves an id only from unborn to alive to retired, one phase at a time |
| Guarantees.RetiredExactlyBySurrender | contracts/capability-type/src/main.rs:187-199 | a step retires a live id if and only if it consumes the id's cell in a surrender group |
| Guarantees.SpentRight | contracts/capability-type/src/main.rs:206-221 | a consumed right is retired or has a live successor, never both and never neither |
| Guarantees.NoRebirth | contracts/capability-type/src/main.rs:187-199 | a retired id stays retired through every continuation of the run, and a live one never becomes unborn |
| Guarantees.SpentForever | contracts/capability-type/src/main.rs:206-221 | a spent outpoint is not live in any later state |
| Guarantees.Provenance | contracts/capability-type/src/main.rs:143-160 | a live right's script and bytes are those of its one issuing output, whose transaction consumed and was signed by a lock hashing to the issuer id in those bytes |
| Guarantees.LifelongIdentity | contracts/capability-type/src/main.rs:173-184 | between any two moments of a run a right keeps its script and every byte, and a non-transferable right keeps its lock |
| Guarantees.OwnerAuthorizesChange | contracts/capability-type/src/main.rs:179-191 | a right moves or ends only in a transaction its current owner's lock signed, and gets a new lock only if transferable |
| Guarantees.OwnerSilenceKeepsRight | contracts/capability-type/src/main.rs:187-191 | through any continuation without the owner's signature the cell stays live and unchanged |
| Builders.DeriveCapabilityId | packages/ckb-client/src/live.ts:69-79 | the buffer assembled from input and index hashes to the contract's creation id, the hash of the input's bytes and then the index's; indices from 2 to the 53rd on and negative ones are refused |
| Builders.AssertNoCapabilityFundingInputs | packages/ckb-client/src/live.ts:97-104 | the loop accepts exactly the inputs none of which is known to be a capability cell |
| Builders.BuildIssueCapabilityTx | packages/ckb-client/src/live.ts:115-195 | the imperative builder returns or throws exactly what its specification says, for every wallet |
| Builders.BuildTransferCapabilityTx | packages/ckb-client/src/live.ts:197-272 | the same for transfer |
| Builders.BuildSurrenderCapabilityTx | packages/ckb-client/src/live.ts:279-328 | the same for surrender |
| BuilderGuarantees.IssuedAsAsked | packages/ckb-client/src/live.ts:115-195 | a built issue's payload decodes to the service, flags, expiry, version, subject and policy that were asked for, unexpired, with the wallet's lock as issuer; the reported recipient is the named one |
| BuilderGuarantees.IssueInTwoPhases | packages/ckb-client/src/live.ts:137-179 | a built issue is the fee completion of the funded placeholder with only the first output's script and payload replaced, and no known capability funded it |
| BuilderGuarantees.PlaceholderFits | packages/ckb-client/src/live.ts:140-176 | the placeholder the wallet funds has the recipient's lock, the deployment's script and as many bytes as what replaces it |
| BuilderGuarantees.AtomicInNumbers | packages/ckb-client/src/live.ts:124-126 | an atomically bound payload is an accepted one of 172 bytes whose byte 107 is 2 |
| BuilderExactness.IssueAcceptedExactly | packages/ckb-client/src/live.ts:140-185 | with resolved inputs, the ledger accepts a built issue if and only if each of its capability outputs is an issue by the Type Script's rules |
| BuilderExactness.IssueDoneExactly | packages/ckb-client/src/live.ts:140-185 | of any live inputs, a built issue is accepted and adds the announced right under the recipient's lock and changes no other if and only if the wallet kept the first output's lock, script and data, added plain change only, consumed no capability, and put in a cell of the issuer |
| BuilderGuarantees.IssueRefinesContract | packages/ckb-client/src/live.ts:140-185 | with plain change and a kept first output, the ledger accepts a built issue if and only if an input carries the issuer's lock, and then as one issue of the announced right |
| BuilderGuarantees.IssueConserves | packages/ckb-client/src/live.ts:161-179 | a built issue adds exactly its own right, never atomically bound, and changes no other |
| BuilderExactness.TransferAcceptedExactly | packages/ckb-client/src/live.ts:238-271 | with resolved inputs, the ledger accepts a built transfer if and only if each capability output the wallet added is an issue of another right by the Type Script's rules |
| BuilderExactness.TransferMovesExactly | packages/ckb-client/src/live.ts:238-271 | of any live inputs, a built transfer is accepted and relocates the named right to the first output and changes no other if and only if the wallet added plain change only and consumed no other capability |
| BuilderExactness.TransferDoneExactly | packages/ckb-client/src/live.ts:238-271 | a built transfer is accepted and replaces the named cell by the same cell under the recipient's lock, changing no other right, if and only if the wallet added plain change, consumed no other capability and kept the capacity |
| BuilderGuarantees.TransferRefinesContract | packages/ckb-client/src/live.ts:238-271 | with plain change, the ledger accepts every built transfer, as one move of the named right |
| BuilderGuarantees.TransferConserves | packages/ckb-client/src/live.ts:251-270 | a built transfer puts the same script and bytes under the recipient's lock and changes no other right |
| BuilderExactness.SurrenderRemovesExactly | packages/ckb-client/src/live.ts:302-327 | of any live inputs, a built surrender is accepted and removes the named right alone if and only if no other input is a capability, whether or not the draft says what it is |
| BuilderExactness.SurrenderDoneExactly | packages/ckb-client/src/live.ts:274-327 | a built surrender is accepted, removes the named right alone and returns its capacity to its owner in an ordinary cell at the first output, if and only if no other input is a capability and the wallet kept the first output |
| BuilderGuarantees.SurrenderRefinesContract | packages/ckb-client/src/live.ts:302-327 | the ledger accepts every built surrender, as the retirement of the named right, whatever the wallet appended |
| BuilderGuarantees.SurrenderConserves | packages/ckb-client/src/live.ts:316-326 | a built surrender removes exactly that right and changes no other |
| BuilderCompleteness.AcceptableExactly | packages/ckb-client/src/live.ts:117-126 | in numbers, the parameters from which an issue can be built |
| BuilderCompleteness.HonestTransferExact | packages/ckb-client/src/live.ts:203-236 | with an append-only wallet a transfer is built if and only if the owner holds a live, transferable, active, not atomically bound right and names someone else; the first output is then the same cell under the recipient's lock |
| BuilderCompleteness.HonestSurrenderExact | packages/ckb-client/src/live.ts:274-300 | with an append-only wallet a surrender is built if and only if the owner holds a live right, expired or not; the first output is then the refund |
| BuilderCompleteness.HonestIssueExact | packages/ckb-client/src/live.ts:115-185 | with an append-only wallet an issue is built if and only if its parameters are acceptable in numbers; the first output is the new right under the recipient's lock |
| BuilderGaps.CopiedTransferIsRefused | packages/ckb-client/src/live.ts:251-270 | a wallet that appends a copy of the first output passes every transfer guard, and the ledger refuses the result under any signatures |
| BuilderGaps.NamelessOutputIsRefused | packages/ckb-client/src/live.ts:251-270 | a wallet that appends a capability output without args passes every transfer guard, the moved right's own script group passes, and the ledger refuses the result under any signatures |
| BuilderGaps.ErasedIssueIsRefused | packages/ckb-client/src/live.ts:175-185 | an issue whose payload fee completion erased is built although the issuer funds it and the change is plain, and the ledger refuses it under any signatures |
| BuilderGaps.ForeignFundedIssueIsRefused | packages/ckb-client/src/live.ts:159-185 | an issue funded only from a cell of another lock is built, and the ledger refuses it under any signatures |
| BuilderGaps.RelockedIssueIsAccepted | packages/ckb-client/src/live.ts:173-195 | with a wallet that puts another lock on the first output the ledger accepts the issue, the right is another owner's, and the builder reports the recipient's lock hash |
| BuilderGaps.RelockedRefundIsAccepted | packages/ckb-client/src/live.ts:302-327 | with a wallet that puts another lock on the refund the ledger accepts the surrender, and the only output is another owner's |
| BuilderGaps.ResizedTransferIsAccepted | packages/ckb-client/src/live.ts:238-271 | with a wallet that changes the first output's capacity the ledger accepts the transfer |
| BuilderGaps.UnresolvedInputRetiresASecondRight | packages/ckb-client/src/live.ts:302-327 | with a wallet that adds an unresolved input the ledger accepts the surrender, and a second right is retired with it |
| LedgerCensus.CensusStep | contracts/capability-type/src/main.rs:201-222 | any accepted transaction changes the number of live rights by its issues less its retirements |
| LedgerCensus.CountedAsAccepted | contracts/capability-type/src/main.rs:206-221 | what the census counts are the outputs the Type Script accepted as issues and the inputs it accepted as surrenders |
| LedgerCensus.RightsAreIssuedLessRetired | docs/state-machine.md:5-74 | in every reachable state the live rights number the issues of the run less its retirements |
| ClientRefusals.IssueNamesAFault | packages/ckb-client/src/live.ts:115-185 | whatever error a refused issue reports, the parameters or the wallet's completions are at fault as it says |
| ClientRefusals.TransferNamesAFault | packages/ckb-client/src/live.ts:203-270 | whatever error a refused transfer reports, the recipient, the cell or the wallet's completion is at fault as it says |
| ClientRefusals.SurrenderNamesAFault | packages/ckb-client/src/live.ts:284-326 | the same for surrender |
| ClientRefusals.PolicyNamesAFault | packages/ckb-client/src/live.ts:424-436 | whatever error the policy check reports, the capability fails the policy as it says |
| BuilderRuns.PerformedEffect | packages/ckb-client/src/live.ts:251-257 | each builder step changes the set of live rights by exactly what it announces |
| BuilderRuns.Census | packages/ckb-client/src/live.ts:97-104 | a builder run leaves as many live rights as it issued minus those it surrendered |
| BuilderRuns.BuildersNeverHoldAtomic | packages/ckb-client/src/live.ts:124-126 | no state of a builder run holds an atomically bound right |
| BuilderRuns.ContractAdmitsAtomic | contracts/capability-type/tests/contract.rs:617-649 | from any state the owner of an ordinary cell can issue an atomically bound right the contract accepts |
| BuilderRuns.AtomicRightIsReachable | docs/CAPABILITY_V2.md:20 | such a right is reachable by a one-transaction run, so the builders' invariant is not the contract's |
| LiveVerifier.DiscoverOwnedCapabilities | packages/ckb-client/src/live.ts:349-383 | the loop and sort return a sorted permutation of the listed cells the parsed query selects, or the query's error |
| LiveVerifier.FirstDifferenceDecides | packages/ckb-client/src/live.ts:380 | ids are ordered by their first differing byte |
| LiveVerifier.ComparePreorder | packages/ckb-client/src/live.ts:376-381 | the comparator is total and transitive, and ties only on equal ids |
| AuthorityGuarantees.ReadsExactlyIdentified | packages/ckb-client/src/live.ts:414-423 | the client reads a capability from a cell if and only if the contract would accept the cell as an instance of its script |
| AuthorityGuarantees.AuthorizedExactly | packages/ckb-client/src/live.ts:400-444 | in the contract's terms and in numbers: verification succeeds if and only if the requester's address is that of the owner of a live, genuine, unexpired right of the expected service from a listed issuer, transferable unless waived; it returns that cell and its capability |
| AuthorityGuarantees.SelectsExactly | packages/ckb-client/src/live.ts:349-373 | in the same terms: discovery selects the genuine rights of the listed services and issuers, where any are listed, and transferable ones if asked |
| AuthorityGuarantees.QueryAcceptedExactly | packages/ckb-client/src/live.ts:106-113 | a query is accepted if and only if every listed service id is 32 bytes and every listed issuer id 32 bytes or blank |
| AuthorityGuarantees.LiveRightsAlwaysRead | packages/ckb-client/src/live.ts:420-423 | on reachable ledgers the decoding and identity refusals are never taken |
| AuthorityGuarantees.RefusalsTellTheLedger | packages/ckb-client/src/live.ts:411-441 | on reachable ledgers, for any address, each refusal means what it says: gone, not a capability, policy, no valid address, or another owner's |
| AuthorityGuarantees.ExclusiveAuthority | packages/ckb-client/src/live.ts:411-441 | in a reachable state one address at one outpoint passes verification for an id, whatever the policies and clocks |
| AuthorityGuarantees.SpentNeverAuthorizes | packages/ckb-client/src/live.ts:411-412 | a spent outpoint never passes again, for anyone, in any continuation |
| AuthorityGuarantees.RetiredNeverAuthorizes | packages/ckb-client/src/live.ts:411-443 | a retired id never passes again at any outpoint |
| AuthorityGuarantees.ExpiredNeverAuthorizes | packages/ckb-client/src/live.ts:434-436 | once the clock reaches a right's expiry its id never passes again, however the right moves |
| AuthorityGuarantees.AuthorityMovesWithTheCell | packages/ckb-client/src/live.ts:400-444 | when a right moves, every policy and time that accepted the old owner at the old outpoint accepts the new owner at the new one, and accepts nobody else at either |
| AuthorityGuarantees.BuiltTransferMovesAuthority | packages/ckb-client/src/live.ts:259-271 | a built transfer from A to B hands A's authorization to B for all providers at once and leaves A none |
| AuthorityGuarantees.DiscoveryIsExact | packages/ckb-client/src/live.ts:358-382 | discovery returns exactly the owner's live cells its filter selects, each once, active ones first, then by expiry, then by id |
| AuthorityGuarantees.DiscoveryNeverTies | packages/ckb-client/src/live.ts:376-381 | on reachable ledgers the comparator is strict on what discovery finds |
| AuthorityGuarantees.DiscoveryIsDeterministic | packages/ckb-client/src/live.ts:358-382 | on reachable ledgers the result does not depend on the indexer's order or the sort |
| AuthorityGuarantees.DiscoveryAgreesWithVerification | packages/ckb-client/src/live.ts:349-373 | a cell is authorized for its owner if and only if the owner discovers it active, an issuer is configured, and the transferable requirement holds as verification defaults it |
| ServiceCatalog.TwoStagesExact | apps/web/src/App.tsx:561-574 | a capability survives both stages if and only if some service accepts it and the prefilter's issuer set, if any, has its issuer |
| ServiceCatalog.LosslessExactly | apps/web/src/App.tsx:565-574 | prefiltering loses nothing if and only if every service names an issuer, or there is no issuer set, or the set is all issuers |
| ServiceCatalog.LostRight | apps/web/src/App.tsx:565-574 | a service without an issuer list accepts a well-formed right that a prefilter with an issuer set drops |
| ServiceCatalog.TwoStagesInNumbers | apps/web/src/App.tsx:405-414 | a capability survives both stages if and only if some service honours its service id, issuer and flag bits and the one query admits its issuer |
| ServiceCatalog.RefreshShowsExactly | apps/web/src/App.tsx:561-574 | the page shows exactly the owner's live, genuine rights that some service honours and whose issuer the query admits, in discovery order |
| ServiceCatalog.KeptAsFound | apps/web/src/App.tsx:574 | the page keeps a record as often as it was found, or not at all |
| ServiceCatalog.HonouredIsAdmitted | apps/web/src/App.tsx:565-574 | when every service lists an issuer, the query admits whatever some service honours |
| ServiceRights.ProviderAcceptsExactly | packages/service-rights/src/index.mjs:145-181 | the provider accepts exactly the unexpired rights a client honours for the published descriptor and whose subject and policy commitment fit |
| ServiceRights.ProviderNamesAFault | packages/service-rights/src/index.mjs:145-181 | whatever error the provider reports, the right fails the policy as it says, in numbers |
| ServiceRights.ShownIsUsable | apps/live-service/server.mjs:430-448 | the page hides no right of the owner that a provider accepts, and what it shows a provider accepts, but for expiry, subject and policy commitment |
| SpendProof.AwaitConsumed | scripts/ci-testnet-lifecycle.ts:89-119 | the loop returns the first of 24 polls that proves or refutes consumption, and times out if and only if none does |
| SpendProof.PollVerdicts | scripts/ci-testnet-lifecycle.ts:95-112 | a poll decides by a committed transaction only: for, if it is confirmed and names a cell no longer live, against, if it does not name the cell |
| SpendProof.ProofExact | scripts/spend-proof.mjs:12-39 | on a truthful node the proof passes if and only if the named transaction is committed, confirmed and spends the outpoint; the outpoint is then spent |
| SpendProof.ProofIsFinal | scripts/ci-testnet-lifecycle.ts:86-88 | after a passed proof the cell is never live and never authorizes again |
| SpendProof.RefutationIsFinal | scripts/ci-testnet-lifecycle.ts:108-112 | after a truthful refutation no later truthful answer is a proof, so polling on cannot help |
| SpendProof.UnknownIsNoProof | scripts/spend-proof.mjs:4-7 | a node may report a cell unknown that the next transaction makes live |
| ReferenceModel.FieldsAreBytes | packages/protocol-core/src/index.mjs:44-64 | comparing all decoded fields is comparing payloads byte for byte |
| ReferenceModel.ContractIsReferencePlusCreationId | packages/protocol-core/src/index.mjs:21-96 | the contract accepts a group if and only if the JavaScript reference does and an issue carries its creation id |
| ReferenceModel.ReferenceNamesABreach | packages/protocol-core/src/index.mjs:21-96 | whatever error the reference returns, the transaction breaks the rule that error stands for |
| InMemoryChain.Chain.Issue | packages/verifier/src/in-memory-chain.mjs:15-38 | exact new state and exact refusals; the one-live-cell-per-identity invariant holds, a gone identity stays gone, and live ids stay apart if and only if the new id was not live |
| InMemoryChain.Chain.Transfer | packages/verifier/src/in-memory-chain.mjs:52-79 | the cell dies and one successor with the same identity and data appears under the recipient, exactly when the signer controls it and the flag allows it |
| InMemoryChain.Chain.GetLiveCell | packages/verifier/src/in-memory-chain.mjs:40-50 | what is returned is sound, was issued, and is the one live cell of its identity; nothing is returned exactly where no identity lives |
| InMemoryChain.Chain.ConsumeUnsafeForTest | packages/verifier/src/in-memory-chain.mjs:81-84 | the named cell stops being live and nothing else changes |
| InMemoryChain.IssueRefusedExactly | packages/verifier/src/in-memory-chain.mjs:16-26 | an issue is refused before anything is recorded if and only if the payload is bad, the input is not its issuer's, or the identity was issued |
| InMemoryChain.NewId | packages/verifier/src/in-memory-chain.mjs:23-38 | a new live cell keeps live ids apart if and only if no live cell carries its id |
| InMemoryChain.TwoIssuersOneId | packages/verifier/src/in-memory-chain.mjs:23-27 | the simulator can hold two live rights with one capability id |
| AtomicAmount.TextIsExact | apps/web/src/App.tsx:274-284 | what is shown for a digit string is a whole part in the locale's writing and a fraction without trailing zeros that add up to the raw amount; other text is shown as it is |
| AtomicAmount.NoValueIsZero | apps/web/src/App.tsx:275 | a missing value is shown as zero, whatever the decimals |
| AtomicAmount.FaithfulExactly | apps/web/src/App.tsx:274-284 | digit strings are shown alike if and only if they are the same amount, exactly under the locales that write numbers apart and none as another with a fraction |
| AtomicAmount.DotlessIsReadable | apps/web/src/App.tsx:282-283 | a locale that writes different numbers differently and without dots is such a locale |
| AtomicAmount.DottedThousandsLookAlike | apps/web/src/App.tsx:282-283 | a locale that writes 1234 as 1.234 is not: two different amounts are shown alike |

## Left out

- Blake2b, molecule serialization of whole transactions, lock-script execution and signatures: arbitrary functions and a set of accepting locks.
- The Type ID rule lives in ckb-std, which is not part of this model; it is taken as the documentation and the tests state it.
- Script groups are formed by equality of Type Scripts; the chain forms them by script hash.
- Other Type Scripts, capacity rules, cell deps and witnesses: the ledger accepts more than CKB does, which only strengthens statements about all runs. Block rewards make cells without live inputs; reward cells are covered by the arbitrary genesis.
- Confirmations and reorganizations: a run is a final history.
- Capacity of a new capability output: the library computes it; the draft starts at zero.
- `validateDeployment`: its checks hold of every typed deployment value.
- Hex text, upper and lower case, and address parsing: identifiers are bytes, and an address is blank, malformed or a script.
- `findCurrentOwner` and `sendAndWait`: a map lookup and network calls.
- The simulator's `findByOwner` and its timestamps.
- Amounts given decimals that are no whole number, and how a locale groups digits: any function on whole numbers stands for it.
- The sort of discovered cells is an insertion sort here and a library sort in the source; `DiscoveryIsDeterministic` shows that on reachable ledgers the choice cannot be seen.
- The polling delay and the JSON shape of node answers in `awaitConsumed`.
- Creating a service policy from its parameters: a `ServicePolicy` is what creation returns, which lists an entitlement and an issuer; delegation policies.
- Rendering, payment, delegation, facilitator, gateway and deployment code.
