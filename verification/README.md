# Fusion+ swaps between Ethereum and Aptos: a verified model

This project models the logic that decides who gets paid in a gasless cross-chain swap, and proves what that logic
guarantees. It is written in Dafny 4.11; verify it with `dafny verify dfyconfig.toml`.

A user sells on one chain and buys on the other. Resolvers lock the bought asset in a *destination* escrow. The user
answers with a *source* escrow under the same hashlock. The user then gives the secret away, and both escrows are
claimed with it. An order may be split among resolvers as *partial fills*, each with its own secret, and the secrets are
committed to by a Merkle root. Users pay no gas: they sign messages that carry a nonce, and resolvers submit them.

## How the files are organised

| files | subject |
|---|---|
| `PowersOfTwo`, `MerkleTree`, `MerkleVerifier`, `MerkleBinding`, `MerkleAcceptance`, `MerkleKeccak` | the Merkle tree over the secret hashes, its proofs, the contract's proof check, what the root commits to and everything the check accepts, for the free hash and for keccak256 over words |
| `PartialFillSecrets`, `FillAmounts` | generating secrets and thresholds, choosing a secret, rounding of partial amounts |
| `Ledger`, `GaslessEscrow`, `GaslessEscrowRuns`, `CallOutcomes`, `PartialFillOrders`, `FillRuns`, `NonceProtocol`, `Authorisation`, `GeneratedOrders`, `EscrowContract` | the Ethereum escrow contract: its calls, when each is accepted and what it reports otherwise, what every sequence of calls keeps, orders filled in several parts and under generated secrets, and the contract as an object over its history |
| `AtomicSwap`, `SwapOnContract` | the two-chain swap as a game against time, and its link to the contract |
| `FillList`, `FillHistory`, `SwapSession`, `SessionSteps`, `SigningRuns`, `BudgetRuns`, `WalletRuns`, `TimelockRuns`, `RevealRuns`, `CompletionRuns`, `MessageRuns`, `GaslessRuns`, `SwapPage` | the swap page's asynchronous event handlers under every interleaving, and the page as an object over its history |
| `TextEncoding`, `SignedMessages`, `GaslessSubmission` | hexadecimal, decimal and colon-separated encodings of signed messages, and a gasless escrow from the page over the resolver to the contract |
| `DutchAuction`, `PriceService` | the stepped auction rate and the thirty-second price cache |
| `Bytes`, `Options`, `Sums` | byte strings, optional values and finite sums |

## What the proofs found

Where the code and its comments disagree, the model follows the code. Each item names the lemmas that state it.

- **Merkle proofs.** The generator builds the tree of RFC 6962 (sections 2.1 and 2.1.1, without the prefixes) and skips
  levels where a node is promoted. A verifier that knows the leaf count accepts the generated proof and no other of its
  length (`PathBinding`). The contract's check halves the index once per proof element and knows nothing of promotion, nor
  can it tell a secret's hash from an inner node. What it accepts is exactly every node of every level, with the siblings
  from there up, at the indices that end in the turns from there up (`AcceptedFillsExactly`, `AcceptedFillsExactlyWords`).
- **Inner nodes.** So a fill's hashlock need not be the hash of a secret: the root with an empty proof is accepted at every
  index (`RootAcceptedEverywhere`, `RootFillsEveryIndex`, `FilledByRoot`). It is the hash of the secret of its own index
  exactly when the proof is as long as the tree is deep (`OwnSecretIffFullLength`, `FillUnderOwnSecretIff`), and of some
  secret exactly when it is as long as a leaf's at that index (`AcceptedIsSecretIff`, `FillUnderSomeSecretIff`). The contract
  does not look at the length. Only the order's secrets withdraw a fill, so one under an inner node can only be refunded
  (`OnlySecretsWithdrawFills`).
- **Promoted leaves.** A generated proof is accepted at its own index exactly when its leaf is never promoted
  (`AcceptedAtOwnIndexIff`). The first `parts` fill indices all work exactly when `parts` is a difference of two powers of two
  (`UsableIndicesAcceptedIff`). No secret works at another's index exactly when `parts + 1` is a power of two
  (`OnlyOwnSecretsIff`).
- **Timelocks.** The contract's `withdraw` has no timelock check; only `refund` has one. So where both contracts hash the
  secret, a resolver's delays must fit strictly between the two timelocks (`ResolverSafeIff`). The client library leaves 3600
  seconds (`LibrarySwapSafeIff`). The swap page copies the destination's timelock to the source, which leaves none: a resolver
  is then safe exactly by claiming a source on Aptos, without the secret, before the timelock (`EqualTimelocksSafeIff`).
- **Aptos secrets.** The Aptos module accepts any 32 bytes as a secret. On the source this lets the resolver be paid without
  the secret (`UserCanLoseUnchecked`). On the destination it lets the user be paid without publishing the secret, and the
  resolver, however prompt, cannot claim an Ethereum source (`ResolverCanLoseUnchecked`). So the client library's swap is
  never safe for the resolver when the destination is on Aptos (`LibrarySwapSafeIff`), and no swap between the two chains is
  all or nothing (`BothOrNeitherIff`, `CrossChainNeverAllOrNothing`).
- **Signed order terms.** A fill of a signed order ignores the signed token, beneficiary, timelock and deadline: fills are in
  WETH, for whoever calls, for one hour, at any time (`FillTermsIff`, `FilledRegardless`, `AlwaysHonouredIff`). The id signed
  in an escrow message binds nobody either, because the same message is accepted as a fill under any free fill id
  (`SubmitterChoosesId`).
- **Wallet fallback.** When the wallet adapter refuses, the page has Pontem sign the whole order, whatever the fill, throws
  the answer away and asks the next wallet. What is submitted never exceeds the order (`NeverSubmitsMoreThanOrder`). What is
  signed stays within it exactly under the condition of `SignsWithinIff`, and one destination escrow can have two signatures
  exactly when Pontem and another wallet are present (`OneSignatureIff`).
- **Shared intent.** The page keeps one timelock for all signings in progress. Every interleaving signs and submits the
  right one exactly when all destination escrows have the same timelock (`OwnTimelocksIff`).
- **Repeated announcements.** In the APT to WETH direction a destination escrow is answered once, however often it is
  announced. In the other direction the page keeps no record: every announcement is answered by a message of its own
  (`QuietSessionAnswersEachDelivery`), and of two messages signed on one nonce at most one is accepted
  (`SameReadingOneAccepted`).
- **Source ids.** Full fills share the order's source escrow id; only parts have their own (`SameSourceIdIff`).
- **Zero percent.** A partial fill of zero percent is treated as a full fill (`AmountWithinShareIff`).
- **Dust.** Fills that total 100 percent move the whole order exactly when no single fill is rounded (`FillsCoverOrderIff`).
- **Completed fills.** A completion marks every entry with its secret index, so it is unambiguous exactly when a threshold
  separates successive totals (`UnambiguousIffSeparated`).
- **Colons.** A permit message stands for one permit exactly when no text field holds a colon (`OnlyPermitIff`).

## Modelling decisions

- keccak256 is an arbitrary function on byte strings. Collisions are never assumed away: binding results for an arbitrary
  pair hash end in "equal, or here is a collision among the hashed pairs". The exact results about acceptance are proved for
  the free pair hash (a pair constructor) and carried over to keccak256 over 32-byte words, where they end in "or two
  different strings that were hashed have the same hash".
- Signatures are ideal: a signature names its signer and the message.
- Percentages, thresholds, rates and times are exact reals; amounts are unbounded integers with JavaScript's truncating
  BigInt division written out.
- Ether and ERC-20 balances are one ledger. A token's verdict on the allowance is a parameter of each call.
- Random bytes, the clock, prices and the server's answers are parameters.
- The handlers of the swap page are cut at each `await` and timer into steps that run to completion. Any step may be
  delayed, fail, or never happen, and events may be repeated and reordered.

## Model

| member | source | states |
|---|---|---|
| `PowersOfTwo.DepthIsLogarithm` | frontend/src/utils/partialFillSecrets.ts:50-64 | the number of levels above n leaves is log2(n) rounded up |
| `MerkleTree.RootOfParents` | frontend/src/utils/partialFillSecrets.ts:51-61 | pairing a level and promoting its odd last node leaves the RFC 6962 tree head unchanged |
| `MerkleTree.LevelsEndInRoot` | frontend/src/utils/partialFillSecrets.ts:46-66 | the bottom-up levels end in one node, which is the recursive tree head |
| `MerkleTree.NextLevel` | frontend/src/utils/partialFillSecrets.ts:51-61 | one pass of the loop computes exactly the parents, and hashes as many pairs as the level shrinks |
| `MerkleTree.BuildTree` | frontend/src/utils/partialFillSecrets.ts:46-66 | the loop ends with the RFC 6962 tree head, after log2(n) rounded up levels and exactly n - 1 pair hashes |
| `MerkleTree.AuditPathStep` | frontend/src/utils/partialFillSecrets.ts:75-85 | the recursive audit path is the sibling at this level followed by the path one level up |
| `MerkleTree.SiblingPathIsAuditPath` | frontend/src/utils/partialFillSecrets.ts:69-88 | the siblings met on the way up are the audit path of section 2.1.1 of RFC 6962, in its order |
| `MerkleTree.ProofForLeaf` | frontend/src/utils/partialFillSecrets.ts:69-88 | the proof loop returns the recursive audit path, no longer than the tree is deep |
| `MerkleTree.ProofLength` | frontend/src/utils/partialFillSecrets.ts:75-85 | every proof is at most log2(n) rounded up long, and the first leaf's has that length |
| `MerkleVerifier.GeneratedProofLeadsToRoot` | frontend/src/utils/partialFillSecrets.ts:69-88 | a verifier that knows the leaf count folds every generated proof to the stored root, promoted levels included |
| `MerkleVerifier.VerifyMerkleProof` | contracts/ethereum/contracts/FusionPlusGaslessEscrowV2.sol:229-252 | the contract's loop accepts exactly when climbing the proof from the leaf gives the root |
| `MerkleVerifier.AcceptedAtItsTurns` | contracts/ethereum/contracts/FusionPlusGaslessEscrowV2.sol:229-252 | for every hash, the contract accepts each generated proof at the index spelled by the leaf's left and right turns |
| `MerkleVerifier.TurnsBelowIndex` | contracts/ethereum/contracts/FusionPlusGaslessEscrowV2.sol:237-249 | that index is the leaf's own exactly when the leaf is never promoted, and a smaller one otherwise |
| `MerkleVerifier.ProofHasPathLength` | frontend/src/utils/partialFillSecrets.ts:75-85 | a generated proof has full length exactly when its leaf is never promoted |
| `MerkleVerifier.LastLeafNeverPromotedIff` | frontend/src/utils/partialFillSecrets.ts:52-59 | the last leaf escapes promotion exactly when its index is all ones in binary |
| `MerkleVerifier.OthersNeverPromotedIff` | frontend/src/utils/partialFillSecrets.ts:52-59 | all other leaves escape promotion exactly when the last index is ones followed by zeros |
| `MerkleBinding.ProofBinding` | contracts/ethereum/contracts/FusionPlusGaslessEscrowV2.sol:229-252 | two accepted openings at one index and proof length are equal, or two hashed pairs collide |
| `MerkleBinding.RootBinding` | frontend/src/utils/partialFillSecrets.ts:46-66 | two leaf sequences of one length with one root are equal, or two hashed pairs collide |
| `MerkleBinding.PathBinding` | frontend/src/utils/partialFillSecrets.ts:69-88 | for a given index and leaf count, promoted leaves included, only the leaf itself and its generated proof fold to the root among proofs of that length, or two hashed pairs collide |
| `MerkleBinding.AcceptedExactlyAtTurns` | contracts/ethereum/contracts/FusionPlusGaslessEscrowV2.sol:229-252 | under the free hash a generated proof is accepted at exactly the indices whose low bits are the leaf's turns |
| `MerkleAcceptance.NodeAccepted` | contracts/ethereum/contracts/FusionPlusGaslessEscrowV2.sol:229-252 | for every hash, every node of every level is accepted, with its siblings, at the indices that end in its turns |
| `MerkleAcceptance.AcceptedFillsExactly` | contracts/ethereum/contracts/FusionPlusGaslessEscrowV2.sol:185-193 | under the free hash, at every index and for every hashlock and proof: accepted exactly when the hashlock is some node of some level, the proof its siblings from there up, and the index ends in its turns |
| `MerkleAcceptance.RootAcceptedEverywhere` | contracts/ethereum/contracts/FusionPlusGaslessEscrowV2.sol:229-252 | the root with an empty proof is accepted at every index, and with two secrets it is none's hash |
| `MerkleAcceptance.AcceptedIsSecretIff` | contracts/ethereum/contracts/FusionPlusGaslessEscrowV2.sol:189-193 | an accepted hashlock is a secret's hash exactly when the proof is as long as that of a leaf whose turns the index ends in |
| `MerkleAcceptance.OwnSecretIffFullLength` | contracts/ethereum/contracts/FusionPlusGaslessEscrowV2.sol:189-193 | in every tree, an accepted hashlock is the hash of its index's own secret exactly when the proof is as long as the tree is deep |
| `MerkleBinding.AcceptedAtOwnIndexIff` | contracts/ethereum/contracts/FusionPlusGaslessEscrowV2.sol:190-193 | leaf i's proof is accepted at fill index i exactly when leaf i is never promoted |
| `MerkleBinding.UsableIndicesAcceptedIff` | contracts/ethereum/contracts/FusionPlusGaslessEscrowV2.sol:185-193 | with `parts` fills on the generator's `parts + 1` secrets, all fill indices work exactly when `parts` is 2^a - 2^b |
| `MerkleBinding.AllSecretsAcceptedIff` | contracts/ethereum/contracts/FusionPlusGaslessEscrowV2.sol:229-252 | every secret, the overflow one included, works at its own index exactly when the number of secrets is a power of two |
| `MerkleBinding.OverflowSecretElsewhere` | contracts/ethereum/contracts/FusionPlusGaslessEscrowV2.sol:229-252 | otherwise the overflow secret is accepted at a fill index that belongs to another secret |
| `MerkleAcceptance.OnlyOwnSecretsIff` | contracts/ethereum/contracts/FusionPlusGaslessEscrowV2.sol:185-193 | none of the order's secrets can be used at another's fill index, by any proof, exactly when parts + 1 is a power of two |
| `MerkleAcceptance.FillCarriesLeafOfItsTurns` | contracts/ethereum/contracts/FusionPlusGaslessEscrowV2.sol:189-193 | for every pair hash and every index, promoted ones included, a proof as long as that of a leaf whose turns the index ends in carries that leaf and is its proof, or two hashed pairs collide |
| `MerkleAcceptance.FullLengthFillUsesOwnLeaf` | contracts/ethereum/contracts/FusionPlusGaslessEscrowV2.sol:189-193 | so a full-length proof at a never-promoted index carries that index's own leaf, or two hashed pairs collide |
| `MerkleKeccak.FillCarriesLeafWords` | contracts/ethereum/contracts/FusionPlusGaslessEscrowV2.sol:229-252 | the same for keccak256 over words: that secret's hash and its generated proof, or two different hashed strings with one hash |
| `MerkleKeccak.OwnSecretIffFullLengthWords` | contracts/ethereum/contracts/FusionPlusGaslessEscrowV2.sol:229-252 | for keccak256 over words, in every tree: the own secret's hash exactly at full length, or two different hashed strings with one hash |
| `MerkleKeccak.AcceptedIsSecretIffWords` | contracts/ethereum/contracts/FusionPlusGaslessEscrowV2.sol:229-252 | a secret's hash exactly at a leaf's length, or two different hashed strings with one hash |
| `MerkleKeccak.AcceptedFillsExactlyWords` | contracts/ethereum/contracts/FusionPlusGaslessEscrowV2.sol:229-252 | all nodes of the generated tree are accepted, and nothing else, or two different hashed strings with one hash |
| `MerkleKeccak.RootFillsEveryIndex` | contracts/ethereum/contracts/FusionPlusGaslessEscrowV2.sol:229-252 | the generated root with an empty proof is accepted at every index, and is no secret's hash, or two different hashed strings with one hash |
| `MerkleKeccak.OpenedOnlyBySecrets` | contracts/ethereum/contracts/FusionPlusGaslessEscrowV2.sol:363-368 | a word that opens an accepted hashlock is one of the secrets, or two different hashed strings with one hash |
| `PartialFillSecrets.ChainSecrets` | frontend/src/utils/partialFillSecrets.ts:24-34 | N + 1 secrets, each after the first the hash of its predecessor and a fresh nonce; a negative N gives the root secret alone |
| `PartialFillSecrets.FillThresholds` | frontend/src/utils/partialFillSecrets.ts:36-40 | the N thresholds are the upper ends of N equal parts |
| `PartialFillSecrets.ThresholdsIncrease` | frontend/src/utils/partialFillSecrets.ts:36-40 | thresholds cut 100 percent into equal parts, increase strictly and end at exactly 100 |
| `PartialFillSecrets.GenerateSecrets` | frontend/src/utils/partialFillSecrets.ts:17-100 | secrets, thresholds, the tree head over the secret hashes and one audit path per secret, all of the promised lengths |
| `PartialFillSecrets.ProofsForAll` | frontend/src/utils/partialFillSecrets.ts:69-88 | one audit path for every leaf |
| `PartialFillSecrets.GetSecretIndex` | frontend/src/utils/partialFillSecrets.ts:108-119 | the first threshold not below the cumulative fill, or one past the end; on increasing thresholds, the number of thresholds passed |
| `PartialFillSecrets.PassedCountIs` | frontend/src/utils/partialFillSecrets.ts:108-119 | the count of passed thresholds is n exactly when the cumulative fill lies between threshold n - 1 and threshold n |
| `PartialFillSecrets.SharedSecretIff` | frontend/src/utils/partialFillSecrets.ts:108-119 | the index is monotone, and two totals share a secret exactly when no threshold lies between them |
| `PartialFillSecrets.OverflowSecretIff` | frontend/src/utils/partialFillSecrets.ts:108-119 | the overflow secret is chosen exactly above 100 percent |
| `PartialFillSecrets.FreshSecretsIff` | frontend/src/utils/partialFillSecrets.ts:108-119 | successive fills use pairwise different secrets exactly when a threshold separates each total from the next |
| `FillAmounts.FillsNeverExceedOrder` | frontend/src/utils/partialFillSecrets.ts:127-134 | any number of fills of at most 100 percent together never take more than the order |
| `FillAmounts.ShortfallBound` | frontend/src/utils/partialFillSecrets.ts:127-134 | k fills of exactly 100 percent leave less than k(total/10000 + 1) behind |
| `FillAmounts.ShortfallInBasisPoints` | frontend/src/utils/partialFillSecrets.ts:127-134 | with percentages in whole basis points they leave less than k units behind |
| `FillAmounts.FillsCoverOrderIff` | frontend/src/utils/partialFillSecrets.ts:127-134 | they move the whole order exactly when no single fill loses anything to either rounding |
| `FillAmounts.ThirdsLeaveDust` | frontend/src/utils/partialFillSecrets.ts:127-134 | three thirds of 100000000 units move 99990000 |
| `Ledger.Move` | contracts/ethereum/contracts/FusionPlusGaslessEscrowV2.sol:332-338 | a transfer changes exactly two holdings of one asset, by opposite amounts |
| `EscrowContract.Contract.constructor` | contracts/ethereum/contracts/FusionPlusGaslessEscrowV2.sol:90 | a deployed contract is valid with an empty history |
| `EscrowContract.Contract.GetNonce` | contracts/ethereum/contracts/FusionPlusGaslessEscrowV2.sol:446-448 | the number of this user's messages accepted in the whole history |
| `EscrowContract.Contract.VerifySignatureAndUpdateNonce` | contracts/ethereum/contracts/FusionPlusGaslessEscrowV2.sol:507-535 | succeeds exactly on the depositor's signature over these parameters and the current nonce, and only then advances it |
| `EscrowContract.Contract.CreateEscrowWithMetaTx` | contracts/ethereum/contracts/FusionPlusGaslessEscrowV2.sol:257-305 | after any history, succeeds exactly when amount, times, id, deposit and token are in order and the depositor signed these parameters with the number of messages they had accepted so far; otherwise reports the first demand not met and changes nothing; the contract stays solvent, and the new escrow carries the signed terms |
| `EscrowContract.Contract.CreateGaslessPartialFillEscrow` | contracts/ethereum/contracts/FusionPlusGaslessEscrowV2.sol:461-502 | likewise, under the fill id the caller chose |
| `EscrowContract.Contract.CreateOrder` | contracts/ethereum/contracts/FusionPlusGaslessEscrowV2.sol:109-166 | after any history, succeeds exactly when amount, times and id are in order and the depositor signed the order with the number of messages they had accepted so far; the new order is the signed one, with nothing filled |
| `EscrowContract.Contract.CreatePartialFill` | contracts/ethereum/contracts/FusionPlusGaslessEscrowV2.sol:176-223 | after any history, succeeds exactly when the order exists, the index is free, the amount fits in what is left, the proof climbs to the root and both sides can pay; otherwise reports the first demand not met; all fills of the order add up to its recorded amount within the signed one, and the contract stays solvent |
| `EscrowContract.Contract.WithdrawEscrow` | contracts/ethereum/contracts/FusionPlusGaslessEscrowV2.sol:363-381 | after any history, succeeds exactly on an open escrow with the right secret, pays it in full, and that is its only payout ever |
| `EscrowContract.Contract.RefundEscrow` | contracts/ethereum/contracts/FusionPlusGaslessEscrowV2.sol:383-401 | after any history, succeeds exactly on an open escrow past its timelock, pays it back in full, and that is its only payout ever |
| `EscrowContract.WithdrawnIff` | contracts/ethereum/contracts/FusionPlusGaslessEscrowV2.sol:363-381 | in every run a withdrawal is accepted exactly on an open escrow with the right secret: the transfers never fail |
| `EscrowContract.RefundedIff` | contracts/ethereum/contracts/FusionPlusGaslessEscrowV2.sol:383-401 | in every run a refund is accepted exactly on an open escrow past its timelock |
| `CallOutcomes.ReportsFirstUnmet` | contracts/ethereum/contracts/FusionPlusGaslessEscrowV2.sol:109-401 | every call, in every state, reverts with the error of the first unmet demand of a written list, and goes through if there is none |
| `CallOutcomes.AcceptedIff` | contracts/ethereum/contracts/FusionPlusGaslessEscrowV2.sol:109-401 | every call is accepted, in every state, exactly when all demands of that list are met |
| `CallOutcomes.CreationAcceptedIff` | contracts/ethereum/contracts/FusionPlusGaslessEscrowV2.sol:257-305 | a signed creation is accepted exactly when the amount is positive, now is before the timelock and not past the deadline, the id is free, the signature is the depositor's on the current nonce, the caller can pay the deposit, and the depositor holds and allows the amount of a token |
| `CallOutcomes.OrderAcceptedIff` | contracts/ethereum/contracts/FusionPlusGaslessEscrowV2.sol:109-166 | the same for a signed order |
| `CallOutcomes.FillAcceptedIff` | contracts/ethereum/contracts/FusionPlusGaslessEscrowV2.sol:176-223 | a fill is accepted exactly when the order exists, the index is below its number of fills and unused, the amount fits in what is left, the proof climbs to the root, the deposit is positive and can be paid, the fill id is free, and the depositor holds and allows the amount of WETH |
| `GaslessEscrowRuns.AlwaysSolvent` | contracts/ethereum/contracts/FusionPlusGaslessEscrowV2.sol:109-535 | after every sequence of calls the contract holds, asset by asset, at least the sum of all open escrows and their safety deposits |
| `GaslessEscrowRuns.OpenEscrowAlwaysPayable` | contracts/ethereum/contracts/FusionPlusGaslessEscrowV2.sol:363-381 | after every sequence of calls the right secret pays an open escrow in full and closes only that one |
| `GaslessEscrowRuns.OpenEscrowAlwaysRefundable` | contracts/ethereum/contracts/FusionPlusGaslessEscrowV2.sol:383-401 | after every sequence of calls an open escrow past its timelock can be refunded in full |
| `GaslessEscrowRuns.AssetsConserved` | contracts/ethereum/contracts/FusionPlusGaslessEscrowV2.sol:320-401 | no sequence of calls changes the total of any asset over all holders |
| `GaslessEscrowRuns.PaidAtMostOnce` | contracts/ethereum/contracts/FusionPlusGaslessEscrowV2.sol:363-401 | every escrow is paid out at most once, and it is closed exactly when it has been paid |
| `GaslessEscrowRuns.TermsNeverChange` | contracts/ethereum/contracts/FusionPlusGaslessEscrowV2.sol:340-350 | parties, asset, amount, hashlock, timelock and deposit of an escrow never change |
| `Authorisation.OrdersAuthorised` | contracts/ethereum/contracts/FusionPlusGaslessEscrowV2.sol:120-156 | after every sequence of calls each stored order is exactly what its depositor signed, with the nonce then current |
| `Authorisation.EscrowsAuthorised` | contracts/ethereum/contracts/FusionPlusGaslessEscrowV2.sol:176-361 | each escrow, open or closed, carries the terms its depositor signed in an escrow message, under the signed id or a fill id, or is a WETH fill for its caller, for one hour, of an order the depositor signed before |
| `Authorisation.FillTermsIff` | contracts/ethereum/contracts/FusionPlusGaslessEscrowV2.sol:176-223 | in every run a fill keeps the signed depositor, amount limit, index limit and root; it is in the signed token exactly if that is WETH, for the signed beneficiary exactly if that is the caller, within the signed timelock exactly if made an hour before |
| `Authorisation.FilledRegardless` | contracts/ethereum/contracts/FusionPlusGaslessEscrowV2.sol:176-223 | every storable order has a run in which any caller fills it at any later time and any index, with any hashlock and proof that lead to its root, whatever token, beneficiary, timelock and deadline were signed |
| `Authorisation.AlwaysHonouredIff` | contracts/ethereum/contracts/FusionPlusGaslessEscrowV2.sol:205-221 | of these four terms only the token is ever honoured in all runs, exactly when it is WETH |
| `Authorisation.SubmitterChoosesId` | contracts/ethereum/contracts/FusionPlusGaslessEscrowV2.sol:461-502 | a signed escrow message is accepted under its signed id exactly when it is accepted under any free fill id, with the same terms |
| `Authorisation.OnlyTheseAreDebited` | contracts/ethereum/contracts/FusionPlusGaslessEscrowV2.sol:332-378 | a call lowers nobody's balance but the new escrow's depositor's, by its amount, and the creating caller's, by the safety deposit |
| `PartialFillOrders.FillsAlwaysChecked` | contracts/ethereum/contracts/FusionPlusGaslessEscrowV2.sol:176-223 | every used index has an escrow of its own, different from every other fill's, from the order's depositor, under a hashlock with a valid proof |
| `PartialFillOrders.OrderNeverOverfilled` | contracts/ethereum/contracts/FusionPlusGaslessEscrowV2.sol:186-199 | the fills of an order add up to its recorded amount, which never exceeds what the depositor signed |
| `FillRuns.FilledInPartsIff` | contracts/ethereum/contracts/FusionPlusGaslessEscrowV2.sol:176-223 | after any run, parts of an order that are free, proved and paid for are all accepted, in whatever sequence they are submitted, exactly when together they fit in what is left; then the order records their sum and each has its own escrow, to its own resolver, for one hour |
| `GeneratedOrders.FillUnderOwnSecretIff` | contracts/ethereum/contracts/FusionPlusGaslessEscrowV2.sol:176-223 | in every run a fill of an order with a generated root is under the secret of its own index exactly when its proof is as long as the tree is deep, or two different hashed strings with one hash |
| `GeneratedOrders.FillUnderSomeSecretIff` | contracts/ethereum/contracts/FusionPlusGaslessEscrowV2.sol:176-223 | it is under one of the order's secrets exactly when its proof has the length of a leaf's at its index, or two different hashed strings with one hash |
| `GeneratedOrders.FilledByRoot` | contracts/ethereum/contracts/FusionPlusGaslessEscrowV2.sol:176-223 | a run that fills such an order at any index under the root itself |
| `GeneratedOrders.FilledBySecret` | contracts/ethereum/contracts/FusionPlusGaslessEscrowV2.sol:176-223 | a run that fills it at any never-promoted index under its own secret with the generated proof |
| `GeneratedOrders.SharedUnderOwnSecrets` | contracts/ethereum/contracts/FusionPlusGaslessEscrowV2.sol:176-223 | the same for parts under their own generated secrets and proofs at never-promoted indices |
| `GeneratedOrders.OnlySecretsWithdrawFills` | contracts/ethereum/contracts/FusionPlusGaslessEscrowV2.sol:363-381 | in every run, whatever came after the fill, a word that withdraws it is one of the order's secrets, or two different hashed strings with one hash |
| `NonceProtocol.NonceCounts` | contracts/ethereum/contracts/FusionPlusGaslessEscrowV2.sol:291-292 | a user's nonce grows by exactly the number of that user's accepted messages |
| `NonceProtocol.AcceptedIffNonce` | contracts/ethereum/contracts/FusionPlusGaslessEscrowV2.sol:507-535 | a signed call is accepted, in every state, exactly when its nonce is current and its amount, times, id, depositor and payments are in order |
| `NonceProtocol.AcceptedIffNoneBetween` | frontend/src/utils/gaslessWETHTransaction.ts:69-103 | a message whose amount, times, id, depositor and payments are in order is accepted exactly when no message of that user was accepted since its nonce was read |
| `NonceProtocol.NonceSpentOnce` | contracts/ethereum/contracts/FusionPlusGaslessEscrowV2.sol:507-535 | after a nonce is spent no message with it is ever accepted again, the same message included |
| `NonceProtocol.SameReadingOneAccepted` | frontend/src/components/SwapInterface.tsx:818-867 | of two fills signed on one nonce reading at most one is accepted |
| `AtomicSwap.ClosedStaysClosed` | contracts/aptos/sources/fusion_plus_escrow_v3.move:254-324 | a closed escrow stays as it was closed, on both chains |
| `AtomicSwap.SourceOutlivesDestination` | backend/client-sdk/src/FusionPlusClient.ts:152-171 | a destination withdrawal before its timelock leaves the source claimable through the whole margin |
| `AtomicSwap.CanClaimIff` | contracts/ethereum/contracts/FusionPlusGaslessEscrowV2.sol:363-381 | the resolver can claim an open source exactly when the secret has been given away or the source only measures it |
| `AtomicSwap.ResolverSafeIff` | contracts/ethereum/contracts/FusionPlusGaslessEscrowV2.sol:363-401 | a resolver that claims as soon as it can and refunds in time never loses, whatever others do, exactly when: a source that only measures the secret is claimed before its timelock; or the destination hashes the secret and both delays fit strictly between the timelocks |
| `AtomicSwap.ResolverCanLose` | contracts/ethereum/contracts/FusionPlusGaslessEscrowV2.sol:363-401 | too small a gap: a run, with both parties prompt, in which the user is paid on the destination and refunded on the source |
| `AtomicSwap.ResolverCanLoseSlowly` | contracts/aptos/sources/fusion_plus_escrow_v3.move:254-324 | a source that could be claimed at once but is not claimed before its timelock: the user is paid and refunded |
| `AtomicSwap.ResolverCanLoseUnchecked` | contracts/aptos/sources/fusion_plus_escrow_v3.move:268-271 | a destination that only measures the secret: the user is paid with arbitrary bytes, publishes nothing, and is refunded on the source |
| `AtomicSwap.ResolverCanComply` | contracts/ethereum/contracts/FusionPlusGaslessEscrowV2.sol:363-401 | what that policy demands of a resolver is possible in every run |
| `AtomicSwap.UserSafeIff` | contracts/aptos/sources/fusion_plus_escrow_v3.move:254-284 | the user never loses exactly when the source contract hashes the secret and the secret is given away early enough |
| `AtomicSwap.UserCanLoseUnchecked` | contracts/aptos/sources/fusion_plus_escrow_v3.move:268-271 | when only the length is checked, the resolver is paid without the secret and takes the destination back |
| `AtomicSwap.UserCanLoseLate` | contracts/ethereum/contracts/FusionPlusGaslessEscrowV2.sol:363-401 | when the secret is given away late, the resolver is paid and takes the destination back |
| `AtomicSwap.UserCanComply` | contracts/ethereum/contracts/FusionPlusGaslessEscrowV2.sol:363-381 | the user can always claim an open destination |
| `AtomicSwap.BothOrNeitherIff` | frontend/src/components/SwapInterface.tsx:181-191 | with both parties prompt, both escrows pay or both are returned in every run, exactly when both contracts hash the secret and both parties' delays fit the timelocks |
| `AtomicSwap.CrossChainNeverAllOrNothing` | contracts/aptos/sources/fusion_plus_escrow_v3.move:254-284 | between Ethereum and Aptos, in either direction, no timelocks achieve that |
| `AtomicSwap.LibrarySwapSafeIff` | backend/client-sdk/src/FusionPlusClient.ts:144-180 | with the client library's Ethereum source escrow a resolver is safe exactly if it acts within 3600 seconds in all and the destination is not on Aptos |
| `AtomicSwap.SourceRequestTerms` | backend/client-sdk/src/FusionPlusClient.ts:152-171 | the library asks for the given amount, 0.001 Ether of safety deposit, the destination's hashlock and one hour more |
| `AtomicSwap.SourceRequestsApartIff` | backend/client-sdk/src/FusionPlusClient.ts:152-154 | two requests have one source id exactly when they are for one destination escrow, or the hash collides |
| `AtomicSwap.EqualTimelocksSafeIff` | frontend/src/components/SwapInterface.tsx:571-572 | with the page's copied timelock a resolver is safe exactly if the source only measures the secret and the resolver claims it before the timelock |
| `SwapOnContract.ContractFollowsSwapRules` | contracts/ethereum/contracts/FusionPlusGaslessEscrowV2.sol:363-401 | in every reachable contract state withdraw and refund are accepted exactly when the swap model enables them, and lead to its next state |
| `SwapOnContract.CanWithdrawIff` | frontend/src/services/EscrowService.ts:84-90 | for every id, stored or not, the page's test says yes exactly when the right secret would raise this beneficiary's balance |
| `FillList.FillsOnlyGrow` | frontend/src/components/SwapInterface.tsx:1022-1064 | over every event sequence no key repeats, entries keep their place and data, and completed entries stay completed |
| `FillList.RedeliveryIgnored` | frontend/src/components/SwapInterface.tsx:1025-1035 | a created event delivered again, whatever came in between, changes nothing |
| `FillHistory.ListIsHistory` | frontend/src/components/SwapInterface.tsx:1022-1064 | the list holds exactly one entry per key created, in order of first creation, with that event's resolver, index and share, its cumulative percentage or its share where that is zero, and completed exactly when its index was completed afterwards |
| `FillHistory.ExistsIffCreated` | frontend/src/components/SwapInterface.tsx:1026-1035 | a key is found in the list exactly when an event created it |
| `FillList.ProgressOf` | frontend/src/components/SwapInterface.tsx:1166 | displayed progress is the largest cumulative percentage, at least zero |
| `FillHistory.ProgressIsLargest` | frontend/src/components/SwapInterface.tsx:1166 | after every event sequence the displayed progress is the largest percentage reached by a first creation, or zero |
| `FillList.ProgressNeverFalls` | frontend/src/components/SwapInterface.tsx:1166 | displayed progress never falls |
| `FillList.UnambiguousIffSeparated` | backend/resolver/src/services/ResolverServiceV2.ts:610 | with indices from the thresholds, no index repeats exactly when a threshold separates successive totals |
| `FillList.CompletionMarksOne` | frontend/src/components/SwapInterface.tsx:1057-1064 | then a completion turns exactly its own entry completed |
| `FillList.SharedIndexCompletesBoth` | frontend/src/components/SwapInterface.tsx:1057-1064 | two resolvers within one quarter are both marked by one completion |
| `SwapPage.Page.constructor` | frontend/src/components/SwapInterface.tsx:186-209 | a session is valid with an empty history |
| `SwapPage.Page.HandleDestinationCreated` | frontend/src/components/SwapInterface.tsx:530-540 | after any history the event waits for its handler or was answered before, and the session's guarantees hold |
| `SwapPage.Page.HandleSourceCreated` | frontend/src/components/SwapInterface.tsx:902-908 | likewise for source escrow events and the reveal |
| `SwapPage.Page.HandlePartialFillCreated` | frontend/src/components/SwapInterface.tsx:1022-1045 | after any history the list shown is the one that all delivered fill events tell, field by field, and the progress is the largest percentage they reached |
| `SwapPage.Page.HandlePartialFillCompleted` | frontend/src/components/SwapInterface.tsx:1057-1064 | likewise after a completion |
| `SwapPage.Page.ResumeTask` | frontend/src/components/SwapInterface.tsx:549-947 | each continuation keeps the page equal to what its history leads to: one submission per destination escrow, the secret once, never more than the order, every message for a delivered event with its id and exact amount, and in the WETH direction one message or waiting task for each delivery |
| `SwapPage.Page.RefuseTask` | frontend/src/components/SwapInterface.tsx:655-734 | likewise when a wallet refuses and the next one is asked |
| `SwapPage.FillsFollowEvents` | frontend/src/components/SwapInterface.tsx:1022-1064 | nothing but this order's fill events changes the list |
| `SigningRuns.OneSourceEscrowPerDestination` | frontend/src/components/SwapInterface.tsx:550-784 | in every interleaving, wallets refusing as they like, at most one transaction per destination escrow is sent, at most one of its own is signed, and at most one is signed by Pontem |
| `WalletRuns.OneSignatureIff` | frontend/src/components/SwapInterface.tsx:655-734 | at most one signature in all per destination escrow in every interleaving exactly when Pontem is absent or no wallet is asked after it |
| `WalletRuns.RefusalAsksNext` | frontend/src/components/SwapInterface.tsx:655-734 | after a refusal the first wallet present in the order adapter, Pontem, Petra, Rise is asked for the same transaction, Pontem for the whole order; nobody if none is left |
| `WalletRuns.PontemAskedInVain` | frontend/src/components/SwapInterface.tsx:661-704 | the same after Pontem has signed |
| `BudgetRuns.NeverSubmitsMoreThanOrder` | frontend/src/components/SwapInterface.tsx:580-599 | with percentages fixed per escrow and at most 100 in all, everything ever submitted is at most the order, and so is everything signed of what the page builds |
| `WalletRuns.SignsWithinIff` | frontend/src/components/SwapInterface.tsx:661-704 | everything signed, Pontem's answers included, stays within the order in every interleaving exactly when Pontem is absent, the order is empty, or at most one escrow is planned and no other wallet has a share above zero to sign beside Pontem |
| `WalletRuns.PontemSignsTwice` | frontend/src/components/SwapInterface.tsx:661-704 | two planned fills: a run in which Pontem signs the whole order twice |
| `WalletRuns.PontemSignsBeside` | frontend/src/components/SwapInterface.tsx:655-734 | one planned fill and another wallet: a run in which the whole order and the share are signed |
| `BudgetRuns.AmountWithinShareIff` | frontend/src/components/SwapInterface.tsx:583-588 | one event takes at most its share exactly when it is a partial fill above zero percent or asks for everything |
| `TimelockRuns.RaceLosesTimelock` | frontend/src/components/SwapInterface.tsx:571-613 | two events accepted before the first is built: the first is signed with the second's timelock |
| `TimelockRuns.OwnTimelocksIff` | frontend/src/components/SwapInterface.tsx:571-763 | every interleaving signs each source escrow, Pontem's included, and submits it with its own timelock exactly when the destination timelocks agree |
| `RevealRuns.SecretRevealedAtMostOnce` | frontend/src/components/SwapInterface.tsx:910-947 | in every interleaving the secret is sent at most once |
| `RevealRuns.RevealOnlyAfterSource` | frontend/src/components/SwapInterface.tsx:902-940 | it is sent only after a source escrow event of this order |
| `RevealRuns.RevealOnlyAfterBoth` | frontend/src/components/SwapInterface.tsx:870-940 | if the engine announces only escrows this client signed, a destination event came first and a source event second |
| `CompletionRuns.QuietSessionAnswersExactly` | frontend/src/components/SwapInterface.tsx:550-784 | once nothing is waiting, nothing failed and no signing ran out of wallets, a destination escrow has exactly one transaction sent for it if any event announced it, and none if not |
| `CompletionRuns.QuietSessionRevealsExactly` | frontend/src/components/SwapInterface.tsx:902-947 | likewise the secret has been sent, once, exactly if a source escrow event came |
| `MessageRuns.AlwaysExact` | frontend/src/components/SwapInterface.tsx:549-896 | in every interleaving each transaction signed or sent is for a delivered event of this order, under its id, for the whole order or for its percentage rounded down to basis points and cut to units; each one sent is announced at once with its own id and amount and nothing else is; each gasless message carries its event and its exact amount |
| `MessageRuns.SameSourceIdIff` | frontend/src/components/SwapInterface.tsx:580-595 | two transactions sent have one source escrow id exactly when neither is for a part |
| `MessageRuns.HashedSourceIdsIff` | frontend/src/components/SwapInterface.tsx:593 | the hashed ids of two parts are the same exactly when it is one destination escrow, or the hash collides |
| `GaslessRuns.NeverMoreThanDelivered` | frontend/src/components/SwapInterface.tsx:803-896 | in every interleaving of a WETH order each delivered Aptos escrow event is answered by at most one message |
| `GaslessRuns.QuietSessionAnswersEachDelivery` | frontend/src/components/SwapInterface.tsx:803-896 | once nothing is waiting and nothing failed, messages and delivered events correspond one to one, repetitions included |
| `TextEncoding.HexRoundTrip` | frontend/src/utils/permitSigning.ts:4-8 | decoding undoes encoding for every byte string; two characters a byte; no colon |
| `TextEncoding.HexText` | frontend/src/utils/permitSigning.ts:4-8 | byte i is written as its high and low digit in lower case, at places 2i and 2i + 1 |
| `TextEncoding.DecimalRoundTrip` | frontend/src/utils/gaslessWETHTransaction.ts:238-239 | parsing undoes printing for every natural number, and only zero starts with a zero |
| `TextEncoding.DecimalText` | frontend/src/utils/gaslessWETHTransaction.ts:238-239 | the last digit is the remainder by ten, and the digits before it are those of the tenth |
| `TextEncoding.SplitJoinIff` | frontend/src/utils/permitSigning.ts:37 | splitting on colons undoes joining exactly when no part holds a colon |
| `SignedMessages.Hex0xRoundTrip` | frontend/src/utils/gaslessWETHTransaction.ts:4-8 | decoding undoes the prefixed encoding for every byte string |
| `SignedMessages.DataRoundTrip` | frontend/src/utils/gaslessWETHTransaction.ts:214-244 | the data handed to the resolver gives every parameter back |
| `SignedMessages.RebuiltMessageIff` | frontend/src/utils/gaslessWETHTransaction.ts:214-244 | the message rebuilt from the data handed to the resolver is the signed one exactly when the nonce found is the nonce read |
| `GaslessSubmission.SignedAsMeant` | frontend/src/utils/gaslessWETHTransaction.ts:83-103 | the message can be signed exactly when its fields can be read, and then every signed field is the parameter's own, with the nonce read and a deadline 3600 seconds after building |
| `GaslessSubmission.SubmittedAsMeant` | backend/resolver/src/services/ResolverServiceV2.ts:2882-2906 | the resolver's call carries every parameter, the deadline and the signature as the page meant them, without a deposit |
| `GaslessSubmission.AcceptedIffWithinTheHour` | contracts/ethereum/contracts/FusionPlusGaslessEscrowV2.sol:257-305 | a message built at `now` and submitted at `t` after any transactions is accepted exactly when t is at most now + 3600 and before the timelock, no other message of the depositor was accepted since its nonce was read, and amount, payment and id are in order |
| `GaslessSubmission.StoredAsMeant` | contracts/ethereum/contracts/FusionPlusGaslessEscrowV2.sol:320-361 | the escrow then stored has every field as the page meant it |
| `SignedMessages.MessageInjective` | frontend/src/utils/gaslessWETHTransaction.ts:83-103 | different parameters, nonces or signing times never share a message |
| `SignedMessages.PermitRoundTripIff` | frontend/src/utils/permitSigning.ts:24-38 | a permit can be read back from its message exactly when no text field holds a colon |
| `SignedMessages.PermitMessageIs` | frontend/src/utils/permitSigning.ts:24-38 | the message is the tag and the seven fields in their order, colons between |
| `SignedMessages.PermitMessageInjective` | frontend/src/utils/permitSigning.ts:24-38 | a permit without colons shares its message with no other permit |
| `SignedMessages.OnlyPermitIff` | frontend/src/utils/permitSigning.ts:24-38 | a message stands for one permit exactly when no text field of that permit holds a colon |
| `SignedMessages.ColonsMakePermitsCollide` | frontend/src/utils/permitSigning.ts:24-38 | a concrete pair of different permits with one message |
| `DutchAuction.RateNeverRises` | backend/order-engine/src/utils/dutchAuction.ts:10-32 | the engine's rate never rises and stays between the end rate and the start rate |
| `DutchAuction.RateAtStep` | backend/order-engine/src/utils/dutchAuction.ts:22-31 | within the auction, during the interval after the k-th, the rate is the start rate less k decrements, or the end rate if that is higher |
| `DutchAuction.AcceptableStaysAcceptable` | backend/order-engine/src/utils/dutchAuction.ts:87-94 | an acceptable offer stays acceptable |
| `DutchAuction.AcceptableFromIff` | backend/order-engine/src/utils/dutchAuction.ts:87-94 | when an offer is acceptable: at the start rate or above always, below the end rate never, in between exactly from the drop that brings the rate down to it or from the end of the auction |
| `DutchAuction.ConstantUntilNextDrop` | frontend/src/components/DutchAuctionProgress.tsx:40-52 | the displayed rate holds up to the announced drop, which is at most one interval away |
| `DutchAuction.NextDropAt` | frontend/src/components/DutchAuctionProgress.tsx:40-52 | the countdown ends exactly when the current interval does |
| `DutchAuction.DisplayNeverRises` | frontend/src/components/DutchAuctionProgress.tsx:43-48 | the displayed rate never rises, and from the start on stays between the two rates |
| `DutchAuction.DisplayMatchesEngineIff` | frontend/src/components/DutchAuctionProgress.tsx:43-69 | while the auction is shown, the page shows the engine's rate exactly once it has started, or if the rate never falls |
| `DutchAuction.PageAuctionExact` | frontend/src/components/SwapInterface.tsx:219-228 | for the page's own auction the two agree from the start on, and the end rate is met exactly from 120 seconds on |
| `DutchAuction.PageRateAtStep` | frontend/src/components/SwapInterface.tsx:219-228 | in its k-th interval the rate is the market rate times 1.03 - 0.0075 k |
| `DutchAuction.PageRateOutside` | frontend/src/components/SwapInterface.tsx:219-228 | before it the engine asks 1.03 times the market rate, and from 120 seconds on 0.97 times |
| `PriceService.Service.constructor` | frontend/src/services/PriceService.ts:7 | the service starts valid with no events |
| `PriceService.Service.BeginUSDPrice` | frontend/src/services/PriceService.ts:77-91 | after any events, fetches exactly when the token is known and nothing was stored for it in the last 30 seconds; otherwise returns a value stored for it within them, or zero for an unknown token |
| `PriceService.Service.BeginExchangeRate` | frontend/src/services/PriceService.ts:18-37 | fetches exactly a cross-chain pair with nothing stored in the last 30 seconds; otherwise returns a value stored for the pair within them, or the fallback |
| `PriceService.Service.Complete` | frontend/src/services/PriceService.ts:28-42 | with the prices needed, the first price or the first over the second is returned and stored, at least 30 seconds after all that was stored under its key before the request began; without them, zero or the fallback (500 APT for ETH, 0.002 ETH for APT) is returned and nothing is stored |
| `PriceService.FreshIff` | frontend/src/services/PriceService.ts:87-91 | in every reachable state the cache is fresh under a key exactly when something was stored there less than 30 seconds ago |
| `PriceService.ServedAlwaysFresh` | frontend/src/services/PriceService.ts:87-91 | in every interleaving a cached value returned was stored under its key less than 30 seconds before |
| `PriceService.CloseFetchesOverlap` | frontend/src/services/PriceService.ts:87-111 | two fetches stored under one key less than 30 seconds apart overlapped |
| `PriceService.OverlapAllowsAnyGap` | frontend/src/services/PriceService.ts:93-111 | overlapping fetches can be stored at any distance, even together |

## Left out

- React rendering, wallet detection and connection, status messages, loggers and balances: no logic that would add a hard property.
- The sponsored-transaction builders and the Aptos SDK: thin layers over libraries that are not part of this model.
- The order engine, resolver and relayer services: only the fill count, the secret index and the auction price they compute are used here.
- The other contracts, and the Move modules beyond the withdraw and refund rules of `fusion_plus_escrow_v3`: they would repeat the same escrow properties.
- The Move partial-fill module's own leaf hash, and the backend's tree built with a Merkle library: separate constructions.
- EIP-712 hashing and ECDSA recovery: replaced by ideal signatures. Two signatures over the same message are the same value here.
- Tokens that charge fees or call back during a transfer, re-entrancy, and receivers that reject Ether: every transfer that has the balance succeeds.
- 256-bit bounds in the contract and 53-bit precision of JavaScript numbers: amounts, nonces and times are unbounded, decimals never use exponents.
- IEEE floating point: percentages, thresholds, rates and prices are exact.
- A number of parts that is not an integer.
- Events that concern two sessions at once: one session is modelled, from its order to the next.
- The completion total at line 1066 of the swap page: it adds to a snapshot of the list taken when the page was drawn.
- The partial-secret branch at lines 918-932 of the swap page: orders built by the page never carry such secrets.
- The waits of the WETH to APT direction of the page between timer and message are one step here, and whether a fill is signed anew or with the order is not part of the message.
- The page's countdown rounded up to whole seconds, its percentage complete, and the resolvers' activity windows.
- The fill bonus and the minimum return of the auction: one-line formulas.
- AtomicSwap.UserSafeIff: like the other exact conditions of that file, needs one 32-byte string that is not a preimage of the hashlock as a parameter, since an arbitrary hash might have none.
- AtomicSwap.LibrarySwapSafeIff: the request's other constant fields (beneficiary, token, signature placeholder) are not part of the modelled request.
- GaslessSubmission.SignedAsMeant: amounts are read as decimals only; other spellings that a library would read, and how an address is read from text, are not modelled.
- MessageRuns.SameSourceIdIff: the source id of a part is the pair of its destination escrow and the order's nonce; `HashedSourceIdsIff` says what its hash adds.
- The events that the contract emits.
- MerkleBinding.UsableIndicesAcceptedIff: no code in the repository passes this generator's root to this contract; the resolver's Aptos path takes one fill fewer than secrets (backend/resolver/src/services/ResolverServiceV2.ts:1094), and the same count is assumed here.
- WalletRuns.SignsWithinIff: a wallet that signs and then reports a failure is counted as not having signed, and nothing is said of what Pontem itself does with what it signed.
- MerkleBinding.AcceptedExactlyAtTurns: stated for the free hash; `MerkleKeccak` carries the results built on it over to keccak256 up to a collision.
- GeneratedOrders.FillUnderOwnSecretIff: like the other members of that file, for secrets that differ from each other; hashlocks and proof elements are 32-byte words, as the contract's types demand.
- PriceService.CloseFetchesOverlap: one direction, because overlapping fetches may also lie far apart, as the lemma after it shows.
- SwapOnContract.CanWithdrawIff: addresses are numbers, so the comparison without regard to letter case is equality.
