# Verified models of the airdrop and bridge-claims tools

These Dafny modules model the parts of the repository where a mistake moves money or loses a record, and prove what
those parts promise. Everything outside the code (JSON-RPC answers, hash functions, LayerZero and token contracts,
failures and kills, the seed of a draw) is a parameter of the model, so every theorem is about all of its values.

| part | modules | main results |
|---|---|---|
| Escrow release | `ReleasePacket`, `EscrowRelease`, `SendCalldata`, `ReleaseRuns`, `ReleaseSessions` | `ReleaseSessions.SessionSafe`, `ReleaseRuns.EveryPrefixSafe`, `ReleaseRuns.UnfinishedRefusedIff` |
| Package record and quarantine | `FileTree`, `SealedPackage`, `RunDirectory`, `RunHistory`, `PlannedPaths` | `RunHistory.CurrentIsSealed`, `RunHistory.NothingIsLost`, `RunDirectory.TargetCurrentIff` |
| Payments | `Transfers`, `MultiSend`, `TokenTransfers`, `VaultCalls`, `VaultBatch`, `VaultExecution`, `Splitting`, `Packing`, `VaultPlan`, `PlanTransactions`, `PlanExecution` | `PlanExecution.PlanPays`, `VaultExecution.AcceptedPays`, `Packing.ThreeHalves` |
| Merkle commitments | `Bytes`, `AbiReader`, `MerkleTree`, `MerkleForgery`, `Commitments` | `MerkleForgery.SoundForIff`, `Commitments.EqualRootsEqualLists`, `Commitments.ParallelLevels` |
| Codecs | `Bech32Checksum`, `Bech32`, `PublishedAddress`, `Amounts`, `AmountText` | `Bech32.DecodeIff`, `Bech32.TyposRejected`, `AmountText.RoundTripIff` |
| Selection and cross-check | `Selection`, `RandomDraw`, `SelectBatch`, `Crosscheck` | `SelectBatch.ChoiceIsUnique`, `RandomDraw.DrawIsUnique`, `Crosscheck.PaidOnceIff` |
| Approvals and history search | `Approvals`, `LocateTransition` | `Approvals.BatchRuns`, `LocateTransition.LocatesLastChangeIff` |

`Lists` and `Options` hold shared definitions. `dafny verify dfyconfig.toml` checks the whole project.

## How it is modelled

- **Hashes** are arbitrary functions with 32-byte results. None is assumed injective: soundness theorems exhibit two
  different strings, among the ones actually hashed, with the same hash.
- **Escrows.** The escrow, the LayerZero endpoint and the receive library are one step machine with the rules the
  release planner documents (bridge-claims/tools/release_plan.py:7-25). Between two transactions anything else may
  happen: users lock tokens, LayerZero appends libraries and moves its default.
- **Failures.** A refresh or a quarantine runs against a fault for each of its steps: the step works, raises with or
  without its effect, or the process is killed with or without its effect. The record write and the directory rename
  are atomic.
- **Histories.** A run directory goes through any sequence of refreshes, quarantines and recoveries, each with its own
  faults, with files edited by hand in between; the record of a state says which refreshes committed to it.
- **Encodings** are proved against a reader of their own, not against the writer: what a contract or a library decodes
  field by field and through its offsets.
- **Vault transactions** are bytes. The decoder is modelled with every branch of the source, and "executing" a decoded
  transaction means the token's approve and transferFrom (an unlimited allowance is not reduced) and the vault
  contract's own source.
- **Safe transactions in the cross-check.** What a transaction does on the chain is an arbitrary function of it, known
  only where its record can be read and is nothing but plain transfers.
- **Integers.** Python's are unbounded, as Dafny's; where the code writes a fixed width (`to_bytes`), fitting is a
  precondition, as Python raises otherwise. The Go search uses a 64-bit type, so its arithmetic is proved not to wrap.

## What was found

- A half-done release is not always refused by the planner: when LayerZero moves its default library, an escrow before
  the pin or after the unpin can be planned over (`ReleaseRuns.MovedDefaultIsPlannedOver`). The comment at
  bridge-claims/tools/release_plan.py:336-338 does not say so; `ReleaseRuns.UnfinishedRefusedIff` gives the exact
  condition.
- `fail_closed` promises that what cannot be moved does not verify. After the new entries are in the record in memory,
  the record it writes lists them, and an unmovable target verifies (`RunDirectory.UnmovableTargetVerifies`,
  `RunDirectory.TargetCurrentIff`).
- A quarantine whose record write takes effect and still raises deletes its journal and leaves the run pending: refresh
  and quarantine refuse, recovery finds no journal, and no operation of the tools leads out (`RunHistory.StuckIff`,
  `RunHistory.StuckForGood`).
- `tree_verify` does not check that proof nodes have 32 bytes. An encoding that is not in the list can be accepted
  exactly with proofs of certain lengths: an empty node right after one that makes 32 bytes as long as a committed
  encoding, followed by the 32-byte nodes of that leaf's path (`MerkleForgery.SoundForIff`;
  `Commitments.NodeLengthMatters` gives a list and a proof for every batch).
- `parse_amount` multiplies in a 28-digit context, so `parse_amount(format_one(n))` is `n` exactly when `n` has at most
  28 significant digits (`AmountText.RoundTripIff`, `AmountText.LongAmountLost`).
- `decode_vault_tx` does not ask whether a vault stands at the address paid. A transaction it accepts does what it lists
  exactly when no deposit of a nonzero sum goes to an address without a vault (`VaultExecution.AcceptedPays`); otherwise
  an approval stays open (`VaultExecution.WithoutVaultTheAllowanceStays`).
- The cross-check passes a named payment that was executed and failed (`Crosscheck.FailedPaymentPasses`), and one whose
  wallets an earlier transaction paid by a call that is no plain transfer (`Crosscheck.PaidAsidePasses`).
  `Crosscheck.PaidOnceIff` shows that these are the only ways a checked wallet is not paid exactly once. When no
  transaction is named, the overlap half of check 3 cannot fail where check 1 passes, as every queued transaction that
  pays a wallet of the sheet is then a target.
- The `funded` check is wider than what the approval batch wraps (`Approvals.FundedButShort`).
- A state that an account returns to can hide its last change from `locateTransition`
  (`LocateTransition.ReturnIsMissed`); which blocks decide is fixed by the current block and the last change
  (`LocateTransition.LocatesLastChangeIff`, `LocateTransition.EachDecides`).
- The documentation of the random draw gives the small tier's weight as a quotient; the code uses at least 1, and the
  model follows the code.

## Model

| member | source | states |
|---|---|---|
| `MerkleTree.NextLevel` | airdrop/tools/common.py:273-284 | the pairing loop computes the next level: sorted pairs hashed, an odd last node carried up |
| `MerkleTree.TreeLevels` | airdrop/tools/common.py:273-284 | the loop returns the whole chain of levels, from the leaves to a single node |
| `MerkleTree.LevelsRoot` | airdrop/tools/common.py:287-288 | the last level of such a chain is the recursively defined root of any of its levels |
| `MerkleTree.TreeProof` | airdrop/tools/common.py:291-299 | the sibling loop returns the proof of a leaf as defined on the tree |
| `MerkleTree.TreeVerify` | airdrop/tools/common.py:302-306 | the verification loop accepts exactly when folding the proof reaches the root |
| `MerkleTree.ProofVerifies` | airdrop/tools/common.py:291-306 | for every leaf count and index the generated proof verifies, with at most the rounded-up binary logarithm of the count in nodes |
| `MerkleTree.CeilLog2Bounds` | airdrop/tools/common.py:291-299 | that bound is the exact rounded-up logarithm, from both sides |
| `MerkleTree.TreeSound` | airdrop/tools/common.py:259-306 | an accepted encoding is one of the encodings committed to, or the strings hashed contain a collision, for every proof whose node lengths are not those of a forgery |
| `MerkleTree.NoEmptyNode` | airdrop/tools/common.py:302-306 | proofs without an empty node never have such lengths |
| `MerkleForgery.SoundForIff` | airdrop/tools/common.py:259-306 | for given lengths of encodings and nodes, verification is sound for every hash, list, encoding and proof exactly when the lengths are not those of a forgery |
| `MerkleForgery.ForgedClimbs` | airdrop/tools/common.py:302-306 | for every such choice of lengths a list, an outside string and a proof of these lengths that is accepted |
| `MerkleForgery.ForgeryHasNoCollision` | airdrop/tools/common.py:302-306 | without any collision among the strings hashed |
| `MerkleTree.RootCommits` | airdrop/tools/common.py:273-306 | two lists with the same root hold the same encodings, each encoding of one being in the other, or collide |
| `Commitments.EncodeBatchInjective` | airdrop/tools/common.py:248-256 | different batches have different ABI encodings |
| `Commitments.BatchReadsBack` | airdrop/tools/common.py:248-256 | a contract that follows the two offset words decodes exactly the batch |
| `Commitments.BatchSound` | airdrop/tools/common.py:248-306 | if the leaf of a batch verifies against a list's root, the batch is the list's batch of that index, or there is a collision; for every proof whose lengths are not those of a forgery |
| `Commitments.BatchComplete` | airdrop/tools/common.py:259-306 | every batch of a list has a proof of 32-byte nodes, at most the rounded-up binary logarithm of the count, that verifies |
| `Commitments.EqualRootsEqualLists` | airdrop/tools/common.py:248-288 | equal roots mean equal batch lists, or a collision |
| `Commitments.NodeLengthMatters` | airdrop/tools/common.py:302-306 | for every batch a list of one other batch, and a proof of a 192-byte and an empty node with which it is accepted |
| `Commitments.RowSound` | bridge-claims/tools/claim_tree.py:49-56 | an accepted claim row is the list's row of that index, or there is a collision; for every proof whose lengths are not those of a forgery |
| `Commitments.RowReadsBack` | bridge-claims/tools/claim_tree.py:49-51 | the four words of an encoded row are index, account, token and amount |
| `Commitments.SplitJoin` | bridge-claims/tools/claim_tree.py:70-72 | cutting the joined nodes into 32-byte pieces returns the nodes |
| `Commitments.PairChunk` | bridge-claims/tools/claim_tree.py:62-68 | a worker hashes its blob of nodes pairwise exactly as the sequential tree would |
| `Commitments.ParallelPairs` | bridge-claims/tools/claim_tree.py:101-123 | the chunks' results, joined, are the pairs of the whole level for every even chunk size |
| `Commitments.ParallelNext` | bridge-claims/tools/claim_tree.py:101-123 | with the odd node carried over, a level built in chunks is the sequential next level |
| `Commitments.ParallelLevels` | bridge-claims/tools/claim_tree.py:101-123 | the parallel builder returns a valid chain of levels for every size, chunking and threshold |
| `Commitments.LevelsUnique` | bridge-claims/tools/claim_tree.py:101-123 | there is only one such chain, so it is the sequential builder's |
| `ReleasePacket.AbiReadBack` | bridge-claims/tools/release_plan.py:128-145 | every argument, static or dynamic, reads back from its head word and offset |
| `ReleasePacket.PayloadReadsBack` | bridge-claims/tools/release_plan.py:152-161 | both payload forms give back the Safe and the amount, to the escrow that follows the length word and to the description at line 847 that takes 20 bytes |
| `ReleasePacket.DescribedAsDecoded` | bridge-claims/tools/release_plan.py:847-855 | whenever the recipient has 20 bytes the description says what an escrow decodes, for every message |
| `ReleasePacket.HeaderReadsBack` | bridge-claims/tools/release_plan.py:176-179 | the packet header gives back nonce, endpoints, sender and receiver |
| `ReleasePacket.GuidIs` | bridge-claims/tools/release_plan.py:182-187 | a payload starts with the hash of nonce, source, sender, destination and receiver, and the message follows |
| `ReleasePacket.UlnReadsBack` | bridge-claims/tools/release_plan.py:164-175 | decoding the configuration as an ABI struct gives one required verifier, the owner, none optional, explicit confirmations: the owner alone decides |
| `EscrowRelease.OwnerIsAccepted` | bridge-claims/tools/release_plan.py:443-470 | with the configuration, executor and attestation the release writes, the library, which decodes them, takes the packet |
| `EscrowRelease.CallsAtProgress` | bridge-claims/tools/release_plan.py:426-470 | the planned call list, with or without the pin, is the ten-step scale of one release |
| `EscrowRelease.ActSetting` | bridge-claims/tools/release_plan.py:443-470 | each setting call of the owner moves the escrow to the next shape of the scale |
| `EscrowRelease.DeliverPays` | bridge-claims/tools/release_plan.py:416-424 | the delivered packet pays exactly the planned balance to the Safe and advances the path nonce by one |
| `EscrowRelease.ReleaseStep` | bridge-claims/tools/release_plan.py:416-470 | at every progress the planned call succeeds and leads to the next progress |
| `EscrowRelease.MeanwhileKeeps` | bridge-claims/tools/release_plan.py:7-25 | locks, new libraries and, once pinned, a moved default leave the progress as it is |
| `SendCalldata.Session.constructor` | bridge-claims/tools/send_calldata.py:52-60 | a fresh log, for an account with any history |
| `SendCalldata.Session.Invoke` | bridge-claims/tools/send_calldata.py:103-158 | one run: refused exactly when something is in flight or the account moved on after the last logged transaction; otherwise log and history only grow and stay in file order |
| `SendCalldata.Session.Attempt` | bridge-claims/tools/send_calldata.py:141-157 | one pass of the send loop, for every way it can end |
| `SendCalldata.Session.MineInFlight` | bridge-claims/tools/send_calldata.py:113-124 | a transaction left in flight is mined later and the order still holds |
| `SendCalldata.Session.SendForeign` | bridge-claims/tools/send_calldata.py:122-124 | another transaction of the same account, at any time, does not disturb the order |
| `SendCalldata.DoneShape` | bridge-claims/tools/send_calldata.py:103-158 | what is executed is the first transaction some number of times, then each later one once, in order |
| `ReleaseRuns.SendNext` | bridge-claims/tools/release_plan.py:426-470 | sending the file's next call moves only its escrow on and makes exactly that call's payment |
| `ReleaseRuns.ResendFirst` | bridge-claims/tools/send_calldata.py:113-124 | sending transaction 0 again changes nothing |
| `ReleaseRuns.RunSafe` | bridge-claims/tools/send_calldata.py:103-158 | over every run of sends, crashes, resumes and outside activity: nothing reverts, every escrow is where the executed prefix puts it, exactly that prefix's payments were made |
| `ReleaseRuns.ReleaseCompletes` | bridge-claims/tools/release_plan.py:311-349 | after the whole file every escrow paid its planned balance to the Safe once, its nonce advanced by one, and every setting is as it was read |
| `ReleaseRuns.FinishedIsRestored` | bridge-claims/tools/release_plan.py:443-470 | a finished escrow has its trusted remote, stored version, executor and verifier config back |
| `ReleaseRuns.FinishedIsClosed` | bridge-claims/tools/release_plan.py:336-338 | a finished escrow no longer trusts the Safe's path, and the owner is neither its executor nor its sole verifier |
| `ReleaseRuns.OneAtATime` | bridge-claims/tools/send_calldata.py:141-158 | when a later escrow of the file has started, every earlier one has finished |
| `ReleaseRuns.EveryPrefixSafe` | bridge-claims/tools/release_plan.py:336-338 | wherever sending stops, each escrow is untouched, restored, or unfinished and refused while the default is unmoved; at most one is unfinished |
| `ReleaseRuns.UnfinishedRefusedIff` | bridge-claims/tools/release_plan.py:311-349 | exactly when the planner refuses an unfinished escrow |
| `ReleaseSessions.Drive` | bridge-claims/tools/send_calldata.py:103-158 | any sequence of runs, late minings and other transactions of the account keeps the session valid |
| `ReleaseSessions.SessionSafe` | bridge-claims/tools/send_calldata.py:103-158 | wherever a session stands, over any activity in between: nothing has reverted, exactly the payments of the calls done were made, every escrow is untouched, restored, or unfinished and refused; with the log complete all are restored and paid |
| `ReleaseRuns.UnfinishedRefused` | bridge-claims/tools/release_plan.py:336-338 | with the default library unmoved it always does |
| `ReleaseRuns.MovedDefaultIsPlannedOver` | bridge-claims/tools/release_plan.py:311-349 | with a moved default it may not: a run after which a started escrow is planned again |
| `ReleaseRuns.ActConserves` | bridge-claims/tools/release_plan.py:7-25 | whatever is called, a step pays from an escrow exactly what its balance loses |
| `ReleaseRuns.RunConserves` | bridge-claims/tools/release_plan.py:7-25 | over any run, what an escrow holds and has paid is what it held plus what users locked |
| `SealedPackage.ParseText` | bridge-claims/tools/package.py:105-112 | the manifest text parses back to the digests it was written from |
| `SealedPackage.ReadListing` | bridge-claims/tools/package.py:338-342 | the loop over the lines of the manifest, later lines replacing earlier ones |
| `SealedPackage.CheckPackage` | bridge-claims/tools/package.py:324-357 | no problem is reported exactly when the manifest is the listed one, lists exactly the other files with their digests, and the generation is the listed one |
| `SealedPackage.SealPasses` | bridge-claims/tools/package.py:324-357 | a package just sealed passes the check against its entry |
| `SealedPackage.PassesUnique` | bridge-claims/tools/package.py:324-357 | two packages that pass against one entry are the same files, or two files collide |
| `RunDirectory.RunDir.constructor` | bridge-claims/tools/package.py:146-160 | an empty record with nothing pending |
| `RunDirectory.RunDir.WriteRecord` | bridge-claims/tools/package.py:168-187 | the record is replaced whole or not at all |
| `RunDirectory.RunDir.SetAside` | bridge-claims/tools/package.py:114-134 | what is at a target moves to the superseded packages, nothing else changes |
| `RunDirectory.RunDir.FailClosed` | bridge-claims/tools/package.py:232-255 | which targets are moved aside and whether the record in hand is written, fault by fault |
| `RunDirectory.RunDir.RunRefresh` | bridge-claims/tools/package.py:258-318 | when a refresh is refused and how it ends; for every sequence of faults exactly what is at each target, in the record and among the superseded packages; it counts as committed exactly when its listing was written |
| `RunDirectory.RunDir.Publish` | bridge-claims/tools/package.py:283-318 | the same for a refresh that is not refused |
| `RunDirectory.RunDir.CarryThrough` | bridge-claims/tools/package.py:286-312 | the try block with its handler: everything in place and listed, or `fail_closed` |
| `RunDirectory.RunDir.Enter` | bridge-claims/tools/package.py:286-310 | what the try block leaves at each target, in the record and in hand, and when it raises |
| `RunDirectory.FailsClosed` | bridge-claims/tools/package.py:232-255 | a refresh that fails before the listing write and is cleaned up leaves nothing at its targets, nothing of them listed and nothing pending |
| `RunDirectory.NoFileLost` | bridge-claims/tools/package.py:114-134 | what was at a target, and a new package put there, is still there or among the superseded packages |
| `RunDirectory.CurrentIsCommitted` | bridge-claims/tools/package.py:324-391 | in every state of the run a package verifies as current only with the files sealed for it by a committed refresh that named it, or two files collide |
| `RunHistory.ListedIsCommitted` | bridge-claims/tools/package.py:258-318 | over any history, a listed entry was written by a refresh that committed as a whole, and nothing has taken it out since |
| `RunHistory.CurrentIsSealed` | bridge-claims/tools/package.py:258-391 | over any history of refreshes, quarantines, recoveries and edits with any faults, a package verifies as current only if such a refresh named it, nothing is pending and its files are the ones that refresh sealed, or two files collide |
| `RunHistory.CommittedIsHistory` | bridge-claims/tools/package.py:258-318 | the committed refreshes of a state are those of its history, in order |
| `RunHistory.NothingIsLost` | bridge-claims/tools/package.py:258-318 | over any history of refreshes, quarantines and recoveries with any faults, every file that was ever in the run is in it, among the superseded packages or in a quarantine |
| `RunDirectory.TargetCurrentIff` | bridge-claims/tools/package.py:232-318 | a target of a refresh that began verifies exactly when all targets were in place, a record with their entries was written, and it was not moved aside again |
| `RunDirectory.AllOrNone` | bridge-claims/tools/package.py:258-318 | a successful refresh leaves every target current; one that ends before the listing write leaves none |
| `RunDirectory.PendingRefusesAll` | bridge-claims/tools/package.py:372-391 | nothing verifies while an operation is pending |
| `RunDirectory.OtherUnaffected` | bridge-claims/tools/package.py:190-195 | a package apart from the targets verifies after a refresh exactly when its own entry and files passed before |
| `RunDirectory.UnmovableTargetVerifies` | bridge-claims/tools/package.py:232-255 | faults under which a raised refresh leaves its target verifying |
| `PlannedPaths.Planned` | bridge-claims/tools/quarantine.py:95-109 | the kept paths are not nested, come from the input and cover it |
| `RunDirectory.RunDir.MoveOut` | bridge-claims/tools/quarantine.py:147-152 | the move loop: the paths moved are only on the shelf, the others only in the run, the rest of the tree untouched |
| `RunDirectory.RunDir.PutBackAll` | bridge-claims/tools/quarantine.py:152-165 | the rollback loop puts every moved path back |
| `RunDirectory.RunDir.RunQuarantine` | bridge-claims/tools/quarantine.py:112-169 | the whole new state by the faults: which paths are in the quarantine, the record, the journal, the archive; it completes, is put back or is interrupted exactly as its steps go |
| `RunDirectory.RunDir.RollBack` | bridge-claims/tools/quarantine.py:152-165 | after a move that raises: everything moved is put back and `pending` cleared exactly when the moves back and the closing writes go |
| `RunDirectory.AllMovedOrNone` | bridge-claims/tools/quarantine.py:112-169 | completed means every path only in the quarantine; put back means the tree exactly as before |
| `RunDirectory.RunDir.Recover` | bridge-claims/tools/quarantine.py:179-208 | every journalled path not yet moved is moved, as far as the steps go; exactly which paths are where, when `pending` is cleared and what is reported |
| `RunHistory.StuckIff` | bridge-claims/tools/quarantine.py:132-146 | a run ends pending without a journal exactly after a quarantine whose record write took effect and raised |
| `RunHistory.StuckForGood` | bridge-claims/tools/quarantine.py:179-208 | from there refresh and quarantine always refuse, recovery finds no journal, and nothing changes any more |
| `MultiSend.EntriesOfPacked` | airdrop/tools/safe_batch.py:123-125 | decoding a packed call list returns the calls |
| `MultiSend.PackedOfEntries` | airdrop/tools/safe_batch.py:260-283 | a packed list is accepted only as the packing of what it decodes to |
| `MultiSend.DecodeEntries` | airdrop/tools/safe_batch.py:269-283 | the decoding loop computes this |
| `MultiSend.MultiSendRoundTrip` | airdrop/tools/vault_batch.py:194-196 | a multiSend call gives back its calls |
| `MultiSend.MultiSendIff` | airdrop/tools/safe_batch.py:260-283 | data is accepted as a nonempty list of calls exactly when it is the selector with an ABI byte string that is their packing |
| `TokenTransfers.ReadBatch` | airdrop/tools/safe_batch.py:1021-1029 | the loop over a batch's calls collects transfers and objections as the one-pass definition does |
| `TokenTransfers.PaymentReads` | airdrop/tools/safe_batch.py:119-158 | reading a planned payment, single or batched, returns exactly its list and no objection |
| `TokenTransfers.ReadIff` | airdrop/tools/safe_batch.py:998-1029 | nothing is objected to exactly when the transaction is nothing but plain transfers of the token, canonically encoded, and these are what is listed |
| `TokenTransfers.PayIff` | airdrop/tools/safe_batch.py:148-158 | the transfers go through exactly when the Safe can afford each in its turn; then it has lost what leaves it and every recipient gained its own transfers |
| `TokenTransfers.AffordsIff` | airdrop/tools/safe_batch.py:148-158 | where the Safe is not among the recipients, that is exactly when it holds the total |
| `VaultCalls.AddressWordIff` | airdrop/tools/vault_batch.py:1176-1206 | the check on the first twelve bytes of a word means that the word is an address |
| `VaultCalls.PairIff` | airdrop/tools/vault_batch.py:1186-1189 | a body decodes to an approval (or, with the other selector, a transfer) exactly when it is its encoding |
| `VaultCalls.DepositIff` | airdrop/tools/vault_batch.py:1192-1207 | a body decodes to a deposit batch exactly when it is its canonical encoding |
| `VaultCalls.DeployIff` | airdrop/tools/vault_batch.py:1170-1183 | a body decodes to a deployment exactly when it is the audited creation code with that salt and those arguments |
| `VaultCalls.DeployedAt` | airdrop/tools/vault_batch.py:164-171 | the vault address is the CREATE2 address of what the deployment proxy does with the call data: salt the first 32 bytes, init code the rest |
| `VaultBatch.ScanCalls` | airdrop/tools/vault_batch.py:1234-1266 | the loop with its pending approval reports what the one-pass definition does |
| `VaultBatch.Decode` | airdrop/tools/vault_batch.py:1217-1267 | the whole decoder, with its envelope checks and error paths |
| `VaultBatch.ScanCleanIff` | airdrop/tools/vault_batch.py:1234-1266 | no problems are found exactly when every call is plain and canonical and, deployments apart, approvals and deposits alternate with exact totals |
| `VaultBatch.AcceptedIff` | airdrop/tools/vault_batch.py:1217-1267 | what "no problems" means for a transaction, both ways, and what the report then lists |
| `VaultExecution.AcceptedPays` | airdrop/tools/vault_batch.py:1186-1267 | run from zero allowances, an accepted transaction goes through exactly when its deployments are new and, for the deposits that find a vault, the Safe holds the sum and no delegator is zero; then all allowances are zero and Safe, vaults and delegators changed by exactly the decoded rows, if and only if no deposit of a nonzero sum went where no vault stands |
| `VaultExecution.BlindIff` | airdrop/tools/vault_batch.py:1254-1264 | what is listed and what finds a vault have the same sum exactly under that condition, and then the same sums for every vault and delegator |
| `VaultExecution.ActionsPay` | airdrop/tools/vault_batch.py:1234-1266 | the same from the middle of a batch, with an approval pending |
| `VaultExecution.DepositPays` | airdrop/vault/GovernorDelegator.compiler-input.json:5 | one depositBatch call on the vault contract: when it succeeds and what it moves |
| `VaultExecution.WithoutVaultTheAllowanceStays` | airdrop/tools/vault_batch.py:1254-1264 | for every planned item without a vault, its fund transaction is accepted, goes through, moves nothing and leaves the approval open |
| `Splitting.EvenSizes` | airdrop/tools/safe_batch.py:330-341 | the sizes add up, are between 1 and the maximum, differ by at most one, never increase, and are as few as possible |
| `Splitting.SplitSizesSum` | airdrop/tools/safe_batch.py:330-341 | with an optional first piece, of the size asked for or the whole list, the sizes still add up to the list |
| `Splitting.Slices` | airdrop/tools/safe_batch.py:344-349 | the slicing loop computes the cuts |
| `Splitting.CutsCover` | airdrop/tools/safe_batch.py:344-349 | the cuts, joined, are the list, each of its given size |
| `Splitting.ChunksCover` | airdrop/tools/vault_batch.py:272-275 | a vault's chunks are its deposits in order, none empty or over the limit |
| `Packing.FirstFit` | airdrop/tools/vault_batch.py:276-285 | each item goes to the first bin with room for it; the bins hold exactly the items, none over budget if every item fits; no bin has room for a member of a later one |
| `Packing.TwoBinsExceed` | airdrop/tools/vault_batch.py:276-285 | any two bins together exceed the budget |
| `Packing.ThreeHalves` | airdrop/tools/vault_batch.py:269-285 | packing in decreasing order uses at most one and a half times the bins of any other packing |
| `VaultPlan.ItemsPay` | airdrop/tools/vault_batch.py:271-275 | the chunks of all vaults pay exactly the planned deposits, in order |
| `VaultPlan.GasOfItems` | airdrop/tools/vault_batch.py:271-276 | the estimate of a list of items: 40,000 for each call and 26,000 for each deposit it makes |
| `VaultPlan.SafeTxCalls` | airdrop/tools/vault_batch.py:199-203 | one call alone or several through MultiSend: the decoder sees the same calls |
| `VaultPlan.FundDecodes` | airdrop/tools/vault_batch.py:286-294 | a planned fund transaction decodes without problems to each payment of its items once, in order |
| `VaultPlan.DeployDecodes` | airdrop/tools/vault_batch.py:260-266 | a planned deploy transaction decodes without problems to its vaults |
| `PlanTransactions.FundTxs` | airdrop/tools/vault_batch.py:269-294 | the transactions are the bins of first-fit decreasing, items by validator and part; every estimate is within the gas target, every chunk is in exactly one transaction, and no packing of the same chunks needs fewer than two thirds as many |
| `PlanTransactions.EmitFunds` | airdrop/tools/vault_batch.py:286-294 | one transaction per bin, with the approve and deposit calls of its members |
| `PlanTransactions.DeployTxs` | airdrop/tools/vault_batch.py:260-266 | the vaults to deploy, in order, in near-equal groups of at most the limit |
| `PlanTransactions.TodoIs` | airdrop/tools/vault_batch.py:261 | exactly the vaults not there yet are deployed |
| `PlanTransactions.Plan` | airdrop/tools/vault_batch.py:297-304 | deployments first, then deposits; decoding inverts planning: no problems, and each planned vault and deposit exactly once |
| `PlanExecution.ActionsAre` | airdrop/tools/vault_batch.py:199-203 | what a planned transaction does is what its call data decodes to |
| `PlanExecution.PlanPays` | airdrop/tools/vault_batch.py:257-304 | a plan run in its order goes through exactly when the vaults to deploy are new, the Safe holds the sum of all planned deposits and no delegator is zero; then every planned deposit was made exactly once, every planned vault stands, nothing else moved and no allowance is left |
| `Bech32Checksum.Polymod` | airdrop/tools/common.py:156-165 | the loop folds the checksum step over the symbols |
| `Bech32Checksum.StepLinear` | airdrop/tools/common.py:159-164 | one step is linear over exclusive or |
| `Bech32Checksum.FoldLinear` | airdrop/tools/common.py:156-165 | so is the checksum of a whole word |
| `Bech32Checksum.TailIsUnique` | airdrop/tools/common.py:179-180 | after any symbols exactly one choice of the last six gives checksum 1: the one written |
| `Bech32Checksum.TimesDrift` | airdrop/tools/common.py:159-164 | a step without input commutes with multiplication by the generator of GF(32) |
| `Bech32Checksum.TwoErrorsShow` | airdrop/tools/common.py:156-165 | errors in one or two of up to 89 symbols, the longest word of BIP 173, always change the checksum |
| `Bech32Checksum.WordsFarApart` | airdrop/tools/common.py:156-165 | different words of up to 89 symbols with the same checksum differ in at least three |
| `Bech32.ToSymbols` | airdrop/tools/common.py:170-177 | the regrouping loop writes the same number in 5-bit digits, padded with fewer than five zero bits |
| `Bech32.ToOctets` | airdrop/tools/common.py:193-198 | the loop back writes the number in bytes, dropping the bits that do not fill one |
| `Bech32.ToOne1` | airdrop/tools/common.py:168-181 | the loops compute the text of an address |
| `Bech32.FromOne1` | airdrop/tools/common.py:184-199 | the loops compute the address of a text, with every refusal |
| `Bech32.DecodeIff` | airdrop/tools/common.py:168-199 | a text is accepted exactly when it is the text of the 20-byte address returned: both round trips |
| `Bech32.TyposRejected` | airdrop/tools/common.py:184-199 | changing one or two characters of a valid text never gives a valid one |
| `Bech32.PrefixMatters` | airdrop/tools/common.py:178-191 | changing one character of the prefix of a valid text never gives a valid text of the other prefix |
| `PublishedAddress.PublishedIsAccepted` | airdrop/vault/deployments-20261011T222022Z.csv:2 | a published address, symbol by symbol through prefix, alphabet and checksum, is accepted |
| `Amounts.RoundIsNearest` | airdrop/tools/common.py:218 | rounding gives a nearest number with the digits kept, and of two equally near ones the even one |
| `Amounts.RoundExactIff` | airdrop/tools/common.py:218 | rounding a product to the context's digits loses nothing exactly when it has at most that many significant digits |
| `Amounts.ParsedExactlyIff` | airdrop/tools/common.py:202-226 | an accepted amount is the amount written exactly when it was written with at most that many significant digits |
| `Amounts.ShortLiteralIff` | airdrop/tools/common.py:211-226 | within the precision a literal is accepted exactly when positive with at most 18 decimals, for its exact value |
| `Amounts.RefusedWhy` | airdrop/tools/common.py:218-226 | within the precision, too many decimals is reported exactly for numbers that are not whole in atto, not positive exactly for whole ones that are negative or zero |
| `AmountText.FormattedReads` | airdrop/tools/common.py:229-234 | the formatted text, commas removed, reads as the exact amount |
| `AmountText.FormatShape` | airdrop/tools/common.py:229-234 | no point in a whole amount; otherwise at most 18 decimals, the last not zero; no leading zeros |
| `AmountText.CommasStand` | airdrop/tools/common.py:229-234 | a comma stands before every third digit from the right and nowhere else |
| `AmountText.SignedReads` | airdrop/tools/common.py:204-214 | a sign in front makes the number negative, or changes nothing |
| `AmountText.NegativeRefused` | airdrop/tools/common.py:224-225 | a text with a minus sign is never accepted |
| `AmountText.RoundTripIff` | airdrop/tools/common.py:202-234 | parsing a formatted amount gives it back exactly when it is positive and short enough; always below 10 to the precision |
| `AmountText.LongAmountLost` | airdrop/tools/common.py:202-234 | one more than that power of ten does not come back |
| `Selection.Fill` | airdrop/tools/select_batch.py:312-321 | the greedy loop: smallest-first takes a prefix and stops where a row does not fit or the batch is full; the others take each row in its turn that still fits |
| `Selection.GreedyInTurn` | airdrop/tools/select_batch.py:312-321 | a row is taken exactly when, after the rows taken before it, it exceeds neither limit |
| `Selection.TurnsUnique` | airdrop/tools/select_batch.py:312-321 | only one choice of rows follows that rule |
| `Selection.SmallestFirstOptimal` | airdrop/tools/select_batch.py:297-321 | no choice among the candidates within the same limits has more recipients |
| `RandomDraw.Scan` | airdrop/tools/select_batch.py:107-111 | the scan finds the entry whose interval of the running weights contains r |
| `RandomDraw.ScanUnique` | airdrop/tools/select_batch.py:107-111 | no other entry does |
| `RandomDraw.DrawTier` | airdrop/tools/select_batch.py:101-125 | the log is the course of the hash values: each draw takes the entry it hits out of the pool and selects it exactly when it fits the budget left, until the pool is empty, enough are taken or no slot is left; no row comes twice and the limits hold |
| `RandomDraw.OneCourse` | airdrop/tools/select_batch.py:101-125 | a tier has one such log |
| `RandomDraw.TiersAre` | airdrop/tools/select_batch.py:75-81 | the tiers are consecutive intervals of amounts |
| `RandomDraw.WeightsAre` | airdrop/tools/select_batch.py:97-100 | equal weights in the upper tiers; in the small one the scale divided by the divisor, rounded down, and at least 1 |
| `RandomDraw.PoolSorted` | airdrop/tools/select_batch.py:95-96 | the pool of a tier is its candidates by address |
| `RandomDraw.RandomSelect` | airdrop/tools/select_batch.py:88-126 | the three tiers one after the other, each with what the ones before it left of the limits; what was skipped exceeds the budget left in the end |
| `RandomDraw.DrawIsUnique` | airdrop/tools/select_batch.py:88-126 | for given candidates, limits and hash values there is one log, and so one choice |
| `SelectBatch.Force` | airdrop/tools/select_batch.py:254-262 | the included rows, or the first objection to one of them |
| `SelectBatch.Choose` | airdrop/tools/select_batch.py:297-321 | each strategy chooses what it says: a prefix by amount, each row in its turn downwards or in input order, or the picks of the draw; always within the limits, and smallest-first is optimal |
| `SelectBatch.ChoiceIsUnique` | airdrop/tools/select_batch.py:297-321 | for every strategy only one choice meets that contract |
| `SelectBatch.Places` | airdrop/tools/select_batch.py:323-327 | paid, selected and remaining rows are the list, each row once, and their totals add up |
| `SelectBatch.Select` | airdrop/tools/select_batch.py:254-327 | when and why a selection is refused; otherwise the included rows and then the strategy's choice by address, a partition within the limits, nobody on hold, optimal for smallest-first |
| `Crosscheck.CollectPaid` | airdrop/tools/safe_batch.py:1788-1793 | the dictionary of payments, and whether an address is paid twice |
| `Crosscheck.CollectRows` | airdrop/tools/safe_batch.py:1801-1807 | the dictionary of sheet rows, and whether an address is listed twice |
| `Crosscheck.CheckSheet` | airdrop/tools/safe_batch.py:1773-1829 | check 1 passes exactly when the targets pay the sheet, row by row and within tolerance |
| `Crosscheck.CheckHistory` | airdrop/tools/safe_batch.py:1831-1863 | the loop of check 2: everything executed can be read and nothing successful lists a payment to anyone checked |
| `Crosscheck.CheckQueue` | airdrop/tools/safe_batch.py:1865-1885 | the loop of check 3 over the other queued transactions |
| `Crosscheck.ReadSheet` | airdrop/tools/safe_batch.py:1493-1517 | an empty sheet or one with an unreadable amount is refused; otherwise one row per line |
| `Crosscheck.CloseIff` | airdrop/tools/safe_batch.py:1471-1482 | the tolerance test accepts exactly the amounts at most half a unit of the last decimal shown away |
| `Crosscheck.Check` | airdrop/tools/safe_batch.py:1715-1885 | with or without named transactions, when checks 1 to 3 pass, and when a named one is unknown |
| `Crosscheck.PaidOnceIff` | airdrop/tools/safe_batch.py:1715-1885 | after a pass, whatever the chain does where a record is not plain transfers, in every course of the Safe that executes the targets: a sheet wallet is paid exactly once over past and future, within half a unit of the sheet's last decimal, exactly when no transaction pays it by a call its record does not list; a wallet in a named transaction that failed is paid nothing under the same condition |
| `Crosscheck.PaidOnce` | airdrop/tools/safe_batch.py:1715-1885 | without named transactions and where all transactions are plain transfers, always exactly once |
| `Crosscheck.DroppedIgnored` | airdrop/tools/safe_batch.py:1740-1744 | proposals that were never executed and no longer can be do not change the verdict |
| `Crosscheck.FailedPaymentPasses` | airdrop/tools/safe_batch.py:1775-1787 | a payment that was executed and failed passes when it is named |
| `Crosscheck.PaidAsidePasses` | airdrop/tools/safe_batch.py:1831-1863 | a payment passes although an executed transaction has paid its wallet by another call |
| `Crosscheck.UntrustedMayPay` | airdrop/tools/safe_batch.py:1833-1834 | a transaction whose record cannot be trusted may have paid any wallet any amount |
| `Approvals.Build` | bridge-claims/tools/approve_claims.py:541-557 | the call list: the wrap if any, then for each token an optional reset and the approval |
| `Approvals.ApprovalsIff` | bridge-claims/tools/approve_claims.py:550-557 | on tokens that refuse nonzero-to-nonzero changes the approvals go through exactly when no approval that was not reset meets a nonzero one; then exactly the listed ones stand |
| `Approvals.GrantedIs` | bridge-claims/tools/approve_claims.py:550-557 | each listed token ends with its listed approval, every other token keeps its own |
| `Approvals.LiveReadsNeverClash` | bridge-claims/tools/approve_claims.py:550-557 | with live reads, claims that lower allowances in between cannot make the batch fail |
| `Approvals.WrapCoversIff` | bridge-claims/tools/approve_claims.py:541-549 | after any claims, the wrap never exceeds the native balance; it covers what is left of the claims exactly when wrapped coin read plus native rows reach the total, and the whole approval exactly when the coin held does or nothing was claimed |
| `Approvals.FundedButShort` | bridge-claims/tools/approve_claims.py:468-480 | a Safe that passes the funded check and still ends short |
| `Approvals.BatchRuns` | bridge-claims/tools/approve_claims.py:541-557 | the whole batch, wrap and approvals, after any claims on any of the tokens: it goes through, sets exactly the listed approvals, and covers what is left of the claims under the same condition |
| `LocateTransition.Exponential` | toolkit/cmd/account-transition-locate/main.go:405-438 | the doubling phase in 64-bit arithmetic, with at most two lookups more than the binary logarithm of the block number |
| `LocateTransition.Binary` | toolkit/cmd/account-transition-locate/main.go:440-451 | the halving phase in 64-bit arithmetic, with logarithmically many lookups |
| `LocateTransition.LocateBlock` | toolkit/cmd/account-transition-locate/main.go:379-470 | the whole search; its two final checks never fail |
| `LocateTransition.LocateFinds` | toolkit/cmd/account-transition-locate/main.go:405-470 | the block found has the current leaf and its predecessor has not, or it is block 0 |
| `LocateTransition.LocatesLastChangeIff` | toolkit/cmd/account-transition-locate/main.go:405-470 | it is the last change exactly when none of certain blocks before it, fixed by the current block and the last change alone, already had the current leaf |
| `LocateTransition.SuffixLocated` | toolkit/cmd/account-transition-locate/main.go:405-470 | so it is whenever the matching blocks are the last ones |
| `LocateTransition.EachDecides` | toolkit/cmd/account-transition-locate/main.go:405-451 | every one of these blocks matters: with the current leaf in that block alone, the last change is missed |
| `LocateTransition.ReturnIsMissed` | toolkit/cmd/account-transition-locate/main.go:405-438 | a history in which it is not |

## Left out

- JSON-RPC, the Safe service, Etherscan, `cast` and `forge`, keystores: their answers are inputs of the model.
- Keccak and SHA-256 themselves, EIP-55 casing, EIP-712 hashes: arbitrary functions, or not modelled; addresses are numbers below 2^160, or 20 bytes in release packets.
- LayerZero, Safe and ERC-20 contracts beyond the step rules stated in `EscrowRelease`, `VaultExecution` and `Approvals`: their code is not part of the repository. MultiSend is taken to run its calls in order and revert as a whole.
- Reading and writing CSV, JSON and Markdown, signing sheets, argument parsing.
- File locks, fsync, symbolic links and permissions: one holder of the run lock and atomic renames are assumed. Staging directories and the directory of superseded packages are kept apart from the run's tree; the record's revision and time stamps are not modelled.
- RunDirectory.RunDir.RunRefresh: the targets of one refresh are not nested in one another; the source does not check this, and its callers name one directory per contract.
- SealedPackage.SealPasses: file names with a line feed or a carriage return are excluded, as Python's universal newlines would split their manifest line.
- PlannedPaths.Planned: takes the sorted list of different paths; collecting the signable files of a run is not modelled.
- Owner setup and ONE funding calls of the release plan, and the grouping of escrows into Safe batches: membership, threshold and slicing facts that add nothing hard.
- Bech32.FromOne1: works on the text after `strip().lower()`.
- Bech32.TyposRejected: BIP 173 promises detection of up to four errors; one and two are proved.
- AmountText.RoundTripIff: reading covers a sign, digits and one point; exponents, NaN and infinities, other scripts' digits and surrounding white space are not read from text. `Amounts.ShortLiteralIff` and `Amounts.ParsedExactlyIff` hold for every exponent; an exponent beyond Python's own range, which raises, is not modelled.
- VaultExecution.AcceptedPays: assumes that the Safe's balance is below 2^256 - 1, that no delegator's books can overflow by that balance, that an address paid is a vault or has no code, and that the Safe is not a vault.
- PlanExecution.PlanPays: the same assumptions on the ledger, with zero allowances at the start and no other transaction of the Safe in between; a vault with deposits is planned at the address its deployment gives it, or is there already.
- PlanTransactions.Plan: the vault addresses must differ from the token and the deployer, and all vaults must have a nonzero governor, as the build step ensures.
- SelectBatch.Select: the input list has one row per address and the included addresses are different, as the reading step ensures; chosen rows are listed by address.
- Crosscheck.Check: the exchange and exclusion checks (4 and later) are membership tests in given lists and are not modelled.
- Crosscheck.ReadSheet: addresses and amounts come as numbers; blank lines, columns and the text of an amount are not read.
- Crosscheck.PaidOnceIff: assumes that different listed transactions have different hashes, and that the Safe executes no transaction that was not listed when the check ran.
- MerkleForgery.SoundForIff: encodings of at least 32 bytes, which all encodings of the source have, and fewer than 2^248 nodes and encodings in all.
- ReleaseSessions.SessionSafe: other transactions of the sending account do what anybody may do (`EscrowRelease.Meanwhile`), not calls of the release itself.
- Approvals.Build: notes, the revoke batch and the encoding of the calls are not modelled.
- LocateTransition.LocateBlock: the comparisons of balance, nonce and code hash with the input row, and the decoding of the previous account, are not modelled.
- The other scanners of the toolkit, status, reconcile and verification commands, manifest and embargo scripts: comparisons field by field, or access through libraries that are not part of the repository.
