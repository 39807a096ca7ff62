# JGC node: verified model

The JGC node is a small consensus system: a UTXO ledger whose rewards are collected into 144-block
epochs and settled pro rata, a quartering emission schedule, a compact difficulty codec, an audit
protocol with deterministic scheduling and signed verdicts, an escrow journal for assigned work,
Merkle and binary codecs, an authenticated peer session, stake-weighted proposers, a peer guard and a
compute broker. This project models those parts in Dafny and proves what they keep over every run.

Objects that change state in the source (the UTXO set, the epoch accumulator, the chain state, the
audit lifecycle, the session, the journal, the reader, the writer, the guard, the broker, the rows of a
Merkle tree) are classes; each method is proved against a function of the old state, and the lemmas
about whole runs are about those functions. Loops of the source are loops here.

## Reading order

| file | contents |
|---|---|
| Collections.dfy, Canonical.dfy | maps, listings and sums; byte order and sorting |
| Emission.dfy, Difficulty.dfy, ChainTip.dfy | rewards and supply; compact bits and retargeting; tip choice |
| Utxo.dfy, Epoch.dfy, EpochRoot.dfy, Validation.dfy, Chain.dfy, ChainLaws.dfy, TransactionIds.dfy | the ledger step by step, and every accepted chain, in the end in terms of its transactions and contributions alone; what ids commit to |
| Committees.dfy, Audit.dfy, AuditQuorum.dfy, AuditTransitions.dfy, AuditRestore.dfy, AuditLifecycle.dfy, AuditLaws.dfy, AuditBlocks.dfy, Quorum.dfy | verdicts, the lifecycle and its runs, persistence, what both mean vote by vote, blocks, the replay tally |
| AuditSchedule.dfy | coverage and committees |
| ValidatorBonds.dfy, Proposer.dfy | bonded stake and the proposer draw |
| AssignedWork.dfy, AssignedWorkLaws.dfy | the escrow journal, and its books read off the events alone |
| Session.dfy | the session against a hostile network |
| Merkle.dfy, Codec.dfy, WireLayout.dfy | commitments and the wire format, byte by byte |
| PeerGuard.dfy, ComputeBroker.dfy | admission and allocation |

## Assumptions

- Hashes are functions given as parameters. Where a theorem needs more it says so: `CollisionFree`
  (transaction ids commit to outputs and, as far as 32 bits go, to inputs and locktime; session digests
  to their parts), `IdsCommit` and `DigestsCommit` (the ids of well-formed requests and the digests of
  orderly records commit to the fields they cover, the committee being one of them as a comma-joined string), `LinksCommit`. The Merkle
  theorems assume only that the strings hashed on the way do not collide.
- A verifying audit vote names its validator by the address of the key, which holds no comma
  (`AuditQuorum.AddressesCommaFree`, packages/jgc-node/src/crypto/pq-signatures.ts:37-39).
- Signatures are predicates. Only the session theorem assumes unforgeability (`Session.Possible`):
  a verifying message of an honest key was signed by a session of that key. It also assumes that honest
  sessions draw different nonces.
- A clock reading is a parameter, one per call. Random choices are parameters.
- No array holds 2^32 elements, so a 32-bit field can name every output.
- Strings are their UTF-8 bytes; where the source sorts without a comparator, the order is that of UTF-16
  code units (`Canonical.AtMostUnits`). Hex strings that name hashes are byte strings.
- Money is an unbounded integer, as in the source; other numbers are integers with the source's safe
  integer checks written out. TFLOPS in the broker and the tally's threshold are reals.

## Where code and documentation differ

- packages/jgc-node/src/consensus/emission.ts documents the reward as the floor of a closed form; the
  code takes a floor in every era. `Emission.RewardAgainstDocumented` bounds the difference by two units
  and says when there is none; `Emission.DocumentedRewardDiffers` gives an era where there is one.
- The same file places the end of emission near era 267; with the code's floors the reward is zero much
  earlier, exactly from era 140 on (`Emission.RewardVanishes`).
- packages/jgc-node/src/broker/audit-protocol.ts makes finalizing and validating agree only while heights
  do not go back: `AuditTransitions.FinalizedRecordValid` gives the exact condition.
- The same file writes a committee into the audit id as one comma-joined string, so an id does not fix
  the committee. `AuditQuorum.IdFixesCommittee` says when it does. Two contradicting verdicts under the id
  of a comma-free committee prove a double vote exactly when it has three members
  (`AuditQuorum.ForcedOnlyForThree`; `AuditQuorum.NobodyTwice` gives the failing pair from four on), and
  exactly up to five members when one of the two verdicts names that committee itself
  (`AuditQuorum.ForcedBesideUpToFive`, `AuditQuorum.NobodyTwiceBeside`).
- packages/jgc-node/src/crypto/merkle.ts hashes two strings without checking their sizes:
  `Merkle.SoundOnlyForOneLeaf` says when verification is sound anyway, `Merkle.ForgedLeaf` gives the
  accepted path of a string that is no leaf.
- packages/jgc-node/src/consensus/validation.ts accepts a block inside an epoch whose work makes
  applyBlockToEpoch throw afterwards: `Chain.ValidBlockApplies` gives the exact condition.
- packages/jgc-node/src/consensus/block.ts reads encodings it would not write: `Codec.TransactionRewrites`
  says exactly which. packages/jgc-node/src/crypto/merkle.ts offers a proof for an index past the last
  leaf: `Merkle.PhantomLeaf`.

## Model

| member | source | states |
|---|---|---|
| Chain.SupplyConserved | packages/jgc-node/src/network/public-testnet-api.ts:121-124 | On every chain of accepted blocks the unspent values plus the pending pool equal the rewards of heights 0 to the tip, and stay within the cap |
| Chain.EpochPaidOut | packages/jgc-node/src/consensus/epoch.ts:111-254 | When the tip closes an epoch the pool is empty: everything emitted so far is unspent output |
| Chain.OutpointsUsedOnce | packages/jgc-node/src/consensus/utxo.ts:94-112 | Over a whole accepted chain no outpoint is created twice and none is spent twice |
| Chain.SpentStaysSpent | packages/jgc-node/src/consensus/utxo.ts:138-184 | What a chain has spent by some height is in no later set of unspent outputs |
| Chain.ReplayKeeps | packages/jgc-node/src/network/node.ts:1168-1200 | The ledger invariant (coins are created minus spent, outpoints used once, consistent accumulator, conservation) holds after every accepted chain |
| Chain.BlockKeeps | packages/jgc-node/src/consensus/validation.ts:792-945 | One accepted block that applies keeps the whole ledger invariant |
| Chain.SpendIsFresh | packages/jgc-node/src/consensus/utxo.ts:138-184 | An accepted spend never creates an outpoint that existed before, because an equal id would need inputs that are gone |
| Chain.CoinbaseIsFresh | packages/jgc-node/src/consensus/settlement-transaction.ts:12-28 | A value-creating coinbase never repeats an outpoint, because its id commits to its height |
| Chain.SpendsIgnoreCoinbase | packages/jgc-node/src/consensus/validation.ts:844-868 | Spends checked without the block's coinbase outputs succeed with the same fees when applied with them, as no spend can name those outputs |
| Chain.SpendsKeep | packages/jgc-node/src/consensus/validation.ts:858-868 | Spends accepted in block order keep the coin invariant and move value only into fees |
| Chain.CoinbaseCreates | packages/jgc-node/src/consensus/validation.ts:900-943 | The coinbase of an accepted block creates exactly what leaves the pool: everything at a boundary, otherwise nothing |
| Chain.EpochStep | packages/jgc-node/src/network/node.ts:1182-1194 | After an accepted block the pool has grown by subsidy and fees and shrunk by what was released; a fresh epoch starts after a boundary |
| Chain.SettlementIsAccepted | packages/jgc-node/src/consensus/validation.ts:488-544 | In every reachable ledger the settlement built by the producer, from any reading order of the map, is accepted and applies |
| Chain.ValidBlockApplies | packages/jgc-node/src/consensus/epoch.ts:133-136 | A validated block fails to apply exactly when the epoch's work would leave the safe integer range, and never at a boundary |
| Chain.ValidBlockThrows | packages/jgc-node/src/consensus/epoch.ts:133-136 | Without a cap on one proof such a block exists on a reachable ledger: it is valid and does not apply |
| Chain.CappedBlockApplies | packages/jgc-node/src/crypto/zkp.ts:129 | With at most 50,000,000 units per proof every valid block applies while the epoch holds at most 180,143,985 proofs |
| ChainLaws.SpendsAreAuthorized | packages/jgc-node/src/consensus/utxo.ts:138-184 | On every accepted chain each input of each spend names an output with a value that an earlier transaction created and nothing named before; the spend is authorized against that output's script; a coinbase output is at least 100 heights old |
| ChainLaws.UnspentExactly | packages/jgc-node/src/consensus/utxo.ts:79-112 | What is unspent after an accepted chain is exactly the outputs with a value that no spend names, each with the value, script, height and coinbase mark it was created with |
| ChainLaws.ChainCredits | packages/jgc-node/src/consensus/epoch.ts:111-148 | On every accepted chain the accumulator holds exactly the miners who contributed in the running epoch, each with the sum of its own contributions |
| ChainLaws.ContributorsArePaid | packages/jgc-node/src/consensus/epoch.ts:179-254 | When an accepted chain closes an epoch, its coinbase has one output per contributor of that epoch, to the script of the contributor's own name, worth its share of the pool by its own work; only the last may exceed its floor, by at most n - 1 |
| ChainLaws.CoinbasesMint | packages/jgc-node/src/consensus/validation.ts:900-943 | On every accepted chain a first transaction has value only where an epoch closes, and there it spends nothing and names its height |
| ChainLaws.BlocksWork | packages/jgc-node/src/consensus/validation.ts:281-408 | Every block of an accepted chain brings contributions of different miners for different tasks, each at least a tenth of the target in force and together at least the target |
| TransactionIds.WrittenAlike | packages/jgc-node/src/consensus/block.ts:247-293 | Two transactions are written alike exactly when they agree after truncating their 32-bit fields |
| TransactionIds.AlikeOrCollision | packages/jgc-node/src/consensus/block.ts:247-293 | Transactions with one id agree on outputs and, up to 32 bits, on inputs and locktime, or their bytes collide under the hash |
| Utxo.UTXOSet.Add | packages/jgc-node/src/consensus/utxo.ts:79-81 | Stores one entry and changes nothing else |
| Utxo.UTXOSet.Spend | packages/jgc-node/src/consensus/utxo.ts:84-91 | Removes one outpoint, reporting the entry it had; an unknown outpoint changes nothing |
| Utxo.UTXOSet.AddTransactionOutputs | packages/jgc-node/src/consensus/utxo.ts:94-104 | Adds exactly the positive outputs, under the transaction's id and their positions |
| Utxo.UTXOSet.ApplyTransaction | packages/jgc-node/src/consensus/utxo.ts:107-112 | Removes the inputs (of a non-coinbase) and adds the outputs |
| Utxo.UTXOSet.Clone | packages/jgc-node/src/consensus/utxo.ts:115-119 | A fresh set with equal contents |
| Utxo.CheckInputs | packages/jgc-node/src/consensus/utxo.ts:138-173 | Passes exactly for distinct, known, mature and authorized inputs, with their exact sum |
| Utxo.ValidateSpend | packages/jgc-node/src/consensus/utxo.ts:138-184 | Accepts exactly the spends with valid inputs, non-negative outputs and no overspend; the fee is exact |
| Utxo.SpendMeans | packages/jgc-node/src/consensus/utxo.ts:138-184 | A spend is accepted exactly when its inputs are distinct and unspent, each authorized against its coin's script and 100 heights past a coinbase, its outputs non-negative and their sum covered |
| Utxo.SpendConserves | packages/jgc-node/src/consensus/utxo.ts:138-184 | A valid spend under a fresh id moves value into its fee and nowhere else |
| Utxo.TotalCreate | packages/jgc-node/src/consensus/utxo.ts:94-104 | Fresh outputs raise the unspent total by exactly the output sum, zero outputs included |
| Validation.ValidateTransaction | packages/jgc-node/src/consensus/validation.ts:425-466 | Accepts exactly the well-shaped transactions: inputs where needed, outputs, non-negative values within the cap, no repeated input |
| Validation.ShapeMeans | packages/jgc-node/src/consensus/validation.ts:425-466 | The same in figures: at least one output, none negative, together within 210,000 quintillion base units, and without a coinbase at least one input and no two alike |
| Validation.ValidateComputeProofs | packages/jgc-node/src/consensus/validation.ts:281-408 | Accepts exactly when proofs exist, no miner or task repeats, each meets a tenth of the target and the sum meets the target in safe range |
| Validation.NodeFeesAreSpendFees | packages/jgc-node/src/network/node.ts:1590-1611 | For validated spends the node's fee computation equals the sum of the spend fees |
| Validation.CalculateTransactionFees | packages/jgc-node/src/network/node.ts:1590-1611 | The fee loop computes the specified sum, counting unresolved transactions as zero |
| Validation.CheckSpends | packages/jgc-node/src/consensus/validation.ts:858-868 | The scratch-view loop accepts exactly when every spend is valid in its turn |
| Validation.ChainState.constructor | packages/jgc-node/src/network/node.ts:297-322 | The initial state is the genesis ledger with its subsidy in the first pool |
| Validation.ChainState.ValidateBlock | packages/jgc-node/src/consensus/validation.ts:792-945 | Valid exactly when shapes, overwrite check, spends, proofs and coinbase are |
| Validation.ChainState.ValidateSpends | packages/jgc-node/src/consensus/validation.ts:844-868 | Overwrite check and spends against the ledger's coins |
| Validation.ChainState.ValidateCoinbase | packages/jgc-node/src/consensus/validation.ts:900-943 | At a boundary exactly the canonical settlement of the epoch with this block; otherwise no minting |
| Validation.ChainState.ApplyBlockState | packages/jgc-node/src/network/node.ts:1168-1200 | Applies coinbase, spends, accumulator and the fresh epoch as one transition |
| Validation.ChainState.AcceptBlock | packages/jgc-node/src/network/node.ts:1168-1200 | Accepts exactly the valid blocks that apply; an invalid block changes nothing |
| Epoch.EpochState.ApplyBlockToEpoch | packages/jgc-node/src/consensus/epoch.ts:111-148 | The whole new accumulator, including what a thrown error leaves behind |
| Epoch.ApplyBlockKeeps | packages/jgc-node/src/consensus/epoch.ts:111-148 | The recorded total stays the sum of the map; pool grows by subsidy and fees; it throws exactly when the work leaves the safe range |
| Epoch.ComputeEpochSettlement | packages/jgc-node/src/consensus/epoch.ts:179-254 | The settlement is that of every iteration order of the map |
| Epoch.WeightSumOfMap | packages/jgc-node/src/consensus/epoch.ts:179-254 | Listing the map in any order gives the same total of work |
| Epoch.PayoutsSumToPool | packages/jgc-node/src/consensus/epoch.ts:215-240 | The payouts sum to the pool exactly |
| Epoch.SharesAreFair | packages/jgc-node/src/consensus/epoch.ts:215-240 | Every payout is non-negative and at least its floor share, equal to it but for the last, which exceeds it by at most n - 1 |
| Epoch.ValidateCoinbaseTx | packages/jgc-node/src/consensus/validation.ts:488-544 | Accepts exactly the transaction without inputs whose locktime and outputs are the canonical ones |
| Epoch.OutputsPayAmounts | packages/jgc-node/src/consensus/settlement-transaction.ts:12-28 | The settlement outputs carry exactly the payout amounts |
| EpochRoot.CanonicalWriter.Put | packages/jgc-node/src/protocol/canonical.ts:14-50 | Appends one field, or refuses a number outside its width or, given as a number, outside the safe integers |
| EpochRoot.WriterPrefixFree | packages/jgc-node/src/protocol/canonical.ts:14-53 | For equal field kinds the written bytes determine every field and where they end |
| EpochRoot.ComputeEpochRoot | packages/jgc-node/src/consensus/epoch.ts:284-301 | The root is the digest of the canonical fields, whatever order miners entered the map |
| EpochRoot.EpochBytesCommit | packages/jgc-node/src/consensus/epoch.ts:284-301 | The bytes under the root determine the whole accumulator |
| WireLayout.BigEndian | packages/jgc-node/src/protocol/canonical.ts:14-50 | Digit k of a number to base 256 is k positions before the last |
| WireLayout.EpochLayout | packages/jgc-node/src/consensus/epoch.ts:284-301 | Part after part, the bytes under the epoch root: domain, heights, totals, the number of miners, and each miner's name and work |
| WireLayout.EntriesMeans | packages/jgc-node/src/consensus/epoch.ts:284-301 | Every miner of the map once with its own work, names ascending byte by byte |
| Emission.GetBlockReward | packages/jgc-node/src/consensus/emission.ts:140-156 | The loop computes the iterated-floor reward of the height's era |
| Emission.RewardMeans | packages/jgc-node/src/consensus/emission.ts:126-156 | Half a quintillion base units per block for 105,000 blocks, and 105,000 blocks later always the integer part of three quarters |
| Emission.GetCumulativeSupply | packages/jgc-node/src/consensus/emission.ts:166-186 | The era-skipping sum equals the plain sum of block rewards, and the clamp never acts |
| Emission.SupplyBelowCap | packages/jgc-node/src/consensus/emission.ts:166-186 | Total emission never exceeds the hard cap |
| Emission.EraBudget | packages/jgc-node/src/consensus/emission.ts:126-156 | Emitted so far plus four eras at the current reward never exceeds the cap |
| Emission.RewardVanishes | packages/jgc-node/src/consensus/emission.ts:140-156 | The reward is zero exactly from era 140 on |
| Emission.SupplyEventuallyConstant | packages/jgc-node/src/consensus/emission.ts:166-186 | Exactly the blocks from era 140 on add nothing, and the supply is constant from there |
| Emission.RewardAgainstDocumented | packages/jgc-node/src/consensus/emission.ts:126-156 | The reward is at most the documented closed form and at most two units below it; equal exactly when the dropped fraction is below one unit |
| Emission.DocumentedRewardDiffers | packages/jgc-node/src/consensus/emission.ts:126-156 | At era 10 the two differ by one unit |
| Emission.IsValidEpochCoinbase | packages/jgc-node/src/consensus/emission.ts:203-217 | The bound is what the supply grows by over the epoch, plus fees |
| Difficulty.EncodeDifficultyBits | packages/jgc-node/src/consensus/emission.ts:307-323 | The loop computes the encoding, refusing non-positive and over-long targets |
| Difficulty.DecodeEncode | packages/jgc-node/src/consensus/emission.ts:307-335 | Decoding an encoding rounds down by less than one part in 2^16, and not at all below 2^24 |
| Difficulty.EncodeIsCanonical | packages/jgc-node/src/consensus/emission.ts:307-345 | Every encoding is canonical |
| Difficulty.CanonicalFieldsOf | packages/jgc-node/src/consensus/emission.ts:337-345 | Which bit patterns are canonical, by their fields alone, in both directions |
| Difficulty.CanonicalUnique | packages/jgc-node/src/consensus/emission.ts:337-345 | Two canonical encodings of one target are equal |
| Difficulty.EncodeIsGreatest | packages/jgc-node/src/consensus/emission.ts:307-335 | The encoding decodes to the greatest encodable target not above the original |
| Difficulty.DecodeMeans | packages/jgc-node/src/consensus/emission.ts:325-335 | The top byte of compact bits counts the target's bytes, and the rest are its leading three |
| Difficulty.RetargetValue | packages/jgc-node/src/consensus/emission.ts:347-363 | The next target v of a window that took c seconds, counted as at least 302,400 and at most 4,838,400: v * c <= prior * 1,209,600 < (v + 1) * c, or 1 when that quotient is 0 |
| Difficulty.RetargetMoves | packages/jgc-node/src/consensus/emission.ts:347-363 | Half the nominal time doubles the target, a quarter or less quadruples it, twice the time halves it and four times or more quarters it |
| Difficulty.RetargetBounds | packages/jgc-node/src/consensus/emission.ts:347-363 | The next target lies between a quarter and four times the old one, and is at least 1 |
| Difficulty.RetargetAntitone | packages/jgc-node/src/consensus/emission.ts:347-363 | A longer timespan never raises the next target |
| Difficulty.NextBitsCanonical | packages/jgc-node/src/config/difficulty-policy.ts:15-25 | The composed next bits are canonical for any current bits; they fail exactly without a positive target, or when the next target needs more than 255 bytes |
| ChainTip.TipForgetsArrival | packages/jgc-node/src/config/difficulty-policy.ts:10-12 | On the main network nodes that saw the same candidates agree on the tip, whatever the order |
| ChainTip.SettledMeans | packages/jgc-node/src/config/difficulty-policy.ts:10-12 | The tip has the most work of all that were seen; on the main network the lowest hash among those, elsewhere it is the first of them |
| ChainTip.FirstSeenKeepsTies | packages/jgc-node/src/config/difficulty-policy.ts:10-12 | Elsewhere the first of two tips with equal work stays |
| Canonical.AtMostIsTotalOrder | packages/jgc-node/src/protocol/canonical.ts:3-5 | Canonical byte order is a total order |
| Canonical.BeforeMeans | packages/jgc-node/src/protocol/canonical.ts:3-5 | One string is before another when it is a proper prefix or holds the smaller byte where they first differ |
| Canonical.SortForgetsOrder | packages/jgc-node/src/consensus/epoch.ts:209-213 | Sorting by a strict order forgets the arrival order |
| Audit.DeriveVerdictSummary | packages/jgc-node/src/broker/audit-protocol.ts:102-129 | The tally names the commitment with most votes, ties to the least in byte order, and the verdict it supports |
| Audit.OrderIndependent | packages/jgc-node/src/broker/audit-protocol.ts:98-129 | Arrival order of votes never changes the summary |
| Audit.ValidateEvidence | packages/jgc-node/src/broker/audit-protocol.ts:280-297 | Accepts exactly evidence in strictly ascending validator order whose every vote is assigned, in the window and signed |
| Audit.ValidateAuditVerdictRecord | packages/jgc-node/src/broker/audit-protocol.ts:252-307 | Accepts exactly the records whose request, identity, timing, evidence and summary are right |
| AuditLaws.VerdictMeans | packages/jgc-node/src/broker/audit-protocol.ts:102-129 | A valid record's verdict from its votes alone: all signed by different members in the window; a pass exactly when two thirds of the committee reported the claimed commitment, a fraud exactly when two thirds reported another; before the deadline only if everybody voted |
| AuditLaws.LowerMeans | packages/jgc-node/src/broker/audit-protocol.ts:110 | Strings lower-case alike exactly when they differ in nothing but the case of ASCII letters |
| AuditLaws.HexMeans | packages/jgc-node/src/broker/audit-protocol.ts:190-191 | Sixty-four hexadecimal digits of either case |
| AuditLaws.DigestCovers | packages/jgc-node/src/broker/audit-protocol.ts:202-245 | The digest of a verdict covers every field and every vote, up to letter case and the committee's writing |
| AuditLaws.OneQuorum | packages/jgc-node/src/broker/audit-protocol.ts:102-129 | Two commitments never both have two thirds of a committee behind them |
| Committees.JoinedCommits | packages/jgc-node/src/broker/audit-protocol.ts:135-146 | Against a comma-free committee, an equal joined string means equal members exactly when the sizes agree, and comma-free members are common in any case |
| Committees.JoinedForgetsOrder | packages/jgc-node/src/broker/audit-protocol.ts:135-146 | The order in which a committee is listed does not reach its joined string |
| AuditQuorum.SameCommittee | packages/jgc-node/src/broker/audit-protocol.ts:131-146 | Under one audit id a request has the members of a comma-free one exactly when it has as many, which is exactly when it is comma-free itself |
| AuditQuorum.IdFixesCommittee | packages/jgc-node/src/broker/audit-protocol.ts:131-146 | The id of a comma-free request fixes its committee exactly when that has three members; a larger one is written like a smaller one whose last member holds commas |
| AuditQuorum.QuorumsOverlap | packages/jgc-node/src/broker/audit-protocol.ts:252-307 | Whatever the committees' ids look like, a valid pass and a valid fraud verdict under one id overlap as far as the union of both committees forces, and everybody in the overlap signed two different votes |
| AuditQuorum.QuorumIntersection | packages/jgc-node/src/broker/audit-protocol.ts:102-129 | Contradicting valid verdicts under one id, one by a comma-free committee of n, the other naming m: at least ceil(2n/3) + ceil(2m/3) - n of the n signed twice, which is somebody whenever n is at most 5 or m is n |
| AuditQuorum.NobodyTwice | packages/jgc-node/src/broker/audit-protocol.ts:131-146 | Under the id of a comma-free committee of four or more, no id beginning another, two members at each end of it can make a valid pass and a valid fraud verdict without anybody signing twice |
| AuditQuorum.ForcedOnlyForThree | packages/jgc-node/src/broker/audit-protocol.ts:252-307 | If all members can vote and no id begins another: contradicting valid verdicts under the id of a comma-free committee, whatever committees they name, force somebody to sign twice exactly when it has three members |
| AuditQuorum.NobodyTwiceBeside | packages/jgc-node/src/broker/audit-protocol.ts:131-146 | With one record by the comma-free committee itself, such a pair without a common signer exists from six members on |
| AuditQuorum.ForcedBesideUpToFive | packages/jgc-node/src/broker/audit-protocol.ts:252-307 | If all members can vote: contradicting valid verdicts under one id, one of them by a comma-free committee itself, force somebody to sign twice exactly when that committee has at most five members |
| AuditTransitions.FinalizedRecordValid | packages/jgc-node/src/broker/audit-protocol.ts:385-409 | The record that finalizing produces passes the independent validator exactly when no vote is later than the finalization |
| AuditTransitions.RegisterKeeps | packages/jgc-node/src/broker/audit-protocol.ts:357-366 | Registering keeps the lifecycle invariant |
| AuditTransitions.SubmitKeeps | packages/jgc-node/src/broker/audit-protocol.ts:368-383 | Voting keeps the lifecycle invariant |
| AuditTransitions.FinalizeKeeps | packages/jgc-node/src/broker/audit-protocol.ts:385-409 | Finalizing keeps the lifecycle invariant |
| AuditTransitions.FinalizeDueKeeps | packages/jgc-node/src/broker/audit-protocol.ts:411-421 | Finalizing everything due keeps the lifecycle invariant |
| AuditTransitions.IndexKeeps | packages/jgc-node/src/broker/audit-protocol.ts:443-461 | Indexing a committed verdict keeps the lifecycle invariant, for a digest that commits to the fields of orderly records |
| AuditTransitions.PruneKeeps | packages/jgc-node/src/broker/audit-protocol.ts:536-549 | Forgetting requests that left the chain keeps the lifecycle invariant |
| AuditRestore.SnapshotUnique | packages/jgc-node/src/broker/audit-protocol.ts:463-471 | A state has exactly one snapshot |
| AuditRestore.RestoreKeeps | packages/jgc-node/src/broker/audit-protocol.ts:477-530 | Restoring any persisted data whatsoever lands in the lifecycle invariant |
| AuditRestore.NothingDropped | packages/jgc-node/src/broker/audit-protocol.ts:477-530 | Restoring a snapshot drops nothing exactly when every request has room and is chain-bound, no vote is from the future, and every verdict's voters sit in the registered committee of the same size |
| AuditRestore.RestoreUndoesSnapshot | packages/jgc-node/src/broker/audit-protocol.ts:463-530 | Restoring a snapshot gives back the state with nothing dropped and due audits finalized exactly when moreover every request is open or finalized |
| AuditRestore.OrphanReturns | packages/jgc-node/src/broker/audit-protocol.ts:520-528 | A request whose verdict was dropped keeps the invariant, and a restart opens its audit again |
| AuditRestore.CommaFreeRecounts | packages/jgc-node/src/broker/audit-protocol.ts:206-245 | Alike requests with comma-free committees always let a verdict be counted again |
| AuditRestore.RebuiltVerdicts | packages/jgc-node/src/broker/audit-protocol.ts:506-526 | A rebuilt verdict commits to the same digest exactly when the registered committee has its size, and is identical if this node finalized it on the registered request |
| AuditLifecycle.AuditLifecycle.RegisterRequest | packages/jgc-node/src/broker/audit-protocol.ts:357-366 | Accepts exactly well-shaped requests in their window, not yet known, within the limit |
| AuditLifecycle.AuditLifecycle.SubmitVote | packages/jgc-node/src/broker/audit-protocol.ts:368-383 | Records a vote exactly when it is assigned, first, in the window and signed |
| AuditLifecycle.AuditLifecycle.FinalizeAudit | packages/jgc-node/src/broker/audit-protocol.ts:385-409 | Seals a ripe audit with its evidence in canonical order |
| AuditLifecycle.AuditLifecycle.FinalizeDueAudits | packages/jgc-node/src/broker/audit-protocol.ts:411-421 | Seals exactly the due audits, in whatever order the map is read |
| AuditLifecycle.AuditLifecycle.IndexCommittedVerdict | packages/jgc-node/src/broker/audit-protocol.ts:443-461 | Takes over a valid record, keeping an equal earlier copy |
| AuditLifecycle.AuditLifecycle.SnapshotState | packages/jgc-node/src/broker/audit-protocol.ts:463-471 | Every request, open vote and verdict once, in canonical order |
| AuditLifecycle.AuditLifecycle.RestoreState | packages/jgc-node/src/broker/audit-protocol.ts:477-530 | Re-validates requests, votes and verdicts in turn, counts what is dropped, and reports exactly the audits finalized at the end |
| AuditLifecycle.AuditLifecycle.ReconcileState | packages/jgc-node/src/broker/audit-protocol.ts:536-549 | Forgets and counts what left the chain, then finalizes and reports what is due |
| AuditLifecycle.ReachableStates | packages/jgc-node/src/broker/audit-protocol.ts:345-549 | In every state reachable under non-decreasing heights: bounded disjoint open audits with at most one valid in-window vote per member, and only verdicts that validate on their own |
| AuditLaws.ReachedAudits | packages/jgc-node/src/broker/audit-protocol.ts:345-549 | In every reachable state requests are proper, every open audit holds at most one genuine signed vote under each member's own name, and every verdict is what its votes decide |
| AuditLaws.RegisterExactly | packages/jgc-node/src/broker/audit-protocol.ts:357-366 | Exactly proper requests within their window, new and with room, open an audit without votes; nothing else changes |
| AuditLaws.VoteExactly | packages/jgc-node/src/broker/audit-protocol.ts:368-383 | Exactly a member's first vote that is signed for this audit and dated between beacon, deadline and height is recorded; nothing else changes |
| AuditLaws.SealExactly | packages/jgc-node/src/broker/audit-protocol.ts:385-409 | An audit is sealed exactly past its deadline or when no member is missing, with every vote once, in a record that validates |
| AuditLaws.SealDueExactly | packages/jgc-node/src/broker/audit-protocol.ts:411-421 | Audits in time with a member missing stay as they were; every other is closed with a valid record of all its votes, and no verdict changes |
| AuditLaws.IndexExactly | packages/jgc-node/src/broker/audit-protocol.ts:443-461 | A valid record closes its audit, brings its request, and replaces an earlier record unless that has the same digest; an invalid one changes nothing |
| AuditLaws.ForgetExactly | packages/jgc-node/src/broker/audit-protocol.ts:536-549 | Exactly the requests that left the chain are forgotten, with their audits and verdicts |
| AuditLaws.RestoredRequests | packages/jgc-node/src/broker/audit-protocol.ts:477-500 | A restart takes over only requests of the snapshot that are proper and still bound to the chain |
| AuditBlocks.ValidateAuditVerdicts | packages/jgc-node/src/consensus/validation.ts:604-664 | Accepts exactly few enough new valid records in strictly ascending id order |
| AuditBlocks.AuditsCommittedOnce | packages/jgc-node/src/consensus/validation.ts:638-664 | Over a whole chain every audit has at most one committed verdict |
| AuditBlocks.AcceptedExactly | packages/jgc-node/src/consensus/validation.ts:604-664 | A chain is accepted exactly when each block has at most 64 valid, chain-bound records finished before it, their ids hexadecimal and ascending, and no audit has two verdicts on the whole chain |
| Quorum.TallyQuorum | packages/jgc-node/src/broker/quorum.ts:127-156 | The tally with ties to the first-seen commitment, and its verdict |
| Quorum.OutcomeMeans | packages/jgc-node/src/broker/quorum.ts:127-156 | For every threshold above one half: a pass exactly when the claim's own share of enough votes reaches it, a slash exactly when another commitment's does |
| Quorum.OrderIsIrrelevantAboveHalf | packages/jgc-node/src/broker/quorum.ts:138-153 | For every threshold above one half the verdict does not depend on vote order |
| Quorum.OrderDecidesAtHalf | packages/jgc-node/src/broker/quorum.ts:138-153 | For every threshold of one half or less and every minimum quorum, some votes pass in one order and slash in another |
| AuditSchedule.WindowsPartition | packages/jgc-node/src/broker/audit-schedule.ts:100-114 | Every height after genesis lies in exactly one window, whose beacon comes later |
| AuditSchedule.SelectCommittee | packages/jgc-node/src/broker/audit-schedule.ts:148-167 | The best-ranked eligible validators, whatever their order |
| AuditSchedule.BuildAuditSchedule | packages/jgc-node/src/broker/audit-schedule.ts:174-267 | Throws exactly on bad policy, beacon or ids; otherwise gives the schedule of the sets of claims and validators |
| AuditSchedule.ScheduleUnique | packages/jgc-node/src/broker/audit-schedule.ts:169-173 | One round has one schedule, so every permutation of claims and validators gives the same |
| AuditSchedule.CoverageFloor | packages/jgc-node/src/broker/audit-schedule.ts:214-261 | Every claimant in the window has exactly one coverage assignment or is uncovered, never both |
| AuditSchedule.CommitteesAreIndependent | packages/jgc-node/src/broker/audit-schedule.ts:148-167 | Every committee has exactly the required number of different members in the order of the draw, each an active validator with the minimum bond and none the claimant, and no other such validator was drawn before a member |
| AuditSchedule.AuditedExactly | packages/jgc-node/src/broker/audit-schedule.ts:202-261 | Audited are exactly the window's claims that were drawn first for their claimant or fell under the extra probability, where enough other active bonded validators exist; a claimant whose first drawn claim lacks them is uncovered |
| AuditSchedule.AuditedInOneWindow | packages/jgc-node/src/broker/audit-schedule.ts:202-204 | The schedules of two windows never audit one claim |
| ValidatorBonds.ParseInvertsBuild | packages/jgc-node/src/consensus/validator-bonds.ts:24-52 | Parsing inverts building exactly when there is an owner script |
| ValidatorBonds.BondLayout | packages/jgc-node/src/consensus/validator-bonds.ts:24-36 | A bond script is eight marker bytes, the id's length high byte first, the id and the owner's script, and exists exactly for ids of 1 to 4096 bytes |
| ValidatorBonds.BuildInvertsParse | packages/jgc-node/src/consensus/validator-bonds.ts:24-52 | What parses was built from the id and owner it gives |
| ValidatorBonds.ValidatorStakeSnapshot | packages/jgc-node/src/consensus/validator-bonds.ts:54-77 | Each validator's stake is the sum of its bond outputs, with exactly those outpoints, in canonical order |
| ValidatorBonds.RosterUnique | packages/jgc-node/src/consensus/validator-bonds.ts:49-77 | The unspent outputs alone determine the roster: no iteration order |
| Proposer.SortedPositiveValidators | packages/jgc-node/src/consensus/proposer.ts:15-31 | Throws exactly on malformed snapshots; otherwise the staked validators in canonical order |
| Proposer.SelectBlockProposer | packages/jgc-node/src/consensus/proposer.ts:39-75 | Throws exactly on a malformed snapshot or, with stake to draw on, a malformed hash or height; the cumulative loop always resolves, to a validator with stake |
| Proposer.ChanceIsStake | packages/jgc-node/src/consensus/proposer.ts:63-75 | Exactly stake(v) of the residues below the total stake select v, and every residue selects someone |
| Proposer.ProposerMeans | packages/jgc-node/src/consensus/proposer.ts:58-75 | A validator proposes exactly when the draw modulo the total stake falls among the residues that its stake adds to the stake of those before it |
| Proposer.RollMeans | packages/jgc-node/src/consensus/proposer.ts:15-31 | The roll lists exactly the validators with stake, ids ascending byte by byte |
| Proposer.OrderIrrelevant | packages/jgc-node/src/consensus/proposer.ts:58-75 | The order in which the snapshot lists validators is irrelevant |
| AssignedWork.ExecuteVectorDot | packages/jgc-node/src/broker/assigned-work.ts:65-68 | The exact dot product in decimal, or an error for malformed vectors |
| AssignedWork.PrintedIsExact | packages/jgc-node/src/broker/assigned-work.ts:65-68 | The printed output identifies the number |
| AssignedWork.Ledger.Apply | packages/jgc-node/src/broker/assigned-work.ts:86-166 | Applies exactly the allowed events; a refused event changes nothing |
| AssignedWork.CreditsConserved | packages/jgc-node/src/broker/assigned-work.ts:86-166 | After every replay balances plus reserved amounts equal everything credited, and a result is present only if it is the exact dot product under the job's lease |
| AssignedWorkLaws.AccountLaw | packages/jgc-node/src/broker/assigned-work.ts:86-166 | After every replay an account's balance is what was credited to it, plus the refunds of jobs it funded, plus the pay of funded jobs whose completion names it as miner, less the funding of jobs it created; each a sum over the events |
| AssignedWorkLaws.BooksFromEvents | packages/jgc-node/src/broker/assigned-work.ts:86-166 | After every replay each job has the inputs, last lease, result and reservation that the events give it |
| AssignedWorkLaws.AcceptedExactly | packages/jgc-node/src/broker/assigned-work.ts:86-166 | After any replay exactly the events are accepted that the earlier events allow, read off the list alone |
| AssignedWork.ReservationLeftOnce | packages/jgc-node/src/broker/assigned-work.ts:118-166 | A job that was paid or refunded never changes again |
| AssignedWork.LeaseWindowsDisjoint | packages/jgc-node/src/broker/assigned-work.ts:132-141 | The lease windows of a job are disjoint and move forward even if the clock runs backwards |
| AssignedWork.AssignedWorkJournal.Read | packages/jgc-node/src/broker/assigned-work.ts:176-195 | Reads exactly the linked journals whose every event is allowed in turn, giving the replayed books |
| AssignedWorkLaws.ReadableExactly | packages/jgc-node/src/broker/assigned-work.ts:176-195 | A journal reads back exactly when it has at most 10,000 entries, the first names the network's digest and each later one the checksum before it, each checksum links that to the event, and each event is allowed after those before it |
| AssignedWork.AssignedWorkJournal.Write | packages/jgc-node/src/broker/assigned-work.ts:203-207 | A writer with a stale revision is refused and changes nothing |
| AssignedWork.AssignedWorkJournal.Append | packages/jgc-node/src/broker/assigned-work.ts:198-209 | Appends exactly the allowed events, and the journal then reads back as the transitioned books |
| AssignedWork.TipCommits | packages/jgc-node/src/broker/assigned-work.ts:176-195 | The last checksum pins down the whole journal |
| Session.AuthSession.SealMessage | packages/jgc-node/src/network/auth-session.ts:23-35 | Challenges carry the nonce; other messages the session id and next number, or are dropped |
| Session.AuthSession.OpenMessage | packages/jgc-node/src/network/auth-session.ts:37-64 | Accepts exactly authentic challenges and next messages; a refused one changes nothing |
| Session.SessionSafety | packages/jgc-node/src/network/auth-session.ts:23-64 | Against a network that drops, replays, reorders and injects: a ready session has one paired session of the peer key over the same keys, nonces and id, and what it accepted is a prefix of what that session sealed |
| Session.OpenMeans | packages/jgc-node/src/network/auth-session.ts:37-64 | Accepted are exactly messages whose signature verifies, dated at most 900 seconds ago and 120 ahead, that are a foreign challenge or the next message of the peer and id; what each changes |
| Session.SealMeans | packages/jgc-node/src/network/auth-session.ts:23-35 | Every message sent is signed under the own key with the time of sending; all but challenges carry the session id and the next number, before readiness only the VERACK |
| Session.OpenUndoesSeal | packages/jgc-node/src/network/auth-session.ts:23-64 | The next message opens as it was sealed; a second VERACK never does |
| Session.HandshakeAgrees | packages/jgc-node/src/network/auth-session.ts:37-52 | Exchanged challenges give both sides the same session id |
| Merkle.BuildMerkleTree | packages/jgc-node/src/crypto/merkle.ts:113-144 | The stored rows, padded in place after storage, and the root are those of the recursive definition |
| Merkle.RootOfHalves | packages/jgc-node/src/crypto/merkle.ts:113-144 | The root over two halves of 2^k leaves is the left half's root combined with the right half's |
| Merkle.SmallRoots | packages/jgc-node/src/crypto/merkle.ts:113-144 | No leaf gives 32 zero bytes, one leaf itself, two their combination, and three repeat the last |
| Merkle.GetMerkleProof | packages/jgc-node/src/crypto/merkle.ts:171-209 | The sibling path of an index of the stored first row; an error exactly outside it |
| Merkle.VerifyMerkleProof | packages/jgc-node/src/crypto/merkle.ts:222-237 | True exactly when climbing the path gives the root |
| Merkle.PathMeans | packages/jgc-node/src/crypto/merkle.ts:222-237 | A sibling marked left is combined from the left, any other from the right, one after the other |
| Merkle.ProofVerifies | packages/jgc-node/src/crypto/merkle.ts:171-237 | Every proof of every index climbs to the root |
| Merkle.ProofSound | packages/jgc-node/src/crypto/merkle.ts:211-237 | With strings of the hash's size, whatever path of full depth climbs to the root started at a leaf, unless tree and path hashed a collision |
| Merkle.ForgedLeaf | packages/jgc-node/src/crypto/merkle.ts:87-93 | The verifier checks no sizes: every tree of two leaves or more accepts the path of a 33-byte string that is no leaf |
| Merkle.SoundOnlyForOneLeaf | packages/jgc-node/src/crypto/merkle.ts:222-237 | Without size checks soundness holds for exactly the trees of one leaf |
| Merkle.RootCommits | packages/jgc-node/src/crypto/merkle.ts:113-144 | Lists of equal length with equal roots are equal, unless building their trees hashed a collision |
| Merkle.RepeatedLastSameRoot | packages/jgc-node/src/crypto/merkle.ts:102-104 | The length matters: repeating the last leaf of an odd list keeps the root |
| Merkle.PhantomLeaf | packages/jgc-node/src/crypto/merkle.ts:171-178 | Exactly the odd lists longer than one have one provable index too many, the last leaf again |
| Merkle.VerifyComputeProofInclusion | packages/jgc-node/src/consensus/validation.ts:961-989 | True exactly when the leaf is listed and the given root is the list's root |
| Codec.SerializeTransaction | packages/jgc-node/src/consensus/block.ts:272-293 | Writes the canonical layout, refusing amounts outside u128 |
| Codec.DeserializeTransaction | packages/jgc-node/src/consensus/block.ts:299-341 | Reads what the layout says, or fails on truncation; trailing bytes are ignored |
| Codec.TransactionRoundTrip | packages/jgc-node/src/consensus/block.ts:239-341 | Reading a written transaction, whatever follows, gives it back with its 32-bit fields truncated |
| Codec.PrefixFree | packages/jgc-node/src/consensus/block.ts:272-341 | In-range transactions are determined by their bytes even inside a longer stream |
| Codec.TransactionRewrites | packages/jgc-node/src/consensus/block.ts:272-341 | Whatever parses is in range, and writing it gives back the bytes read exactly when varints were shortest and the broker flag 0 or 1 |
| Codec.HeaderRoundTrip | packages/jgc-node/src/consensus/block.ts:77-160 | A valid header reads back from its 192 bytes |
| Codec.HeaderRewrites | packages/jgc-node/src/consensus/block.ts:77-160 | Every accepted buffer is the one serialization of the header it gives |
| Codec.HeaderFields | packages/jgc-node/src/consensus/block.ts:77-116 | At which of the 192 bytes each header field lies |
| WireLayout.LittleEndian | packages/jgc-node/src/consensus/block.ts:228-260 | Digit k of a number to base 256 is at position k |
| WireLayout.VarIntLayout | packages/jgc-node/src/consensus/block.ts:236-250 | A count below 253 is one byte; a larger one a marker of 253, 254 or 255 and 2, 4 or 8 bytes |
| WireLayout.OneSpendLayout | packages/jgc-node/src/consensus/block.ts:272-293 | Part after part, the bytes of a transaction with one input and one output |
| WireLayout.InOrder | packages/jgc-node/src/consensus/block.ts:272-293 | Inputs are written in order, one after the other |
| WireLayout.OutInOrder | packages/jgc-node/src/consensus/block.ts:272-293 | Outputs are written in order, one after the other |
| PeerGuard.PeerGuard.State | packages/jgc-node/src/network/peer-guard.ts:120-136 | Finds or makes room for a host, or says that the table stays full |
| PeerGuard.PeerGuard.AdmitPeer | packages/jgc-node/src/network/peer-guard.ts:67-76 | Admits exactly hosts without an active ban and within the inbound limit |
| PeerGuard.PeerGuard.ReleasePeer | packages/jgc-node/src/network/peer-guard.ts:78-82 | Lowers the counters, never below zero |
| PeerGuard.PeerGuard.AllowPeerMessage | packages/jgc-node/src/network/peer-guard.ts:84-98 | Counts the message in its bucket, and penalizes the host over the limit |
| PeerGuard.PeerGuard.PenalizePeer | packages/jgc-node/src/network/peer-guard.ts:100-108 | Adds the penalty and bans at the threshold |
| PeerGuard.RunsKeepWorld | packages/jgc-node/src/network/peer-guard.ts:58-143 | Over every well-bracketed run: at most 4096 hosts, counters equal to live connections, inbound within the limit, and no bucket over its limit |
| PeerGuard.NeverForgotten | packages/jgc-node/src/network/peer-guard.ts:120-143 | No step evicts a live or banned host, or shortens a ban |
| PeerGuard.AdmitMeans | packages/jgc-node/src/network/peer-guard.ts:67-76 | A known host is admitted exactly without an active ban in the table before the call and within the inbound limit; a new one exactly when there is room; its counters grow by this connection |
| PeerGuard.MessageMeans | packages/jgc-node/src/network/peer-guard.ts:84-98 | A known host's message passes exactly without an active ban and with room in the window; it is counted, and one too many is a flood |
| PeerGuard.PenaltyMeans | packages/jgc-node/src/network/peer-guard.ts:100-108 | A violation adds 20, 50 or 10 to what is left of the score; reaching the ban score bans for the whole duration and clears it |
| PeerGuard.BannedMeans | packages/jgc-node/src/network/peer-guard.ts:114-118 | A known host counts as banned exactly while its ban lasts, an unknown one exactly when the table stays full |
| PeerGuard.BannedStaysOut | packages/jgc-node/src/network/peer-guard.ts:58-143 | Over every run a host is not admitted, and no message of it passes, before a ban of it has ended |
| ComputeBroker.ComputeBroker.RegisterNode | packages/jgc-node/src/broker/compute-broker.ts:122-132 | Stores the node with its idle capacity derived |
| ComputeBroker.RegisteredBalance | packages/jgc-node/src/broker/compute-broker.ts:122-132 | Registration balances exactly the nodes that have not promised more than they have |
| ComputeBroker.ComputeBroker.FindBestNodeForTask | packages/jgc-node/src/broker/compute-broker.ts:404-430 | A fresh capable node with the most idle capacity, or nobody could serve |
| ComputeBroker.BestMeans | packages/jgc-node/src/broker/compute-broker.ts:404-430 | The best node was seen within the last minute, can do the work, has idle capacity and at least the minimum, and no other such node has more; none exactly when there is none |
| ComputeBroker.ComputeBroker.AllocateJGClusterTasks | packages/jgc-node/src/broker/compute-broker.ts:223-260 | Serves the queue in order, each task from the best node then left, until its head fits nowhere |
| ComputeBroker.ComputeBroker.AllocateBid | packages/jgc-node/src/broker/compute-broker.ts:268-298 | Each slice is taken from the best node then left, as much as it has idle or the bid lacks; at most one slice per node, each exhausting its node but for a last one that completes the bid, until the bid is satisfied or nobody can serve it |
| ComputeBroker.ComputeBroker.AllocateCommercialBids | packages/jgc-node/src/broker/compute-broker.ts:262-300 | Every bid in turn, capacity accounted exactly, every slice still draining its node or completing its bid at the end |
| ComputeBroker.ComputeBroker.AllocateScientificFallback | packages/jgc-node/src/broker/compute-broker.ts:302-330 | Live fallback bids take all that fresh nodes have idle, one unit or more and no node twice; no fresh node keeps a whole unit idle when such a bid exists |
| ComputeBroker.ComputeBroker.RunAllocationCycle | packages/jgc-node/src/broker/compute-broker.ts:194-330 | One cycle: capacity only moves, idle never negative, bids by price and draining every node but for a completing slice, whoever waits could not be served, and no fresh node keeps a whole idle unit when a fallback exists |
| ComputeBroker.DrawnBalanced | packages/jgc-node/src/broker/compute-broker.ts:223-330 | Every node that satisfied the capacity equation still does, with its total and consensus share unchanged |

## Left out

- Website, worker, deployment, databases, wallet, mining loops and RPC: plumbing around the modelled parts.
- ML-DSA, ML-KEM, SHA-2, SHA-3 and the compute proof verifiers: abstract functions and predicates.
- Proof verification: a valid proof's verified work equals its claimed weight, so a contribution carries one number.
- Utxo.ValidateSpend: unwrapping a bond script before checking its owner's signature is part of the `authorized` predicate.
- Validation.ChainState.ValidateBlock: header rules, Merkle and epoch roots, audit evidence and contribution signatures are one predicate `otherChecks` of the ledger model; the roots, records and codecs are modelled in their own files.
- Reorganization in network/node.ts: it rebuilds a state by replaying the branch from genesis, which `Chain.Replay` covers; choosing the branch is `ChainTip`.
- The testnet branches of config/difficulty-policy.ts and the number-valued difficulty helpers: floating point.
- Validation.ValidateComputeProofs: does not model header bit canonicality, the slot nonce, contribution signatures, proof verification with its caps per scheme, or the computeRoot comparison, which are not about work sums and duplicates; `Chain.CappedBlockApplies` takes the largest built-in cap as a premise.
- AuditBlocks.ValidateAuditVerdicts: the beacon, claim, window and committee checks against the active chain are one predicate, as they need historical blocks; the auditRoot comparison is left to `otherChecks`.
- AuditLifecycle.AuditLifecycle.RestoreState: the list of verdicts finalized at the end is specified as a set, not in its order.
- Audit.Lower: lower-cases ASCII letters only, which is all that the checked hexadecimal fields can contain.
- Merkle.GetMerkleProof: the tree is one that buildMerkleTree can return; hand-made trees with missing rows are not modelled.
- ValidatorBonds.ValidatorStakeSnapshot: the snapshot root is a function of height and roster; that the source concatenates fields without lengths is not modelled.
- ValidatorBonds.ParseBondScript: decoding UTF-8 is a parameter; ids that do not decode to themselves are kept apart in the lemmas.
- Codec.DeserializeTransaction: lengths are exact where the source reads a 64-bit length into a double; the two agree on every buffer shorter than 2^53 bytes. The broker reference is bytes, not decoded text.
- AssignedWork.AssignedWorkJournal.Read: file names, file sizes, JSON text and fsync are not modelled; the directory is a sequence of entries.
- ComputeBroker.ComputeBroker.RunAllocationCycle: runs over fresh nodes and live bids; expiring stale ones, `deregisterNode` and `failAssignment` are left out, as the latter frees broker capacity for internal tasks, so the capacity equation is claimed per cycle. Nodes are values in a map, not shared objects; assignment ids and deadlines are left out.
- PeerGuard.PeerGuard: host extraction from an address is a parameter; the throwaway state of a full table is a flag.
- challenge.ts economics, share percentages, launch-gate and readiness checks: field-by-field code with little beyond its branches.
