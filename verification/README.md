# Zycord node: consensus core in Dafny

A model of the parts of the Zycord node that decide what the chain is, and proofs
of what those parts promise together.

**The fold** (`Types`, `Validity`, `Ledgers`, `Fold`) is the state transition of
`core/fold` as a function of values: block rules, canonical order, and for each
certificate reserve, test, stage, commit, sweep, settle; then pruning, the subsidy
split, the burst forfeiture, the coinbase ring and the epoch controller. The laws
are built up from one certificate (`Derivation`, `CertLaws`, `AssetLaws`,
`NoOverflow`) to one block (`BlockLaws`, `Conservation`, `BlockFrames`, `Solvency`)
to every run from the empty state (`Runs`, `Liveness`, `Epochs`, `FoldOrders`,
`Genesis`): conservation of value, one bill per signature, frozen burned addresses,
coinbase maturity, no reachable overflow, no proposer choice. What a certificate is
charged and refunded (`Billing`), what the sweep moves (`Sweeps`) and what each program
does to every cell (`Effects`) are stated apart from the code that does it and carried
to every outcome of every run (`Histories`); so are who may lower a balance
(`Authority`, `Signers`), what the stateless rules come to (`Admission`), what a block
issues (`Subsidies`), the fee and target controllers (`Controllers`) and the block
rules (`Rules`).

**The same fold in place** (`Journals`, `Machine`, `BlockChecks`, `BlockMachine`)
mutates a state object through an undo journal, loop by loop as the source does.
Each method is proved against its function in `Fold`, and the journal's invariant
is the undo theorem: a refused block leaves the state as it was, an accepted block
comes with a log that restores it exactly.

**The wallet** (`Wallet`, `Verdicts`, `WalletLaws`, `Custody`, `Witness`): the pre-flight
rules, each proved to accept exactly its meaning, and the refinement of the fold's
verdict.

**Proof of work** (`Times`, `Medians`, `Difficulty`, `Retarget`, `Solvers`,
`Bytes`): the median-time rule, the difficulty rule with its 64-bit accumulators,
and the nonce solver against the verifier.

**Edwards arithmetic** (`Fields`, `Curve`, `Doubling`, `Closure`, `Completeness`,
`Affine`, `Scalars`, `Primes`, `Fermat`, `Encodings`, `Roots`): reduction and point
operations in place under aliasing, the addition law as the Edwards law in affine
coordinates, closed and complete, windowed multiplication, decompression, its byte
filter and its round trip (section 5.1.3 of RFC 8032).

**Release ordering** (`Orders`, `Versions`, `Precedence`), a stated deviation from
section 11 of SemVer 2.0.0.

`dafny verify dfyconfig.toml` checks the whole project.

## How the model reads the source

- A 32-byte address, hash or key is the big-endian number it spells; `Bytes` proves
  that byte-wise comparison is then comparison of numbers. A storage word is a
  constructor, so no two purposes share a cell by definition.
- Digests, roots, the work engine and signature checks are function parameters.
  No injectivity is assumed of them; the one law that needs it, `Runs.OneBill`,
  asks only that no two certificates of the run share an id and differ in TTL.
- `uint64` wrap-around is written out (`Wrap64`, `Signed64`), 256-bit overflow flags
  are comparisons with 2^256.
- A run is a sequence of accepted blocks at heights 0, 1, 2, ...; the fold itself does
  not check that heights are consecutive.

## Where the code and its promises differ

- `update/version.go` promises a total order. It is one exactly where every field has
  one spelling (`Versions.TransitiveIffOneSpelling`): the field loop returns at the first
  differently spelled field even when it compares equal. Section 9 of SemVer 2.0.0 does
  not help, since it allows zeroes inside alphanumeric identifiers such as rc01.
- `update/version.go` says numeric fields are below alphanumeric ones. One too large for an
  int is read as text, and is then above a field such as 5a
  (`Precedence.NumberBelowText`, `Precedence.HugeNumberAboveText`).
- `wallet/policy.go` does not ask whether debited or retired addresses are already spent,
  nor whether an issue's or mint's own reads hold; `WalletLaws.CheckedMeansApplied` states
  the exact remainder, and `Witness.AcceptedYetSkipped` a certificate it accepts and the
  fold skips.
- `core/crypto/edwards.go` sub is right if and only if its destination is not its
  subtrahend or its operands are the same residue (`Fields.Scratch.SubInto`;
  `Fields.AliasedSubtraction` is an input on which it is wrong); no caller in the file
  writes over its subtrahend.
- `core/pow/pow.go` computes the exact mean target if and only if the remainders fit 64
  bits (`Difficulty.ComputeMean`), which takes more than 2^32 headers to break.

## Model

| member | source | states |
|---|---|---|
| `Runs.RunConserves` | core/fold/fold.go:355-576 | along every run from the empty state, all native balances plus pending rewards plus the treasury equal what the schedule issued less everything reported burned, whatever the outcomes |
| `Runs.OneBill` | core/fold/blockrules.go:172-212 | along every run an id settles (applied or skipped) at one block and one position only, although seen entries are pruned |
| `Runs.SettledIsRemembered` | core/fold/fold.go:441-447 | a settled id stays in the seen set, with its TTL, until no later block could include it |
| `Runs.SeenWasSettled` | core/fold/fold.go:1336-1342 | an id is in the seen set only because it settled: a certificate that was only dropped can come back |
| `Runs.RunFreezes` | core/fold/fold.go:678-717 | once an address is in the spent registry no later block of any run changes a cell under it, and the registry never shrinks |
| `Runs.TreasuryIsSealed` | core/fold/fold.go:556-568 | in every reachable state the treasury cell is the running sum of the treasury shares |
| `Runs.RingHolds` | core/fold/fold.go:1281-1313 | each position of the maturity ring holds the latest reward and payee written there and nothing else |
| `Runs.MaturesOnTime` | core/fold/fold.go:1286-1303 | block h settles the reward of block h minus the maturity and no other, whole to the named payee or whole to the burn |
| `Runs.RunIsSound` | core/fold/fold.go:306-634 | the invariant of reachable states: only one-shot addresses are spent, the ring owes only users, the gas target stays within its bounds |
| `Runs.GenesisPaysNothing` | core/fold/blockrules.go:349-371 | an accepted block at height 0 has no outcomes and pays neither producer nor treasury |
| `Histories.RunActs` | core/fold/fold.go:353-377 | along every run, while the issued coin fits in 256 bits, every certificate of every block got the outcome its program and the state before it call for, and left every cell and the registry as its program says |
| `Authority.RunTakes` | core/validity/validity.go:452-550 | along every run a user's balance of any asset falls at a block only if the block carries a certificate with a verifying signature for that address, and settles it |
| `Subsidies.TreasuryIsItsShare` | core/fold/fold.go:466-468 | along every run the treasury cell is its basis points of everything issued, short by less than one unit a block |
| `Histories.RootIsCommitted` | core/fold/fold.go:623-631 | along every run a boundary block's header commits to the root of the state it leaves, and no other header to anything |
| `Histories.SeenIsPruned` | core/fold/fold.go:441-447 | along every run the seen set holds no id whose TTL lies before the last block's parent |
| `Epochs.CitesAreSiblings` | core/fold/blockrules.go:284-344 | along every run every cited header has the height, parent and target of the citing block's own parent and is not the header it names as its parent; nothing is cited before height 2 |
| `Controllers.RunTargetMoves` | core/fold/fold.go:1200-1222 | along every run the target at a boundary is the point of the allowed step nearest to twice the last epoch's lower median: down by one part in the decay divisor, up by one in the growth divisor and only if the citations stayed under the gate, within genesis and capacity |
| `Controllers.RunFeesMove` | core/fold/fold.go:585-620 | along every run each base fee moves with its applied gas: up by one part in the denominator of the relative excess, at least one unit, down by the same and not below the floor, unchanged on target |
| `Controllers.FeesStayUp` | core/params/params.go:670-726 | in every reachable state both base fees are at or above the floor |
| `Controllers.BeaconHolds` | core/fold/fold.go:1143-1152 | in every reachable state the beacon cells are the last boundary's height, epoch and top half of its parent id |
| `Liveness.RunIsBacked` | core/fold/fold.go:897-923 | in every reachable state each asset's balances sum to its minted cell, which is at most its cap |
| `Liveness.RunNeverFails` | core/fold/fold.go:266-268 | on top of any run a block that breaks no rule is accepted or refused by its state root alone: while the issued coin fits in 256 bits there is no conservation failure, no certificate is skipped for overflow, and a sweep leaves coin behind only where the refund address was already dead, never for want of room |
| `Liveness.BeyondIssuance` | core/validity/validity.go:621-650 | a deposit beyond what is issued by the TTL is refused statelessly, and no state of any run in which the certificate could still be included holds it |
| `Epochs.ControllerSeesItsEpoch` | core/fold/fold.go:1200-1222 | at every boundary the new target is the controller's function of the lower median of exactly the last epoch's applied gas and of the number of distinct headers those blocks cited |
| `Epochs.RingIsEpoch` | core/fold/fold.go:433 | at a boundary the sample ring, read in order, is the applied gas of the last epoch's blocks |
| `Epochs.CitedHolds` | core/fold/fold.go:434-437 | the citation counter equals the citations of the blocks since the last boundary |
| `Epochs.CitationsAreDistinct` | core/fold/blockrules.go:303-342 | the citations of different blocks and within one block are pairwise different headers |
| `FoldOrders.ProposerOrderErased` | core/fold/fold.go:1125-1139 | two arrangements of a block that both pass the rules give the same outcomes, fees and post-state |
| `FoldOrders.KeyIsTotal` | core/fold/fold.go:1128-1137 | underwriter, sequence, id is a strict total order on certificates with different ids |
| `FoldOrders.OrderIsUnique` | core/fold/fold.go:1125-1139 | a bag of certificates has one strictly ordered arrangement |
| `Histories.BlockSettlesInOrder` | core/fold/fold.go:1125-1139 | an accepted block settles its own certificates, each once: underwriters in address order, one underwriter's by sequence number, then by id |
| `Conservation.BlockConserves` | core/fold/fold.go:466-576 | one accepted block: native supply after plus burned equals supply before plus emission, from any sound state |
| `Conservation.ForfeitWithinReward` | core/fold/fold.go:543-552 | within the burst bound the quadratic forfeiture never exceeds the reward, so the saturating subtraction never saturates |
| `Conservation.RewardSplits` | core/fold/fold.go:466-554 | treasury share, producer reward and forfeiture add up to subsidy plus tips exactly |
| `Subsidies.BlockShare` | core/fold/fold.go:466-468 | an accepted block pays the treasury its basis points of the subsidy, rounded down |
| `Subsidies.BlockPays` | core/fold/fold.go:466-554 | an accepted block pays its producer the rest of the subsidy and the tips, whole up to twice the gas target; above it, less the square of the relative excess, within one unit and one part in the limit |
| `Subsidies.RateStep` | core/params/params.go:454-504 | the coinbase rate falls from one epoch to the next by one part in the divisor, rounded down but at least one unit, and stops at the tail |
| `Subsidies.RateReachesTail` | core/params/params.go:454-504 | and it reaches the tail |
| `Subsidies.EmissionMeans` | core/params/params.go:447-504 | height 0 issues nothing, every other height its epoch's rate |
| `Controllers.TargetMoves` | core/params/params.go:423-443 | the next gas target is the point of the allowed step nearest to the demand |
| `Controllers.FeeMoves` | core/params/params.go:679-727 | which way a base fee moves and by how much, for gas up to twice the target |
| `Controllers.BlockCounts` | core/fold/fold.go:353-377 | the four gas counters: used sums every certificate, applied only those that applied, each in its own market |
| `Rules.BlockRulesMean` | core/fold/blockrules.go:36-240 | a block breaks no rule if and only if every condition holds, the ceilings as proportions of the gas target |
| `Rules.FirstHeaderRule` | core/fold/blockrules.go:36-126 | the header rule reported is that of the first of the twelve conditions that fails |
| `Rules.SizeMargins` | core/types/block.go:457-491 | what one more certificate and one more citation add to the size the byte limit is held against |
| `BlockFrames.BlockFreezes` | core/fold/fold.go:355-377 | one block: cells under spent addresses keep their values, the registry only grows and stays one-shot |
| `BlockFrames.FrozenFromCertificate` | core/fold/fold.go:709-741 | inside a block too: once the certificate that burns an address has finished, the rest of the block leaves every cell under it alone |
| `BlockFrames.BlockAtProtocol` | core/fold/fold.go:306-634 | every protocol cell that neither the opening, the bookkeeping nor the fee update writes: a block changes only the treasury and its own ring position, and to what |
| `BlockLaws.CertificateRulesMean` | core/fold/blockrules.go:138-222 | the certificate loop passes if and only if every certificate is stateless-valid, in date, within the TTL horizon, unseen, payable and different from the others |
| `BlockLaws.FoldConserves` | core/fold/fold.go:355-377 | folding any list of valid certificates keeps native coin plus burn plus tips constant |
| `BlockLaws.FoldFrame` | core/fold/fold.go:355-377 | folding any list of valid certificates leaves protocol cells and cells under spent addresses untouched |
| `BlockLaws.FoldSeen` | core/fold/fold.go:355-377 | the seen set after folding gains exactly the ids of the outcomes that are not Dropped |
| `CertLaws.CertConserves` | core/fold/fold.go:637-741 | one certificate conserves every pool, whatever its outcome, minting excepted by exactly its amount |
| `CertLaws.CertFrame` | core/fold/fold.go:637-741 | one certificate changes no protocol cell and no cell under a spent address; the registry gains exactly the declared burns of an applied one |
| `CertLaws.SweepTotal` | core/fold/fold.go:857-886 | the sweep of burned addresses conserves every pool |
| `CertLaws.StageTotal` | core/fold/fold.go:1021-1056 | committing a staged overlay moves each pool by the net of the declared writes |
| `Billing.CertBilled` | core/fold/fold.go:934-974 | every settled certificate, on any state: charged its base fees plus tips or the skip fee; the rest of the deposit is burned if and only if the refund address is in the registry when settlement runs, and is otherwise added to the refund cell and nowhere else; a dropped one changes nothing |
| `Billing.BlockBills` | core/fold/fold.go:353-377 | the same of every outcome an accepted block reports, against the states before and after that certificate |
| `Billing.FeesMean` | core/types/certificate.go:349-405 | the base portion of both markets burns, and the tip is each market's gas times the priority or what the bid leaves of it; the arithmetic succeeds if and only if the bids reach the base fees and the charge fits |
| `Billing.CeilingIsTheWorst` | core/types/certificate.go:427-442 | the fee ceiling is the largest charge any base fees within the bids can make, and is reached |
| `Billing.PriorityIsTheTip` | core/validity/validity.go:156-261 | a valid bid's priorities are exactly what it tips at zero base fees |
| `Billing.GasMargins` | core/types/certificate.go:285-311 | what one more read, write, burned address or signature costs in each market |
| `Sweeps.SweepMeans` | core/fold/fold.go:857-923 | with a live refund address and room, every native or named cell of a burned address ends empty, its counterpart has gained exactly what they held, and no other cell moves |
| `Sweeps.SweptIs` | core/fold/fold.go:857-886 | the reported sweep is the native coin the burned addresses held |
| `Sweeps.NothingSwept` | core/fold/fold.go:906-909 | with a dead refund address nothing moves, and the native coin the burned addresses hold is what is reported stranded |
| `Sweeps.CellsLeft` | core/fold/fold.go:857-883 | and the cells reported left behind are as many as the swept cells that hold something |
| `Effects.CertEffect` | core/fold/fold.go:637-741 | one certificate on a sound state, cell by cell: moves, mints, issues and burns as its program says, residuals to the refund address, and the rest of the deposit back |
| `Effects.VerdictMeans` | core/fold/fold.go:685-741 | on a sound state a valid certificate is dropped if and only if its deposit cannot be reserved, applied if and only if its program can run, and skipped as stale otherwise |
| `Effects.CommitRuns` | core/validity/derive.go:128-321 | committing the derived writes runs the program, at every cell |
| `Effects.MarksAre` | core/validity/derive.go:92-126 | the declared burns are the one-shot sources, the retired addresses and a one-shot deposit address |
| `CertLaws.SettleTotal` | core/fold/fold.go:934-974 | settlement turns the reserved deposit into charge, refund and burn without loss |
| `Derivation.ValidWritesNet` | core/validity/derive.go:128-228 | the declared writes of a derivation-checked certificate net to what it mints, in every pool |
| `Derivation.ValidWriteShape` | core/validity/validity.go:263-329 | every declared write has one of four forms, none of them on a protocol cell |
| `Derivation.SubIsGuarded` | core/validity/derive.go:128-228 | every declared subtraction comes with a GUARD_GE of exactly its amount |
| `Authority.CertNeverTakes` | core/validity/validity.go:452-550 | one valid certificate lowers no user balance it carries no verifying signature for |
| `Admission.ValidMeans` | core/validity/validity.go:89-139 | a certificate is valid if and only if it is canonical, declares what it derives, pays no address it burns, is signed by exactly those who must, and has a covered deposit with a refund address it does not burn; V7 and V9 are never the rule reported |
| `Admission.ConsistentMeans` | core/validity/validity.go:331-426 | on derived sets V6 refuses exactly the certificates that pay an address they burn |
| `Admission.DepositMeans` | core/validity/validity.go:552-652 | on derived sets V5 asks for native user cells, cover between the fee ceiling and the issuance, and a refund address that is not burned |
| `Admission.OneRetirement` | core/validity/derive.go:297-321 | two retirements of the same addresses are one program |
| `Signers.SignersAreDetermined` | core/validity/validity.go:452-550 | two valid certificates that differ only in their signatures have one id and the same signers in the same order, unless two of those keys share an address |
| `Signers.ValidIsBounded` | core/validity/validity.go:156-261 | a valid certificate is no longer than its limits allow |
| `AssetLaws.CertKeepsBacked` | core/fold/fold.go:637-741 | balances equal minted at most cap, for every asset, across any certificate |
| `NoOverflow.StageNeverOverflows` | core/fold/fold.go:1021-1056 | while every pool fits in 256 bits staging never reports overflow, and it succeeds if and only if no written address is spent |
| `NoOverflow.SweepStrandsNothing` | core/fold/fold.go:907-923 | while every pool fits, the sweep's no-room branch is unreachable and nothing is left behind for a live refund address |
| `NoOverflow.FeesAffordable` | core/types/certificate.go:349-405 | the stateless deposit rule and the bid rule together make the fee arithmetic succeed and the deposit cover it |
| `Solvency.CertIsClean` | core/fold/fold.go:637-741 | a valid certificate whose bids cover the base fees always settles or drops: no fault, no overflow |
| `Solvency.BlockNeverFails` | core/fold/fold.go:306-634 | a block that breaks no rule, on a backed state whose coin plus emission fits, fails by its state root or not at all; no outcome is an overflow skip, and whatever a sweep left behind stayed because the refund address was spent before that certificate |
| `Solvency.FoldNeverHalts` | core/fold/fold.go:355-377 | the same of folding any list of valid certificates: it runs to the end, certificate by certificate clean |
| `Solvency.BlockKeepsBacked` | core/fold/fold.go:306-634 | every accepted block keeps every asset backed and capped |
| `Fold.UsedWithinBurst` | core/fold/blockrules.go:220-230 | the gas summed in fold order equals the gas summed in block order, wrap-around included, and stays within the burst bound |
| `Verdicts.VerdictDecides` | core/fold/fold.go:685-741 | the outcome is decided by reservation, reads and staging alone: commit, sweep and settlement cannot change it |
| `Verdicts.CreditsOnlyHelp` | core/fold/fold.go:977-1056 | a certificate of lower bounds and deltas that applies also applies on every richer state if and only if none of its own credits overflows there |
| `Verdicts.TransfersOnlyHelped` | core/fold/fold.go:761-778 | for valid transfers and retirements on a state whose pools fit, that exception never happens |
| `Journals.SetUndone` | core/fold/fold.go:1323-1326 | writing a cell and then undoing its log entry gives back the undone state |
| `Journals.SpendUndone` | core/fold/fold.go:1328-1334 | marking an address spent is undone by its log entry |
| `Journals.SeeUndone` | core/fold/fold.go:1336-1342 | marking an id seen is undone by its log entry |
| `Journals.PruneUndone` | core/state/state.go:256-311 | pruning is undone by its list if and only if nothing the block added was old enough to be pruned |
| `Journals.PrunedAdditionReturns` | core/state/state.go:300-305 | the failing side on a concrete entry: added and pruned by one block, it survives the undo |
| `Journals.Expired` | core/state/state.go:256-270 | the entries to prune are exactly those below the height, in id order, whatever order the map yields |
| `Journals.State.PruneSeen` | core/state/state.go:256-276 | drops exactly the expired entries and returns them |
| `Journals.State.Undo` | core/state/state.go:280-311 | replays a log backwards, cells newest first, then registry, then seen set; this is all that undoing a block does |
| `Journals.State.Set` | core/state/state.go:196-213 | writing zero deletes the cell |
| `Journals.State.MarkSpent` | core/state/state.go:230-233 | adds one registry entry and changes nothing else |
| `Journals.State.MarkSeen` | core/state/state.go:248 | records one id and changes nothing else |
| `Journals.State.Clone` | core/state/state.go:142-180 | an independent object with the same contents |
| `Journals.Journal.Set` | core/fold/fold.go:1323-1326 | the write happens and the log still undoes everything since the block began |
| `Journals.Journal.MarkSpent` | core/fold/fold.go:1328-1334 | the mark happens once and the log still undoes everything |
| `Journals.Journal.MarkSeen` | core/fold/fold.go:1336-1342 | an id already present keeps its entry; the log still undoes everything |
| `Journals.Journal.PruneSeen` | core/fold/fold.go:441-447 | pruning below the height keeps the log exact, because what the block added is younger |
| `Journals.Journal.Abandon` | core/fold/fold.go:362-366 | rolling back gives exactly the state the block began with |
| `Machine.CheckReads` | core/fold/fold.go:977-1002 | the read loop answers whether every declared read holds |
| `Machine.StageWrites` | core/fold/fold.go:1021-1056 | the staging loop builds the overlay of the specification or names the first failing write's outcome |
| `Machine.Commit` | core/fold/fold.go:708-714 | the overlay becomes state, journalled |
| `Machine.MoveOneResidual` | core/fold/fold.go:907-923 | one cell is emptied into the refund address, or left whole and reported |
| `Machine.SweepAll` | core/fold/fold.go:857-886 | the nested sweep loops compute the specified ledger and the three counters |
| `Machine.SettleCert` | core/fold/fold.go:934-974 | charge, refund or burn, and the seen mark, or the conservation fault; what the new state must be is Billing.CertBilled |
| `Machine.ApplyOverlay` | core/fold/fold.go:708-741 | commit, sweep, fees and settlement in order |
| `Machine.FoldCertificate` | core/fold/fold.go:637-741 | one certificate in place does what the value specification says, and the journal can still undo the block |
| `BlockChecks.CheckCertificate` | core/fold/blockrules.go:138-218 | one certificate against the block rules, with the ids met so far as a set |
| `BlockChecks.CheckCertificates` | core/fold/blockrules.go:128-222 | the first certificate rule broken, and the declared gas accumulated in 64 bits |
| `BlockChecks.CheckCitations` | core/fold/blockrules.go:284-344 | the first citation rule broken, with the running last id |
| `BlockChecks.AssertNoProtocolWrites` | core/fold/fold.go:1367-1376 | refuses exactly the blocks with a certificate that writes a protocol cell |
| `BlockChecks.CheckHeaderRules` | core/fold/blockrules.go:36-126 | version, ceilings, roots, citations, genesis shape, payout, seed epoch and root placement, in order |
| `BlockChecks.CheckBlockRules` | core/fold/blockrules.go:36-240 | the first rule a block breaks, or none |
| `BlockMachine.WriteBeaconCells` | core/fold/fold.go:1143-1152 | the three beacon cells at an epoch boundary |
| `BlockMachine.MoveSeqGasTarget` | core/fold/fold.go:1200-1222 | reads the sample ring in a loop, takes the lower median, moves the target and resets the citation count |
| `BlockMachine.OpenBlock` | core/fold/fold.go:312-345 | everything written before the first certificate |
| `BlockMachine.FoldAll` | core/fold/fold.go:353-377 | the certificate loop computes the specified progress, or stops at the same fault |
| `BlockMachine.KeepBooks` | core/fold/fold.go:433-447 | sample, citations, parent, target and pruning |
| `BlockMachine.SplitReward` | core/fold/fold.go:466-554 | treasury share, reward and burst forfeiture, or the conservation fault; what they must be is Subsidies.BlockShare and Subsidies.BlockPays |
| `BlockMachine.RollCoinbaseRing` | core/fold/fold.go:1281-1313 | releases the matured entry, then overwrites it |
| `BlockMachine.CloseBlock` | core/fold/fold.go:466-634 | rewards, ring, base fees and the state root check |
| `BlockMachine.ApplyBlock` | core/fold/fold.go:275-634 | the whole transition in place: same verdict, report and state as the specification; a refusal leaves the state exactly as it was; an acceptance returns a log that restores it exactly |
| `Genesis.SealedBlockIsAccepted` | core/fold/fold.go:287-304 | for every state and block, writing the dry run's root into the header makes the block accepted with the state and report the dry run predicted |
| `Genesis.SealStateRoot` | core/fold/fold.go:287-293 | computes that root on a copy and leaves the state alone |
| `Genesis.GenesisAllocatesNothing` | core/genesis/genesis.go:39-75 | after block 0 nothing is spent or seen, every pool is empty, and only protocol bookkeeping cells are non-zero |
| `Genesis.DraftApplies` | core/genesis/genesis.go:39-75 | block 0 can be built if and only if an empty block fits the byte limit |
| `Genesis.Build` | core/genesis/genesis.go:39-75 | builds block 0 by sealing on a copy and applying; it fails exactly when an empty block is over the byte limit, and otherwise block and state form a run of one step |
| `Wallet.CheckSweepsWholeCell` | wallet/policy.go:57-98 | accepts if and only if everything leaving each burned one-shot cell equals what it holds; overflow is reported exactly when a sum leaves 256 bits |
| `Wallet.CheckMovesAreCovered` | wallet/policy.go:371-407 | accepts if and only if every cell covers its moves plus the reservation |
| `Wallet.CheckRefundDestination` | wallet/policy.go:187-208 | accepts if and only if the refund address is neither spent nor burned by this certificate |
| `Wallet.CheckPayeeIsFresh` | wallet/policy.go:225-241 | accepts if and only if every one-shot payee is unspent and empty in the asset paid |
| `Wallet.CheckBurnedResidualComesHome` | wallet/policy.go:152-172 | accepts if and only if the refund is the caller's or none of the caller's addresses is burned |
| `Wallet.CheckAll` | wallet/policy.go:280-310 | accepts if and only if every rule holds, and a balance refusal means every other rule passed |
| `Wallet.SweepAmountIsTheSweep` | wallet/policy.go:315-324 | the computed amount is the one amount that empties the cell |
| `WalletLaws.CheckedMeansApplied` | wallet/policy.go:280-310 | a certificate CheckAll accepts on a sound state applies if and only if its deposit, sources, retired addresses or mint payee are unspent and an issue's or mint's reads hold; it is dropped if and only if its deposit address is spent |
| `WalletLaws.CheckedOnEveryRun` | wallet/policy.go:280-310 | the same in every reachable state: the only hypothesis left is that the issued coin fits in 256 bits |
| `Custody.CheckedLosesNothing` | wallet/policy.go:280-310 | a certificate CheckAll accepts on a sound state has its refund neither burned nor stranded, whatever its outcome, and whoever burns an address of their own owns the one its remainder goes to |
| `Custody.RefundUsableMeans` | wallet/policy.go:187-208 | the refund rule asks exactly that the refund address be alive after the certificate |
| `Custody.FreshPayeeHolds` | wallet/policy.go:225-241 | a one-shot address that an accepted and applied transfer pays holds exactly what it was paid |
| `Witness.AcceptedYetSkipped` | wallet/policy.go:280-310 | a concrete certificate that passes every stateless rule and every wallet rule on a sound state, and that the fold skips as stale: the retirement of an address already burned |
| `WalletLaws.BurnedCellsAreEmpty` | core/fold/fold.go:708-717 | every one-shot cell an accepted certificate debits or retires holds exactly zero when the sweep runs |
| `WalletLaws.DebitEntry` | core/validity/derive.go:128-228 | the derived debit of a cell is the sum of the moves out of it |
| `Medians.SortedHasRank` | core/fold/fold.go:1207-1208 | the element at position k of the sorted samples has at most k samples below it and more than k at or below it |
| `Medians.RankIsUnique` | core/fold/fold.go:1207-1208 | and it is the only value that does |
| `Times.MedianTime` | core/pow/pow.go:478-490 | the loop returns the element of rank half the window |
| `Times.MedianNeverGoesBack` | core/pow/pow.go:467-490 | along every chain whose headers pass the median rule the median never decreases, while the window fills and while it slides |
| `Times.MedianAdvances` | core/pow/pow.go:467-490 | once the window is full, half a window of accepted headers moves the median strictly forward |
| `Difficulty.SolveSumWithin` | core/pow/pow.go:655-681 | for all timestamps the signed weighted sum stays within the cap times the weights |
| `Difficulty.SolveSumTelescopes` | core/pow/pow.go:655-681 | without clamping it is n times the last timestamp less every earlier one |
| `Difficulty.BackdatingCancels` | core/pow/pow.go:621-654 | moving any timestamp but the last moves the sum by exactly the opposite amount, whatever its position |
| `Difficulty.LastDateWeighsAll` | core/pow/pow.go:655-681 | moving the last timestamp moves the sum by that much per interval |
| `Difficulty.ComputeMean` | core/pow/pow.go:759-767 | quotients plus carried remainders equal the exact floor of the mean if and only if the remainders fit 64 bits, as in every window of at most 2^32 headers; otherwise the result falls short; the accumulator never saturates |
| `Difficulty.WideWindowOverflows` | core/pow/pow.go:751-767 | the first window too wide for the remainder counter |
| `Retarget.WeighWindow` | core/pow/pow.go:655-681 | the 64-bit signed accumulator equals the unbounded sum whenever that fits |
| `Retarget.SolveTime` | core/pow/pow.go:660-677 | one clamped signed interval, for any two timestamps |
| `Retarget.ClampNext` | core/pow/pow.go:801-825 | both clamps: the point nearest to the unclamped target in the step around the last one, inside [1, max] |
| `Retarget.ClampMeans` | core/pow/pow.go:801-825 | the clamps take the nearest point of that interval |
| `Retarget.IdealMeans` | core/pow/pow.go:686-825 | the mean times the solve sum over weights and goal, rounded down, wherever that lies in the interval, and the nearer end where it does not |
| `Retarget.NextTarget` | core/pow/pow.go:608-826 | the genesis target below two headers; always one bounded step from the last target; whenever the accumulators fit, the scaled mean rounded down if it lies in the step and the nearer end if not |
| `Retarget.OnGoalIsFixed` | core/pow/pow.go:744-758 | a uniform window on goal returns its target unchanged |
| `Retarget.LaterIsNeverHarder` | core/pow/pow.go:655-826 | a later last timestamp never lowers the next target |
| `Solvers.WorkMeans` | core/pow/pow.go:91-158 | a header above genesis passes if and only if its target is not zero, the committed digest is at most the target and the digest it carries is the engine's on its own blob |
| `Solvers.WorkByPosition` | core/pow/pow.go:101-123 | the committed digest is read by position, its last byte the most significant |
| `Solvers.BlobLayout` | core/types/block.go:257-340 | the blob is the seed, seven zeroes and the nonce little-endian; neither searched field enters the seed |
| `Solvers.SolverAgrees` | core/pow/pow.go:386-411 | the verifier accepts a header with a given nonce and digest if and only if the solver's attempt wins and the digest is the solver's |
| `Solvers.Solver.constructor` | core/pow/pow.go:338-358 | the buffer is the candidate's own blob |
| `Solvers.Solver.TryHash` | core/pow/pow.go:386-411 | overwrites only the nonce bytes; digest and verdict are those of the candidate carrying that nonce |
| `Solvers.Solver.Clone` | core/pow/pow.go:414-418 | a second solver with a buffer of its own |
| `Solvers.Solve` | core/pow/pow.go:423-451 | success leaves a header the rule accepts; failure leaves the header alone and means no nonce below the bound works with any digest |
| `Solvers.RekeysOncePerInterval` | core/pow/pow.go:534-539 | the key epoch changes by one exactly at the shifted interval boundaries |
| `Bytes.CompareBytes` | core/fold/fold.go:1346-1356 | byte-wise comparison is comparison of the big-endian numbers |
| `Bytes.EncodeRoundTrip` | core/u256/u256.go:41-97 | decoding an encoding gives the number back |
| `Bytes.DecodeRoundTrip` | core/u256/u256.go:41-97 | encoding a decoding gives the bytes back |
| `Fields.Reduce` | core/crypto/edwards.go:69-79 | terminates with the residue of its input |
| `Fields.ThreeFoldsSuffice` | core/crypto/edwards.go:66-68 | three folds bring any product of two reduced elements under 2^255 |
| `Fields.Scratch.MulInto` | core/crypto/edwards.go:119-122 | the product, reduced, for any aliasing of the destination |
| `Fields.Scratch.AddInto` | core/crypto/edwards.go:133-136 | the sum, reduced, for any aliasing of the destination |
| `Fields.Scratch.SubInto` | core/crypto/edwards.go:127-131 | the difference, reduced, if and only if the destination is not the subtrahend or the operands are the same residue; over its own subtrahend it leaves zero |
| `Fields.AliasedSubtraction` | core/crypto/edwards.go:127-131 | five less three written over the three gives zero |
| `Curve.AddPoints` | core/crypto/edwards.go:139-163 | the unified law in place, for any aliasing among result and operands; what the law computes is Affine.AddIsEdwards |
| `Curve.Double` | core/crypto/edwards.go:167-188 | the doubling formula in place, for any aliasing; what it computes is Affine.DoubleIsEdwards |
| `Curve.ConstantsAreRight` | core/crypto/edwards.go:42-50 | d is -121665/121666 and the law's constant is twice it |
| `Doubling.DoubleIsAddition` | core/crypto/edwards.go:165-188 | on every curve point the addition law applied to the point and itself is -4 times the doubling's coordinates, the same projective point |
| `Affine.AddIsSum` | core/crypto/edwards.go:138-163 | on any two points of the curve the law satisfies the Edwards addition formulas with denominators multiplied out |
| `Affine.AddIsEdwards` | core/crypto/edwards.go:138-163 | in affine coordinates, for every two finite points: x3(1 + d x1 x2 y1 y2) = x1 y2 + y1 x2 and y3(1 - d x1 x2 y1 y2) = y1 y2 + x1 x2, the modulus being prime |
| `Affine.AffineExists` | core/crypto/edwards.go:138-163 | every finite point has affine coordinates, the modulus being prime |
| `Affine.DoubleIsEdwards` | core/crypto/edwards.go:165-188 | the same of the doubling formula |
| `Affine.IdentityIsNeutral` | core/crypto/edwards.go:87-93 | adding the identity on either side scales the coordinates of a curve point, so names the same point |
| `Affine.NegativeCancels` | core/crypto/edwards.go:104-110 | a point and its negative add up to what isIdentity recognises |
| `Affine.AddCommutes` | core/crypto/edwards.go:138-163 | the law is commutative, coordinate by coordinate |
| `Closure.SumOnCurve` | core/crypto/edwards.go:139-163 | the sum of any two points of the curve satisfies the curve equation and the fourth-coordinate identity |
| `Closure.DoubleOnCurve` | core/crypto/edwards.go:165-188 | so does the doubling formula's result |
| `Completeness.TwistIsNotSquare` | core/crypto/edwards.go:42-50 | d is not a ratio of squares, the modulus being prime |
| `Completeness.SumIsFinite` | core/crypto/edwards.go:138-163 | the law is complete: the sum of two points of the curve with non-zero z has non-zero z, for every pair, the modulus being prime |
| `Completeness.DoubleIsFinite` | core/crypto/edwards.go:165-188 | the doubling formula has no exceptional cases either |
| `Scalars.WindowedIsRepeatedAddition` | core/crypto/edwards.go:190-215 | the window schedule is the k-fold sum, in any group the addition law represents |
| `Scalars.Nibble` | core/crypto/edwards.go:206-209 | four bits, most significant first, are the nibble |
| `Scalars.BuildTable` | core/crypto/edwards.go:193-197 | entry i is the i-fold multiple |
| `Scalars.ScalarMul` | core/crypto/edwards.go:192-215 | computes the window schedule in place; the result may overwrite the operand |
| `Encodings.DecodedIsOnCurve` | core/crypto/edwards.go:314-403 | whatever decodes satisfies the curve equation and the fourth-coordinate identity |
| `Encodings.CanonicalIffReEncodes` | core/crypto/edwards.go:217-229 | an encoding that decodes is reported canonical if and only if encoding the point gives the bytes back |
| `Roots.RootIsFound` | core/crypto/edwards.go:343-373 | the modulus being prime, the exponentiation finds a root of u/v whenever there is one |
| `Roots.DecodesIffOnCurve` | core/crypto/edwards.go:314-373 | thirty-two bytes decode if and only if some point of the curve has their y |
| `Roots.RoundTrip` | core/crypto/edwards.go:314-403 | every affine point of the curve decodes from its encoding to exactly itself, and canonically |
| `Roots.DecodedSpells` | core/crypto/edwards.go:314-403 | the top bit of the last byte is the parity of a decoded x that is not zero, and the rest of the bytes, little-endian, is y modulo p |
| `Fermat.LittleTheorem` | core/crypto/edwards.go:343-353 | Fermat's little theorem, which the exponent (p-5)/8 rests on |
| `Encodings.ZeroXIsFixed` | core/crypto/edwards.go:250-256 | a decoded x is zero if and only if y is 1 or -1, the modulus being prime |
| `Encodings.IsCanonicalEncoding` | core/crypto/edwards.go:279-304 | the byte filter accepts exactly the reduced y without a sign bit on the two fixed values |
| `Encodings.FilterAgrees` | core/crypto/edwards.go:273-278 | filter and decompressor agree on every encoding that decodes, the modulus being prime |
| `Encodings.DecodeEdPoint` | core/crypto/edwards.go:314-403 | the in-place decompression computes the specified point and status |
| `Versions.TrimZeroes` | update/version.go:271-277 | drops leading zeroes but never the last digit |
| `Versions.DigitRunsByValue` | update/version.go:252-258 | length then bytes of trimmed digit runs is comparison by value, at any length |
| `Versions.CompareRun` | update/version.go:249-266 | digit runs by value, letter runs by bytes, digits below letters |
| `Versions.SplitRuns` | update/version.go:234-246 | the two nested loops produce the runs of the specification |
| `Versions.RunsAreMaximal` | update/version.go:232-246 | the runs joined are the identifier and no two neighbours are of one kind |
| `Versions.CompareAlnumIdentifier` | update/version.go:222-230 | lexicographic comparison over runs |
| `Versions.AlnumIsTotalPreorder` | update/version.go:205-218 | on all strings it is antisymmetric, transitive, and equal exactly on identifiers with the same runs by value |
| `Versions.CompareField` | update/version.go:175-187 | numbers by value and below everything else, the rest run by run |
| `Versions.ComparePre` | update/version.go:160-190 | the field loop, stopping at the first two fields spelled differently; the order it yields is Precedence.CompareMeans |
| `Versions.Compare` | update/version.go:141-152 | triple first, then pre-release; which order that is, Precedence.CompareMeans |
| `Precedence.CompareMeans` | update/version.go:141-190 | Compare is negative if and only if the first version is the older: smaller major, then minor, then patch; on the same triple a pre-release before none, fewer fields before their extension, and the first field spelled differently by number, numbers below text, text run by run |
| `Precedence.ReleaseIsNewer` | update/version.go:154-167 | a release is newer than every pre-release of the same triple |
| `Precedence.DigitFieldsByValue` | update/version.go:174-186 | two all-digit fields go by value, however long |
| `Precedence.SignedRead` | update/version.go:174-186 | what a signed field reads as, and when it is too large for an int |
| `Precedence.NumberBelowText` | update/version.go:178-184 | an all-digit field is below a field that is not a number if and only if it fits an int, or the other begins with letters or with as large a number |
| `Precedence.HugeNumberAboveText` | update/version.go:178-184 | the failing side on one pair: ten to the nineteenth against 5a |
| `Versions.FieldsHaveNoDots` | update/version.go:169 | no field contains a dot |
| `Versions.CompareIsTotalOrder` | update/version.go:130-152 | over any class of identifiers with one spelling per field, Compare is a total order |
| `Versions.TransitiveIffOneSpelling` | update/version.go:172-179 | over a class holding the letters a and b, Compare is transitive if and only if no two members are spellings of one field |
| `Versions.TwoSpellingsBreakTheOrder` | update/version.go:172-179 | any two spellings of one field give three versions on which transitivity fails |
| `Versions.ZeroIsASecondSpelling` | update/version.go:252-258 | a zero in front of digits is always a second spelling, alone or after letters |
| `Versions.CanonicalIsOneSpelling` | update/version.go:172-190 | identifiers without superfluous zeroes or signs have one spelling each |

## Left out

- SSZ encoding, merkle roots and the state-root value: uninterpreted; only sizes and equality of roots matter to the rules modelled.
- Hash functions, RandomX, Ed25519 verification itself: uninterpreted.
- The byte order of hashed slots: declared and derived lists are compared as multisets with distinct slots, which is what equality of two strictly sorted lists amounts to.
- Error texts and the certificate index carried by a rule error.
- Unknown access and operation codes: decoding refuses them and the types cannot hold them.
- The root cache, dirty sets and map shrinking of core/state: they do not change cells, registry or seen set.
- The 32-bit width of the stranded-cell counter and the 64-bit width of the signature count.
- CumulativeEmission's prefix table: what the schedule has issued is the sum itself.
- sort.SliceStable and sort.Slice: insertion sorts with the same result.
- The future-time limit, key derivation bytes and mining hints: clock, hashing and performance.
- ParseVersion: text scanning; Compare works on its output.
- isLowOrder, isTorsionFree: one call each of the operations proved here.
- Associativity of the addition law, and that 2^255 - 19 is prime: hypotheses where needed.
- Scalars.WindowedIsRepeatedAddition: takes as hypothesis that addition maps to an associative operation and that scaling coordinates keeps the element; that the finite points are closed under both formulas and that doubling doubles is proved.
- Encodings.DecodeEdPoint: takes the modular exponentiation, a library call, as a parameter; completeness is stated in `Roots` for the power the source computes.
- Retarget.NextTarget: for a window or parameters too large for the 64-bit accumulators only the bounds are stated, not the exact value; a zero denominator, on which the source panics, is excluded.
- Genesis.Build: takes genesis time and target as arguments.
- Node, RPC, gossip, storage, key files, desktop, simulation and test generators.
