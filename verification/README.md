# Verified model of the DynastyTrust vault core

This project models the parts of DynastyTrust that decide who can move money and
when: the policy compiler that turns a vault policy into a Taproot output, the PSBT
builder and coin selection that spend from it, the stored life of a leaf-list vault,
the two governance engines, and the record of a proposed spend.

A spending condition is a `Policy` (`thresh`, `and`, `or`, `after`, `older`). What it
says at a `Moment` (who signed, chain height and median time, coin age) is
`SpendPolicy.Sat`: every timelock operand is a number of blocks. What the chain makes
of it is `Consensus.ChainSat`: an absolute operand from 500,000,000 on is a time, and a
relative one counts in 16 bits under two flag bits. `Consensus.ChainSatExactly` shows
that this reading is what transactions can do, opcode by opcode, and
`Consensus.OperandReadAsWrittenExactly` shows when the two readings agree. A compiled
output is a script tree, its Merkle root, its printed descriptor and its lookup tables.
What consensus allows is `Taproot.Spendable`: some script has a control block that
recomputes to the root, and its condition is satisfied on chain.

| file | models |
|---|---|
| `SpendPolicy.dfy` | conditions, what they say, monotonicity, `nest_or` |
| `Consensus.dfy` | what the chain makes of timelock operands (BIP 65, 68, 112, 113), and when that is what they say |
| `Taproot.dfy` | the depth-first tree builder, the right-leaning shape, Merkle paths, control blocks |
| `Descriptor.dfy` | printing a tree into `tr(...)`, parsing it back, agreement with the builder |
| `LeafPolicy.dfy`, `LeafCompiler.dfy`, `LeafMeaning.dfy` | leaf-list policies, decay ladders, the generic compiler, what it preserves |
| `KeyReuse.dfy` | the notes about keys used more than once |
| `DynastyPolicy.dfy`, `Refinement.dfy` | the hand-written named compiler, the flat form, their relation to the generic compiler |
| `Bloc.dfy` | the family vault and its decaying kids-alone ladder |
| `FaithfulLibrary.dfy` | the one assumption about the script library can be met |
| `CoinSelection.dfy` | fees, largest-first selection, sweeps, coin control |
| `Psbt.dfy` | value, leaf selection, lock time and sequence stamping, input checks |
| `OutOfRange.dfy` | two accepted policies whose timelocks the chain does not read as written |
| `Divergences.dfy` | inputs on which parts of the code that should agree do not |
| `Lifecycle.dfy`, `VaultSpends.dfy` | draft, edit, compile once, spend from storage |
| `Governance.dfy`, `GovernanceJs.dfy` | the two engines, against each other and against the compiled vault |
| `VaultShape.dfy` | the request layer's own listing and leaf counts |
| `Base64.dfy` | the PSBT text encoding |
| `Proposals.dfy` | proposal records and their final states |

## Main results

- One meaning. `LeafMeaning.CompilationPreservesMeaning`: for every accepted leaf list
  and every moment, the spends consensus accepts are those of the printed `or(...)`
  policy and of the drafted rungs, all read as the chain reads them; and they are the
  spends the policy was drafted to allow if every ladder's last rung is in range (a
  height under 500,000,000, an age of at most 65,535). `LeafMeaning.LeafOpensAsDraftedExactly`
  and `LeafMeaning.VaultOpensAsDraftedExactly` show that this condition, which the code
  does not check, is exact. `Refinement.GenericRefinesNamed`: the generic loop and the
  hand-written case split build the same vault at every return point.
- One tree. `Descriptor.PrinterBuilderAgree`: the recursive printer and the depth
  schedule describe one tree, so the run-time descriptor check in
  `LeafCompiler.BuildLeafMultileaf` and `Bloc.BuildBlocMultileaf` never fires.
  `Taproot.ScheduleBuildsRightComb`: 129 leaves build, 130 do not, and the byte cast
  of the depth never wraps first.
- Delays reach the chain. `VaultSpends.DraftedDelaysReachTheTransaction`: over every
  run from draft to spend, a leaf drafted with a delay produces transactions that
  cannot confirm before 26,000 blocks past the tip the vault was compiled at.
- The stored policy is the funded vault. `Lifecycle.EveryRunIsConsistent` and
  `VaultSpends.StoredPolicyAlwaysSpends`.
- Selection. `CoinSelection.TrancheSelectionIsOptimal` by an exchange argument; the
  exact condition under which the vault's loop refuses a fundable request.
- Asked and done. `PsbtBinary.VaultSpendBuiltAsAsked`: the destination gets what was
  asked and the coins asked for are the ones spent. `Lifecycle.CompiledRowIsDraft`: a
  compiled vault's leaves are the drafted ones. Each entry point has an exact condition
  for acceptance and, check by check, for its refusals: `LeafMeaning.AcceptedExactlyWhen`,
  `Refinement.NamedAcceptedExactly`, `Bloc.BlocAcceptedExactly`,
  `PsbtBinary.BuiltExactlyWhenFaultless`, `CoinSelection.VaultPlanIsAsAsked`,
  `Lifecycle.CompilesExactlyWhen`, `Proposals.EditsPassExactly`.
- What the checks buy. `LeafMeaning.PrimaryKeysAlwaysSpend`,
  `Refinement.FoundersAlwaysSpend`, `Bloc.ParentsAlwaysSpend`: funds are never locked in.
  `LeafMeaning.EarlySpendsAreDrafted`, `Refinement.HeirsWaitExactly`,
  `Bloc.KidsWaitForParents`: nobody is early, exactly when the delays are heights.
- Stamping. `PsbtBinary.LeafListStamping` and `PsbtBinary.NamedStamping`: when the
  transaction's timelocks are the leaf's, with the exact exceptions.

## Where the code and its own words differ

The model follows the code.

- The PSBT builder's comment says the 16-bit cast of a relative lock cannot truncate.
  The 60,000-block cap is checked on the drafted leaf only, so a later rung of a
  relative ladder can pass 65,535: `PsbtBinary.EveryLeafStampsExactly` gives the
  exact condition. In `OutOfRange.RelativeRungTruncates` a rung drafted to open to one
  of two keys at 66,000 blocks opens to it at 464, on chain and through the builder.
- No check bounds an absolute delay from above, so 500,000,000 and more is accepted and
  is a time on chain: `OutOfRange.TimeValuedHeirSpends`. The PSBT builder refuses every
  spend through such a leaf: `VaultSpends.StoredPolicyAlwaysSpends`.
- Named governance lists inheritance as active on vaults that have no heirs, from block 0
  if the stored delay is 0: `GovernanceJs.ListedInheritanceExists` and
  `GovernanceJs.PhantomInheritance`.
- A leaf-list vault lists a decaying leaf under its drafted id, while its scripts are
  compiled under rung ids: `VaultShape.ListedIdsAreCompiledExactly`.
- The named checks ask only for a positive second inheritance delay, while the
  generic compiler applies its 26,000-block floor:
  `Refinement.GenericRefusesShortSecondDelay`, `Refinement.SecondHeirsWaitExactly` and
  `Divergences.OneBlockSecondDelay`.
- A drafted id that looks like a rung's shadows the rung, or is shadowed by it, and the
  later leaf cannot be selected: `PsbtBinary.EveryLeafSelectableExactly` and
  `Divergences.ShadowedLeaf`.
- The generic compiler's comment says that its founder script is the primary leaf's. It
  is the first leaf's: `LeafMeaning.FirstScriptIsPrimaryExactly`.
- The key-reuse notes are described as keys used in two or more leaves; a key listed
  twice in one leaf counts too: `KeyReuse.FindKeyReuse`.
- The flat form ignores the second heir cohort: `Refinement.FlatFormAgainstTree`.
- Asking for path `backup` on a vault with a timelocked recovery selects the recovery
  leaf with lock time 0: `PsbtBinary.NamedStamping` and `Divergences.BackupMisdirected`.
- Named governance asks the founder quorum of a recovery even when the vault has a
  recovery quorum of its own: `GovernanceJs.RecoveryMatchesWithoutOwnQuorum` and
  `Divergences.GovernanceMissesRecovery`.
- Leaf-list governance knows no decay and calls a relative leaf open one block after the
  chain first takes a spend of it; its clock saturates: `GovernanceJs.LeafRuleMatchesExactly`
  and `GovernanceJs.LeafRuleIsSafeExactly`.
- The fallback governance engine is described as a mirror of the main one. They agree
  on every verdict for named vaults and differ in notes and in the signer pointed at
  next: `GovernanceJs.EnginesAgree` says exactly when.

## Model

| member | source | states |
|---|---|---|
| SpendPolicy.SatMonotone | protocol/src/policy_compiler.rs:1439-1455 | a satisfied condition stays satisfied as signers join, blocks arrive and the coin ages |
| SpendPolicy.SignedCountIsCardinality | protocol/src/policy_compiler.rs:1440-1441 | on distinct keys a threshold counts the different signers among them |
| SpendPolicy.NestOrMeaning | protocol/src/policy_compiler.rs:978-985 | the nested `or` text is satisfied exactly when some branch is |
| Consensus.AfterOpenExactly | compiler/src/main.rs:787-791 | an absolute operand is over exactly when some transaction passing its opcode (BIP 65) can confirm |
| Consensus.OlderOpenExactly | compiler/src/main.rs:843-848 | a relative operand is over exactly when some input passing its opcode (BIP 112) can confirm (BIP 68) |
| Consensus.ChainSatExactly | protocol/src/policy_compiler.rs:1451-1455 | a leaf is satisfied on chain exactly when some transaction whose own locks are over passes its script, opcode by opcode |
| Consensus.OperandReadAsWrittenExactly | protocol/src/policy_compiler.rs:1200-1214 | an absolute operand is a height, at every moment, exactly below 500,000,000; a relative one an age exactly up to 65,535 |
| Taproot.FeedSubtree | protocol/src/policy_compiler.rs:1461-1473 | adding a subtree's leaves one by one in depth-first order acts on the builder like adding the finished subtree at its depth |
| Taproot.BuilderRebuildsEveryTree | protocol/src/policy_compiler.rs:1461-1478 | every tree of height at most 128 is rebuilt from its depth-first leaf list |
| Taproot.BuilderIsSound | protocol/src/policy_compiler.rs:1461-1478 | a tree that completes has exactly the added leaves, in order, at the added depths |
| Taproot.TaprootBuilder.AddLeaf | protocol/src/policy_compiler.rs:1470-1472 | the slot-by-slot loop joins waiting siblings upwards, and a refused leaf changes nothing |
| Taproot.ScheduleIsDepthFirst | protocol/src/policy_compiler.rs:968-976 | the depths 1, 2, ..., n-1, n-1 are the depth-first depths of the right-leaning tree the printer writes |
| Taproot.ScheduleBuildsRightComb | protocol/src/policy_compiler.rs:1460-1473 | up to 129 leaves the schedule builds that tree; from 130 on leaves 0 to 127 are taken and leaf 128 is refused, before the byte cast can wrap |
| Taproot.MerklePathRecomputes | protocol/src/policy_compiler.rs:1476-1478 | each leaf's Merkle path recomputes to the root and is no longer than the tree is high |
| Taproot.MerklePathLength | protocol/src/policy_compiler.rs:1463-1473 | a leaf's Merkle path is exactly as long as the depth it was added at |
| Taproot.OnlyLeavesRecompute | protocol/src/policy_compiler.rs:1476-1478 | no path proves a script that is not a leaf |
| Taproot.SpendableScripts | protocol/src/policy_compiler.rs:1476-1478 | a script has an acceptable control block exactly when it is a leaf |
| Taproot.ControlBlockVerifies | compiler/src/main.rs:968-975 | the control block attached for a leaf is accepted against the root and no longer than any path to that leaf, even when scripts repeat |
| Taproot.TreeMeansNestedOr | protocol/src/policy_compiler.rs:1522-1533 | consensus lets the output be spent exactly through its leaves, and exactly when the printed `or(...)` policy is satisfied on chain |
| Descriptor.NestLeavesPrintsRightComb | protocol/src/policy_compiler.rs:970-976 | the recursive printer prints the right-leaning tree |
| Descriptor.ParsePrint | protocol/src/policy_compiler.rs:970-976 | parsing a printed tree of any shape gives the tree back |
| Descriptor.PrintParse | protocol/src/policy_compiler.rs:970-976 | a text that parses is the printed form of what it parses to |
| Descriptor.DescriptorRoundTrip | protocol/src/policy_compiler.rs:1485-1500 | a descriptor parses to a tree if and only if it is that tree's descriptor |
| Descriptor.PrinterBuilderAgree | protocol/src/policy_compiler.rs:1460-1510 | for 1 to 129 balanced leaf texts, parsing the printed descriptor and feeding the depth schedule both give the right-leaning tree |
| LeafPolicies.VerifiedLeaves | protocol/src/policy_compiler.rs:1346-1371 | the checking loop passes exactly when every leaf passes on its own |
| LeafPolicies.ChecksExactly | protocol/src/policy_compiler.rs:1334-1388 | the checks accept exactly the sound policies, and a refusal names the first fault in the order of the checks, leaf by leaf |
| LeafPolicies.LadderClosedForm | protocol/src/policy_compiler.rs:1291-1332 | a checked decaying leaf expands to one rung per quorum down to the floor, at start + i * step with the full key pool, and is refused exactly when the last height passes 32 bits |
| LeafPolicies.RungIdsDiffer | protocol/src/policy_compiler.rs:1313-1328 | no two rungs of a ladder get the same id |
| LeafPolicies.DecimalReads | protocol/src/policy_compiler.rs:1313-1328 | the number in a rung's id is written in digits that read back as it |
| LeafPolicies.CheckedHeight | protocol/src/policy_compiler.rs:1307-1312 | the checked product and sum give the rung's height, reached one step after another, or nothing exactly when it passes 32 bits |
| LeafPolicies.ExpandDecay | protocol/src/policy_compiler.rs:1291-1332 | the loop with checked 32-bit arithmetic ends and yields that ladder or that refusal |
| LeafPolicies.LadderIsStepFunction | protocol/src/policy_compiler.rs:1303-1330 | some rung is open and sufficiently signed exactly when the start is reached and the decayed quorum signs, zero step included |
| LeafPolicies.DecayedQuorumFalls | protocol/src/policy_compiler.rs:1303-1330 | the decayed quorum never rises with time and stays between floor and start |
| LeafCompiler.ConsentGatesPrimaryOnly | protocol/src/policy_compiler.rs:1434-1455 | of an expanded list, only the first immediate leaf's condition carries the consent gate |
| LeafCompiler.FlattenLoop | protocol/src/policy_compiler.rs:1405-1408 | expansion in list order, the first refusal winning |
| LeafCompiler.CompileLoop | protocol/src/policy_compiler.rs:1437-1458 | the loop's conditions, or the first one the library rejects |
| LeafCompiler.BuildTreeLoop | protocol/src/policy_compiler.rs:1460-1478 | the loop over the builder object gives the tree the schedule describes, or none |
| LeafCompiler.DescriptorDerivesRoot | protocol/src/policy_compiler.rs:1492-1510 | re-deriving from the printed descriptor reaches the root of the built tree |
| LeafCompiler.BuildLeafMultileaf | protocol/src/policy_compiler.rs:1396-1534 | the whole compiler meets a specification that has no descriptor-mismatch refusal, so that check never fires |
| LeafMeaning.ExpansionKeepsMeaning | protocol/src/policy_compiler.rs:1289-1332 | the compiled conditions say exactly that some drafted leaf allows the spend at its decayed quorum |
| LeafMeaning.CompilationPreservesMeaning | protocol/src/policy_compiler.rs:1396-1534 | for every accepted policy and moment, what consensus allows is what the printed policy and the drafted rungs allow on chain; the printed policy says what was drafted; and with every leaf in range all of it is the same |
| LeafMeaning.SpendableByTransactionsExactly | protocol/src/policy_compiler.rs:1396-1534 | the output is spendable at a moment exactly when some transaction whose own locks are over passes a listed script |
| LeafMeaning.LeafOpensAsDraftedExactly | protocol/src/policy_compiler.rs:1346-1371 | a checked leaf with distinct keys opens on chain as drafted, at every moment, exactly when its last rung is in range |
| LeafMeaning.VaultOpensAsDraftedExactly | protocol/src/policy_compiler.rs:1334-1388 | a vault sharing no key between leaves is spendable as drafted, at every moment, exactly when every leaf is in range |
| KeyReuse.FindKeyReuse | protocol/src/policy_compiler.rs:1271-1287 | the nested loop notes exactly the keys used more than once, each with its uses in order, and nothing exactly when the leaves keep their keys separate |
| KeyReuse.NoReuseExactly | protocol/src/policy_compiler.rs:1269-1287 | no key is used twice exactly when keys are distinct in each leaf and no two leaves share one, the hypothesis under which a vault opens as drafted |
| LeafMeaning.VaultNeverRevokes | protocol/src/policy_compiler.rs:1396-1534 | a spend consensus allows stays allowed with more signers, height or age |
| LeafMeaning.ConsentGatesExactlyOneLeaf | protocol/src/policy_compiler.rs:1242-1255 | with consent set, one leaf, the policy's first immediate one, needs the consent quorum and every other leaf compiles as if there were none |
| LeafMeaning.FirstScriptIsPrimaryExactly | protocol/src/policy_compiler.rs:1512-1516 | the script handed out as the primary leaf's is that leaf's exactly when the first drafted leaf is immediate |
| LeafMeaning.PrimaryKeysAlwaysSpend | protocol/src/policy_compiler.rs:1334-1371 | funds are never locked in: the primary leaf's keys with the consent keys can spend an accepted vault at every moment |
| LeafMeaning.EarlySpendsAreDrafted | protocol/src/policy_compiler.rs:1350-1365 | every spend goes through a rung of a drafted leaf that is open on chain; if that leaf is in range the draft allows the spend, an absolute delay being zero or at least 26,000 blocks, a relative one at most 60,000 |
| LeafMeaning.FlattenSucceeds | protocol/src/policy_compiler.rs:1405-1408 | expansion succeeds exactly when every ladder has a clock and fits 32 bits, and then has the predicted size |
| LeafMeaning.AcceptedExactlyWhen | protocol/src/policy_compiler.rs:1396-1478 | a policy compiles exactly when it has leaves, one of them immediate, quorums that can be met, delays within the bounds, an absolute leaf beside any relative one, ladders that fit, conditions the library takes, and at most 129 leaves in the tree |
| LeafMeaning.SoundPolicyRefusals | protocol/src/policy_compiler.rs:1396-1478 | what passes the checks is refused for the first ladder without a clock or past 32 bits, else the first condition the library turns down, else for its size |
| LeafMeaning.TablesListEveryLeaf | protocol/src/policy_compiler.rs:1434-1533 | the tables list every expanded leaf in order under its id with its unlock, and its script is open on chain exactly as the rung and, on the primary leaf, its consent are |
| LeafMeaning.RelativeVaultsHaveFallback | protocol/src/policy_compiler.rs:1376-1386 | an accepted vault with a relative leaf has an absolute one, whose keys spend from its height on whatever the coin's age, if that is a height |
| LeafMeaning.EveryLeafHasControlBlock | protocol/src/policy_compiler.rs:1460-1483 | every listed leaf has an accepted control block no longer than its depth, and no other script has any |
| LeafMeaning.DescriptorMatchesAddress | protocol/src/policy_compiler.rs:1485-1510 | the descriptor handed out re-derives to the root the address commits to |
| FaithfulLibrary.FaithfulLibraryExists | protocol/src/policy_compiler.rs:1410-1416 | a library that prints leaves as single expressions and reads them back exists while accepting every condition |
| Refinement.TranslatedConditions | protocol/src/policy_compiler.rs:393-414 | the translated leaf list compiles to the named policy's own branches, in tree order |
| Refinement.TranslationVerifies | protocol/src/policy_compiler.rs:1616-1704 | a verified named policy passes the generic checks exactly when its second delay meets the floor |
| Refinement.NamedOutput | protocol/src/policy_compiler.rs:384-693 | the case split compiles exactly when the library takes all branches, at each return point hands out the generic vault with the named leaves in their fields, and otherwise names a branch that was turned down |
| DynastyPolicies.NamedChecksExactly | protocol/src/policy_compiler.rs:1616-1704 | the named checks accept exactly the policies whose quorums, cohorts and heirs are sound |
| DynastyPolicies.NamedRefusals | protocol/src/policy_compiler.rs:1616-1704 | a refusal names the fault it found, the quorums first and the heirs' delays last |
| Refinement.NamedAcceptedExactly | protocol/src/policy_compiler.rs:384-693 | the named compiler accepts exactly the sound policies whose branches the library takes |
| Refinement.GenericRefinesNamed | protocol/src/policy_compiler.rs:384-693 | above the floor the two compilers accept together, with the same tree, root, descriptor, policy and first leaf, and every named leaf listed under its name |
| Refinement.GenericRefusesShortSecondDelay | protocol/src/policy_compiler.rs:1646-1648 | below the floor the generic compiler refuses what the named one accepts |
| Refinement.NamedDescriptorMatchesAddress | protocol/src/policy_compiler.rs:384-693 | the named descriptor re-derives to its own root at every return point |
| Refinement.NamedMeaning | protocol/src/policy_compiler.rs:384-693 | consensus lets a named vault be spent exactly through its founder, middle, heir and second-heir branches |
| Refinement.FoundersAlwaysSpend | protocol/src/policy_compiler.rs:1616-1632 | founders and consenters together can always spend a compiled named vault |
| Refinement.DelayedBranchesWait | protocol/src/policy_compiler.rs:1680-1701 | second cohort aside and heirs' delay a height, a spend without the immediate branches waited 26,000 blocks, and heirs without the founders' recovery quorum wait past its opening |
| Refinement.HeirsWaitExactly | protocol/src/policy_compiler.rs:1680-1701 | heirs with keys of their own wait out 26,000 blocks, at every moment, exactly when their delay is a height |
| Refinement.SecondHeirsWaitExactly | protocol/src/policy_compiler.rs:1641-1649 | second heirs with keys of their own wait out 26,000 blocks, at every moment, exactly when their delay is at least that and a height |
| Refinement.FlatFormAgainstTree | protocol/src/policy_compiler.rs:1536-1614 | flat and tree form print one policy without a second cohort; with one the tree allows exactly the flat form's spends plus that cohort's |
| Refinement.FlatFormDropsSecondCohort | protocol/src/policy_compiler.rs:1536-1614 | a verified policy and a moment at which only the tree lets the second cohort spend |
| Bloc.BranchLoop | protocol/src/policy_compiler.rs:1056-1106 | the three parent branches followed by the whole ladder, refused exactly when the last height passes 32 bits |
| Bloc.BuildBlocMultileaf | protocol/src/policy_compiler.rs:1038-1184 | the whole compiler meets a specification without a descriptor-mismatch or too-few-leaves refusal |
| Bloc.BlocChecksExactly | protocol/src/policy_compiler.rs:898-966 | the family checks accept exactly the policies with quorums that can be met, a falling ladder with a step, a lone parent's wait of 26,000 blocks and kids who wait longer |
| Bloc.BlocAcceptedExactly | protocol/src/policy_compiler.rs:1038-1184 | a family policy compiles exactly when it is sound, its last rung fits 32 bits, the library takes every branch and there are at most 129 |
| Bloc.SoundBlocRefusals | protocol/src/policy_compiler.rs:1083-1150 | a sound family policy is refused for its last height, else for the first branch turned down, else for its depth |
| Bloc.ListedBranchesAreCompiled | protocol/src/policy_compiler.rs:1051-1176 | branch by branch, the path, quorum and lock time listed are those the branch's script asks on chain |
| Bloc.BlocOutputMeansItsPolicy | protocol/src/policy_compiler.rs:1145-1184 | the descriptor derives the root, and the printed policy is what the chain allows |
| Bloc.KidLadderMeaning | protocol/src/policy_compiler.rs:1083-1106 | the ladder's leaves are satisfied exactly when it has started and the decayed quorum of kids signs |
| Bloc.BlocMeaning | protocol/src/policy_compiler.rs:1056-1106 | consensus lets the family vault be spent exactly through its three parent branches and its ladder, each as the chain reads it |
| Bloc.ParentsAlwaysSpend | protocol/src/policy_compiler.rs:907-913 | all parents together can always spend |
| Bloc.KidsWaitForParents | protocol/src/policy_compiler.rs:898-966 | kids without a parent wait past the height a lone parent waits for, at least 26,000, and meet the floor, at every moment, exactly when every rung is a height |
| Bloc.KidsAloneStepFunction | protocol/src/policy_compiler.rs:1083-1106 | without a parent and with every rung a height, consensus lets a set of distinct kids spend exactly from the start height on and at the decayed quorum |
| Bloc.KidsAloneStepFunctionExactly | protocol/src/policy_compiler.rs:1083-1106 | that step function is what consensus allows, at every moment, exactly when every rung is a height |
| Bloc.KidsThresholdNeverRises | protocol/src/policy_compiler.rs:898-966 | that threshold only falls as the chain grows and never passes the floor |
| Bloc.GenericDecayRefinesKidLadder | protocol/src/policy_compiler.rs:1216-1225 | the generic decay mechanism refuses the same ladders and compiles the same conditions |
| CoinSelection.FeeGrowsWithInputs | netlify/functions/psbt-binary-tranche.js:37-39 | more inputs never lower the estimated fee, rounding included |
| CoinSelection.FeeCoversSize | netlify/functions/psbt-binary.js:127-129 | the fee is the least whole number covering the rate on 10.5 vbytes, the inputs, and 43 an output |
| CoinSelection.SortDescSorts | netlify/functions/psbt-binary-tranche.js:195 | the sort yields falling values |
| CoinSelection.SortDescPermutes | netlify/functions/psbt-binary-tranche.js:195 | the sort keeps exactly the coins |
| CoinSelection.SortDescKeepsTies | netlify/functions/psbt-binary-tranche.js:195 | coins of one value stay in the order they came in |
| CoinSelection.LargestFirstIsBest | netlify/functions/psbt-binary-tranche.js:195-201 | no choice of k coins is worth more than the k largest |
| CoinSelection.PrefixIsAChoice | netlify/functions/psbt-binary-tranche.js:195-201 | the k largest are themselves a choice of k of the confirmed coins |
| CoinSelection.TakeUntil | netlify/functions/psbt-binary-tranche.js:196-201 | the loop takes coins in the given order up to the first count that covers its own need |
| CoinSelection.TakeLargestFirst | netlify/functions/psbt-binary-tranche.js:193-201 | the same over the coins sorted largest first, with the running total exact |
| CoinSelection.PlanTrancheClaim | netlify/functions/psbt-binary-tranche.js:176-213 | sweep and partial claim, each with its own output count, amount and change |
| CoinSelection.TranchePlanIsAsAsked | netlify/functions/psbt-binary-tranche.js:176-213 | a claim is refused for its amount or for no coins, else it is a plan over every coin in a sweep, or over the largest until they cover the amount and their own fee, or these are too few |
| CoinSelection.TrancheSelectionIsOptimal | netlify/functions/psbt-binary-tranche.js:193-213 | a partial claim fails exactly when no subset of coins funds it, and otherwise uses the fewest inputs and lowest fee of any that does |
| CoinSelection.PlanVaultSpend | netlify/functions/psbt-binary.js:307-361 | coin control, sweep and one-input-fee selection, each with its fee, change and refusal |
| CoinSelection.VaultPlanIsAsAsked | netlify/functions/psbt-binary.js:307-361 | a spend is refused for its amount, for no coins or for a bad request, else it is a plan over the coins asked for, all coins in a sweep, or the largest until they cover the amount and one input's fee, or these are too few |
| CoinSelection.PlanSpendsAsAsked | netlify/functions/psbt-binary.js:311-361 | an accepted plan spends exactly the requested outpoints if any were requested, every coin in a sweep without a request, and never a coin twice or one that is not confirmed |
| CoinSelection.VaultSelectionSoundness | netlify/functions/psbt-binary.js:332-361 | an accepted selection funds the request, and a fundable request is refused exactly when the loop stopped short of its own fee while more coins would have paid |
| CoinSelection.SmallestLeaf | netlify/functions/psbt-binary.js:112-123 | no leaf the endpoint sizes is smaller than 84.25 vbytes |
| CoinSelection.LeafSizeSteps | netlify/functions/psbt-binary.js:112-123 | each key of a leaf costs 8.5 vbytes, each signature 16 and each tree level 8 |
| CoinSelection.VaultSelectionIncomplete | netlify/functions/psbt-binary.js:349-378 | at every rate and input size the endpoints compute there are three coins and an amount on which that happens |
| CoinSelection.CoinControlIsExact | netlify/functions/psbt-binary.js:334-341 | coin control spends exactly the requested outpoints and is refused exactly when a request repeats one or names one not confirmed |
| PsbtBinary.BuildPsbt | compiler/src/main.rs:644-987 | a built transaction has every promised part, and a refusal is the first failing check in source order, the overflow of the coins' sum included |
| PsbtBinary.BuiltExactlyWhenFaultless | compiler/src/main.rs:644-987 | a transaction is built exactly when nothing is wrong with the request: coins, sums, addresses, policy, path, lock time, change and scripts |
| PsbtBinary.RefusedForFirstFault | compiler/src/main.rs:644-987 | a refusal names a fault the request has, and no fault the source looks for earlier; among the coins' scripts the first bad one |
| PsbtBinary.PaysAsAsked | compiler/src/main.rs:658-694 | the destination gets the asked amount in the first output, the change address what is left from 546 satoshis on, and the inputs are the request's coins one by one |
| PsbtBinary.UnbuiltVaultSpend | compiler/src/main.rs:801-832 | with no vault to rebuild, a transaction has the lock time its path asks for and no script to sign for |
| PsbtBinary.PushOutputs | compiler/src/main.rs:644-694 | the payment, and change exactly when at least 546 satoshis are left; refused for its sum exactly when the coins together pass 64 bits |
| PsbtBinary.SumInputs | compiler/src/main.rs:649 | the coin by coin sum is the exact total, or stops exactly when that passes 64 bits |
| PsbtBinary.RebuiltVaultMeansItsPolicy | compiler/src/main.rs:724-769 | a vault rebuilt from a request has the root its descriptor derives, and consensus lets it be spent exactly when its printed policy is satisfied on chain |
| PsbtBinary.FillInputs | compiler/src/main.rs:935-985 | each coin must sit at the vault's own script, and gets its value, sequence and signing data |
| PsbtBinary.ValueIsConserved | compiler/src/main.rs:648-694 | in every built transaction inputs are outputs plus fee plus at most 545 satoshis, and exactly outputs plus fee when there is change |
| PsbtBinary.LookupsAgree | compiler/src/main.rs:780-784 | two tables listing the same ids in the same order are looked up at the same place |
| PsbtBinary.BadLockTimeExactly | compiler/src/main.rs:787-791 | a listed path is refused for its lock time exactly when the first leaf under it opens at a time |
| PsbtBinary.ChangeReturnsToVault | compiler/src/main.rs:888-902 | change pays the very script every spent coin sits at |
| PsbtBinary.LeafListSpendsOneLeaf | compiler/src/main.rs:777-794 | script and unlock come from one leaf even with duplicate ids, and every input carries that script with an accepted control block |
| PsbtBinary.EveryLeafSelectableExactly | compiler/src/main.rs:780-784 | every compiled leaf can be selected by its own id exactly when the expanded ids are distinct; of leaves sharing one only the first is ever selected |
| PsbtBinary.LeafListStamping | compiler/src/main.rs:785-848 | the transaction can confirm exactly when the leaf's unlock is open if and only if a relative unlock fits 16 bits; and when exactly the script's own timelock opcode passes |
| PsbtBinary.NamedStamping | compiler/src/main.rs:795-848 | on named paths the stamped lock is the branch's own on every path but `backup` of a vault with recovery |
| PsbtBinary.EveryLeafStampsExactly | compiler/src/main.rs:835-848 | every leaf of an accepted policy stamps exactly if and only if no relative ladder climbs past 65,535 |
| OutOfRange.RelativeRungTruncates | compiler/src/main.rs:840-844 | a compiled vault whose rung of 66,000 blocks one key spends at age 464, and the transaction the builder makes for it, stamped 464, which passes the opcode and confirms then |
| OutOfRange.TimeValuedHeirSpends | protocol/src/policy_compiler.rs:1361-1365 | a compiled vault whose heir, drafted at 600,000,000, spends at height 900,000 |
| Divergences.BackupMisdirected | compiler/src/main.rs:801-832 | a built `backup` transaction of a vault with recovery: it carries the recovery script with lock time 0, and that script's opcode fails |
| Divergences.OneBlockSecondDelay | protocol/src/policy_compiler.rs:1646-1648 | a vault the named compiler builds, the generic one refuses, and the second heir spends at height 1 |
| Divergences.GovernanceMissesRecovery | protocol/src/governance.rs:249-252 | a compiled recovery leaf one founder satisfies while the engine refuses that spend for one missing signature |
| Divergences.ShadowedLeaf | compiler/src/main.rs:780-784 | a compiled vault whose drafted `a_1` no path selects, a rung of `a` being listed first under that id |
| PsbtBinary.PlanAddsUp | netlify/functions/psbt-binary.js:324-361 | a quoted plan's totals, change rule and sweep amount always balance |
| PsbtBinary.PlanIsBuiltAsQuoted | compiler/src/main.rs:648-694 | the builder makes a change output exactly when a balanced plan quotes one and of that size, spends exactly the planned coins, and pays the quoted fee plus at most 545 satoshis |
| PsbtBinary.PlannedSpendIsNeverShort | compiler/src/main.rs:649-656 | what the request layer plans, the builder never refuses as overflowing or short of money |
| PsbtBinary.VaultSpendBuiltAsAsked | netlify/functions/psbt-binary.js:324-361 | from the caller's request to the transaction: the caller's destination gets the whole sweep less the quoted fee in the only output, or the asked amount, and the outpoints spent are those requested, or all of them in a sweep without a request |
| Lifecycle.VaultRow.Patch | netlify/functions/vaults.js:473-540 | edits to policy and network pass only on drafts, and a refused edit changes nothing |
| Lifecycle.EditsApplyExactly | netlify/functions/vaults.js:473-540 | an edit passes exactly if it carries something and policy or network only on drafts and to a known network; it then sets what it carries and nothing else |
| Lifecycle.EditRefusals | netlify/functions/vaults.js:473-540 | which of the four refusals an edit gets, each with its exact condition |
| Lifecycle.CreatedExactly | netlify/functions/vaults.js:147-166 | a draft is refused exactly for an unknown network and otherwise holds what was sent, on testnet by default |
| Lifecycle.VaultRow.CheckDraft | netlify/functions/compile-leaves.js:88-151 | the handler's validation reports the first of its checks to fail, or none |
| Lifecycle.RequestParsesExactly | compiler/src/main.rs:215-253 | a request parses exactly when every leaf and consent key is well-formed, and the compiler then sees leaf by leaf and key by key what was sent, in order |
| Lifecycle.VaultRow.Compile | netlify/functions/compile-leaves.js:88-222 | the one draft-to-compiled step, with the tip baked into absolute leaves, or a refusal that changes nothing |
| Lifecycle.CompilesExactlyWhen | netlify/functions/compile-leaves.js:88-222 | a row compiles exactly if it is a draft with draftable leaves, no private consent key, a tip where one is needed, and the compiler takes the leaves carried over; a refusal names the first of these to fail |
| Lifecycle.StoredAsDrafted | netlify/functions/compile-leaves.js:143-211 | a compiled row keeps ids, keys, quorums, decay and unlocks of its draft, but for `after` delays, to which the tip is added, and its consent and network |
| Lifecycle.CompiledAsDrafted | netlify/functions/compile-leaves.js:143-211 | the compiler's leaves are the drafted ones: immediate, at the tip plus the drafted delay, or after the drafted age, for the drafted keys and quorum |
| Lifecycle.CompiledIsFrozen | netlify/functions/vaults.js:482-526 | after compilation no run of requests touches policy, network or address |
| Lifecycle.CompileIsConsistent | netlify/functions/compile-leaves.js:194-211 | the row just stored rebuilds to the address and the descriptor just stored, though spends forward consent differently |
| Lifecycle.EveryRunIsConsistent | netlify/functions/compile-leaves.js:194-211 | over every run the stored policy rebuilds to the stored address on its stored network, and at most one compile succeeds |
| Lifecycle.FromDraftOn | netlify/functions/vaults.js:147-166 | the same from any created draft |
| Lifecycle.CompiledOnceFrom | netlify/functions/compile-leaves.js:143-165 | a compiled row's leaves are those of one earlier draft with that moment's tip added exactly once to its `after` delays and nothing else changed, network and consent included |
| Lifecycle.CompiledRowIsDraft | netlify/functions/compile-leaves.js:143-211 | over every run, each leaf a compiled row rebuilds to has the drafted id, keys, quorum and decay and opens as drafted at the tip of the one compile |
| Lifecycle.CompiledDelaysHold | netlify/functions/compile-leaves.js:125-156 | every rung of a leaf drafted with a delay says at least 26,000 blocks past the compile tip, to the same keys, and the chain holds it to that exactly when the last rung is a height |
| Lifecycle.RungsNeverEarlier | protocol/src/policy_compiler.rs:1291-1332 | no rung of an absolute ladder opens before the ladder starts |
| VaultSpends.StoredPolicyAlwaysSpends | netlify/functions/psbt-binary.js:398-428 | after any run, a spend of the vault's own coins is never refused for a policy that fails to rebuild or rebuilds to another address; beside the caller's mistakes only a leaf that opens at a time is refused, and always |
| VaultSpends.DraftedDelaysReachTheTransaction | netlify/functions/psbt-binary.js:398-428 | over every run from draft to spend, a delayed leaf's transaction has a lock time at least 26,000 blocks past the compile tip and cannot confirm earlier |
| Governance.EvaluateVaultStatus | protocol/src/governance.rs:127-194 | a path is listed active exactly when its proposal would be timelock-satisfied |
| Governance.HardRules | protocol/src/governance.rs:432-467 | rule by rule, a violation is pushed exactly when the rule is broken, and none exactly when the spend is in order |
| Governance.EvaluationAddsUp | protocol/src/governance.rs:254-262 | everyone has signed or is pending, nobody is missing exactly when the quorum is met, and missing signatures can come from the pending exactly when there are enough signers |
| Governance.NextActionPointsAtPending | protocol/src/governance.rs:321-352 | the next action names the first signer who has not signed, exactly when an open spend still waits for signatures that can come |
| Governance.PendingInOrder | protocol/src/governance.rs:254-262 | whoever has not signed is listed as pending, in the signers' order |
| Governance.AuditSpend | protocol/src/governance.rs:405-496 | the pushed violations, warnings and notes are those of the rule table, and approved are exactly the allowed spends between dust limit and balance |
| Governance.AuditReportsExactly | protocol/src/governance.rs:405-496 | which rules an audit lists, said of the policy and the spend: violations 1 to 4, the warning 5, notes 6 to 8, each once and in order, exactly where they apply |
| Governance.ViolationsAreTheBrokenRules | protocol/src/governance.rs:432-467 | each hard rule is reported exactly when it is broken |
| Governance.AuditApprovesAllowed | protocol/src/governance.rs:405-496 | an audit approves exactly the allowed spends between dust limit and balance |
| Governance.StatusOverTime | protocol/src/governance.rs:137-165 | active paths and phase only grow, and a countdown n means closed for n - 1 more blocks and open at the n-th |
| Governance.PhaseIsLatestPath | protocol/src/governance.rs:127-165 | the phase is the latest open path, and each open path is listed once |
| Governance.AuditLeafSpend | protocol/src/governance.rs:721-794 | the leaf-list audit pushes exactly the rule table's entries and approves exactly the allowed spends between dust limit and balance |
| Governance.LeafAuditReportsExactly | protocol/src/governance.rs:721-794 | the same for the first leaf listed under the id, unknown ids included, and allowance is that leaf's delay and quorum |
| Governance.LeafAuditApprovesAllowed | protocol/src/governance.rs:721-794 | the same for leaf lists, and an unknown id is never approved |
| Governance.LeafStatusOverTime | protocol/src/governance.rs:553-598 | a leaf once active stays active and its countdown is exact, saturation included |
| GovernanceJs.JsStatus | netlify/functions/governance.js:198-236 | the fallback status is the main engine's status |
| GovernanceJs.JsHardRules | netlify/functions/governance.js:255-281 | the fallback pushes the same violations in the same order |
| GovernanceJs.JsAudit | netlify/functions/governance.js:238-315 | the fallback audit in the main engine's terms |
| GovernanceJs.EnginesAgree | netlify/functions/governance.js:238-315 | same evaluation, violations, warning and verdict, halving in reals or integers; notes and next signer agree exactly under stated conditions |
| GovernanceJs.JsLeafAudit | netlify/functions/governance.js:352-427 | the leaf-list fallback audit, unknown ids and relative clocks included |
| GovernanceJs.JsLeafAuditReportsExactly | netlify/functions/governance.js:352-427 | the fallback lists exactly the rules that apply to the leaf named, notes every relative clock, and allows exactly known leaves past their height and signed by their quorum |
| GovernanceJs.LeafEnginesAgree | netlify/functions/governance.js:352-427 | the engines agree on leaves without a relative lock; on a relative one the fallback approves more exactly while the clock runs or is unknown |
| GovernanceJs.GovernanceMatchesLeaves | protocol/src/governance.rs:230-257 | on a compiled vault, allowance of a founders spend is satisfaction of the founders leaf, consent aside, and of an heirs spend, given heirs and a delay that is a height, of the inheritance leaf |
| GovernanceJs.VerdictByPath | protocol/src/governance.rs:230-257 | on each path, the engine allows a spend exactly from the path's delay on and with the founders' or the heirs' quorum |
| GovernanceJs.InheritanceMatchesExactly | protocol/src/governance.rs:243-252 | the engine's verdict on an heirs spend is the compiled leaf's, at every moment, exactly when the delay is a height |
| GovernanceJs.ListedInheritanceExists | protocol/src/governance.rs:137-165 | inheritance is listed only where such a leaf was compiled exactly when the vault has heirs |
| GovernanceJs.PhantomInheritance | protocol/src/governance.rs:137-165 | a founders-only vault on which governance allows an unsigned inheritance spend at block 0 and the chain allows none |
| GovernanceJs.RecoveryMatchesWithoutOwnQuorum | protocol/src/governance.rs:249-252 | the engine's verdict on a recovery is the compiled leaf's, at every moment, exactly when no different recovery quorum is set and the delay is a height |
| GovernanceJs.LeafProposalIsRule | protocol/src/governance.rs:630-698 | a leaf proposal is allowed exactly by the rule of the first leaf listed under its id |
| GovernanceJs.LeafRuleIsSafe | protocol/src/governance.rs:553-646 | on drafted leaves governance allows no spend the leaf does not, decayed or not, short of a saturated clock |
| GovernanceJs.LeafRuleIsSafeExactly | protocol/src/governance.rs:575-587 | on a checked leaf that holds for all signers exactly when the clock is not at its last height with the coin's own sum past it |
| GovernanceJs.LeafRuleMatchesExactly | protocol/src/governance.rs:553-646 | governance and the leaf allow the same signers exactly when the clock is not saturated early and the leaf is closed, or no decay step has lowered the quorum and a relative leaf's coin height is known and its last block past |
| GovernanceJs.SaturatedRuleOpensEarly | protocol/src/governance.rs:575-578 | a checked leaf and the moment at which the saturated clock allows what the leaf does not |
| VaultShape.GetSpendingPaths | netlify/functions/_vault-shape.js:42-112 | on verified policies the listing built path by path holds exactly the compiled leaves with id, quorum, keys and unlock, in tree order unless there is a backup |
| VaultShape.ListedIdsAreCompiledExactly | netlify/functions/_vault-shape.js:30-40 | the ids listed for a leaf-list vault are the ids its scripts are compiled under exactly when no leaf decays |
| VaultShape.ListingMatchesCompiler | netlify/functions/_vault-shape.js:42-112 | on verified policies the listing holds exactly the compiled leaves with id, quorum, keys and unlock, in tree order unless there is a backup |
| VaultShape.ListedCohortsExactly | netlify/functions/_vault-shape.js:42-112 | on any policy, verified or not, each cohort is listed exactly with its keys and the delay or quorum its path needs |
| VaultShape.LeafCountForTree | netlify/functions/psbt-binary.js:63-71 | the named count is the number of compiled branches |
| VaultShape.LeafListCountForTree | netlify/functions/psbt-binary.js:92-103 | the leaf-list count is the number of leaves of every tree the list compiles to |
| VaultShape.LeafCountForBlocTree | netlify/functions/psbt-binary-bloc.js:91-95 | the family count is the number of its branches |
| Base64.Encode | compiler/src/main.rs:256-271 | the loop over groups of three writes the encoding |
| Base64.AlphabetInOrder | compiler/src/main.rs:256-271 | the characters are those of RFC 4648, in order |
| Base64.SameNumber | compiler/src/main.rs:256-271 | the digits of a group spell in base 64 the number its bytes spell in base 256 |
| Base64.DecodeEncode | compiler/src/main.rs:256-271 | decoding the encoder's output returns the bytes |
| Base64.EncodeDecode | compiler/src/main.rs:256-271 | a text that decodes strictly is the encoder's output for what it decodes to |
| Base64.EncodedLength | compiler/src/main.rs:258 | four characters per started group of three bytes, the capacity reserved |
| Base64.PaddingPlaces | compiler/src/main.rs:266-267 | padding stands only in the last two places, and exactly as many as bytes are missing |
| Proposals.Proposal.constructor | netlify/functions/proposals.js:185-198 | a new record is pending with a PSBT and a draft without |
| Proposals.CreatedExactly | netlify/functions/proposals.js:185-198 | what a new record holds: what was sent, empty texts as none, pending exactly with a transaction to sign |
| Proposals.Proposal.Patch | netlify/functions/proposals.js:220-299 | guarded edits; a refused one changes nothing |
| Proposals.EditsPassExactly | netlify/functions/proposals.js:220-299 | an edit passes exactly if it carries something, sets a known status, touches only the memo of an ended record, and calls broadcast only a transaction that pays; it then sets what it carries and nothing else |
| Proposals.EditRefusals | netlify/functions/proposals.js:220-299 | a refusal names the first of these that fails |
| Proposals.RunsStayTruthful | netlify/functions/proposals.js:267-292 | over every run a broadcast record names a well-formed txid the chain says pays its own destination and amount, which never change |
| Proposals.CreatedIsTruthful | netlify/functions/proposals.js:185-198 | the same from creation on |
| Proposals.TerminalRecordsAreFinal | netlify/functions/proposals.js:238-249 | once broadcast, cancelled or fulfilled, nothing but the memo ever changes |

## Left out

- Miniscript compilation to script bytes, secp256k1, key tweaking and address and PSBT serialisation: a compiled leaf is an injective function of its condition, an output script one of its root, and hashes are collision-free.
- The script library is a parameter: which conditions it takes, how it prints a leaf and reads it back. Results about descriptors assume only that it reads back what it printed and prints a leaf as one expression.
- The tree builder of the Bitcoin library is not part of this repository; it is modelled from its depth-first contract and BIP 341's 128-level limit.
- Labels, reason and status strings, days as fractions, and key origins.
- Median time is a number of the moment, coin age in time is given in whole 512-second intervals, and heights are those of the tip; how blocks set them is not modelled.
- Key lists of 2^32 entries or more: the 32-bit rung counter would overflow there and end the request.
- Overflow checks are on in the release profile (`Cargo.toml`), so the overflow of the coins' sum panics; the model has it as a refusal, and does not tell it from an error reply.
- PSBT requests with only some of the named parameters, and the witness script of pay-to-witness-script-hash inputs.
- The tranche compiler and `protocol/src/psbt_builder.rs`; tranche coin selection is modelled, the transaction it leads to is not.
- Conversion of extended public keys to the public keys in scripts: a stored key is its public key.
- The tree and key data attached to a change output for hardware signers.
- A list of confirmed coins names no outpoint twice: the chain has each only once, and results about coin control assume it.
- Fees are ceilings over the reals, so floating-point rounding of a fee is not modelled; nor is the accuracy of the size estimate against real witnesses.
- Requests are atomic steps of one compiler version, and the chain oracle of a run never changes its answer about a transaction.
- Block counts in drafts that are falsy without being numbers, such as an empty text, which the floor check lets pass as no delay.
- Creation and edit requests are modelled without ownership and membership checks; the amount bounds of a new proposal are not modelled, since the results hold for every amount.
- Base64 bit operations are written as division and remainder.
- The next-action text and the leaf-list status listing of the fallback governance engine: single expressions with nothing to relate.
- Key-reuse notes are a map from keys; the order the source lists them in, by key text, is not modelled.
- Named and Bloc compile handlers of stored rows, rotation, deletion, PSBT merging, exports, the assistant and the user interface.
