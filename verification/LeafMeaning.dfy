/** What a compiled leaf-list vault means: what consensus allows on the compiled
    output, said directly about the policy, and when that is what was drafted. */
module LeafMeaning {
  import opened Wrappers
  import opened SpendPolicy
  import opened Consensus
  import opened Taproot
  import opened Descriptor
  import opened LeafPolicies
  import opened LeafCompiler

  // ---- The policy's own meaning ----

  predicate UnlockOpen(unlock: Unlock, m: Moment) {
    match unlock
    case Immediate => true
    case After(n) => m.height >= n
    case OlderThan(n) => m.age >= n
  }

  /** The quorum a leaf asks at `m`: its own, or what decay has left of it. */
  function QuorumNow(leaf: Leaf, m: Moment): nat
    requires UnlockOpen(leaf.unlock, m)
  {
    if leaf.decay.None? || leaf.unlock.Immediate? || leaf.decay.value.floorQuorum > leaf.quorum then leaf.quorum
    else
      DecayedQuorum(leaf.quorum, leaf.decay.value.floorQuorum, leaf.decay.value.stepBlocks,
                    Clock(leaf, m) - leaf.unlock.blocks)
  }

  predicate LeafAllows(leaf: Leaf, m: Moment) {
    UnlockOpen(leaf.unlock, m) && SignedCount(leaf.keys, m.signers) >= QuorumNow(leaf, m)
  }

  ghost predicate LeavesAllow(leaves: seq<Leaf>, consent: Option<Policy>, m: Moment) {
    exists i :: 0 <= i < |leaves| && LeafAllows(leaves[i], m)
      && (i == FirstImmediate(leaves) && consent.Some? ==> Sat(consent.value, m))
  }

  /** Some leaf allows the spend; on the primary leaf the consent quorum must sign too. */
  ghost predicate VaultAllows(policy: LeafPolicy, m: Moment) {
    LeavesAllow(policy.leaves, policy.Consent(), m)
  }

  // ---- Expansion keeps the meaning ----

  /** What rung `i` of a ladder counts its clock against, and asks for. */
  lemma RungMeaning(leaf: Leaf, i: nat, m: Moment)
    requires leaf.decay.Some? && !leaf.unlock.Immediate? && i <= leaf.quorum
    requires RungHeight(leaf.unlock.blocks, leaf.decay.value.stepBlocks, i) <= U32_MAX
    ensures Sat(Condition(Rung(leaf, i), None), m) <==>
            && Clock(leaf, m) >= RungHeight(leaf.unlock.blocks, leaf.decay.value.stepBlocks, i)
            && SignedCount(leaf.keys, m.signers) >= leaf.quorum - i
  {
  }

  /** The chain height for an absolute leaf, the coin's age for a relative one. */
  function Clock(leaf: Leaf, m: Moment): nat {
    if leaf.unlock.After? then m.height else m.age
  }

  /** These are the conditions of the ladder's first rungs. */
  predicate AreRungs(leaf: Leaf, policies: seq<Policy>) {
    leaf.decay.Some? && !leaf.unlock.Immediate? && |policies| <= leaf.quorum + 1
    && forall i: nat {:trigger policies[i]} :: i < |policies| ==>
         RungHeight(leaf.unlock.blocks, leaf.decay.value.stepBlocks, i) <= U32_MAX
         && policies[i] == Condition(Rung(leaf, i), None)
  }

  lemma LadderConditions(leaf: Leaf, consent: Option<Policy>)
    requires leaf.decay.Some? && Expanded(leaf).Ok?
    ensures var rungs := Expanded(leaf).value;
            && |rungs| == leaf.quorum - leaf.decay.value.floorQuorum + 1
            && FirstImmediate(rungs) == |rungs|
            && AreRungs(leaf, Conditions(rungs, consent))
  {
    var rungs := Expanded(leaf).value;
    ConsentGatesPrimaryOnly(rungs, consent);
    forall i | 0 <= i < |rungs|
      ensures RungHeight(leaf.unlock.blocks, leaf.decay.value.stepBlocks, i) <= U32_MAX && rungs[i] == Rung(leaf, i)
    {
      RungHeightMonotone(leaf.unlock.blocks, leaf.decay.value.stepBlocks, i, |rungs| - 1);
    }
    assert forall i :: 0 <= i < |rungs| ==> !rungs[i].unlock.Immediate?;
  }

  predicate RungOpen(leaf: Leaf, i: nat, m: Moment) {
    leaf.decay.Some? && !leaf.unlock.Immediate? && i <= leaf.quorum
    && Clock(leaf, m) >= RungHeight(leaf.unlock.blocks, leaf.decay.value.stepBlocks, i)
    && SignedCount(leaf.keys, m.signers) >= leaf.quorum - i
  }

  ghost predicate SomeRungOpen(leaf: Leaf, rungs: nat, m: Moment) {
    exists i: nat :: i < rungs && RungOpen(leaf, i, m)
  }

  lemma OpenRungs(leaf: Leaf, m: Moment)
    requires Expanded(leaf).Ok? && leaf.decay.Some?
    ensures SomeRungOpen(leaf, leaf.quorum - leaf.decay.value.floorQuorum + 1, m) <==> LeafAllows(leaf, m)
  {
    var start, step, floor := leaf.unlock.blocks, leaf.decay.value.stepBlocks, leaf.decay.value.floorQuorum;
    var now, signed := Clock(leaf, m), SignedCount(leaf.keys, m.signers);
    LadderIsStepFunction(start, step, leaf.quorum, floor, now, signed);
    if i: nat :| i < leaf.quorum - floor + 1 && RungOpen(leaf, i, m) {
      assert RungServes(start, step, leaf.quorum, floor, now, signed, i);
    }
    if i: nat :| RungServes(start, step, leaf.quorum, floor, now, signed, i) {
      assert RungOpen(leaf, i, m);
    }
  }

  lemma ConditionsOfRungs(leaf: Leaf, policies: seq<Policy>, m: Moment)
    requires forall i: nat :: i < |policies| ==> (Sat(policies[i], m) <==> RungOpen(leaf, i, m))
    ensures SomeSat(policies, m) <==> SomeRungOpen(leaf, |policies|, m)
  {
    if i: nat :| i < |policies| && Sat(policies[i], m) { assert RungOpen(leaf, i, m); }
    if i: nat :| i < |policies| && RungOpen(leaf, i, m) { assert Sat(policies[i], m); }
  }

  lemma RungsMeaning(leaf: Leaf, policies: seq<Policy>, m: Moment)
    requires AreRungs(leaf, policies)
    ensures SomeSat(policies, m) <==> SomeRungOpen(leaf, |policies|, m)
  {
    forall i: nat | i < |policies| ensures Sat(policies[i], m) <==> RungOpen(leaf, i, m) {
      var condition := policies[i];
      RungMeaning(leaf, i, m);
    }
    ConditionsOfRungs(leaf, policies, m);
  }

  lemma LadderMeaning(leaf: Leaf, consent: Option<Policy>, m: Moment)
    requires leaf.decay.Some? && Expanded(leaf).Ok?
    ensures SomeSat(Conditions(Expanded(leaf).value, consent), m) <==> LeafAllows(leaf, m)
  {
    LadderConditions(leaf, consent);
    RungsMeaning(leaf, Conditions(Expanded(leaf).value, consent), m);
    OpenRungs(leaf, m);
  }

  lemma ConditionMeaning(leaf: Leaf, consent: Option<Policy>, m: Moment)
    ensures Sat(Condition(leaf, consent), m) <==>
            && UnlockOpen(leaf.unlock, m) && SignedCount(leaf.keys, m.signers) >= leaf.quorum
            && (consent.Some? ==> Sat(consent.value, m))
  {
    var thresh := Thresh(leaf.quorum, leaf.keys);
    var gated := if consent.Some? then And(thresh, consent.value) else thresh;
    assert Sat(gated, m) <==>
        SignedCount(leaf.keys, m.signers) >= leaf.quorum && (consent.Some? ==> Sat(consent.value, m));
    match leaf.unlock
    case Immediate =>
    case After(n) => assert Sat(And(Policy.After(n), gated), m) <==> m.height >= n && Sat(gated, m);
    case OlderThan(n) => assert Sat(And(Older(n), gated), m) <==> m.age >= n && Sat(gated, m);
  }

  lemma SomeSatConcat(xs: seq<Policy>, ys: seq<Policy>, m: Moment)
    ensures SomeSat(xs + ys, m) <==> SomeSat(xs, m) || SomeSat(ys, m)
  {
    var all := xs + ys;
    if i :| 0 <= i < |xs| && Sat(xs[i], m) { assert all[i] == xs[i]; }
    if i :| 0 <= i < |ys| && Sat(ys[i], m) { assert all[|xs| + i] == ys[i]; }
    if i :| 0 <= i < |all| && Sat(all[i], m) {
      if i < |xs| { assert xs[i] == all[i]; } else { assert ys[i - |xs|] == all[i]; }
    }
  }

  lemma PlainLeafMeaning(leaf: Leaf, consent: Option<Policy>, m: Moment)
    requires leaf.decay.None?
    ensures Expanded(leaf) == Ok([leaf])
    ensures FirstImmediate([leaf]) < 1 <==> leaf.unlock.Immediate?
    ensures SomeSat(Conditions([leaf], consent), m) <==>
            LeafAllows(leaf, m) && (leaf.unlock.Immediate? && consent.Some? ==> Sat(consent.value, m))
  {
    var c := Conditions([leaf], consent);
    assert c == [Condition(leaf, if leaf.unlock.Immediate? then consent else None)];
    assert SomeSat(c, m) <==> Sat(c[0], m);
    ConditionMeaning(leaf, if leaf.unlock.Immediate? then consent else None, m);
  }

  lemma LeavesAllowSplit(leaves: seq<Leaf>, consent: Option<Policy>, m: Moment)
    requires leaves != []
    ensures LeavesAllow(leaves, consent, m) <==>
            || (LeafAllows(leaves[0], m) && (leaves[0].unlock.Immediate? && consent.Some? ==> Sat(consent.value, m)))
            || LeavesAllow(leaves[1..], if leaves[0].unlock.Immediate? then None else consent, m)
  {
    var rest, later := leaves[1..], if leaves[0].unlock.Immediate? then None else consent;
    if i :| 0 <= i < |leaves| && LeafAllows(leaves[i], m)
            && (i == FirstImmediate(leaves) && consent.Some? ==> Sat(consent.value, m)) {
      if i > 0 { assert rest[i - 1] == leaves[i]; }
    }
    if i :| 0 <= i < |rest| && LeafAllows(rest[i], m)
            && (i == FirstImmediate(rest) && later.Some? ==> Sat(later.value, m)) {
      assert leaves[i + 1] == rest[i];
    }
  }

  lemma {:induction false} ExpansionKeepsMeaning(leaves: seq<Leaf>, consent: Option<Policy>, m: Moment)
    requires Flatten(leaves).Ok?
    ensures SomeSat(Conditions(Flatten(leaves).value, consent), m) <==> LeavesAllow(leaves, consent, m)
    decreases |leaves|
  {
    if leaves != [] {
      var leaf, rungs, rest := leaves[0], Expanded(leaves[0]).value, Flatten(leaves[1..]).value;
      var later := if leaf.unlock.Immediate? then None else consent;
      if leaf.decay.Some? {
        LadderMeaning(leaf, consent, m);
        LadderConditions(leaf, consent);
      } else {
        PlainLeafMeaning(leaf, consent, m);
      }
      ConditionsAppend(rungs, rest, consent);
      SomeSatConcat(Conditions(rungs, consent), Conditions(rest, later), m);
      ExpansionKeepsMeaning(leaves[1..], later, m);
      LeavesAllowSplit(leaves, consent, m);
    }
  }

  // ---- What the chain makes of a leaf ----

  predicate UnlockOnChain(unlock: Unlock, m: Moment) {
    match unlock
    case Immediate => true
    case After(n) => AfterOpen(n, m)
    case OlderThan(n) => OlderOpen(n, m)
  }

  predicate RungOnChain(rung: Leaf, m: Moment) {
    UnlockOnChain(rung.unlock, m) && SignedCount(rung.keys, m.signers) >= rung.quorum
  }

  /** Some rung the leaf expands to is open on chain and signed. */
  ghost predicate LeafOnChain(leaf: Leaf, m: Moment) {
    Expanded(leaf).Ok? && exists j :: 0 <= j < |Expanded(leaf).value| && RungOnChain(Expanded(leaf).value[j], m)
  }

  ghost predicate LeavesOnChain(leaves: seq<Leaf>, consent: Option<Policy>, m: Moment) {
    exists i :: 0 <= i < |leaves| && LeafOnChain(leaves[i], m)
      && (i == FirstImmediate(leaves) && consent.Some? ==> ChainSat(consent.value, m))
  }

  /** What the chain lets the policy's leaves spend, with consent on the primary one. */
  ghost predicate VaultOnChain(policy: LeafPolicy, m: Moment) {
    LeavesOnChain(policy.leaves, policy.Consent(), m)
  }

  lemma ConditionOnChain(leaf: Leaf, consent: Option<Policy>, m: Moment)
    ensures ChainSat(Condition(leaf, consent), m) <==>
            RungOnChain(leaf, m) && (consent.Some? ==> ChainSat(consent.value, m))
  {
    var thresh := Thresh(leaf.quorum, leaf.keys);
    var gated := if consent.Some? then And(thresh, consent.value) else thresh;
    assert ChainSat(gated, m) <==>
        SignedCount(leaf.keys, m.signers) >= leaf.quorum && (consent.Some? ==> ChainSat(consent.value, m));
    match leaf.unlock
    case Immediate =>
    case After(n) => assert ChainSat(And(Policy.After(n), gated), m) <==> AfterOpen(n, m) && ChainSat(gated, m);
    case OlderThan(n) => assert ChainSat(And(Older(n), gated), m) <==> OlderOpen(n, m) && ChainSat(gated, m);
  }

  lemma LeafConditionsOnChain(leaf: Leaf, consent: Option<Policy>, m: Moment)
    requires Expanded(leaf).Ok?
    ensures SomeChainSat(Conditions(Expanded(leaf).value, consent), m) <==>
            LeafOnChain(leaf, m) && (leaf.unlock.Immediate? && consent.Some? ==> ChainSat(consent.value, m))
  {
    var rungs := Expanded(leaf).value;
    var policies := Conditions(rungs, consent);
    var gate := if leaf.unlock.Immediate? then consent else None;
    ImmediateExpandsToItself(leaf);
    ConsentGatesPrimaryOnly(rungs, consent);
    forall j | 0 <= j < |rungs|
      ensures ChainSat(policies[j], m) <==> RungOnChain(rungs[j], m) && (gate.Some? ==> ChainSat(gate.value, m))
    {
      ConditionOnChain(rungs[j], gate, m);
    }
  }

  lemma LeavesOnChainSplit(leaves: seq<Leaf>, consent: Option<Policy>, m: Moment)
    requires leaves != []
    ensures LeavesOnChain(leaves, consent, m) <==>
            || (LeafOnChain(leaves[0], m) &&
                (leaves[0].unlock.Immediate? && consent.Some? ==> ChainSat(consent.value, m)))
            || LeavesOnChain(leaves[1..], if leaves[0].unlock.Immediate? then None else consent, m)
  {
    var rest, later := leaves[1..], if leaves[0].unlock.Immediate? then None else consent;
    if i :| 0 <= i < |leaves| && LeafOnChain(leaves[i], m)
            && (i == FirstImmediate(leaves) && consent.Some? ==> ChainSat(consent.value, m)) {
      if i > 0 { assert rest[i - 1] == leaves[i]; }
    }
    if i :| 0 <= i < |rest| && LeafOnChain(rest[i], m)
            && (i == FirstImmediate(rest) && later.Some? ==> ChainSat(later.value, m)) {
      assert leaves[i + 1] == rest[i];
    }
  }

  lemma {:induction false} ExpansionOnChain(leaves: seq<Leaf>, consent: Option<Policy>, m: Moment)
    requires Flatten(leaves).Ok?
    ensures SomeChainSat(Conditions(Flatten(leaves).value, consent), m) <==> LeavesOnChain(leaves, consent, m)
    decreases |leaves|
  {
    if leaves != [] {
      var leaf, rungs, rest := leaves[0], Expanded(leaves[0]).value, Flatten(leaves[1..]).value;
      var later := if leaf.unlock.Immediate? then None else consent;
      ImmediateExpandsToItself(leaf);
      LeafConditionsOnChain(leaf, consent, m);
      ConditionsAppend(rungs, rest, consent);
      SomeChainSatConcat(Conditions(rungs, consent), Conditions(rest, later), m);
      ExpansionOnChain(leaves[1..], later, m);
      LeavesOnChainSplit(leaves, consent, m);
    }
  }

  // ---- When the chain opens a leaf as drafted ----

  predicate UnlockInRange(unlock: Unlock) {
    match unlock
    case Immediate => true
    case After(n) => AfterInRange(n)
    case OlderThan(n) => OlderInRange(n)
  }

  /** The blocks of the last rung a leaf expands to. */
  function LastBlocks(leaf: Leaf): nat
    requires !leaf.unlock.Immediate?
  {
    if leaf.decay.Some? && leaf.decay.value.floorQuorum <= leaf.quorum
    then RungHeight(leaf.unlock.blocks, leaf.decay.value.stepBlocks, leaf.quorum - leaf.decay.value.floorQuorum)
    else leaf.unlock.blocks
  }

  /** The drafted leaf's last rung is a height, or an age of 16 bits. */
  predicate LeafInRange(leaf: Leaf) {
    match leaf.unlock
    case Immediate => true
    case After(_) => AfterInRange(LastBlocks(leaf))
    case OlderThan(_) => OlderInRange(LastBlocks(leaf))
  }

  predicate PolicyInRange(policy: LeafPolicy) { forall l | l in policy.leaves :: LeafInRange(l) }

  /** No rung passes the last one, which has the floor quorum. */
  lemma RungsBounded(leaf: Leaf)
    requires Expanded(leaf).Ok? && !leaf.unlock.Immediate?
    ensures var rungs := Expanded(leaf).value;
            && rungs != []
            && (forall j :: 0 <= j < |rungs| ==>
                  && !rungs[j].unlock.Immediate? && rungs[j].unlock.After? == leaf.unlock.After?
                  && rungs[j].keys == leaf.keys && leaf.unlock.blocks <= rungs[j].unlock.blocks <= LastBlocks(leaf))
            && rungs[|rungs| - 1].unlock.blocks == LastBlocks(leaf)
            && rungs[|rungs| - 1].quorum == if leaf.decay.Some? then leaf.decay.value.floorQuorum else leaf.quorum
  {
    if leaf.decay.Some? {
      var rungs, start, step := Expanded(leaf).value, leaf.unlock.blocks, leaf.decay.value.stepBlocks;
      forall j: nat | j < |rungs|
        ensures start <= RungHeight(start, step, j) <= LastBlocks(leaf) <= U32_MAX && rungs[j] == Rung(leaf, j)
      {
        RungHeightMonotone(start, step, j, |rungs| - 1);
        RungHeightMonotone(start, step, 0, j);
      }
    }
  }

  lemma ConditionInRange(leaf: Leaf, consent: Option<Policy>)
    requires UnlockInRange(leaf.unlock) && (consent.Some? ==> consent.value.Thresh?)
    ensures InRange(Condition(leaf, consent))
  {
    var gated := if consent.Some? then And(Thresh(leaf.quorum, leaf.keys), consent.value)
        else Thresh(leaf.quorum, leaf.keys);
    assert InRange(gated);
  }

  /** In range, the chain opens a leaf exactly as drafted. */
  lemma InRangeLeafOnChain(leaf: Leaf, m: Moment)
    requires Expanded(leaf).Ok? && LeafInRange(leaf)
    ensures LeafOnChain(leaf, m) <==> LeafAllows(leaf, m)
  {
    var rungs := Expanded(leaf).value;
    var policies := Conditions(rungs, None);
    UngatedConditions(rungs);
    if !leaf.unlock.Immediate? { RungsBounded(leaf); }
    forall j | 0 <= j < |rungs| ensures InRange(policies[j]) { ConditionInRange(rungs[j], None); }
    SomeReadsAsWritten(policies, m);
    LeafConditionsOnChain(leaf, None, m);
    if leaf.decay.Some? { LadderMeaning(leaf, None, m); } else { PlainLeafMeaning(leaf, None, m); }
  }

  /** A moment at which the chain opens an out-of-range leaf to its floor quorum,
      though not one block of what was drafted has passed in full. */
  lemma OutOfRangeOpensEarly(leaf: Leaf) returns (m: Moment)
    requires VerifyLeaf(leaf).Ok? && Expanded(leaf).Ok? && Distinct(leaf.keys) && !LeafInRange(leaf)
    ensures LeafOnChain(leaf, m) && !LeafAllows(leaf, m)
    ensures forall k | k in m.signers :: k in leaf.keys
  {
    var rungs, n := Expanded(leaf).value, LastBlocks(leaf);
    RungsBounded(leaf);
    var last := rungs[|rungs| - 1];
    var signers := FirstSigners(leaf.keys, last.quorum);
    if leaf.unlock.After? {
      m := EarlyForAfter(n, signers);
    } else {
      m := EarlyForOlder(n, signers);
      EarlyForOlderIsEarly(n, signers);
    }
    assert RungOnChain(last, m);
    ClosedBeforeLastRung(leaf, m);
  }

  /** Floor-quorum signers alone wait for the last rung. */
  lemma ClosedBeforeLastRung(leaf: Leaf, m: Moment)
    requires VerifyLeaf(leaf).Ok? && Expanded(leaf).Ok? && !leaf.unlock.Immediate? && Clock(leaf, m) < LastBlocks(leaf)
    requires SignedCount(leaf.keys, m.signers) == if leaf.decay.Some? then leaf.decay.value.floorQuorum else leaf.quorum
    ensures !LeafAllows(leaf, m)
  {
    if leaf.decay.Some? {
      var floor := leaf.decay.value.floorQuorum;
      LadderIsStepFunction(leaf.unlock.blocks, leaf.decay.value.stepBlocks, leaf.quorum, floor, Clock(leaf, m), floor);
    }
  }

  /** Leaf by leaf, the chain's reading is the drafted one, at every moment, exactly
      when the drafted leaf's last rung is in range. */
  lemma LeafOpensAsDraftedExactly(leaf: Leaf)
    requires VerifyLeaf(leaf).Ok? && Expanded(leaf).Ok? && Distinct(leaf.keys)
    ensures (forall m :: LeafOnChain(leaf, m) <==> LeafAllows(leaf, m)) <==> LeafInRange(leaf)
  {
    if LeafInRange(leaf) {
      forall m ensures LeafOnChain(leaf, m) <==> LeafAllows(leaf, m) { InRangeLeafOnChain(leaf, m); }
    } else {
      var m := OutOfRangeOpensEarly(leaf);
    }
  }

  // ---- The vault as a whole ----

  /** Compilation preserves meaning. For every accepted policy and every moment,
      consensus lets some script path spend exactly when the printed `or(...)` policy
      is satisfied on chain and exactly when some rung of the policy is open on chain;
      the printed policy says what the policy allows; and with every leaf in range
      all of these are the same. */
  lemma CompilationPreservesMeaning(policy: LeafPolicy, lib: Library, m: Moment)
    requires Compiled(policy, lib).Ok?
    ensures var out := Compiled(policy, lib).value;
            && (Spendable(out.root, m) <==> ChainSat(out.policy, m))
            && (Spendable(out.root, m) <==> VaultOnChain(policy, m))
            && (Sat(out.policy, m) <==> VaultAllows(policy, m))
            && (PolicyInRange(policy) ==> (Spendable(out.root, m) <==> VaultAllows(policy, m)))
  {
    SpendableOnChain(policy, lib, m);
    ExpansionKeepsMeaning(policy.leaves, policy.Consent(), m);
    NestOrMeaning(Conditions(Flatten(policy.leaves).value, policy.Consent()), m);
    if PolicyInRange(policy) { InRangeVault(policy, m); }
  }

  lemma SpendableOnChain(policy: LeafPolicy, lib: Library, m: Moment)
    requires Compiled(policy, lib).Ok?
    ensures var out := Compiled(policy, lib).value;
            && (Spendable(out.root, m) <==> ChainSat(out.policy, m))
            && (Spendable(out.root, m) <==> VaultOnChain(policy, m))
  {
    TreeMeansNestedOr(Conditions(Flatten(policy.leaves).value, policy.Consent()), m);
    ExpansionOnChain(policy.leaves, policy.Consent(), m);
  }

  /** A transaction with these locks can confirm at `m` and passes leaf `i`'s script. */
  predicate TransactionSpends(out: MultileafOutput, i: nat, lockTime: nat, sequence: nat, m: Moment) {
    i < |out.leafScripts| && Confirms(lockTime, sequence, m) &&
        InputPasses(out.leafScripts[i].1.policy, m.signers, lockTime, sequence)
  }

  lemma ConditionHasOneLock(leaf: Leaf, consent: Option<Policy>)
    requires consent.Some? ==> consent.value.Thresh?
    ensures OneLock(Condition(leaf, consent))
  {
    var gated := if consent.Some? then And(Thresh(leaf.quorum, leaf.keys), consent.value)
        else Thresh(leaf.quorum, leaf.keys);
    assert LockFree(gated);
  }

  /** What consensus allows is what transactions do: the output is spendable at a moment
      exactly when some transaction whose own locks are over passes the opcodes of one
      of the listed scripts. */
  lemma SpendableByTransactionsExactly(policy: LeafPolicy, lib: Library, m: Moment)
    requires Compiled(policy, lib).Ok?
    ensures var out := Compiled(policy, lib).value;
            Spendable(out.root, m) <==>
            exists i: nat, lockTime: nat, sequence: nat :: TransactionSpends(out, i, lockTime, sequence, m)
  {
    var out, flat := Compiled(policy, lib).value, Flatten(policy.leaves).value;
    var policies := Conditions(flat, policy.Consent());
    TreeMeansNestedOr(policies, m);
    ConsentGatesPrimaryOnly(flat, policy.Consent());
    forall i | 0 <= i < |policies| ensures OneLock(policies[i]) {
      ConditionHasOneLock(flat[i], if i == FirstImmediate(flat) then policy.Consent() else None);
    }
    if i: nat :| i < |policies| && ChainSat(policies[i], m) {
      var lockTime, sequence := PassingLocks(policies[i], m);
      assert TransactionSpends(out, i, lockTime, sequence, m);
    }
    if i: nat, lockTime: nat, sequence: nat :| TransactionSpends(out, i, lockTime, sequence, m) {
      PassingIsOpen(policies[i], m, lockTime, sequence);
    }
  }

  lemma {:induction false} FlattenedExpand(leaves: seq<Leaf>)
    requires Flatten(leaves).Ok?
    ensures forall i :: 0 <= i < |leaves| ==> Expanded(leaves[i]).Ok?
  {
    if leaves != [] { FlattenedExpand(leaves[1..]); }
  }

  lemma InRangeVault(policy: LeafPolicy, m: Moment)
    requires Flatten(policy.leaves).Ok? && PolicyInRange(policy)
    ensures VaultOnChain(policy, m) <==> VaultAllows(policy, m)
  {
    var leaves, consent := policy.leaves, policy.Consent();
    FlattenedExpand(leaves);
    forall i | 0 <= i < |leaves| ensures LeafOnChain(leaves[i], m) <==> LeafAllows(leaves[i], m) {
      assert leaves[i] in leaves;
      InRangeLeafOnChain(leaves[i], m);
    }
    assert consent.Some? ==> (ChainSat(consent.value, m) <==> Sat(consent.value, m));
  }

  /** No key twice, in a leaf or across leaves. */
  predicate SeparateKeys(leaves: seq<Leaf>) {
    && (forall i :: 0 <= i < |leaves| ==> Distinct(leaves[i].keys))
    && (forall i, j :: 0 <= i < |leaves| && 0 <= j < |leaves| && i != j ==> DisjointKeys(leaves[i], leaves[j]))
  }

  predicate DisjointKeys(a: Leaf, b: Leaf) { forall k | k in a.keys :: k !in b.keys }

  lemma NobodyOfTheLeaf(leaf: Leaf, m: Moment)
    requires VerifyLeaf(leaf).Ok? && forall k | k in leaf.keys :: k !in m.signers
    ensures !LeafAllows(leaf, m)
  {
    NobodySigned(leaf.keys, m.signers);
  }

  /** Where no key is shared, the whole vault opens as drafted, at every moment,
      exactly when every leaf is in range. */
  lemma VaultOpensAsDraftedExactly(policy: LeafPolicy, lib: Library)
    requires Compiled(policy, lib).Ok? && SeparateKeys(policy.leaves)
    ensures (forall m :: Spendable(Compiled(policy, lib).value.root, m) <==> VaultAllows(policy, m)) <==>
            PolicyInRange(policy)
  {
    var leaves := policy.leaves;
    if PolicyInRange(policy) {
      forall m ensures Spendable(Compiled(policy, lib).value.root, m) <==> VaultAllows(policy, m) {
        CompilationPreservesMeaning(policy, lib, m);
      }
    } else {
      var l :| l in leaves && !LeafInRange(l);
      var k :| 0 <= k < |leaves| && leaves[k] == l;
      var m := VaultOpensEarly(policy, k);
      SpendableOnChain(policy, lib, m);
    }
  }

  lemma VaultOpensEarly(policy: LeafPolicy, k: nat) returns (m: Moment)
    requires VerifyLeafPolicy(policy).Ok? && Flatten(policy.leaves).Ok? && SeparateKeys(policy.leaves)
    requires k < |policy.leaves| && !LeafInRange(policy.leaves[k])
    ensures VaultOnChain(policy, m) && !VaultAllows(policy, m)
  {
    var leaves := policy.leaves;
    FlattenedExpand(leaves);
    VerifiedLeaves(leaves);
    assert leaves[k] in leaves;
    m := OutOfRangeOpensEarly(leaves[k]);
    forall i | 0 <= i < |leaves| ensures !LeafAllows(leaves[i], m) {
      assert leaves[i] in leaves;
      if i != k {
        assert DisjointKeys(leaves[k], leaves[i]);
        NobodyOfTheLeaf(leaves[i], m);
      }
    }
  }

  /** A spend the vault allows stays allowed as signers join, blocks arrive and the coin ages. */
  lemma VaultNeverRevokes(policy: LeafPolicy, lib: Library, m: Moment, later: Moment)
    requires Compiled(policy, lib).Ok? && m.LeadsTo(later) && Spendable(Compiled(policy, lib).value.root, m)
    ensures Spendable(Compiled(policy, lib).value.root, later)
  {
    SpendableOnChain(policy, lib, m);
    ChainSatMonotone(Compiled(policy, lib).value.policy, m, later);
    SpendableOnChain(policy, lib, later);
  }

  /** Only a plain immediate leaf expands to an immediate one, itself. */
  lemma ImmediateExpandsToItself(leaf: Leaf)
    requires Expanded(leaf).Ok?
    ensures var rungs := Expanded(leaf).value;
            if leaf.unlock.Immediate? then rungs == [leaf] && FirstImmediate(rungs) == 0
            else FirstImmediate(rungs) == |rungs|
  {
    if leaf.decay.Some? { LadderConditions(leaf, None); }
  }

  lemma {:induction false} ImmediateSurvivesExpansion(leaves: seq<Leaf>)
    requires Flatten(leaves).Ok?
    ensures var flat := Flatten(leaves).value;
            && (FirstImmediate(leaves) < |leaves| <==> FirstImmediate(flat) < |flat|)
            && (FirstImmediate(leaves) < |leaves| ==> flat[FirstImmediate(flat)] == leaves[FirstImmediate(leaves)])
  {
    if leaves != [] {
      var rungs, rest := Expanded(leaves[0]).value, Flatten(leaves[1..]).value;
      ImmediateExpandsToItself(leaves[0]);
      ImmediateSurvivesExpansion(leaves[1..]);
      FirstImmediateConcat(rungs, rest);
      if !leaves[0].unlock.Immediate? && FirstImmediate(rest) < |rest| {
        assert (rungs + rest)[|rungs| + FirstImmediate(rest)] == rest[FirstImmediate(rest)];
      }
    }
  }

  lemma {:induction false} FirstImmediateConcat(xs: seq<Leaf>, ys: seq<Leaf>)
    ensures FirstImmediate(xs + ys) ==
            if FirstImmediate(xs) < |xs| then FirstImmediate(xs) else |xs| + FirstImmediate(ys)
    decreases |xs|
  {
    if xs == [] {
      assert xs + ys == ys;
    } else {
      assert (xs + ys)[0] == xs[0] && (xs + ys)[1..] == xs[1..] + ys;
      FirstImmediateConcat(xs[1..], ys);
    }
  }

  /** Consent, when configured, gates exactly one compiled leaf, the policy's first
      immediate one: that leaf cannot be satisfied without the consent quorum, and
      every other leaf compiles to the same script as if no consent were configured. */
  lemma ConsentGatesExactlyOneLeaf(policy: LeafPolicy, lib: Library)
    returns (primary: nat)
    requires Compiled(policy, lib).Ok? && policy.HasConsent()
    ensures var scripts := Compiled(policy, lib).value.leafScripts;
            var open := Conditions(Flatten(policy.leaves).value, None);
            && primary < |scripts| == |open|
            && scripts[primary].0 == policy.leaves[FirstImmediate(policy.leaves)].id
            && (forall m: Moment :: Sat(scripts[primary].1.policy, m) <==>
                  Sat(open[primary], m) && SignedCount(policy.consentKeys, m.signers) >= policy.consentQuorum.value)
            && (forall i :: 0 <= i < |scripts| && i != primary ==> scripts[i].1.policy == open[i])
  {
    var flat := Flatten(policy.leaves).value;
    primary := PrimaryLeaf(policy);
    ConsentGatesPrimaryOnly(flat, policy.Consent());
    UngatedConditions(flat);
    forall m: Moment
      ensures Sat(Condition(flat[primary], policy.Consent()), m) <==>
              Sat(Condition(flat[primary], None), m) &&
                  SignedCount(policy.consentKeys, m.signers) >= policy.consentQuorum.value
    {
      ConditionMeaning(flat[primary], policy.Consent(), m);
      ConditionMeaning(flat[primary], None, m);
    }
  }

  /** A checked policy has an immediate leaf, and its first one survives expansion. */
  lemma PrimaryLeaf(policy: LeafPolicy) returns (primary: nat)
    requires VerifyLeafPolicy(policy).Ok? && Flatten(policy.leaves).Ok?
    ensures var flat := Flatten(policy.leaves).value;
            && primary == FirstImmediate(flat) && primary < |flat|
            && FirstImmediate(policy.leaves) < |policy.leaves|
            && flat[primary] == policy.leaves[FirstImmediate(policy.leaves)]
  {
    primary := FirstImmediate(Flatten(policy.leaves).value);
    ImmediateSurvivesExpansion(policy.leaves);
    var l :| l in policy.leaves && l.unlock.Immediate?;
    var k :| 0 <= k < |policy.leaves| && policy.leaves[k] == l;
  }

  /** The output's first script is the primary leaf's exactly when the first drafted
      leaf is the immediate one. */
  lemma FirstScriptIsPrimaryExactly(policy: LeafPolicy, lib: Library) returns (primary: nat)
    requires Compiled(policy, lib).Ok?
    ensures var out := Compiled(policy, lib).value;
            && primary == FirstImmediate(Flatten(policy.leaves).value) && primary < |out.leafScripts|
            && out.leafScripts[primary].0 == policy.leaves[FirstImmediate(policy.leaves)].id
            && (out.founderLeaf == out.leafScripts[primary].1 <==> policy.leaves[0].unlock.Immediate?)
  {
    var flat := Flatten(policy.leaves).value;
    primary := PrimaryLeaf(policy);
    ConsentGatesPrimaryOnly(flat, policy.Consent());
    ImmediateExpandsToItself(policy.leaves[0]);
    FlattenedExpand(policy.leaves);
    if !policy.leaves[0].unlock.Immediate? {
      RungsBounded(policy.leaves[0]);
      assert flat[0] == Expanded(policy.leaves[0]).value[0];
    }
  }

  // ---- What the checks buy ----

  /** Funds are never locked in: the keys of the primary leaf and the consent keys,
      all signing, can spend an accepted vault at every moment. */
  lemma PrimaryKeysAlwaysSpend(policy: LeafPolicy, lib: Library, m: Moment)
    requires Compiled(policy, lib).Ok?
    requires FirstImmediate(policy.leaves) < |policy.leaves| ==>
               forall k | k in policy.leaves[FirstImmediate(policy.leaves)].keys + policy.consentKeys :: k in m.signers
    ensures Spendable(Compiled(policy, lib).value.root, m)
  {
    var primary := PrimaryLeaf(policy);
    var i := FirstImmediate(policy.leaves);
    var leaf := policy.leaves[i];
    VerifiedLeaves(policy.leaves);
    assert leaf in policy.leaves && VerifyLeaf(leaf).Ok?;
    forall k | k in leaf.keys ensures k in m.signers { assert k in leaf.keys + policy.consentKeys; }
    forall k | k in policy.consentKeys ensures k in m.signers { assert k in leaf.keys + policy.consentKeys; }
    EverybodySigned(leaf.keys, m.signers);
    EverybodySigned(policy.consentKeys, m.signers);
    FlattenedExpand(policy.leaves);
    assert RungOnChain(leaf, m) && Expanded(leaf) == Ok([leaf]);
    assert Expanded(leaf).value[0] == leaf;
    assert LeafOnChain(leaf, m);
    SpendableOnChain(policy, lib, m);
  }

  /** Nobody is early by accident: every spend goes through a rung of some drafted leaf
      that is open on chain and signed, and if that leaf is in range the leaf allows
      the spend: an absolute delay of at least 26,000 blocks is over, a relative leaf's
      coin has aged as drafted. */
  lemma EarlySpendsAreDrafted(policy: LeafPolicy, lib: Library, m: Moment) returns (i: nat, j: nat)
    requires Compiled(policy, lib).Ok? && Spendable(Compiled(policy, lib).value.root, m)
    ensures i < |policy.leaves| && Expanded(policy.leaves[i]).Ok? && j < |Expanded(policy.leaves[i]).value|
    ensures RungOnChain(Expanded(policy.leaves[i]).value[j], m)
    ensures LeafInRange(policy.leaves[i]) ==>
              LeafAllows(policy.leaves[i], m) &&
              match policy.leaves[i].unlock
              case Immediate => true
              case After(n) => m.height >= n && (n == 0 || m.height >= MIN_RECOVERY_BLOCKS)
              case OlderThan(n) => m.age >= n && n <= MAX_RELATIVE_BLOCKS
  {
    SpendableOnChain(policy, lib, m);
    i :| 0 <= i < |policy.leaves| && LeafOnChain(policy.leaves[i], m)
         && (i == FirstImmediate(policy.leaves) && policy.Consent().Some? ==> ChainSat(policy.Consent().value, m));
    j :| 0 <= j < |Expanded(policy.leaves[i]).value| && RungOnChain(Expanded(policy.leaves[i]).value[j], m);
    VerifiedLeaves(policy.leaves);
    assert policy.leaves[i] in policy.leaves && VerifyLeaf(policy.leaves[i]).Ok?;
    if LeafInRange(policy.leaves[i]) { InRangeLeafWaits(policy.leaves[i], m); }
  }

  lemma InRangeLeafWaits(leaf: Leaf, m: Moment)
    requires VerifyLeaf(leaf).Ok? && LeafInRange(leaf) && LeafOnChain(leaf, m)
    ensures LeafAllows(leaf, m)
    ensures match leaf.unlock
            case Immediate => true
            case After(n) => m.height >= n && (n == 0 || m.height >= MIN_RECOVERY_BLOCKS)
            case OlderThan(n) => m.age >= n && n <= MAX_RELATIVE_BLOCKS
  {
    InRangeLeafOnChain(leaf, m);
  }

  // ---- Acceptance, control blocks and the descriptor ----

  /** How many leaves the tree gets from one leaf of the list. */
  function RungCount(leaf: Leaf): nat {
    if leaf.decay.Some? && leaf.decay.value.floorQuorum <= leaf.quorum
    then leaf.quorum - leaf.decay.value.floorQuorum + 1 else 1
  }

  function TreeSize(leaves: seq<Leaf>): nat {
    if leaves == [] then 0 else RungCount(leaves[0]) + TreeSize(leaves[1..])
  }

  /** A ladder is possible: it has a clock to run on and its last rung fits 32 bits. */
  predicate LadderFits(leaf: Leaf) {
    leaf.decay.Some? && leaf.decay.value.floorQuorum <= leaf.quorum ==>
      && !leaf.unlock.Immediate?
      && leaf.unlock.blocks + (leaf.quorum - leaf.decay.value.floorQuorum) * leaf.decay.value.stepBlocks <= U32_MAX
  }

  lemma LadderFitsExactly(leaf: Leaf)
    requires VerifyLeaf(leaf).Ok?
    ensures Expanded(leaf).Ok? <==> LadderFits(leaf)
    ensures Expanded(leaf).Ok? ==> |Expanded(leaf).value| == RungCount(leaf)
  {
    if leaf.decay.Some? && !leaf.unlock.Immediate? { LadderClosedForm(leaf); }
  }

  lemma {:induction false} FlattenSucceeds(leaves: seq<Leaf>)
    requires VerifyLeaves(leaves).Ok?
    ensures Flatten(leaves).Ok? <==> forall l | l in leaves :: LadderFits(l)
    ensures Flatten(leaves).Ok? ==> |Flatten(leaves).value| == TreeSize(leaves)
  {
    if leaves != [] {
      FlattenSucceeds(leaves[1..]);
      assert forall l :: l in leaves <==> l == leaves[0] || l in leaves[1..];
      LadderFitsExactly(leaves[0]);
    }
  }

  lemma {:induction false} NoneRejected(policies: seq<Policy>, lib: Library)
    ensures FirstRejected(policies, lib).None? <==> forall p | p in policies :: lib.accepts(p)
  {
    if policies != [] {
      NoneRejected(policies[1..], lib);
      assert policies == [policies[0]] + policies[1..];
    }
  }

  /** The compiler accepts a policy exactly when its checks pass, every ladder
      fits, the library takes every leaf, and the tree has at most 129 leaves. */
  lemma AcceptedExactlyWhen(policy: LeafPolicy, lib: Library)
    ensures Compiled(policy, lib).Ok? <==>
            && SoundPolicy(policy)
            && (forall l | l in policy.leaves :: LadderFits(l))
            && Flatten(policy.leaves).Ok?
            && (forall p | p in Conditions(Flatten(policy.leaves).value, policy.Consent()) :: lib.accepts(p))
            && TreeSize(policy.leaves) <= MAX_DEPTH + 1
  {
    ChecksExactly(policy);
    if VerifyLeafPolicy(policy).Ok? {
      FlattenSucceeds(policy.leaves);
      if Flatten(policy.leaves).Ok? {
        FlattenNonempty(policy.leaves);
        NoneRejected(Conditions(Flatten(policy.leaves).value, policy.Consent()), lib);
      }
    }
  }

  predicate FirstMisfit(leaves: seq<Leaf>, i: int) {
    0 <= i < |leaves| && !LadderFits(leaves[i]) && forall j :: 0 <= j < i ==> LadderFits(leaves[j])
  }

  lemma {:induction false} FlattenRefusals(leaves: seq<Leaf>)
    requires VerifyLeaves(leaves).Ok? && Flatten(leaves).Err?
    ensures exists i :: FirstMisfit(leaves, i) && Flatten(leaves).error ==
              if leaves[i].unlock.Immediate? then DecayRequiresTimelock else RelativeTimelockTooLong(U32_MAX)
  {
    if leaves != [] {
      LadderFitsExactly(leaves[0]);
      if Expanded(leaves[0]).Err? {
        assert FirstMisfit(leaves, 0);
      } else {
        FlattenRefusals(leaves[1..]);
        var i :| FirstMisfit(leaves[1..], i) && Flatten(leaves).error ==
          if leaves[1..][i].unlock.Immediate? then DecayRequiresTimelock else RelativeTimelockTooLong(U32_MAX);
        assert FirstMisfit(leaves, i + 1) && leaves[1..][i] == leaves[i + 1];
      }
    }
  }

  predicate FirstTurnedDown(policies: seq<Policy>, lib: Library, i: int) {
    0 <= i < |policies| && !lib.accepts(policies[i]) && forall j :: 0 <= j < i ==> lib.accepts(policies[j])
  }

  lemma {:induction false} FirstRejectedIsFirst(policies: seq<Policy>, lib: Library)
    requires FirstRejected(policies, lib).Some?
    ensures exists i :: FirstTurnedDown(policies, lib, i) && FirstRejected(policies, lib).value == policies[i]
  {
    if !lib.accepts(policies[0]) {
      assert FirstTurnedDown(policies, lib, 0);
    } else {
      FirstRejectedIsFirst(policies[1..], lib);
      var i :| FirstTurnedDown(policies[1..], lib, i) && FirstRejected(policies, lib).value == policies[1..][i];
      assert FirstTurnedDown(policies, lib, i + 1) && policies[1..][i] == policies[i + 1];
    }
  }

  /** Why a sound policy is still refused: the first ladder that has no clock or
      passes 32 bits, else the first condition the library turns down, else a tree of
      more than 129 leaves. */
  lemma SoundPolicyRefusals(policy: LeafPolicy, lib: Library)
    requires SoundPolicy(policy) && Compiled(policy, lib).Err?
    ensures var e := Compiled(policy, lib).error;
            if Flatten(policy.leaves).Err? then
              exists i :: FirstMisfit(policy.leaves, i) && e ==
                if policy.leaves[i].unlock.Immediate? then DecayRequiresTimelock else RelativeTimelockTooLong(U32_MAX)
            else
              var conditions := Conditions(Flatten(policy.leaves).value, policy.Consent());
              if exists p | p in conditions :: !lib.accepts(p) then
                exists i :: FirstTurnedDown(conditions, lib, i) && e == Miniscript(conditions[i])
              else e == DescriptorError && TreeSize(policy.leaves) > MAX_DEPTH + 1
  {
    ChecksExactly(policy);
    if Flatten(policy.leaves).Err? {
      FlattenRefusals(policy.leaves);
    } else {
      var conditions := Conditions(Flatten(policy.leaves).value, policy.Consent());
      NoneRejected(conditions, lib);
      FlattenNonempty(policy.leaves);
      FlattenSucceeds(policy.leaves);
      if FirstRejected(conditions, lib).Some? { FirstRejectedIsFirst(conditions, lib); }
    }
  }

  /** What the tables of an output list: every expanded leaf, in order, under its id. */
  lemma TablesListEveryLeaf(policy: LeafPolicy, lib: Library, i: nat)
    requires Compiled(policy, lib).Ok? && i < |Flatten(policy.leaves).value|
    ensures var out, leaf := Compiled(policy, lib).value, Flatten(policy.leaves).value[i];
            && |out.leafScripts| == |out.leafUnlocks| == |Flatten(policy.leaves).value|
            && out.leafScripts[i].0 == out.leafUnlocks[i].0 == leaf.id && out.leafUnlocks[i].1 == leaf.unlock
            && (forall m :: ChainSat(out.leafScripts[i].1.policy, m) <==>
                  && RungOnChain(leaf, m)
                  && (i == FirstImmediate(Flatten(policy.leaves).value) && policy.HasConsent() ==>
                        SignedCount(policy.consentKeys, m.signers) >= policy.consentQuorum.value))
            && out.recoveryLeaf.None? && out.inheritanceLeaf.None? && out.secondInheritanceLeaf.None?
  {
    var flat := Flatten(policy.leaves).value;
    var gate := if i == FirstImmediate(flat) then policy.Consent() else None;
    ConsentGatesPrimaryOnly(flat, policy.Consent());
    forall m
      ensures ChainSat(Condition(flat[i], gate), m) <==>
              RungOnChain(flat[i], m) && (gate.Some? ==> ChainSat(gate.value, m))
    {
      ConditionOnChain(flat[i], gate, m);
    }
  }

  predicate AllSign(leaf: Leaf, m: Moment) { forall key | key in leaf.keys :: key in m.signers }

  /** The reason for asking for an absolute leaf beside a relative one: some absolute
      leaf's keys spend from its height on, however old the coin is, as long as that
      height is one and not a time. */
  lemma RelativeVaultsHaveFallback(policy: LeafPolicy, lib: Library) returns (k: nat)
    requires Compiled(policy, lib).Ok? && exists l | l in policy.leaves :: l.unlock.OlderThan?
    ensures k < |policy.leaves| && policy.leaves[k].unlock.After?
    ensures UnlockInRange(policy.leaves[k].unlock) ==>
              forall m: Moment :: m.height >= policy.leaves[k].unlock.blocks && AllSign(policy.leaves[k], m) ==>
                Spendable(Compiled(policy, lib).value.root, m)
  {
    ChecksExactly(policy);
    var l :| l in policy.leaves && l.unlock.OlderThan?;
    var j :| 0 <= j < |policy.leaves| && policy.leaves[j] == l;
    k :| 0 <= k < |policy.leaves| && policy.leaves[k].unlock.After?;
    if UnlockInRange(policy.leaves[k].unlock) {
      forall m: Moment | m.height >= policy.leaves[k].unlock.blocks && AllSign(policy.leaves[k], m)
        ensures Spendable(Compiled(policy, lib).value.root, m)
      {
        FirstRungServes(policy, k, m);
        SpendableOnChain(policy, lib, m);
      }
    }
  }

  lemma FirstRungServes(policy: LeafPolicy, k: nat, m: Moment)
    requires SoundPolicy(policy) && Flatten(policy.leaves).Ok? && k < |policy.leaves|
    requires var unlock := policy.leaves[k].unlock;
             unlock.After? && UnlockInRange(unlock) && m.height >= unlock.blocks
    requires AllSign(policy.leaves[k], m)
    ensures VaultOnChain(policy, m)
  {
    var leaf := policy.leaves[k];
    FlattenedExpand(policy.leaves);
    EverybodySigned(leaf.keys, m.signers);
    LeafChecksExactly(leaf);
    if leaf.decay.Some? {
      LadderClosedForm(leaf);
      RungHeightClosed(leaf.unlock.blocks, leaf.decay.value.stepBlocks, 0);
    }
    assert RungOnChain(Expanded(leaf).value[0], m);
    assert LeafOnChain(leaf, m);
  }

  /** Every listed leaf has a control block that consensus accepts against the
      address's root and no longer than the depth the leaf was added at, and no
      script outside the list has any. */
  lemma EveryLeafHasControlBlock(policy: LeafPolicy, lib: Library)
    requires Compiled(policy, lib).Ok?
    ensures var out := Compiled(policy, lib).value;
            && (forall i :: 0 <= i < |out.leafScripts| ==> HasControlBlock(out, i))
            && (forall s: Script, path :: Verifies(out.root, s, path) ==>
                exists i :: 0 <= i < |out.leafScripts| && out.leafScripts[i].1 == s)
  {
    var flat := Flatten(policy.leaves).value;
    OutputControlBlocks(flat, Conditions(flat, policy.Consent()), lib);
  }

  predicate HasControlBlock(out: MultileafOutput, i: nat)
    requires i < |out.leafScripts|
  {
    var path := ControlBlock(out.tree, out.leafScripts[i].1);
    path.Some? && Verifies(out.root, out.leafScripts[i].1, path.value) && |path.value| <= DepthAt(i, |out.leafScripts|)
  }

  lemma OutputControlBlocks(flat: seq<Leaf>, policies: seq<Policy>, lib: Library)
    requires 1 <= |flat| == |policies| <= MAX_DEPTH + 1
    ensures var out := OutputFor(flat, policies, lib);
            && (forall i :: 0 <= i < |out.leafScripts| ==> HasControlBlock(out, i))
            && (forall s: Script, path :: Verifies(out.root, s, path) ==>
                exists i :: 0 <= i < |out.leafScripts| && out.leafScripts[i].1 == s)
  {
    var out, scripts := OutputFor(flat, policies, lib), Scripts(policies);
    forall i | 0 <= i < |scripts| ensures HasControlBlock(out, i) {
      CombControlBlock(scripts, i);
      assert out.leafScripts[i].1 == scripts[i];
    }
    forall s: Script, path | Verifies(out.root, s, path)
      ensures exists i :: 0 <= i < |out.leafScripts| && out.leafScripts[i].1 == s
    {
      CombPathLength(scripts, 0);
      OnlyLeavesRecompute(out.tree, s, path);
      var i :| 0 <= i < |scripts| && scripts[i] == s;
      assert out.leafScripts[i].1 == s;
    }
  }

  lemma {:induction false} CombPathLength(scripts: seq<Script>, i: nat)
    requires i < |scripts|
    ensures Leaves(RightComb(scripts)) == scripts && Height(RightComb(scripts)) == |scripts| - 1
    ensures |MerklePath(RightComb(scripts), i)| == if i + 1 < |scripts| then i + 1 else |scripts| - 1
  {
    if |scripts| > 1 {
      CombPathLength(scripts[1..], if i == 0 then 0 else i - 1);
      assert [scripts[0]] + scripts[1..] == scripts;
    }
  }

  lemma CombControlBlock(scripts: seq<Script>, i: nat)
    requires i < |scripts| <= MAX_DEPTH + 1
    ensures var tree := RightComb(scripts);
            var path := ControlBlock(tree, scripts[i]);
            path.Some? && Verifies(Root(tree), scripts[i], path.value) && |path.value| <= DepthAt(i, |scripts|)
  {
    CombPathLength(scripts, i);
    DepthAtFits(i, |scripts|);
    ControlBlockVerifies(RightComb(scripts), i);
  }

  /** The descriptor handed out re-derives to the root the address commits to. */
  lemma DescriptorMatchesAddress(policy: LeafPolicy, lib: Library)
    requires Compiled(policy, lib).Ok? && Faithful(lib)
    ensures DescriptorRoot(Compiled(policy, lib).value.descriptor, lib) == Some(Compiled(policy, lib).value.root)
  {
    DescriptorDerivesRoot(Conditions(Flatten(policy.leaves).value, policy.Consent()), lib);
  }
}
