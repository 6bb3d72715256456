/** The hand-written named compiler against the generic leaf-list compiler:
    same tree, address, descriptor and policy at every return point. */
module Refinement {
  import opened Wrappers
  import opened SpendPolicy
  import opened Consensus
  import opened Taproot
  import opened Descriptor
  import opened LeafPolicies
  import opened LeafCompiler
  import opened LeafMeaning
  import opened DynastyPolicies

  // ---- Translation ----

  /** The named policy as a leaf list: founders, recovery or backup, inheritance,
      second inheritance; consent kept only if it gates anything. */
  function Translate(p: DynastyPolicy): LeafPolicy {
    LeafPolicy([FounderLeaf(p)] + FallbackLeaves(p),
               if p.HasConsent() then p.consentKeys else [],
               if p.HasConsent() then p.consentQuorum else None)
  }

  function FounderLeaf(p: DynastyPolicy): Leaf {
    Leaf("founders_now", p.founderKeys, p.founderQuorum, Immediate, None)
  }

  function FallbackLeaves(p: DynastyPolicy): seq<Leaf> {
    MiddleLeaf(p) + (InheritanceLeaf(p) + SecondInheritanceLeaf(p))
  }

  function MiddleLeaf(p: DynastyPolicy): seq<Leaf> {
    if p.HasBackup() then [Leaf("backup", p.backupKeys, p.backupQuorum.value, Immediate, None)]
    else if p.HasRecovery() then
      [Leaf("recovery", p.founderKeys, p.recoveryQuorum.GetOr(p.founderQuorum), Unlock.After(p.recoveryAfter), None)]
    else []
  }

  function InheritanceLeaf(p: DynastyPolicy): seq<Leaf> {
    if p.WantsInheritance() then
      [Leaf("inheritance", p.heirKeys, p.heirQuorum, Unlock.After(p.inheritanceAfter), None)]
    else []
  }

  function SecondInheritanceLeaf(p: DynastyPolicy): seq<Leaf> {
    if p.HasSecondInheritance() then
      [Leaf("second_inheritance", p.secondHeirKeys, p.secondHeirQuorum.value,
            Unlock.After(p.secondInheritanceAfter.value), None)]
    else []
  }

  /** The spend branches of a named policy, in tree order. */
  function Branches(p: DynastyPolicy): seq<Policy> {
    [p.FounderBranch()] + Fallbacks(p)
  }

  function Fallbacks(p: DynastyPolicy): seq<Policy> {
    (if p.HasMiddleLeaf() then [p.MiddleBranch()] else [])
    + ((if p.WantsInheritance() then [p.InheritanceBranch()] else [])
       + (if p.HasSecondInheritance() then [p.SecondInheritanceBranch()] else []))
  }

  lemma {:induction false} FlattenPlain(leaves: seq<Leaf>)
    requires forall i :: 0 <= i < |leaves| ==> leaves[i].decay.None?
    ensures Flatten(leaves) == Ok(leaves)
  {
    if leaves != [] {
      FlattenPlain(leaves[1..]);
      assert [leaves[0]] + leaves[1..] == leaves;
    }
  }

  lemma UngatedAppend(xs: seq<Leaf>, ys: seq<Leaf>)
    ensures Conditions(xs + ys, None) == Conditions(xs, None) + Conditions(ys, None)
  {
    ConditionsAppend(xs, ys, None);
  }

  lemma SingleUngated(leaf: Leaf)
    ensures Conditions([leaf], None) == [Condition(leaf, None)]
  {
  }

  lemma TranslatedFallbacks(p: DynastyPolicy)
    ensures Conditions(FallbackLeaves(p), None) == Fallbacks(p)
  {
    var middle, heirs, second := MiddleLeaf(p), InheritanceLeaf(p), SecondInheritanceLeaf(p);
    UngatedAppend(middle, heirs + second);
    UngatedAppend(heirs, second);
    if middle != [] { SingleUngated(middle[0]); }
    if heirs != [] { SingleUngated(heirs[0]); }
    if second != [] { SingleUngated(second[0]); }
  }

  lemma NoDecay(p: DynastyPolicy)
    ensures forall i :: 0 <= i < |FallbackLeaves(p)| ==> FallbackLeaves(p)[i].decay.None?
  {
  }

  lemma TranslatedConditions(p: DynastyPolicy)
    ensures Flatten(Translate(p).leaves) == Ok(Translate(p).leaves)
    ensures Conditions(Translate(p).leaves, Translate(p).Consent()) == Branches(p)
  {
    var leaves := Translate(p).leaves;
    assert leaves[0] == FounderLeaf(p) && leaves[1..] == FallbackLeaves(p);
    NoDecay(p);
    FlattenPlain(leaves);
    TranslatedFallbacks(p);
    PrimaryCondition(p);
  }

  /** The founders' leaf is the primary one and takes the consent gate. */
  lemma PrimaryCondition(p: DynastyPolicy)
    ensures Conditions(Translate(p).leaves, Translate(p).Consent())
         == [p.FounderBranch()] + Conditions(FallbackLeaves(p), None)
  {
    var leaves := Translate(p).leaves;
    assert leaves[0] == FounderLeaf(p) && leaves[1..] == FallbackLeaves(p);
  }

  // ---- The two sets of checks ----

  /** The second heir cohort meets the generic compiler's delay floor. */
  predicate SecondDelayFloor(p: DynastyPolicy) {
    p.HasSecondInheritance() ==> p.secondInheritanceAfter.value >= MIN_RECOVERY_BLOCKS
  }

  lemma {:induction false} VerifyLeavesAppend(xs: seq<Leaf>, ys: seq<Leaf>)
    ensures VerifyLeaves(xs + ys) == if VerifyLeaves(xs).Err? then VerifyLeaves(xs) else VerifyLeaves(ys)
    decreases |xs|
  {
    if xs == [] {
      assert xs + ys == ys;
    } else {
      assert (xs + ys)[0] == xs[0] && (xs + ys)[1..] == xs[1..] + ys;
      VerifyLeavesAppend(xs[1..], ys);
    }
  }

  lemma NoRelativeLeaf(p: DynastyPolicy)
    ensures forall l | l in FallbackLeaves(p) :: !l.unlock.OlderThan?
  {
  }

  lemma VerifyOne(leaf: Leaf)
    ensures VerifyLeaves([leaf]) == VerifyLeaf(leaf)
  {
  }

  lemma FallbacksVerify(p: DynastyPolicy)
    requires Verify(p).Ok?
    ensures VerifyLeaves(FallbackLeaves(p)) == if SecondDelayFloor(p) then Ok(()) else Err(RecoveryTooSoon)
  {
    var middle, heirs, second := MiddleLeaf(p), InheritanceLeaf(p), SecondInheritanceLeaf(p);
    VerifyLeavesAppend(middle, heirs + second);
    VerifyLeavesAppend(heirs, second);
    if middle != [] { VerifyOne(middle[0]); assert middle == [middle[0]] && VerifyLeaf(middle[0]).Ok?; }
    if heirs != [] { VerifyOne(heirs[0]); assert heirs == [heirs[0]] && VerifyLeaf(heirs[0]).Ok?; }
    if second != [] {
      VerifyOne(second[0]);
      assert second == [second[0]];
      assert VerifyLeaf(second[0]) == if SecondDelayFloor(p) then Ok(()) else Err(RecoveryTooSoon);
    }
  }

  lemma TranslatedLeavesVerify(p: DynastyPolicy)
    requires Verify(p).Ok?
    ensures VerifyLeaves(Translate(p).leaves) == if SecondDelayFloor(p) then Ok(()) else Err(RecoveryTooSoon)
  {
    VerifyLeavesAppend([FounderLeaf(p)], FallbackLeaves(p));
    VerifyOne(FounderLeaf(p));
    FallbacksVerify(p);
  }

  /** A list that starts immediate and has no relative leaf passes as its leaves do. */
  lemma OrdinaryListVerifies(policy: LeafPolicy)
    requires policy.leaves != [] && policy.leaves[0].unlock.Immediate?
    requires forall l | l in policy.leaves[1..] :: !l.unlock.OlderThan?
    requires policy.consentQuorum.Some? ==> QuorumFits(policy.consentQuorum.value, policy.consentKeys)
    ensures VerifyLeafPolicy(policy) == VerifyLeaves(policy.leaves)
  {
    var leaves := policy.leaves;
    assert leaves[0] in leaves;
    forall l | l in leaves ensures !l.unlock.OlderThan? { assert l == leaves[0] || l in leaves[1..]; }
    assert VerifyLeaves(leaves).Ok? ==> VerifyLeaves(leaves).value == ();
  }

  /** A verified named policy passes the generic checks exactly when its second
      cohort's delay, which the named checks only ask to be positive, meets the floor. */
  lemma TranslationVerifies(p: DynastyPolicy)
    requires Verify(p).Ok?
    ensures VerifyLeafPolicy(Translate(p)) == if SecondDelayFloor(p) then Ok(()) else Err(RecoveryTooSoon)
  {
    TranslatedLeavesVerify(p);
    NoRelativeLeaf(p);
    assert Translate(p).leaves[1..] == FallbackLeaves(p);
    OrdinaryListVerifies(Translate(p));
  }

  // ---- The hand-picked depths, texts and policies are the generic ones ----

  /** The generic output for these conditions, before the lookup tables. */
  predicate SameVault(named: MultileafOutput, policies: seq<Policy>, lib: Library)
    requires policies != []
  {
    && named.tree == RightComb(Scripts(policies)) && named.root == Root(named.tree)
    && named.founderLeaf == Script(policies[0])
    && named.descriptor == TrDescriptor(NUMS_HEX, NestLeaves(Texts(policies, lib)))
    && named.policy == NestOr(policies)
  }

  lemma FixedDepths(items: seq<(nat, Policy)>, policies: seq<Policy>)
    requires 1 <= |items| == |policies| <= 4
    requires forall i :: 0 <= i < |items| ==> items[i] == (DepthAt(i, |items|), policies[i])
    ensures BuildTree(ScriptItems(items)) == Some(RightComb(Scripts(policies)))
  {
    assert ScriptItems(items) == Schedule(Scripts(policies));
    ScheduleBuildsRightComb(Scripts(policies));
  }

  lemma FinishedIsSame(items: seq<(nat, Policy)>, policies: seq<Policy>, text: string, policy: Policy,
                       middle: Option<Policy>, heirs: Option<Policy>, second: Option<Policy>, lib: Library)
    requires 1 <= |items| == |policies| <= 4
    requires forall i :: 0 <= i < |items| ==> items[i] == (DepthAt(i, |items|), policies[i])
    requires text == NestLeaves(Texts(policies, lib)) && policy == NestOr(policies)
    ensures var r := FinishNamed(items, text, policy, middle, heirs, second);
            r.Ok? && SameVault(r.value, policies, lib)
            && r.value.recoveryLeaf == AsScript(middle) && r.value.inheritanceLeaf == AsScript(heirs)
            && r.value.secondInheritanceLeaf == AsScript(second)
  {
    FixedDepths(items, policies);
  }

  lemma OneBranch(a: Policy, lib: Library)
    ensures NestLeaves(Texts([a], lib)) == lib.text(a) && NestOr([a]) == a
  {
  }

  lemma OneMore(a: Policy, rest: seq<Policy>, lib: Library)
    requires rest != []
    ensures NestLeaves(Texts([a] + rest, lib)) == Braced(lib.text(a), NestLeaves(Texts(rest, lib)))
    ensures NestOr([a] + rest) == Or(a, NestOr(rest))
  {
    assert ([a] + rest)[1..] == rest;
    assert Texts([a] + rest, lib)[1..] == Texts(rest, lib);
  }

  lemma TwoBranches(a: Policy, b: Policy, lib: Library)
    ensures NestLeaves(Texts([a, b], lib)) == Braced(lib.text(a), lib.text(b)) && NestOr([a, b]) == Or(a, b)
  {
    OneMore(a, [b], lib);
    OneBranch(b, lib);
    assert [a, b] == [a] + [b];
  }

  lemma ThreeBranches(a: Policy, b: Policy, c: Policy, lib: Library)
    ensures NestLeaves(Texts([a, b, c], lib)) == Braced(lib.text(a), Braced(lib.text(b), lib.text(c)))
    ensures NestOr([a, b, c]) == Or(a, Or(b, c))
  {
    OneMore(a, [b, c], lib);
    TwoBranches(b, c, lib);
    assert [a, b, c] == [a] + [b, c];
  }

  lemma FourBranches(a: Policy, b: Policy, c: Policy, d: Policy, lib: Library)
    ensures NestLeaves(Texts([a, b, c, d], lib)) ==
            Braced(lib.text(a), Braced(lib.text(b), Braced(lib.text(c), lib.text(d))))
    ensures NestOr([a, b, c, d]) == Or(a, Or(b, Or(c, d)))
  {
    OneMore(a, [b, c, d], lib);
    ThreeBranches(b, c, d, lib);
    assert [a, b, c, d] == [a] + [b, c, d];
  }

  /** The result is the generic vault, with each named leaf in its field. */
  predicate AsGeneric(r: Result<MultileafOutput, PolicyError>, p: DynastyPolicy, lib: Library) {
    r.Ok? && SameVault(r.value, Branches(p), lib)
    && r.value.recoveryLeaf == AsScript(if p.HasMiddleLeaf() then Some(p.MiddleBranch()) else None)
    && r.value.inheritanceLeaf == AsScript(if p.WantsInheritance() then Some(p.InheritanceBranch()) else None)
    && r.value.secondInheritanceLeaf ==
         AsScript(if p.HasSecondInheritance() then Some(p.SecondInheritanceBranch()) else None)
  }

  predicate AllAccepted(p: DynastyPolicy, lib: Library) {
    && lib.accepts(p.FounderBranch())
    && (p.HasMiddleLeaf() ==> lib.accepts(p.MiddleBranch()))
    && (p.WantsInheritance() ==> lib.accepts(p.InheritanceBranch()))
    && (p.HasSecondInheritance() ==> lib.accepts(p.SecondInheritanceBranch()))
  }

  lemma AcceptedBranches(p: DynastyPolicy, lib: Library)
    ensures FirstRejected(Branches(p), lib).None? <==> AllAccepted(p, lib)
  {
    FirstRejectedAppend([p.FounderBranch()], Fallbacks(p), lib);
    var middle := if p.HasMiddleLeaf() then [p.MiddleBranch()] else [];
    var heirs := if p.WantsInheritance() then [p.InheritanceBranch()] else [];
    var second := if p.HasSecondInheritance() then [p.SecondInheritanceBranch()] else [];
    FirstRejectedAppend(middle, heirs + second, lib);
    FirstRejectedAppend(heirs, second, lib);
  }

  lemma PlainShape(p: DynastyPolicy, lib: Library)
    requires p.IsPlain()
    ensures AsGeneric(PlainReturn(p, lib), p, lib)
  {
    var founder := p.FounderBranch();
    assert Branches(p) == [founder];
    OneBranch(founder, lib);
    FinishedIsSame([(0, founder)], [founder], lib.text(founder), founder, None, None, None, lib);
  }

  lemma BackupShape(p: DynastyPolicy, lib: Library)
    requires !p.WantsInheritance() && p.HasBackup() && !p.HasSecondInheritance()
    ensures AsGeneric(BackupReturn(p, lib), p, lib)
  {
    var founder, backup := p.FounderBranch(), p.BackupBranch();
    assert Branches(p) == [founder, backup];
    TwoBranches(founder, backup, lib);
    FinishedIsSame([(1, founder), (1, backup)], [founder, backup], Braced(lib.text(founder), lib.text(backup)),
                   Or(founder, backup), Some(backup), None, None, lib);
  }

  lemma GiftLockerShape(p: DynastyPolicy, lib: Library)
    requires p.WantsInheritance() && !p.HasMiddleLeaf() && !p.HasSecondInheritance()
    ensures AsGeneric(GiftLockerReturn(p, lib), p, lib)
  {
    var founder, heirs := p.FounderBranch(), p.InheritanceBranch();
    assert Branches(p) == [founder, heirs];
    TwoBranches(founder, heirs, lib);
    FinishedIsSame([(1, founder), (1, heirs)], [founder, heirs], Braced(lib.text(founder), lib.text(heirs)),
                   Or(founder, heirs), None, Some(heirs), None, lib);
  }

  lemma TwoCohortsShape(p: DynastyPolicy, lib: Library)
    requires p.WantsInheritance() && !p.HasMiddleLeaf() && p.HasSecondInheritance()
    ensures AsGeneric(TwoCohortsReturn(p, lib), p, lib)
  {
    var founder, heirs, second := p.FounderBranch(), p.InheritanceBranch(), p.SecondInheritanceBranch();
    assert Branches(p) == [founder, heirs, second];
    ThreeBranches(founder, heirs, second, lib);
    FinishedIsSame([(1, founder), (2, heirs), (2, second)], [founder, heirs, second],
                   Braced(lib.text(founder), Braced(lib.text(heirs), lib.text(second))),
                   Or(founder, Or(heirs, second)), None, Some(heirs), Some(second), lib);
  }

  lemma MiddleShape(p: DynastyPolicy, lib: Library)
    requires p.WantsInheritance() && p.HasMiddleLeaf() && !p.HasSecondInheritance()
    ensures AsGeneric(MiddleReturn(p, lib), p, lib)
  {
    var founder, middle, heirs := p.FounderBranch(), p.MiddleBranch(), p.InheritanceBranch();
    assert Branches(p) == [founder, middle, heirs];
    ThreeBranches(founder, middle, heirs, lib);
    FinishedIsSame([(1, founder), (2, middle), (2, heirs)], [founder, middle, heirs],
                   Braced(lib.text(founder), Braced(lib.text(middle), lib.text(heirs))),
                   Or(founder, Or(middle, heirs)), Some(middle), Some(heirs), None, lib);
  }

  lemma FourLeafShape(p: DynastyPolicy, lib: Library)
    requires p.WantsInheritance() && p.HasMiddleLeaf() && p.HasSecondInheritance()
    ensures AsGeneric(FourLeafReturn(p, lib), p, lib)
  {
    var founder, middle, heirs, second :=
        p.FounderBranch(), p.MiddleBranch(), p.InheritanceBranch(), p.SecondInheritanceBranch();
    assert Branches(p) == [founder, middle, heirs, second];
    FourBranches(founder, middle, heirs, second, lib);
    FinishedIsSame([(1, founder), (2, middle), (3, heirs), (3, second)], [founder, middle, heirs, second],
                   Braced(lib.text(founder), Braced(lib.text(middle), Braced(lib.text(heirs), lib.text(second)))),
                   Or(founder, Or(middle, Or(heirs, second))), Some(middle), Some(heirs), Some(second), lib);
  }

  /** A verified policy compiles exactly when the library takes all its branches,
      and then hands out the generic vault over those branches; otherwise the
      refusal names one of them. */
  lemma NamedOutput(p: DynastyPolicy, lib: Library)
    requires Verify(p).Ok?
    ensures AllAccepted(p, lib) ==> AsGeneric(BuildMultileaf(p, lib), p, lib)
    ensures !AllAccepted(p, lib) ==>
              BuildMultileaf(p, lib).Err? && BuildMultileaf(p, lib).error.Miniscript?
              && !lib.accepts(BuildMultileaf(p, lib).error.rejected)
              && BuildMultileaf(p, lib).error.rejected in Branches(p)
  {
    if AllAccepted(p, lib) {
      if p.IsPlain() {
        PlainShape(p, lib);
      } else if !p.WantsInheritance() {
        BackupShape(p, lib);
      } else if !p.HasMiddleLeaf() && !p.HasSecondInheritance() {
        GiftLockerShape(p, lib);
      } else if !p.HasMiddleLeaf() {
        TwoCohortsShape(p, lib);
      } else if !p.HasSecondInheritance() {
        MiddleShape(p, lib);
      } else {
        FourLeafShape(p, lib);
      }
    }
  }

  /** The named compiler accepts exactly the sound policies whose branches the library takes. */
  lemma NamedAcceptedExactly(p: DynastyPolicy, lib: Library)
    ensures BuildMultileaf(p, lib).Ok? <==>
            SoundQuorums(p) && SoundCohorts(p) && SoundHeirs(p) && forall b | b in Branches(p) :: lib.accepts(b)
  {
    NamedChecksExactly(p);
    if Verify(p).Ok? {
      NamedOutput(p, lib);
      AcceptedBranches(p, lib);
      NoneRejected(Branches(p), lib);
    }
  }

  // ---- The main results ----

  /** The generic compiler refines the hand-written one: on every verified named
      policy whose second delay meets the floor, translating and compiling
      generically succeeds exactly when the hand-written case split does, with the
      same tree, root, descriptor, policy and first leaf, and every named leaf is
      listed under its own name. */
  lemma GenericRefinesNamed(p: DynastyPolicy, lib: Library)
    requires Verify(p).Ok? && SecondDelayFloor(p)
    ensures BuildMultileaf(p, lib).Ok? <==> Compiled(Translate(p), lib).Ok?
    ensures BuildMultileaf(p, lib).Ok? ==>
              var named, generic := BuildMultileaf(p, lib).value, Compiled(Translate(p), lib).value;
              && named.tree == generic.tree && named.root == generic.root
              && named.descriptor == generic.descriptor && named.policy == generic.policy
              && named.founderLeaf == generic.founderLeaf
              && generic.leafScripts == LeafScripts(Translate(p).leaves, Branches(p))
    ensures BuildMultileaf(p, lib).Err? ==>
              BuildMultileaf(p, lib).error.Miniscript? && Compiled(Translate(p), lib).error.Miniscript?
  {
    TranslationVerifies(p);
    TranslatedConditions(p);
    AcceptedBranches(p, lib);
    NamedOutput(p, lib);
  }

  /** Without the floor the two compilers part: the hand-written one accepts a
      short second delay and the generic one refuses it. */
  lemma GenericRefusesShortSecondDelay(p: DynastyPolicy, lib: Library)
    requires Verify(p).Ok? && !SecondDelayFloor(p)
    ensures Compiled(Translate(p), lib) == Err(RecoveryTooSoon)
    ensures AllAccepted(p, lib) ==> BuildMultileaf(p, lib).Ok?
  {
    TranslationVerifies(p);
    NamedOutput(p, lib);
  }

  /** The round-trip check after a named compile never fires either. */
  lemma NamedDescriptorMatchesAddress(p: DynastyPolicy, lib: Library)
    requires Faithful(lib) && BuildMultileaf(p, lib).Ok?
    ensures DescriptorRoot(BuildMultileaf(p, lib).value.descriptor, lib) == Some(BuildMultileaf(p, lib).value.root)
  {
    NamedOutput(p, lib);
    AcceptedBranches(p, lib);
    DescriptorDerivesRoot(Branches(p), lib);
  }

  /** What a named vault means on chain: exactly the spends of its branches. */
  lemma NamedMeaning(p: DynastyPolicy, lib: Library, m: Moment)
    requires BuildMultileaf(p, lib).Ok?
    ensures Spendable(BuildMultileaf(p, lib).value.root, m) <==>
            || ChainSat(p.FounderBranch(), m)
            || (p.HasMiddleLeaf() && ChainSat(p.MiddleBranch(), m))
            || (p.WantsInheritance() && ChainSat(p.InheritanceBranch(), m))
            || (p.HasSecondInheritance() && ChainSat(p.SecondInheritanceBranch(), m))
  {
    NamedOutput(p, lib);
    var middle := if p.HasMiddleLeaf() then [p.MiddleBranch()] else [];
    var heirs := if p.WantsInheritance() then [p.InheritanceBranch()] else [];
    var second := if p.HasSecondInheritance() then [p.SecondInheritanceBranch()] else [];
    TreeMeansNestedOr(Branches(p), m);
    SomeChainSatConcat([p.FounderBranch()], Fallbacks(p), m);
    SomeChainSatConcat(middle, heirs + second, m);
    SomeChainSatConcat(heirs, second, m);
    SomeChainSatSingle(p.FounderBranch(), m);
    if middle != [] { SomeChainSatSingle(middle[0], m); }
    if heirs != [] { SomeChainSatSingle(heirs[0], m); }
    if second != [] { SomeChainSatSingle(second[0], m); }
  }

  /** Funds are never locked in: founders and consenters together can always spend. */
  lemma FoundersAlwaysSpend(p: DynastyPolicy, lib: Library, m: Moment)
    requires BuildMultileaf(p, lib).Ok?
    requires (forall k | k in p.founderKeys :: k in m.signers) && (forall k | k in p.consentKeys :: k in m.signers)
    ensures Spendable(BuildMultileaf(p, lib).value.root, m)
  {
    EverybodySigned(p.founderKeys, m.signers);
    EverybodySigned(p.consentKeys, m.signers);
    NamedMeaning(p, lib, m);
  }

  lemma VerifiedDelays(p: DynastyPolicy)
    requires Verify(p).Ok?
    ensures p.HasRecovery() ==> MIN_RECOVERY_BLOCKS <= p.recoveryAfter < p.inheritanceAfter && !p.HasBackup()
    ensures p.WantsInheritance() ==> p.inheritanceAfter >= MIN_RECOVERY_BLOCKS
  {
  }

  /** What the named checks buy: leaving the second cohort aside, whoever spends
      through a delayed branch waited at least 26,000 blocks, and heirs wait until
      after the founders' own recovery has opened, as long as the heirs' delay is a
      height and not a time. */
  lemma DelayedBranchesWait(p: DynastyPolicy, lib: Library, m: Moment)
    requires BuildMultileaf(p, lib).Ok? && Spendable(BuildMultileaf(p, lib).value.root, m)
    requires !ChainSat(p.FounderBranch(), m) && (p.HasBackup() ==> !ChainSat(p.BackupBranch(), m))
    requires p.HasSecondInheritance() ==> !ChainSat(p.SecondInheritanceBranch(), m)
    ensures AfterInRange(p.inheritanceAfter) ==> m.height >= MIN_RECOVERY_BLOCKS
    ensures AfterInRange(p.inheritanceAfter) && p.HasRecovery() ==>
              m.height >= p.recoveryAfter
              && (SignedCount(p.founderKeys, m.signers) >= p.recoveryQuorum.GetOr(p.founderQuorum) ||
                  m.height > p.recoveryAfter)
  {
    NamedMeaning(p, lib, m);
    VerifiedDelays(p);
    DelayedThresh(p.inheritanceAfter, p.heirQuorum, p.heirKeys, m);
    DelayedThresh(p.recoveryAfter, p.recoveryQuorum.GetOr(p.founderQuorum), p.founderKeys, m);
    if p.WantsInheritance() && ChainSat(p.InheritanceBranch(), m) {
      assert AfterOpen(p.inheritanceAfter, m);
    } else {
      assert ChainSat(p.MiddleBranch(), m) && p.HasMiddleLeaf();
      assert AfterOpen(p.recoveryAfter, m);
    }
  }

  /** The heirs hold no key of another branch. */
  predicate HeirsApart(p: DynastyPolicy) {
    forall k | k in p.heirKeys :: k !in p.founderKeys && k !in p.backupKeys && k !in p.secondHeirKeys
  }

  /** Heirs of their own wait out the 26,000 blocks, at every moment, exactly when
      their delay is a height. */
  lemma HeirsWaitExactly(p: DynastyPolicy, lib: Library)
    requires BuildMultileaf(p, lib).Ok? && p.WantsInheritance() && HeirsApart(p)
    ensures (forall m :: OnlyHeirs(p, m) && Spendable(BuildMultileaf(p, lib).value.root, m) ==>
             m.height >= MIN_RECOVERY_BLOCKS)
       <==> AfterInRange(p.inheritanceAfter)
  {
    if AfterInRange(p.inheritanceAfter) {
      forall m | OnlyHeirs(p, m) && Spendable(BuildMultileaf(p, lib).value.root, m)
        ensures m.height >= MIN_RECOVERY_BLOCKS
      {
        OnlyHeirsBranch(p, m);
        DelayedBranchesWait(p, lib, m);
      }
    } else {
      var m := EarlyForAfter(p.inheritanceAfter, set k | k in p.heirKeys);
      EverybodySigned(p.heirKeys, m.signers);
      DelayedThresh(p.inheritanceAfter, p.heirQuorum, p.heirKeys, m);
      assert ChainSat(p.InheritanceBranch(), m);
      NamedMeaning(p, lib, m);
      assert OnlyHeirs(p, m) && m.height == 0;
    }
  }

  predicate OnlyHeirs(p: DynastyPolicy, m: Moment) { forall k | k in m.signers :: k in p.heirKeys }

  lemma OnlyHeirsBranch(p: DynastyPolicy, m: Moment)
    requires Verify(p).Ok? && HeirsApart(p) && OnlyHeirs(p, m)
    ensures !ChainSat(p.FounderBranch(), m) && (p.HasBackup() ==> !ChainSat(p.BackupBranch(), m))
    ensures p.HasSecondInheritance() ==> !ChainSat(p.SecondInheritanceBranch(), m)
  {
    NobodySigned(p.founderKeys, m.signers);
    NobodySigned(p.backupKeys, m.signers);
    NobodySigned(p.secondHeirKeys, m.signers);
    assert !ChainSat(p.TrusteeThresh(), m);
  }

  /** The second heirs hold no key of another branch. */
  predicate SecondHeirsApart(p: DynastyPolicy) {
    forall k | k in p.secondHeirKeys :: k !in p.founderKeys && k !in p.backupKeys && k !in p.heirKeys
  }

  predicate OnlySecondHeirs(p: DynastyPolicy, m: Moment) { forall k | k in m.signers :: k in p.secondHeirKeys }

  /** Second heirs of their own wait 26,000 blocks, at every moment, exactly when their
      delay, which the named checks only ask to be positive, is at least that and a height. */
  lemma SecondHeirsWaitExactly(p: DynastyPolicy, lib: Library)
    requires BuildMultileaf(p, lib).Ok? && p.HasSecondInheritance() && SecondHeirsApart(p)
    ensures (forall m ::
               OnlySecondHeirs(p, m) && Spendable(BuildMultileaf(p, lib).value.root, m) ==>
                   m.height >= MIN_RECOVERY_BLOCKS)
       <==> SecondDelayFloor(p) && AfterInRange(p.secondInheritanceAfter.value)
  {
    var n := p.secondInheritanceAfter.value;
    if SecondDelayFloor(p) && AfterInRange(n) {
      forall m | OnlySecondHeirs(p, m) && Spendable(BuildMultileaf(p, lib).value.root, m)
        ensures m.height >= MIN_RECOVERY_BLOCKS
      {
        OnlySecondHeirsBranch(p, lib, m);
      }
    } else {
      var signers := set k | k in p.secondHeirKeys;
      var m := if AfterInRange(n) then Moment(signers, n, 0, 0, 0) else EarlyForAfter(n, signers);
      EverybodySigned(p.secondHeirKeys, m.signers);
      DelayedThresh(n, p.secondHeirQuorum.value, p.secondHeirKeys, m);
      NamedMeaning(p, lib, m);
      assert OnlySecondHeirs(p, m) && m.height < MIN_RECOVERY_BLOCKS;
    }
  }

  lemma OnlySecondHeirsBranch(p: DynastyPolicy, lib: Library, m: Moment)
    requires BuildMultileaf(p, lib).Ok? && p.HasSecondInheritance() && SecondHeirsApart(p) && OnlySecondHeirs(p, m)
    requires Spendable(BuildMultileaf(p, lib).value.root, m)
    ensures AfterOpen(p.secondInheritanceAfter.value, m)
  {
    NobodySigned(p.founderKeys, m.signers);
    NobodySigned(p.backupKeys, m.signers);
    NobodySigned(p.heirKeys, m.signers);
    NamedMeaning(p, lib, m);
    assert !ChainSat(p.TrusteeThresh(), m);
    DelayedThresh(p.recoveryAfter, p.recoveryQuorum.GetOr(p.founderQuorum), p.founderKeys, m);
    DelayedThresh(p.inheritanceAfter, p.heirQuorum, p.heirKeys, m);
    DelayedThresh(p.secondInheritanceAfter.value, p.secondHeirQuorum.value, p.secondHeirKeys, m);
  }

  lemma SomeChainSatSingle(a: Policy, m: Moment)
    ensures SomeChainSat([a], m) <==> ChainSat(a, m)
  {
    if ChainSat(a, m) { assert ChainSat([a][0], m); }
  }

  /** The flat form and the tree form print one policy when there is no second
      heir cohort; with one, the tree allows exactly the flat form's spends plus
      those of that cohort. */
  lemma FlatFormAgainstTree(p: DynastyPolicy, lib: Library, m: Moment)
    requires BuildMultileaf(p, lib).Ok?
    ensures !p.HasSecondInheritance() ==> BuildMultileaf(p, lib).value.policy == BuildPolicyString(p)
    ensures Spendable(BuildMultileaf(p, lib).value.root, m) <==>
            ChainSat(BuildPolicyString(p), m) || (p.HasSecondInheritance() && ChainSat(p.SecondInheritanceBranch(), m))
  {
    NamedMeaning(p, lib, m);
    FlatMeaning(p, m);
  }

  lemma FlatMeaning(p: DynastyPolicy, m: Moment)
    requires Verify(p).Ok?
    ensures ChainSat(BuildPolicyString(p), m) <==>
            || ChainSat(p.FounderBranch(), m)
            || (p.HasMiddleLeaf() && ChainSat(p.MiddleBranch(), m))
            || (p.WantsInheritance() && ChainSat(p.InheritanceBranch(), m))
  {
    var founder, middle, heirs := p.FounderBranch(), p.MiddleBranch(), p.InheritanceBranch();
    assert ChainSat(Or(founder, Or(middle, heirs)), m) <==> ChainSat(founder, m) || ChainSat(Or(middle, heirs), m);
  }

  /** A named policy whose flat form loses the second cohort's spends. */
  lemma FlatFormDropsSecondCohort() returns (p: DynastyPolicy, m: Moment)
    ensures Verify(p).Ok? && p.HasSecondInheritance()
    ensures ChainSat(p.SecondInheritanceBranch(), m) && !ChainSat(BuildPolicyString(p), m)
  {
    var a, b, c := PublicKey(0), PublicKey(1), PublicKey(2);
    p := DynastyPolicy([a], 1, None, [b], 1, 0, 30_000, [], None, [], None, [c], Some(1), Some(26_000));
    m := Moment({c}, 26_000, 0, 0, 0);
    assert SignedCount([a][1..], m.signers) == 0 && SignedCount([b][1..], m.signers) == 0 &&
        SignedCount([c][1..], m.signers) == 0;
    assert SignedCount([a], m.signers) == 0 && SignedCount([c], m.signers) == 1;
    FlatMeaning(p, m);
  }
}
