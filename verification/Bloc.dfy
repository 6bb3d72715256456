/** The family vault: two immediate paths, a parent path after a delay, and a
    kids-alone ladder whose quorum decays. */
module Bloc {
  import opened Wrappers
  import opened SpendPolicy
  import opened Consensus
  import opened Taproot
  import opened Descriptor
  import opened LeafPolicies
  import opened LeafCompiler
  import opened LeafMeaning

  datatype DynastyBlocPolicy = DynastyBlocPolicy(
    parentKeys: KeyList, parentsTogetherQuorum: nat, coparentQuorum: nat,
    kidKeys: KeyList, kidsWithParentQuorum: nat,
    parentSoloAfter: u32, parentSoloQuorum: nat,
    kidsDecayStartAfter: u32, kidsDecayStepBlocks: u32,
    kidsDecayStartQuorum: nat, kidsDecayFloorQuorum: nat)

  datatype BlocPath = ParentsNow | CoparentKids | ParentSolo | KidsDecay

  /** One spend branch, and after compilation one leaf, of the vault. */
  datatype BlocLeaf = BlocLeaf(path: BlocPath, quorum: nat, locktime: u32, policy: Policy)

  datatype BlocOutput = BlocOutput(tree: TapTree<Script>, root: Hash, leaves: seq<BlocLeaf>, descriptor: string,
                                   policy: Policy)

  predicate QuorumOk(q: nat, n: nat) { 1 <= q <= n }

  function VerifyBloc(p: DynastyBlocPolicy): Result<(), PolicyError> {
    var np, nk := |p.parentKeys|, |p.kidKeys|;
    if np == 0 || nk == 0 then Err(InvalidBloc)
    else if !QuorumOk(p.parentsTogetherQuorum, np) || !QuorumOk(p.coparentQuorum, np) ||
        !QuorumOk(p.parentSoloQuorum, np) then
      Err(InvalidBloc)
    else if !QuorumOk(p.kidsWithParentQuorum, nk) || !QuorumOk(p.kidsDecayStartQuorum, nk)
         || !QuorumOk(p.kidsDecayFloorQuorum, nk) then Err(InvalidBloc)
    else if p.kidsDecayFloorQuorum > p.kidsDecayStartQuorum then Err(InvalidBloc)
    else if p.kidsDecayStartQuorum > p.kidsDecayFloorQuorum && p.kidsDecayStepBlocks == 0 then Err(InvalidBloc)
    else if p.parentSoloAfter < MIN_RECOVERY_BLOCKS then Err(RecoveryTooSoon)
    else if p.kidsDecayStartAfter <= p.parentSoloAfter then Err(InvalidBloc)
    else Ok(())
  }

  /** Parents and kids exist and every quorum can be met; the ladder falls, by a positive
      step if it has more than one rung; the lone parent waits 26,000 blocks and the
      kids longer. */
  predicate SoundBloc(p: DynastyBlocPolicy) {
    && (forall q | q in [p.parentsTogetherQuorum, p.coparentQuorum, p.parentSoloQuorum] :: 1 <= q <= |p.parentKeys|)
    && (forall q | q in [p.kidsWithParentQuorum, p.kidsDecayStartQuorum, p.kidsDecayFloorQuorum] ::
          1 <= q <= |p.kidKeys|)
    && p.kidsDecayFloorQuorum <= p.kidsDecayStartQuorum
    && (p.kidsDecayFloorQuorum < p.kidsDecayStartQuorum ==> p.kidsDecayStepBlocks > 0)
    && 26_000 <= p.parentSoloAfter < p.kidsDecayStartAfter
  }

  /** The checks accept exactly the sound family policies; only a short delay of the
      lone parent has a refusal of its own, and everything before it comes first. */
  lemma BlocChecksExactly(p: DynastyBlocPolicy)
    ensures VerifyBloc(p).Ok? <==> SoundBloc(p)
    ensures VerifyBloc(p) == Err(RecoveryTooSoon) <==>
            p.parentSoloAfter < 26_000 && SoundBloc(p.(parentSoloAfter := 26_000, kidsDecayStartAfter := 26_001))
    ensures VerifyBloc(p).Err? ==> VerifyBloc(p).error in {InvalidBloc, RecoveryTooSoon}
  {
    var parents := [p.parentsTogetherQuorum, p.coparentQuorum, p.parentSoloQuorum];
    var kids := [p.kidsWithParentQuorum, p.kidsDecayStartQuorum, p.kidsDecayFloorQuorum];
    assert parents[0] in parents && parents[1] in parents && parents[2] in parents;
    assert kids[0] in kids && kids[1] in kids && kids[2] in kids;
  }

  function ParentBranches(p: DynastyBlocPolicy): seq<BlocLeaf> {
    [BlocLeaf(ParentsNow, p.parentsTogetherQuorum, 0, Thresh(p.parentsTogetherQuorum, p.parentKeys)),
     BlocLeaf(CoparentKids, p.kidsWithParentQuorum, 0,
              And(Thresh(p.coparentQuorum, p.parentKeys), Thresh(p.kidsWithParentQuorum, p.kidKeys))),
     BlocLeaf(ParentSolo, p.parentSoloQuorum, p.parentSoloAfter,
              And(Policy.After(p.parentSoloAfter), Thresh(p.parentSoloQuorum, p.parentKeys)))]
  }

  function KidHeight(p: DynastyBlocPolicy, i: nat): nat {
    RungHeight(p.kidsDecayStartAfter, p.kidsDecayStepBlocks, i)
  }

  function KidRung(p: DynastyBlocPolicy, i: nat): BlocLeaf
    requires i <= p.kidsDecayStartQuorum && KidHeight(p, i) <= U32_MAX
  {
    var q := p.kidsDecayStartQuorum - i;
    BlocLeaf(KidsDecay, q, KidHeight(p, i), And(Policy.After(KidHeight(p, i)), Thresh(q, p.kidKeys)))
  }

  function KidLadder(p: DynastyBlocPolicy, rungs: nat): (s: seq<BlocLeaf>)
    requires rungs <= p.kidsDecayStartQuorum + 1
    requires rungs > 0 ==> KidHeight(p, rungs - 1) <= U32_MAX
    ensures |s| == rungs
  {
    seq(rungs, i requires 0 <= i < rungs =>
      RungHeightMonotone(p.kidsDecayStartAfter, p.kidsDecayStepBlocks, i, rungs - 1);
      KidRung(p, i))
  }

  /** How far the kids' quorum decays. */
  function KidDrop(p: DynastyBlocPolicy): nat
    requires VerifyBloc(p).Ok?
  {
    p.kidsDecayStartQuorum - p.kidsDecayFloorQuorum
  }

  /** Every branch in tree order, refused exactly when the last rung does not fit 32 bits. */
  function BlocBranches(p: DynastyBlocPolicy): Result<seq<BlocLeaf>, PolicyError>
    requires VerifyBloc(p).Ok?
  {
    if KidHeight(p, KidDrop(p)) > U32_MAX then Err(InvalidBloc)
    else Ok(ParentBranches(p) + KidLadder(p, KidDrop(p) + 1))
  }

  function PoliciesOf(branches: seq<BlocLeaf>): (s: seq<Policy>)
    ensures |s| == |branches|
    ensures forall i :: 0 <= i < |s| ==> s[i] == branches[i].policy
  {
    seq(|branches|, i requires 0 <= i < |branches| => branches[i].policy)
  }

  function CompiledBloc(p: DynastyBlocPolicy, lib: Library): Result<BlocOutput, PolicyError> {
    match VerifyBloc(p)
    case Err(e) => Err(e)
    case Ok(_) =>
      match BlocBranches(p)
      case Err(e) => Err(e)
      case Ok(branches) =>
        var policies := PoliciesOf(branches);
        match FirstRejected(policies, lib)
        case Some(rejected) => Err(Miniscript(rejected))
        case None =>
          if |branches| > MAX_DEPTH + 1 then Err(DescriptorError)
          else
            var tree := RightComb(Scripts(policies));
            Ok(BlocOutput(tree, Root(tree), branches, TrDescriptor(NUMS_HEX, NestLeaves(Texts(policies, lib))),
                          NestOr(policies)))
  }

  /** The branches once the loop has pushed `rungs` rungs. */
  function BranchesUpTo(p: DynastyBlocPolicy, rungs: nat): seq<BlocLeaf>
    requires rungs <= p.kidsDecayStartQuorum + 1
    requires rungs > 0 ==> KidHeight(p, rungs - 1) <= U32_MAX
  {
    ParentBranches(p) + KidLadder(p, rungs)
  }

  lemma NoRungs(p: DynastyBlocPolicy)
    ensures BranchesUpTo(p, 0) == ParentBranches(p)
  {
  }

  /** What the loop pushes is the next rung. */
  lemma NextRung(p: DynastyBlocPolicy, rung: nat, q: nat, height: u32)
    requires rung <= p.kidsDecayStartQuorum && q == p.kidsDecayStartQuorum - rung && height == KidHeight(p, rung)
    requires rung > 0 ==> KidHeight(p, rung - 1) <= U32_MAX
    ensures BranchesUpTo(p, rung) + [BlocLeaf(KidsDecay, q, height, And(Policy.After(height), Thresh(q, p.kidKeys)))]
         == BranchesUpTo(p, rung + 1)
  {
    assert KidLadder(p, rung + 1) == KidLadder(p, rung) + [KidRung(p, rung)];
  }

  /** A rung too high for 32 bits means the last rung is too. */
  lemma RungFits(p: DynastyBlocPolicy, rung: nat)
    requires VerifyBloc(p).Ok? && rung <= KidDrop(p)
    ensures KidHeight(p, rung) > U32_MAX ==> BlocBranches(p) == Err(InvalidBloc)
    ensures rung == KidDrop(p) && KidHeight(p, rung) <= U32_MAX ==> BlocBranches(p) == Ok(BranchesUpTo(p, rung + 1))
  {
    RungHeightMonotone(p.kidsDecayStartAfter, p.kidsDecayStepBlocks, rung, KidDrop(p));
  }

  method BranchLoop(p: DynastyBlocPolicy) returns (r: Result<seq<BlocLeaf>, PolicyError>)
    requires VerifyBloc(p).Ok?
    ensures r == BlocBranches(p)
  {
    NoRungs(p);
    var branches := ParentBranches(p);
    var q := p.kidsDecayStartQuorum;
    var rung: u32 := 0;
    while true
      invariant p.kidsDecayFloorQuorum <= q <= p.kidsDecayStartQuorum && rung == p.kidsDecayStartQuorum - q
      invariant rung > 0 ==> KidHeight(p, rung - 1) <= U32_MAX
      invariant branches == BranchesUpTo(p, rung)
      decreases q
    {
      RungFits(p, rung);
      var height := CheckedHeight(p.kidsDecayStartAfter, p.kidsDecayStepBlocks, rung);
      if height.None? { return Err(InvalidBloc); }
      NextRung(p, rung, q, height.value);
      branches := branches + [BlocLeaf(KidsDecay, q, height.value,
                                       And(Policy.After(height.value), Thresh(q, p.kidKeys)))];
      if q == p.kidsDecayFloorQuorum { break; }
      q := q - 1;
      rung := rung + 1;
    }
    return Ok(branches);
  }

  /** The compiler, ending with the check that the printed descriptor re-derives the root. */
  method BuildBlocMultileaf(p: DynastyBlocPolicy, lib: Library) returns (r: Result<BlocOutput, PolicyError>)
    requires Faithful(lib)
    ensures r == CompiledBloc(p, lib)
  {
    var verified := VerifyBloc(p);
    if verified.Err? { return Err(verified.error); }
    var branches := BranchLoop(p);
    if branches.Err? { return Err(branches.error); }
    var policies := PoliciesOf(branches.value);
    var rejected := FirstRejected(policies, lib);
    if rejected.Some? { return Err(Miniscript(rejected.value)); }
    if |policies| < 2 { return Err(InvalidBloc); }
    var tree := BuildTreeLoop(policies);
    ScheduleBuildsRightComb(Scripts(policies));
    if tree.None? { return Err(DescriptorError); }
    var descriptor := TrDescriptor(NUMS_HEX, NestLeaves(Texts(policies, lib)));
    var derived := DescriptorRoot(descriptor, lib);
    DescriptorDerivesRoot(policies, lib);
    if derived != Some(Root(tree.value)) { return Err(DescriptorError); }
    return Ok(BlocOutput(tree.value, Root(tree.value), branches.value, descriptor, NestOr(policies)));
  }

  // ---- What the family vault means ----

  lemma KidRungSat(p: DynastyBlocPolicy, i: nat, m: Moment)
    requires i <= p.kidsDecayStartQuorum && KidHeight(p, i) <= U32_MAX
    ensures Sat(KidRung(p, i).policy, m) <==>
            m.height >= KidHeight(p, i) && SignedCount(p.kidKeys, m.signers) >= p.kidsDecayStartQuorum - i
  {
  }

  /** The kids-alone ladder is satisfied exactly when the decayed quorum of kids signs. */
  lemma KidLadderMeaning(p: DynastyBlocPolicy, m: Moment)
    requires VerifyBloc(p).Ok? && KidHeight(p, KidDrop(p)) <= U32_MAX
    ensures SomeSat(PoliciesOf(KidLadder(p, KidDrop(p) + 1)), m) <==>
            && m.height >= p.kidsDecayStartAfter
            && SignedCount(p.kidKeys, m.signers) >=
                 DecayedQuorum(p.kidsDecayStartQuorum, p.kidsDecayFloorQuorum, p.kidsDecayStepBlocks,
                               m.height - p.kidsDecayStartAfter)
  {
    var policies := PoliciesOf(KidLadder(p, KidDrop(p) + 1));
    var start, step, quorum, floor :=
        p.kidsDecayStartAfter, p.kidsDecayStepBlocks, p.kidsDecayStartQuorum, p.kidsDecayFloorQuorum;
    var signed := SignedCount(p.kidKeys, m.signers);
    LadderIsStepFunction(start, step, quorum, floor, m.height, signed);
    forall i: nat | i < |policies|
      ensures Sat(policies[i], m) <==> RungServes(start, step, quorum, floor, m.height, signed, i)
    {
      RungHeightMonotone(start, step, i, KidDrop(p));
      KidRungSat(p, i, m);
    }
    if i: nat :| i < |policies| && Sat(policies[i], m) {
      assert RungServes(start, step, quorum, floor, m.height, signed, i);
    }
    if i: nat :| RungServes(start, step, quorum, floor, m.height, signed, i) {
      assert i < |policies| && Sat(policies[i], m);
    }
  }

  /** The ladder's last rung is a height. */
  predicate BlocInRange(p: DynastyBlocPolicy)
    requires VerifyBloc(p).Ok?
  {
    AfterInRange(KidHeight(p, KidDrop(p)))
  }

  predicate NoParent(p: DynastyBlocPolicy, m: Moment) { forall k | k in p.parentKeys :: k !in m.signers }

  /** The kids signing at `m` number at least `max(floor, start quorum - steps elapsed)`,
      from the start height on. */
  ghost predicate KidsQuorumMet(p: DynastyBlocPolicy, m: Moment)
    requires VerifyBloc(p).Ok?
  {
    && m.height >= p.kidsDecayStartAfter
    && |set k | k in p.kidKeys && k in m.signers| >=
         DecayedQuorum(p.kidsDecayStartQuorum, p.kidsDecayFloorQuorum, p.kidsDecayStepBlocks,
                       m.height - p.kidsDecayStartAfter)
  }

  lemma KidLadderInRange(p: DynastyBlocPolicy, m: Moment)
    requires VerifyBloc(p).Ok? && KidHeight(p, KidDrop(p)) <= U32_MAX && BlocInRange(p)
    ensures SomeChainSat(PoliciesOf(KidLadder(p, KidDrop(p) + 1)), m) <==>
            SomeSat(PoliciesOf(KidLadder(p, KidDrop(p) + 1)), m)
  {
    var policies := PoliciesOf(KidLadder(p, KidDrop(p) + 1));
    forall i | 0 <= i < |policies| ensures InRange(policies[i]) {
      RungHeightMonotone(p.kidsDecayStartAfter, p.kidsDecayStepBlocks, i, KidDrop(p));
      assert policies[i] == KidRung(p, i).policy;
    }
    SomeReadsAsWritten(policies, m);
  }

  lemma WithoutParents(p: DynastyBlocPolicy, lib: Library, m: Moment)
    requires CompiledBloc(p, lib).Ok? && NoParent(p, m)
    ensures Spendable(CompiledBloc(p, lib).value.root, m) <==> SomeChainSat(PoliciesOf(KidLadder(p, KidDrop(p) + 1)), m)
  {
    BlocMeaning(p, lib, m);
    NobodySigned(p.parentKeys, m.signers);
  }

  /** Without a parent, consensus lets kids spend exactly when the ladder has started
      and the decayed quorum of distinct kids signs, if every rung is a height. */
  lemma KidsAloneStepFunction(p: DynastyBlocPolicy, lib: Library, m: Moment)
    requires CompiledBloc(p, lib).Ok? && Distinct(p.kidKeys) && NoParent(p, m) && BlocInRange(p)
    ensures Spendable(CompiledBloc(p, lib).value.root, m) <==> KidsQuorumMet(p, m)
  {
    WithoutParents(p, lib, m);
    KidLadderInRange(p, m);
    KidLadderMeaning(p, m);
    SignedCountIsCardinality(p.kidKeys, m.signers);
  }

  /** And only if: past 500,000,000 the last rung is a time, and its kids do not wait. */
  lemma KidsAloneStepFunctionExactly(p: DynastyBlocPolicy, lib: Library)
    requires CompiledBloc(p, lib).Ok? && Distinct(p.kidKeys) && forall k | k in p.kidKeys :: k !in p.parentKeys
    ensures (forall m | NoParent(p, m) :: Spendable(CompiledBloc(p, lib).value.root, m) <==> KidsQuorumMet(p, m)) <==>
            BlocInRange(p)
  {
    if BlocInRange(p) {
      forall m | NoParent(p, m) ensures Spendable(CompiledBloc(p, lib).value.root, m) <==> KidsQuorumMet(p, m) {
        KidsAloneStepFunction(p, lib, m);
      }
    } else {
      var m := KidsEarly(p, lib);
    }
  }

  /** All kids, at height 0, through a last rung that is a time. */
  lemma KidsEarly(p: DynastyBlocPolicy, lib: Library) returns (m: Moment)
    requires CompiledBloc(p, lib).Ok? && !BlocInRange(p) && forall k | k in p.kidKeys :: k !in p.parentKeys
    ensures m.height == 0 && NoParent(p, m) && Spendable(CompiledBloc(p, lib).value.root, m)
  {
    m := EarlyForAfter(KidHeight(p, KidDrop(p)), set k | k in p.kidKeys);
    EverybodySigned(p.kidKeys, m.signers);
    var policies := PoliciesOf(KidLadder(p, KidDrop(p) + 1));
    assert policies[KidDrop(p)] == KidRung(p, KidDrop(p)).policy;
    DelayedThresh(KidHeight(p, KidDrop(p)), p.kidsDecayFloorQuorum, p.kidKeys, m);
    assert ChainSat(policies[KidDrop(p)], m);
    WithoutParents(p, lib, m);
  }

  /** Blocks only ever lower what the kids need, and never below the floor. */
  lemma KidsThresholdNeverRises(p: DynastyBlocPolicy, h: nat, later: nat)
    requires VerifyBloc(p).Ok? && p.kidsDecayStartAfter <= h <= later
    ensures p.kidsDecayFloorQuorum
         <= DecayedQuorum(p.kidsDecayStartQuorum, p.kidsDecayFloorQuorum, p.kidsDecayStepBlocks,
                          later - p.kidsDecayStartAfter)
         <= DecayedQuorum(p.kidsDecayStartQuorum, p.kidsDecayFloorQuorum, p.kidsDecayStepBlocks,
                          h - p.kidsDecayStartAfter)
         <= p.kidsDecayStartQuorum
  {
    DecayedQuorumFalls(p.kidsDecayStartQuorum, p.kidsDecayFloorQuorum, p.kidsDecayStepBlocks,
                       h - p.kidsDecayStartAfter, later - p.kidsDecayStartAfter);
  }

  /** What a family vault allows on chain: its three parent branches, or the kids' ladder. */
  lemma BlocMeaning(p: DynastyBlocPolicy, lib: Library, m: Moment)
    requires CompiledBloc(p, lib).Ok?
    ensures Spendable(CompiledBloc(p, lib).value.root, m) <==>
            || SignedCount(p.parentKeys, m.signers) >= p.parentsTogetherQuorum
            || (SignedCount(p.parentKeys, m.signers) >= p.coparentQuorum &&
                SignedCount(p.kidKeys, m.signers) >= p.kidsWithParentQuorum)
            || (AfterOpen(p.parentSoloAfter, m) && SignedCount(p.parentKeys, m.signers) >= p.parentSoloQuorum)
            || SomeChainSat(PoliciesOf(KidLadder(p, KidDrop(p) + 1)), m)
  {
    var parents, kids := ParentBranches(p), KidLadder(p, KidDrop(p) + 1);
    var policies := PoliciesOf(parents + kids);
    TreeMeansNestedOr(policies, m);
    assert policies == PoliciesOf(parents) + PoliciesOf(kids);
    SomeChainSatConcat(PoliciesOf(parents), PoliciesOf(kids), m);
    ParentBranchesMeaning(p, m);
  }

  lemma ParentBranchesMeaning(p: DynastyBlocPolicy, m: Moment)
    ensures SomeChainSat(PoliciesOf(ParentBranches(p)), m) <==>
            || SignedCount(p.parentKeys, m.signers) >= p.parentsTogetherQuorum
            || (SignedCount(p.parentKeys, m.signers) >= p.coparentQuorum &&
                SignedCount(p.kidKeys, m.signers) >= p.kidsWithParentQuorum)
            || (AfterOpen(p.parentSoloAfter, m) && SignedCount(p.parentKeys, m.signers) >= p.parentSoloQuorum)
  {
    var policies := PoliciesOf(ParentBranches(p));
    assert ChainSat(policies[0], m) <==> SignedCount(p.parentKeys, m.signers) >= p.parentsTogetherQuorum;
    assert ChainSat(policies[1], m) <==>
      SignedCount(p.parentKeys, m.signers) >= p.coparentQuorum &&
          SignedCount(p.kidKeys, m.signers) >= p.kidsWithParentQuorum;
    assert ChainSat(policies[2], m) <==>
      AfterOpen(p.parentSoloAfter, m) && SignedCount(p.parentKeys, m.signers) >= p.parentSoloQuorum;
  }

  /** The height of the ladder's last rung: one step for every quorum below the first. */
  function LastKidHeight(p: DynastyBlocPolicy): int {
    p.kidsDecayStartAfter + (p.kidsDecayStartQuorum - p.kidsDecayFloorQuorum) * p.kidsDecayStepBlocks
  }

  /** The family compiler accepts a policy exactly when it is sound, its last rung fits
      32 bits, the library takes every branch, and the tree has at most 129 leaves. */
  lemma BlocAcceptedExactly(p: DynastyBlocPolicy, lib: Library)
    ensures CompiledBloc(p, lib).Ok? <==>
            && SoundBloc(p)
            && LastKidHeight(p) <= U32_MAX
            && 3 + (p.kidsDecayStartQuorum - p.kidsDecayFloorQuorum + 1) <= 129
            && (forall b | b in BranchesOf(p) :: lib.accepts(b.policy))
  {
    BlocChecksExactly(p);
    if VerifyBloc(p).Ok? {
      RungHeightClosed(p.kidsDecayStartAfter, p.kidsDecayStepBlocks, KidDrop(p));
      if BlocBranches(p).Ok? {
        var branches := BlocBranches(p).value;
        NoneRejected(PoliciesOf(branches), lib);
        assert forall b :: b in branches ==>
          exists i :: 0 <= i < |branches| && branches[i] == b && PoliciesOf(branches)[i] == b.policy;
      }
    }
  }

  /** Why a sound family policy is still refused: a last rung past 32 bits, else the first
      branch the library turns down, else a tree that is too deep. */
  lemma SoundBlocRefusals(p: DynastyBlocPolicy, lib: Library)
    requires SoundBloc(p) && CompiledBloc(p, lib).Err?
    ensures var e := CompiledBloc(p, lib).error;
            if BranchesOf(p) == [] then
              && e == InvalidBloc
              && LastKidHeight(p) > U32_MAX
            else if exists b | b in BranchesOf(p) :: !lib.accepts(b.policy) then
              exists i :: FirstTurnedDown(PoliciesOf(BranchesOf(p)), lib, i) && e == Miniscript(BranchesOf(p)[i].policy)
            else e == DescriptorError && |BranchesOf(p)| > 129
  {
    BlocChecksExactly(p);
    RungHeightClosed(p.kidsDecayStartAfter, p.kidsDecayStepBlocks, KidDrop(p));
    if BlocBranches(p).Ok? {
      var policies := PoliciesOf(BranchesOf(p));
      NoneRejected(policies, lib);
      if FirstRejected(policies, lib).Some? {
        FirstRejectedIsFirst(policies, lib);
        var i :| FirstTurnedDown(policies, lib, i) && FirstRejected(policies, lib).value == policies[i];
        assert BranchesOf(p)[i] in BranchesOf(p);
      } else {
        forall b | b in BranchesOf(p) ensures lib.accepts(b.policy) {
          var i :| 0 <= i < |policies| && BranchesOf(p)[i] == b;
          assert policies[i] in policies;
        }
      }
    }
  }

  /** The branches of a policy that has them. */
  function BranchesOf(p: DynastyBlocPolicy): seq<BlocLeaf> {
    if VerifyBloc(p).Ok? && BlocBranches(p).Ok? then BlocBranches(p).value else []
  }

  /** What a branch is listed with is what its script asks: the lock time it is open from
      and, for its path, the quorum of parents or kids. */
  predicate ListedAsCompiled(p: DynastyBlocPolicy, b: BlocLeaf, m: Moment) {
    var parents, kids := SignedCount(p.parentKeys, m.signers), SignedCount(p.kidKeys, m.signers);
    ChainSat(b.policy, m) <==>
      match b.path
      case ParentsNow => b.locktime == 0 && parents >= b.quorum
      case CoparentKids => b.locktime == 0 && parents >= p.coparentQuorum && kids >= b.quorum
      case ParentSolo => AfterOpen(b.locktime, m) && parents >= b.quorum
      case KidsDecay => AfterOpen(b.locktime, m) && kids >= b.quorum
  }

  /** The printed policy is what the chain allows, and the descriptor derives the root. */
  lemma BlocOutputMeansItsPolicy(p: DynastyBlocPolicy, lib: Library, m: Moment)
    requires CompiledBloc(p, lib).Ok?
    ensures var out := CompiledBloc(p, lib).value;
            && (Spendable(out.root, m) <==> ChainSat(out.policy, m))
            && (Faithful(lib) ==> DescriptorRoot(out.descriptor, lib) == Some(out.root))
  {
    var out := CompiledBloc(p, lib).value;
    TreeMeansNestedOr(PoliciesOf(out.leaves), m);
    if Faithful(lib) { DescriptorDerivesRoot(PoliciesOf(out.leaves), lib); }
  }

  /** The three parent branches come first, the ladder's rungs after them, each listed
      as compiled. */
  lemma ListedBranchesAreCompiled(p: DynastyBlocPolicy, lib: Library, m: Moment)
    requires CompiledBloc(p, lib).Ok?
    ensures var out := CompiledBloc(p, lib).value;
            && |out.leaves| >= 4 && out.leaves[0].path == ParentsNow && out.leaves[0].quorum == p.parentsTogetherQuorum
            && out.leaves[1].path == CoparentKids && out.leaves[1].quorum == p.kidsWithParentQuorum
            && out.leaves[2].path == ParentSolo && out.leaves[2].quorum == p.parentSoloQuorum
            && out.leaves[2].locktime == p.parentSoloAfter
            && (forall i :: 3 <= i < |out.leaves| ==>
                  && out.leaves[i].path == KidsDecay && out.leaves[i].quorum == p.kidsDecayStartQuorum - (i - 3)
                  && out.leaves[i].locktime == RungHeight(p.kidsDecayStartAfter, p.kidsDecayStepBlocks, i - 3))
            && (forall b | b in out.leaves :: ListedAsCompiled(p, b, m))
  {
    var parents, kids := ParentBranches(p), KidLadder(p, KidDrop(p) + 1);
    forall i: nat | i < |kids|
      ensures kids[i].path == KidsDecay && kids[i].quorum == p.kidsDecayStartQuorum - i
      ensures kids[i].locktime == KidHeight(p, i) && ListedAsCompiled(p, kids[i], m)
    {
      KidListed(p, i, m);
    }
    ParentBranchesListed(p, m);
  }

  lemma KidListed(p: DynastyBlocPolicy, i: nat, m: Moment)
    requires VerifyBloc(p).Ok? && KidHeight(p, KidDrop(p)) <= U32_MAX && i <= KidDrop(p)
    ensures var b := KidLadder(p, KidDrop(p) + 1)[i];
            && b.path == KidsDecay && b.quorum == p.kidsDecayStartQuorum - i && b.locktime == KidHeight(p, i)
            && ListedAsCompiled(p, b, m)
  {
    RungHeightMonotone(p.kidsDecayStartAfter, p.kidsDecayStepBlocks, i, KidDrop(p));
    assert KidLadder(p, KidDrop(p) + 1)[i] == KidRung(p, i);
    DelayedThresh(KidHeight(p, i), p.kidsDecayStartQuorum - i, p.kidKeys, m);
  }

  lemma ParentBranchesListed(p: DynastyBlocPolicy, m: Moment)
    ensures forall b | b in ParentBranches(p) :: ListedAsCompiled(p, b, m)
  {
    DelayedThresh(p.parentSoloAfter, p.parentSoloQuorum, p.parentKeys, m);
    var both := And(Thresh(p.coparentQuorum, p.parentKeys), Thresh(p.kidsWithParentQuorum, p.kidKeys));
    assert ChainSat(both, m) <==> ChainSat(both.left, m) && ChainSat(both.right, m);
  }

  /** All parents together can always spend a family vault. */
  lemma ParentsAlwaysSpend(p: DynastyBlocPolicy, lib: Library, m: Moment)
    requires CompiledBloc(p, lib).Ok? && forall k | k in p.parentKeys :: k in m.signers
    ensures Spendable(CompiledBloc(p, lib).value.root, m)
  {
    BlocMeaning(p, lib, m);
    EverybodySigned(p.parentKeys, m.signers);
  }

  /** What the family checks buy: kids without a parent wait past the height at which
      a lone parent could spend, itself at least 26,000, at every moment, exactly when
      every rung is a height. */
  lemma KidsWaitForParents(p: DynastyBlocPolicy, lib: Library)
    requires CompiledBloc(p, lib).Ok? && forall k | k in p.kidKeys :: k !in p.parentKeys
    ensures (forall m | NoParent(p, m) && Spendable(CompiledBloc(p, lib).value.root, m) ::
               m.height > p.parentSoloAfter >= MIN_RECOVERY_BLOCKS &&
                   SignedCount(p.kidKeys, m.signers) >= p.kidsDecayFloorQuorum)
       <==> BlocInRange(p)
  {
    if BlocInRange(p) {
      forall m | NoParent(p, m) && Spendable(CompiledBloc(p, lib).value.root, m)
        ensures m.height > p.parentSoloAfter >= MIN_RECOVERY_BLOCKS &&
                SignedCount(p.kidKeys, m.signers) >= p.kidsDecayFloorQuorum
      {
        WithoutParents(p, lib, m);
        KidLadderInRange(p, m);
        KidLadderMeaning(p, m);
      }
    } else {
      var m := KidsEarly(p, lib);
    }
  }

  // ---- The family vault as a leaf list ----

  /** The kids' ladder as one decaying leaf of the generic mechanism. */
  function KidsLeaf(p: DynastyBlocPolicy): Leaf {
    Leaf("kids", p.kidKeys, p.kidsDecayStartQuorum, Unlock.After(p.kidsDecayStartAfter),
         Some(DecayConfig(p.kidsDecayStepBlocks, p.kidsDecayFloorQuorum)))
  }

  /** The generic decay mechanism generalises the family vault's: it refuses the
      same ladders and otherwise compiles them to the same conditions. */
  lemma GenericDecayRefinesKidLadder(p: DynastyBlocPolicy)
    requires VerifyBloc(p).Ok?
    ensures Expanded(KidsLeaf(p)).Ok? <==> BlocBranches(p).Ok?
    ensures BlocBranches(p).Ok? ==>
              PoliciesOf(BlocBranches(p).value) ==
                  PoliciesOf(ParentBranches(p)) + Conditions(Expanded(KidsLeaf(p)).value, None)
  {
    if BlocBranches(p).Ok? {
      var kids, rungs := KidLadder(p, KidDrop(p) + 1), Expanded(KidsLeaf(p)).value;
      LadderConditions(KidsLeaf(p), None);
      assert |kids| == |rungs|;
      forall i: nat | i < |kids| ensures PoliciesOf(kids)[i] == Conditions(rungs, None)[i] {
        RungHeightMonotone(p.kidsDecayStartAfter, p.kidsDecayStepBlocks, i, KidDrop(p));
        assert kids[i] == KidRung(p, i);
        assert Conditions(rungs, None)[i] == Condition(Rung(KidsLeaf(p), i), None);
      }
      assert PoliciesOf(kids) == Conditions(rungs, None);
      assert PoliciesOf(ParentBranches(p) + kids) == PoliciesOf(ParentBranches(p)) + PoliciesOf(kids);
    }
  }
}
