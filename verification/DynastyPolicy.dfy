/** The named vault policy (founders, recovery or backup, one or two heir
    cohorts), its checks, its hand-written tree construction and its flat form. */
module DynastyPolicies {
  import opened Wrappers
  import opened SpendPolicy
  import opened Taproot
  import opened Descriptor
  import opened LeafPolicies
  import opened LeafCompiler

  datatype DynastyPolicy = DynastyPolicy(
    founderKeys: KeyList, founderQuorum: nat, recoveryQuorum: Option<nat>,
    heirKeys: KeyList, heirQuorum: nat,
    recoveryAfter: u32, inheritanceAfter: u32,
    consentKeys: KeyList, consentQuorum: Option<nat>,
    backupKeys: KeyList, backupQuorum: Option<nat>,
    secondHeirKeys: KeyList, secondHeirQuorum: Option<nat>, secondInheritanceAfter: Option<u32>)
  {
    predicate IsPlain() {
      heirKeys == [] && recoveryAfter == 0 && inheritanceAfter == 0 && backupKeys == [] && secondHeirKeys == []
    }
    predicate HasRecovery() { recoveryAfter > 0 }
    predicate HasConsent() { consentKeys != [] && consentQuorum.Some? }
    predicate HasBackup() { backupKeys != [] && backupQuorum.Some? }
    predicate HasMiddleLeaf() { HasRecovery() || HasBackup() }
    predicate WantsInheritance() { heirKeys != [] }
    predicate HasSecondInheritance() {
      secondHeirKeys != [] && secondHeirQuorum.Some? && secondInheritanceAfter.Some?
    }

    // ---- The spend branches ----

    function TrusteeThresh(): Policy { Thresh(founderQuorum, founderKeys) }
    function FounderBranch(): Policy {
      if HasConsent() then And(TrusteeThresh(), Thresh(consentQuorum.value, consentKeys)) else TrusteeThresh()
    }
    function BackupBranch(): Policy requires HasBackup() { Thresh(backupQuorum.value, backupKeys) }
    function MiddleBranch(): Policy {
      if HasBackup() then BackupBranch()
      else And(Policy.After(recoveryAfter), Thresh(recoveryQuorum.GetOr(founderQuorum), founderKeys))
    }
    function InheritanceBranch(): Policy { And(Policy.After(inheritanceAfter), Thresh(heirQuorum, heirKeys)) }
    function SecondInheritanceBranch(): Policy
      requires HasSecondInheritance()
    {
      And(Policy.After(secondInheritanceAfter.value), Thresh(secondHeirQuorum.value, secondHeirKeys))
    }
  }

  predicate QuorumFits(quorum: nat, keys: seq<PublicKey>) { 0 < quorum <= |keys| }

  /** The source's checks, in the source's order. */
  function Verify(p: DynastyPolicy): Result<(), PolicyError> {
    if !QuorumFits(p.founderQuorum, p.founderKeys) then Err(InvalidQuorum)
    else if p.recoveryQuorum.Some? && !QuorumFits(p.recoveryQuorum.value, p.founderKeys) then Err(InvalidQuorum)
    else if p.HasConsent() && !QuorumFits(p.consentQuorum.value, p.consentKeys) then Err(InvalidQuorum)
    else if p.HasBackup() && !QuorumFits(p.backupQuorum.value, p.backupKeys) then Err(InvalidQuorum)
    else if p.HasSecondInheritance() && !QuorumFits(p.secondHeirQuorum.value, p.secondHeirKeys) then Err(InvalidQuorum)
    else if p.HasSecondInheritance() && p.secondInheritanceAfter.value == 0 then Err(SecondInheritanceRequiresDelay)
    else if p.HasRecovery() && p.HasBackup() then Err(BackupConflictsWithRecovery)
    else if p.IsPlain() then Ok(())
    else if !p.WantsInheritance() && p.HasBackup() then
      if p.HasSecondInheritance() then Err(SecondInheritanceRequiresInheritance) else Ok(())
    else if p.HasSecondInheritance() && !p.WantsInheritance() then Err(SecondInheritanceRequiresInheritance)
    else if !QuorumFits(p.heirQuorum, p.heirKeys) then Err(InvalidQuorum)
    else if p.HasRecovery() then
      if p.recoveryAfter < MIN_RECOVERY_BLOCKS then Err(RecoveryTooSoon)
      else if p.inheritanceAfter <= p.recoveryAfter then Err(InheritanceTooSoon)
      else Ok(())
    else if p.inheritanceAfter == 0 then Err(InheritanceRequiresDelay)
    else if p.inheritanceAfter < MIN_RECOVERY_BLOCKS then Err(InheritanceTooSoonNoRecovery)
    else Ok(())
  }

  // ---- What the checks ask for ----

  /** Quorums somebody can meet and nobody can skip, for every cohort that is set. */
  predicate SoundQuorums(p: DynastyPolicy) {
    && 1 <= p.founderQuorum <= |p.founderKeys|
    && (p.recoveryQuorum.Some? ==> 1 <= p.recoveryQuorum.value <= |p.founderKeys|)
    && (p.consentKeys != [] && p.consentQuorum.Some? ==> 1 <= p.consentQuorum.value <= |p.consentKeys|)
    && (p.HasBackup() ==> 1 <= p.backupQuorum.value <= |p.backupKeys|)
    && (p.HasSecondInheritance() ==> 1 <= p.secondHeirQuorum.value <= |p.secondHeirKeys|)
  }

  /** A second cohort comes after a first one and has a delay; a backup replaces a recovery. */
  predicate SoundCohorts(p: DynastyPolicy) {
    && (p.HasSecondInheritance() ==> p.secondInheritanceAfter != Some(0) && p.heirKeys != [])
    && !(p.recoveryAfter > 0 && p.HasBackup())
  }

  /** Heirs are needed except for founders alone or with a backup, and they wait 26,000
      blocks, or until after a recovery that waits that long. */
  predicate SoundHeirs(p: DynastyPolicy) {
    || (&& p.heirKeys == [] && p.backupKeys == [] && p.secondHeirKeys == []
        && p.recoveryAfter == 0 && p.inheritanceAfter == 0)
    || (p.heirKeys == [] && p.HasBackup())
    || (&& 1 <= p.heirQuorum <= |p.heirKeys|
        && (p.recoveryAfter > 0 ==> 26_000 <= p.recoveryAfter < p.inheritanceAfter)
        && (p.recoveryAfter == 0 ==> p.inheritanceAfter >= 26_000))
  }

  /** The checks accept exactly the policies that are sound in all three ways. */
  lemma NamedChecksExactly(p: DynastyPolicy)
    ensures Verify(p).Ok? <==> SoundQuorums(p) && SoundCohorts(p) && SoundHeirs(p)
  {
  }

  /** And a refusal names the fault it found: a quorum, then the second cohort's delay,
      the conflict of backup and recovery, a second cohort without a first, and last
      the heirs and their delays. */
  lemma NamedRefusals(p: DynastyPolicy)
    requires Verify(p).Err?
    ensures var e := Verify(p).error;
            if !SoundQuorums(p) then e == InvalidQuorum
            else if p.HasSecondInheritance() && p.secondInheritanceAfter == Some(0) then
              e == SecondInheritanceRequiresDelay
            else if p.recoveryAfter > 0 && p.HasBackup() then e == BackupConflictsWithRecovery
            else if !SoundCohorts(p) then e == SecondInheritanceRequiresInheritance
            else HeirsRefused(p, e)
  {
  }

  /** A refusal of the heirs: their quorum, or the delay that is missing, short or out of order. */
  predicate HeirsRefused(p: DynastyPolicy, e: PolicyError) {
    if !(1 <= p.heirQuorum <= |p.heirKeys|) then e == InvalidQuorum else
    match e
    case RecoveryTooSoon => 0 < p.recoveryAfter < 26_000
    case InheritanceTooSoon => p.recoveryAfter >= 26_000 && p.inheritanceAfter <= p.recoveryAfter
    case InheritanceRequiresDelay => p.recoveryAfter == 0 && p.inheritanceAfter == 0
    case InheritanceTooSoonNoRecovery => p.recoveryAfter == 0 && 0 < p.inheritanceAfter < 26_000
    case _ => false
  }

  // ---- The hand-written tree, return point by return point ----

  /** Leaves added at hand-picked depths; what the descriptor and policy say is hand-written too. */
  function FinishNamed(items: seq<(nat, Policy)>, descriptor: string, policy: Policy,
                       recovery: Option<Policy>, inheritance: Option<Policy>, second: Option<Policy>)
    : Result<MultileafOutput, PolicyError>
    requires items != []
  {
    match BuildTree(ScriptItems(items))
    case None => Err(DescriptorError)
    case Some(tree) =>
      Ok(MultileafOutput(tree, Root(tree), Script(items[0].1),
                         AsScript(recovery), AsScript(inheritance), AsScript(second),
                         TrDescriptor(NUMS_HEX, descriptor), policy, [], []))
  }

  function AsScript(p: Option<Policy>): Option<Script> {
    if p.Some? then Some(Script(p.value)) else None
  }

  function ScriptItems(items: seq<(nat, Policy)>): (s: seq<(nat, Script)>)
    ensures |s| == |items|
    ensures forall i :: 0 <= i < |s| ==> s[i] == (items[i].0, Script(items[i].1))
  {
    seq(|items|, i requires 0 <= i < |items| => (items[i].0, Script(items[i].1)))
  }

  /** Founders alone: one leaf, no braces. */
  function PlainReturn(p: DynastyPolicy, lib: Library): Result<MultileafOutput, PolicyError> {
    var founder := p.FounderBranch();
    FinishNamed([(0, founder)], lib.text(founder), founder, None, None, None)
  }

  /** Founders and backup only, no heirs. */
  function BackupReturn(p: DynastyPolicy, lib: Library): Result<MultileafOutput, PolicyError>
    requires p.HasBackup()
  {
    var founder, backup := p.FounderBranch(), p.BackupBranch();
    FinishNamed([(1, founder), (1, backup)], Braced(lib.text(founder), lib.text(backup)),
                Or(founder, backup), Some(backup), None, None)
  }

  /** No middle leaf: founders now or heirs later. */
  function GiftLockerReturn(p: DynastyPolicy, lib: Library): Result<MultileafOutput, PolicyError> {
    var founder, inheritance := p.FounderBranch(), p.InheritanceBranch();
    FinishNamed([(1, founder), (1, inheritance)], Braced(lib.text(founder), lib.text(inheritance)),
                Or(founder, inheritance), None, Some(inheritance), None)
  }

  /** No middle leaf, two heir cohorts. */
  function TwoCohortsReturn(p: DynastyPolicy, lib: Library): Result<MultileafOutput, PolicyError>
    requires p.HasSecondInheritance()
  {
    var founder, inheritance, second := p.FounderBranch(), p.InheritanceBranch(), p.SecondInheritanceBranch();
    FinishNamed([(1, founder), (2, inheritance), (2, second)],
                Braced(lib.text(founder), Braced(lib.text(inheritance), lib.text(second))),
                Or(founder, Or(inheritance, second)), None, Some(inheritance), Some(second))
  }

  /** Founders, recovery or backup, heirs. */
  function MiddleReturn(p: DynastyPolicy, lib: Library): Result<MultileafOutput, PolicyError> {
    var founder, middle, inheritance := p.FounderBranch(), p.MiddleBranch(), p.InheritanceBranch();
    FinishNamed([(1, founder), (2, middle), (2, inheritance)],
                Braced(lib.text(founder), Braced(lib.text(middle), lib.text(inheritance))),
                Or(founder, Or(middle, inheritance)), Some(middle), Some(inheritance), None)
  }

  /** All four leaves. */
  function FourLeafReturn(p: DynastyPolicy, lib: Library): Result<MultileafOutput, PolicyError>
    requires p.HasSecondInheritance()
  {
    var founder, middle, inheritance, second :=
      p.FounderBranch(), p.MiddleBranch(), p.InheritanceBranch(), p.SecondInheritanceBranch();
    FinishNamed([(1, founder), (2, middle), (3, inheritance), (3, second)],
                Braced(lib.text(founder), Braced(lib.text(middle), Braced(lib.text(inheritance), lib.text(second)))),
                Or(founder, Or(middle, Or(inheritance, second))), Some(middle), Some(inheritance), Some(second))
  }

  /** The case split; each branch is compiled before it is used. */
  function BuildMultileaf(p: DynastyPolicy, lib: Library): Result<MultileafOutput, PolicyError> {
    match Verify(p)
    case Err(e) => Err(e)
    case Ok(_) =>
      if !lib.accepts(p.FounderBranch()) then Err(Miniscript(p.FounderBranch()))
      else if p.IsPlain() then PlainReturn(p, lib)
      else if !p.WantsInheritance() && p.HasBackup() then
        if !lib.accepts(p.BackupBranch()) then Err(Miniscript(p.BackupBranch())) else BackupReturn(p, lib)
      else if !lib.accepts(p.InheritanceBranch()) then Err(Miniscript(p.InheritanceBranch()))
      else if p.HasSecondInheritance() && !lib.accepts(p.SecondInheritanceBranch()) then
        Err(Miniscript(p.SecondInheritanceBranch()))
      else if !p.HasMiddleLeaf() then
        if p.HasSecondInheritance() then TwoCohortsReturn(p, lib) else GiftLockerReturn(p, lib)
      else if !lib.accepts(p.MiddleBranch()) then Err(Miniscript(p.MiddleBranch()))
      else if p.HasSecondInheritance() then FourLeafReturn(p, lib)
      else MiddleReturn(p, lib)
  }

  // ---- The flat single-script form ----

  function BuildPolicyString(p: DynastyPolicy): Policy {
    if p.IsPlain() then p.FounderBranch()
    else if !p.WantsInheritance() && p.HasBackup() then Or(p.FounderBranch(), p.BackupBranch())
    else if !p.HasMiddleLeaf() then Or(p.FounderBranch(), p.InheritanceBranch())
    else Or(p.FounderBranch(), Or(p.MiddleBranch(), p.InheritanceBranch()))
  }
}
