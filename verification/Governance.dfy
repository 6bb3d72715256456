/** The governance engine: which paths are open, whether a proposed spend is
    allowed, and the audit of a spend, for named and leaf-list vaults. */
module Governance {
  import opened Wrappers
  import opened LeafPolicies

  datatype SpendingPath = FoundersNow | Recovery | Inheritance
  datatype VaultPhase = Active | RecoveryUnlocked | InheritanceUnlocked
  datatype VaultPolicy = VaultPolicy(founderQuorum: nat, heirQuorum: nat, recoveryAfter: u32, inheritanceAfter: u32)
  datatype SignerStatus = SignerStatus(index: nat, signed: bool)

  datatype VaultStatus = VaultStatus(activePaths: seq<SpendingPath>, phase: VaultPhase,
                                     blocksUntilRecovery: Option<nat>, blocksUntilInheritance: Option<nat>)

  datatype Evaluation = Evaluation(allowed: bool, required: nat, provided: nat, missing: nat,
                                   timelockSatisfied: bool, quorumSatisfied: bool, pending: seq<nat>)

  datatype NextAction = NextAction(readyToBroadcast: bool, signerIndex: Option<nat>)

  datatype Rule = Gov000 | Gov001 | Gov002 | Gov003 | Gov004 | Gov005 | Gov006 | Gov007 | Gov008
  datatype Audit = Audit(violations: seq<Rule>, warnings: seq<Rule>, notes: seq<Rule>, approved: bool)

  const DUST_LIMIT: nat := 546

  // ---- Named vaults ----

  predicate HasRecovery(p: VaultPolicy) { p.recoveryAfter > 0 }

  /** The timelock rule of every path. */
  predicate TimelockSatisfied(p: VaultPolicy, path: SpendingPath, height: nat) {
    match path
    case FoundersNow => true
    case Recovery => HasRecovery(p) && height >= p.recoveryAfter
    case Inheritance => height >= p.inheritanceAfter
  }

  method EvaluateVaultStatus(p: VaultPolicy, height: u32) returns (s: VaultStatus)
    ensures forall path :: path in s.activePaths <==> TimelockSatisfied(p, path, height)
    ensures s == StatusAt(p, height)
  {
    var hasRecovery := p.recoveryAfter > 0;
    var recoveryUnlocked := hasRecovery && height >= p.recoveryAfter;
    var inheritanceUnlocked := height >= p.inheritanceAfter;
    var activePaths := [FoundersNow];
    if recoveryUnlocked { activePaths := activePaths + [Recovery]; }
    if inheritanceUnlocked { activePaths := activePaths + [Inheritance]; }
    var phase := if inheritanceUnlocked then InheritanceUnlocked
        else if recoveryUnlocked then RecoveryUnlocked else Active;
    var untilRecovery := if !hasRecovery || recoveryUnlocked then None else Some(p.recoveryAfter - height);
    var untilInheritance := if inheritanceUnlocked then None else Some(p.inheritanceAfter - height);
    s := VaultStatus(activePaths, phase, untilRecovery, untilInheritance);
  }

  function Countdown(unlock: nat, height: nat): Option<nat> {
    if height >= unlock then None else Some(unlock - height)
  }

  function StatusAt(p: VaultPolicy, height: nat): VaultStatus {
    VaultStatus(
      Only(FoundersNow, true)
        + Only(Recovery, TimelockSatisfied(p, Recovery, height))
        + Only(Inheritance, TimelockSatisfied(p, Inheritance, height)),
      if TimelockSatisfied(p, Inheritance, height) then InheritanceUnlocked
      else if TimelockSatisfied(p, Recovery, height) then RecoveryUnlocked else Active,
      if HasRecovery(p) then Countdown(p.recoveryAfter, height) else None,
      Countdown(p.inheritanceAfter, height))
  }

  function Only(path: SpendingPath, open: bool): seq<SpendingPath> { if open then [path] else [] }

  function CountSigned(signers: seq<SignerStatus>): nat {
    if signers == [] then 0 else (if signers[0].signed then 1 else 0) + CountSigned(signers[1..])
  }

  function Pending(signers: seq<SignerStatus>): seq<nat> {
    if signers == [] then [] else (if signers[0].signed then [] else [signers[0].index]) + Pending(signers[1..])
  }

  function RequiredSigners(p: VaultPolicy, path: SpendingPath): nat {
    if path.Inheritance? then p.heirQuorum else p.founderQuorum
  }

  function Evaluate(required: nat, timelockSatisfied: bool, signers: seq<SignerStatus>): Evaluation {
    var signed := CountSigned(signers);
    Evaluation(timelockSatisfied && signed >= required, required, signed,
               if required > signed then required - signed else 0,
               timelockSatisfied, signed >= required, Pending(signers))
  }

  function EvaluateSpendProposal(p: VaultPolicy, path: SpendingPath, height: nat, signers: seq<SignerStatus>)
    : Evaluation
  {
    Evaluate(RequiredSigners(p, path), TimelockSatisfied(p, path, height), signers)
  }

  function NextActionFor(e: Evaluation): NextAction {
    if e.allowed then NextAction(true, None)
    else if !e.timelockSatisfied then NextAction(false, None)
    else NextAction(false, if e.pending == [] then None else Some(e.pending[0]))
  }

  lemma {:induction false} SignedOrPending(signers: seq<SignerStatus>)
    ensures CountSigned(signers) + |Pending(signers)| == |signers|
    ensures forall i :: i in Pending(signers) <==> exists s :: s in signers && s.index == i && !s.signed
  {
    if signers != [] {
      SignedOrPending(signers[1..]);
      assert signers == [signers[0]] + signers[1..];
    }
  }

  /** An evaluation's numbers say what is still to be done: everyone has signed or is
      pending, the quorum is met exactly when nobody is missing, and the missing
      signatures can come from the pending signers exactly when there are enough signers. */
  lemma EvaluationAddsUp(required: nat, timelockSatisfied: bool, signers: seq<SignerStatus>)
    ensures var e := Evaluate(required, timelockSatisfied, signers);
            && e.provided + |e.pending| == |signers|
            && (e.missing == 0 <==> e.quorumSatisfied)
            && (e.missing > 0 ==> e.provided + e.missing == required)
            && (e.missing <= |e.pending| <==> e.quorumSatisfied || required <= |signers|)
            && (e.allowed <==> timelockSatisfied && e.missing == 0)
  {
    SignedOrPending(signers);
  }

  /** The next action points at the first signer who has not signed, exactly when a spend that
      is otherwise open waits for signatures that can still come. */
  lemma NextActionPointsAtPending(required: nat, timelockSatisfied: bool, signers: seq<SignerStatus>)
    ensures var e := Evaluate(required, timelockSatisfied, signers);
            var a := NextActionFor(e);
            && (a.readyToBroadcast <==> e.allowed)
            && (a.signerIndex.Some? <==> timelockSatisfied && !e.quorumSatisfied && e.pending != [])
            && (a.signerIndex.Some? ==>
                  exists i :: FirstUnsigned(signers, i) && signers[i].index == a.signerIndex.value)
  {
    FirstPending(signers);
  }

  predicate FirstUnsigned(signers: seq<SignerStatus>, i: int) {
    0 <= i < |signers| && !signers[i].signed && forall j :: 0 <= j < i ==> signers[j].signed
  }

  lemma {:induction false} FirstPending(signers: seq<SignerStatus>)
    ensures Pending(signers) != [] ==> exists i :: FirstUnsigned(signers, i) && signers[i].index == Pending(signers)[0]
  {
    if signers != [] {
      FirstPending(signers[1..]);
      if !signers[0].signed {
        assert FirstUnsigned(signers, 0);
      } else if Pending(signers) != [] {
        var i :| FirstUnsigned(signers[1..], i) && signers[1..][i].index == Pending(signers)[0];
        assert forall j :: 0 <= j < |signers[1..]| ==> signers[1..][j] == signers[j + 1];
        assert FirstUnsigned(signers, i + 1);
      }
    }
  }

  /** Whoever has not signed is listed as pending, in the signers' order. */
  lemma {:induction false} PendingInOrder(signers: seq<SignerStatus>, i: nat)
    requires i < |signers| && !signers[i].signed
    ensures var place := |Pending(signers[..i])|;
            place < |Pending(signers)| && Pending(signers)[place] == signers[i].index
  {
    if i == 0 {
      assert signers[..0] == [];
    } else {
      PendingInOrder(signers[1..], i - 1);
      assert signers[..i][1..] == signers[1..][..i - 1] && signers[..i][0] == signers[0];
    }
  }

  datatype ProposedSpend = ProposedSpend(path: SpendingPath, amount: nat, height: nat, signers: seq<SignerStatus>,
                                         total: nat)

  /** Rules 1 to 4, pushed one by one. */
  method HardRules(timelockOk: bool, quorumOk: bool, amount: nat, total: nat) returns (violations: seq<Rule>)
    ensures violations == Violations(timelockOk, quorumOk, amount, total)
    ensures (Gov001 in violations <==> !timelockOk) && (Gov002 in violations <==> !quorumOk)
    ensures (Gov003 in violations <==> amount < DUST_LIMIT) && (Gov004 in violations <==> amount > total)
    ensures violations == [] <==> timelockOk && quorumOk && DUST_LIMIT <= amount <= total
  {
    violations := [];
    if !timelockOk { violations := violations + [Gov001]; }
    if !quorumOk { violations := violations + [Gov002]; }
    if amount < DUST_LIMIT { violations := violations + [Gov003]; }
    if amount > total { violations := violations + [Gov004]; }
    ViolationsAreTheBrokenRules(timelockOk, quorumOk, amount, total);
  }

  method AuditSpend(p: VaultPolicy, spend: ProposedSpend) returns (a: Audit)
    ensures a == AuditOf(p, spend)
    ensures a.approved <==>
            EvaluateSpendProposal(p, spend.path, spend.height, spend.signers).allowed
            && DUST_LIMIT <= spend.amount <= spend.total
  {
    var warnings, notes := [], [];
    var timelockOk := match spend.path
      case FoundersNow => true
      case Recovery => p.recoveryAfter > 0 && spend.height >= p.recoveryAfter
      case Inheritance => spend.height >= p.inheritanceAfter;
    var eval := EvaluateSpendProposal(p, spend.path, spend.height, spend.signers);
    var violations := HardRules(timelockOk, eval.quorumSatisfied, spend.amount, spend.total);
    if spend.total > 0 && spend.amount > spend.total / 2 { warnings := warnings + [Gov005]; }
    if spend.path.Inheritance? { notes := notes + [Gov006]; }
    if spend.path.Recovery? { notes := notes + [Gov007]; }
    if eval.provided == 1 && eval.required > 1 { notes := notes + [Gov008]; }
    a := Audit(violations, warnings, notes, violations == []);
  }

  function Pushed(bucket: seq<Rule>, broken: bool, rule: Rule): seq<Rule> { if broken then bucket + [rule] else bucket }

  function Violations(timelockOk: bool, quorumOk: bool, amount: nat, total: nat): seq<Rule> {
    Pushed(Pushed(Pushed(Pushed([], !timelockOk, Gov001), !quorumOk, Gov002), amount < DUST_LIMIT, Gov003),
           amount > total, Gov004)
  }

  /** Each rule is reported exactly when it is broken. */
  lemma ViolationsAreTheBrokenRules(timelockOk: bool, quorumOk: bool, amount: nat, total: nat)
    ensures var v := Violations(timelockOk, quorumOk, amount, total);
            && (Gov001 in v <==> !timelockOk) && (Gov002 in v <==> !quorumOk)
            && (Gov003 in v <==> amount < DUST_LIMIT) && (Gov004 in v <==> amount > total)
            && (v == [] <==> timelockOk && quorumOk && DUST_LIMIT <= amount <= total)
  {
    var a := Pushed([], !timelockOk, Gov001);
    var b := Pushed(a, !quorumOk, Gov002);
    var c := Pushed(b, amount < DUST_LIMIT, Gov003);
    assert Gov001 in b <==> !timelockOk;
    assert Gov001 in c <==> !timelockOk;
    assert Gov002 in c <==> !quorumOk;
  }

  function LargeSpend(large: bool): seq<Rule> { Pushed([], large, Gov005) }

  function AuditOf(p: VaultPolicy, spend: ProposedSpend): Audit {
    var eval := EvaluateSpendProposal(p, spend.path, spend.height, spend.signers);
    var violations := Violations(eval.timelockSatisfied, eval.quorumSatisfied, spend.amount, spend.total);
    Audit(violations, LargeSpend(spend.total > 0 && spend.amount > spend.total / 2),
          Pushed(Pushed(Pushed([], spend.path.Inheritance?, Gov006), spend.path.Recovery?, Gov007),
                 eval.provided == 1 && eval.required > 1, Gov008),
          violations == [])
  }

  /** An audit approves exactly the allowed spends of at least the dust limit and at most the balance. */
  lemma AuditApprovesAllowed(p: VaultPolicy, spend: ProposedSpend)
    ensures AuditOf(p, spend).approved <==>
            EvaluateSpendProposal(p, spend.path, spend.height, spend.signers).allowed
            && DUST_LIMIT <= spend.amount <= spend.total
  {
    var eval := EvaluateSpendProposal(p, spend.path, spend.height, spend.signers);
    ViolationsAreTheBrokenRules(eval.timelockSatisfied, eval.quorumSatisfied, spend.amount, spend.total);
  }

  function PhaseRank(phase: VaultPhase): nat {
    match phase case Active => 0 case RecoveryUnlocked => 1 case InheritanceUnlocked => 2
  }

  /** Paths, once open, stay open; the phase never falls back; and a countdown of
      `n` means closed at each of the next `n - 1` blocks and open at the `n`-th. */
  lemma StatusOverTime(p: VaultPolicy, height: nat, later: nat)
    requires height <= later
    ensures forall path :: path in StatusAt(p, height).activePaths ==> path in StatusAt(p, later).activePaths
    ensures PhaseRank(StatusAt(p, height).phase) <= PhaseRank(StatusAt(p, later).phase)
    ensures forall n :: StatusAt(p, height).blocksUntilRecovery == Some(n) ==>
              (Recovery in StatusAt(p, later).activePaths <==> later >= height + n)
    ensures forall n :: StatusAt(p, height).blocksUntilInheritance == Some(n) ==>
              (Inheritance in StatusAt(p, later).activePaths <==> later >= height + n)
    ensures StatusAt(p, height).blocksUntilInheritance.None? <==> Inheritance in StatusAt(p, height).activePaths
    ensures StatusAt(p, height).blocksUntilRecovery.None? <==>
            Recovery in StatusAt(p, height).activePaths || !HasRecovery(p)
  {
    ActiveExactlyWhenSatisfied(p, height);
    ActiveExactlyWhenSatisfied(p, later);
  }

  lemma ActiveExactlyWhenSatisfied(p: VaultPolicy, height: nat)
    ensures forall path :: path in StatusAt(p, height).activePaths <==> TimelockSatisfied(p, path, height)
  {
    var s := StatusAt(p, height).activePaths;
    assert s == (if TimelockSatisfied(p, Recovery, height)
                 then if TimelockSatisfied(p, Inheritance, height) then [FoundersNow, Recovery, Inheritance]
                     else [FoundersNow, Recovery]
                 else if TimelockSatisfied(p, Inheritance, height) then [FoundersNow, Inheritance] else [FoundersNow]);
  }

  /** The phase is the latest path that is open, founders first and for ever, and each
      path is listed once, in the order in which they are meant to open. */
  lemma PhaseIsLatestPath(p: VaultPolicy, height: nat)
    ensures var s := StatusAt(p, height);
            && |s.activePaths| > 0 && s.activePaths[0] == FoundersNow && Distinct(s.activePaths)
            && (Recovery in s.activePaths <==> 0 < p.recoveryAfter <= height)
            && (Inheritance in s.activePaths <==> p.inheritanceAfter <= height)
            && (Inheritance in s.activePaths ==> s.activePaths[|s.activePaths| - 1] == Inheritance)
            && (s.phase == InheritanceUnlocked <==> Inheritance in s.activePaths)
            && (s.phase == RecoveryUnlocked <==> Recovery in s.activePaths && Inheritance !in s.activePaths)
  {
    ActiveExactlyWhenSatisfied(p, height);
  }

  // ---- What an audit reports ----

  /** The number in a rule's name. */
  function Number(rule: Rule): nat {
    match rule
    case Gov000 => 0 case Gov001 => 1 case Gov002 => 2 case Gov003 => 3 case Gov004 => 4
    case Gov005 => 5 case Gov006 => 6 case Gov007 => 7 case Gov008 => 8
  }

  predicate Ascending(bucket: seq<Rule>) {
    forall i, j :: 0 <= i < j < |bucket| ==> Number(bucket[i]) < Number(bucket[j])
  }

  /** The bucket lists, once and in order, the rules from `first` to `last` that apply. */
  ghost predicate ListsExactly(bucket: seq<Rule>, first: int, last: int, applies: Rule -> bool) {
    Ascending(bucket) && forall rule :: rule in bucket <==> first <= Number(rule) <= last && applies(rule)
  }

  /** What is to be said of a spend of a named vault: violations up to rule 4, the warning
      of rule 5, notes from rule 6 on. */
  predicate Applies(p: VaultPolicy, spend: ProposedSpend, rule: Rule) {
    var signed := CountSigned(spend.signers);
    match (rule, spend.path)
    case (Gov001, Recovery) => p.recoveryAfter == 0 || spend.height < p.recoveryAfter
    case (Gov001, Inheritance) => spend.height < p.inheritanceAfter
    case (Gov002, Inheritance) => signed < p.heirQuorum
    case (Gov002, _) => signed < p.founderQuorum
    case (Gov003, _) => spend.amount < 546
    case (Gov004, _) => spend.amount > spend.total
    case (Gov005, _) => spend.total > 0 && 2 * spend.amount > spend.total
    case (Gov006, Inheritance) => true
    case (Gov007, Recovery) => true
    case (Gov008, Inheritance) => signed == 1 && p.heirQuorum > 1
    case (Gov008, _) => signed == 1 && p.founderQuorum > 1
    case _ => false
  }

  /** An audit of a named vault reports what applies, each finding in its own bucket. */
  lemma AuditReportsExactly(p: VaultPolicy, spend: ProposedSpend)
    ensures var a := AuditOf(p, spend);
            var applies := rule => Applies(p, spend, rule);
            && ListsExactly(a.violations, 1, 4, applies) && ListsExactly(a.warnings, 5, 5, applies)
            && ListsExactly(a.notes, 6, 8, applies) && (a.approved <==> a.violations == [])
  {
    var eval := EvaluateSpendProposal(p, spend.path, spend.height, spend.signers);
    var applies := rule => Applies(p, spend, rule);
    RulesApply(p, spend);
    ViolationsListed(eval.timelockSatisfied, eval.quorumSatisfied, spend.amount, spend.total, applies);
    WarningListed(spend.amount, spend.total, applies);
    NotesListed(spend.path.Inheritance?, spend.path.Recovery?, eval.provided == 1 && eval.required > 1, applies);
  }

  lemma RulesApply(p: VaultPolicy, spend: ProposedSpend)
    ensures var eval := EvaluateSpendProposal(p, spend.path, spend.height, spend.signers);
            && (Applies(p, spend, Gov001) <==> !eval.timelockSatisfied)
            && (Applies(p, spend, Gov002) <==> !eval.quorumSatisfied)
            && (Applies(p, spend, Gov003) <==> spend.amount < DUST_LIMIT)
            && (Applies(p, spend, Gov004) <==> spend.amount > spend.total)
            && (Applies(p, spend, Gov005) <==> spend.total > 0 && spend.amount > spend.total / 2)
            && (Applies(p, spend, Gov006) <==> spend.path.Inheritance?)
            && (Applies(p, spend, Gov007) <==> spend.path.Recovery?)
            && (Applies(p, spend, Gov008) <==> eval.provided == 1 && eval.required > 1)
  {
  }

  lemma ViolationsListed(timelockOk: bool, quorumOk: bool, amount: nat, total: nat, applies: Rule -> bool)
    requires (applies(Gov001) <==> !timelockOk) && (applies(Gov002) <==> !quorumOk)
    requires (applies(Gov003) <==> amount < DUST_LIMIT) && (applies(Gov004) <==> amount > total)
    ensures ListsExactly(Violations(timelockOk, quorumOk, amount, total), 1, 4, applies)
  {
    var a := Pushed([], !timelockOk, Gov001);
    var b := Pushed(a, !quorumOk, Gov002);
    var c := Pushed(b, amount < DUST_LIMIT, Gov003);
    PushedListed([], 1, !timelockOk, Gov001, applies);
    PushedListed(a, 1, !quorumOk, Gov002, applies);
    PushedListed(b, 1, amount < DUST_LIMIT, Gov003, applies);
    PushedListed(c, 1, amount > total, Gov004, applies);
  }

  lemma WarningListed(amount: nat, total: nat, applies: Rule -> bool)
    requires applies(Gov005) <==> total > 0 && amount > total / 2
    ensures ListsExactly(LargeSpend(total > 0 && amount > total / 2), 5, 5, applies)
  {
    PushedListed([], 5, total > 0 && amount > total / 2, Gov005, applies);
  }

  lemma NotesListed(six: bool, seven: bool, eight: bool, applies: Rule -> bool)
    requires (applies(Gov006) <==> six) && (applies(Gov007) <==> seven) && (applies(Gov008) <==> eight)
    ensures ListsExactly(Pushed(Pushed(Pushed([], six, Gov006), seven, Gov007), eight, Gov008), 6, 8, applies)
  {
    PushedListed([], 6, six, Gov006, applies);
    PushedListed(Pushed([], six, Gov006), 6, seven, Gov007, applies);
    PushedListed(Pushed(Pushed([], six, Gov006), seven, Gov007), 6, eight, Gov008, applies);
  }

  /** Pushing the next rule where it applies keeps the listing exact. */
  lemma PushedListed(bucket: seq<Rule>, first: nat, broken: bool, rule: Rule, applies: Rule -> bool)
    requires first <= Number(rule) && (applies(rule) <==> broken)
    requires ListsExactly(bucket, first, Number(rule) - 1, applies) || (first == Number(rule) && bucket == [])
    ensures ListsExactly(Pushed(bucket, broken, rule), first, Number(rule), applies)
  {
    var pushed := Pushed(bucket, broken, rule);
    forall r ensures r in pushed <==> first <= Number(r) <= Number(rule) && applies(r) { SameNumber(r, rule); }
  }

  lemma SameNumber(r: Rule, rule: Rule)
    ensures Number(r) == Number(rule) <==> r == rule
  {
  }

  // ---- Leaf-list vaults ----

  datatype LeafSummary = LeafSummary(id: string, quorum: nat, unlock: Unlock)
  datatype LeafStatus = LeafStatus(active: bool, blocksUntilActive: Option<nat>)

  function SaturatingAdd(a: u32, b: u32): u32 { if a + b > U32_MAX then U32_MAX else a + b }

  function LeafStatusAt(leaf: LeafSummary, height: u32, confirmedAt: Option<u32>): LeafStatus {
    match leaf.unlock
    case Immediate => LeafStatus(true, None)
    case After(n) => LeafStatus(height >= n, Countdown(n, height))
    case OlderThan(n) =>
      if confirmedAt.None? then LeafStatus(false, None)
      else
        var unlock := SaturatingAdd(confirmedAt.value, n);
        LeafStatus(height >= unlock, Countdown(unlock, height))
  }

  function FindLeaf(leaves: seq<LeafSummary>, id: string): Option<LeafSummary> {
    if leaves == [] then None else if leaves[0].id == id then Some(leaves[0]) else FindLeaf(leaves[1..], id)
  }

  /** An unknown id evaluates to nothing satisfied and nothing required. */
  function EvaluateLeafSpendProposal(leaves: seq<LeafSummary>, id: string, height: u32, confirmedAt: Option<u32>,
                                     signers: seq<SignerStatus>): Evaluation {
    match FindLeaf(leaves, id)
    case None => Evaluation(false, 0, 0, 0, false, false, [])
    case Some(leaf) => Evaluate(leaf.quorum, LeafStatusAt(leaf, height, confirmedAt).active, signers)
  }

  datatype LeafProposedSpend = LeafProposedSpend(leafId: string, amount: nat, height: u32, confirmedAt: Option<u32>,
                                                 signers: seq<SignerStatus>, total: nat)

  function FirstImmediateId(leaves: seq<LeafSummary>): Option<string> {
    if leaves == [] then None
    else if leaves[0].unlock.Immediate? then Some(leaves[0].id)
    else FirstImmediateId(leaves[1..])
  }

  method AuditLeafSpend(leaves: seq<LeafSummary>, spend: LeafProposedSpend) returns (a: Audit)
    ensures a == LeafAuditOf(leaves, spend)
    ensures a.approved <==>
            EvaluateLeafSpendProposal(leaves, spend.leafId, spend.height, spend.confirmedAt, spend.signers).allowed
            && DUST_LIMIT <= spend.amount <= spend.total
  {
    var warnings, notes := [], [];
    var eval := EvaluateLeafSpendProposal(leaves, spend.leafId, spend.height, spend.confirmedAt, spend.signers);
    var violations := HardRules(eval.timelockSatisfied, eval.quorumSatisfied, spend.amount, spend.total);
    if spend.total > 0 && spend.amount > spend.total / 2 { warnings := warnings + [Gov005]; }
    var primary := FirstImmediateId(leaves);
    if primary != Some(spend.leafId) { notes := notes + [Gov006]; }
    if eval.provided == 1 && eval.required > 1 { notes := notes + [Gov008]; }
    a := Audit(violations, warnings, notes, violations == []);
  }

  function LeafAuditOf(leaves: seq<LeafSummary>, spend: LeafProposedSpend): Audit {
    var eval := EvaluateLeafSpendProposal(leaves, spend.leafId, spend.height, spend.confirmedAt, spend.signers);
    var violations := Violations(eval.timelockSatisfied, eval.quorumSatisfied, spend.amount, spend.total);
    Audit(violations, LargeSpend(spend.total > 0 && spend.amount > spend.total / 2),
          Pushed(Pushed([], FirstImmediateId(leaves) != Some(spend.leafId), Gov006),
                 eval.provided == 1 && eval.required > 1, Gov008),
          violations == [])
  }

  /** Approval is allowance within the amount limits, unknown ids included. */
  lemma LeafAuditApprovesAllowed(leaves: seq<LeafSummary>, spend: LeafProposedSpend)
    ensures LeafAuditOf(leaves, spend).approved <==>
            EvaluateLeafSpendProposal(leaves, spend.leafId, spend.height, spend.confirmedAt, spend.signers).allowed
            && DUST_LIMIT <= spend.amount <= spend.total
    ensures FindLeaf(leaves, spend.leafId).None? ==> !LeafAuditOf(leaves, spend).approved
  {
    var eval := EvaluateLeafSpendProposal(leaves, spend.leafId, spend.height, spend.confirmedAt, spend.signers);
    ViolationsAreTheBrokenRules(eval.timelockSatisfied, eval.quorumSatisfied, spend.amount, spend.total);
  }

  /** A leaf, once active, stays active, and its countdown is exact. */
  lemma LeafStatusOverTime(leaf: LeafSummary, height: u32, later: u32, confirmedAt: Option<u32>)
    requires height <= later
    ensures LeafStatusAt(leaf, height, confirmedAt).active ==> LeafStatusAt(leaf, later, confirmedAt).active
    ensures forall n :: LeafStatusAt(leaf, height, confirmedAt).blocksUntilActive == Some(n) ==>
              (LeafStatusAt(leaf, later, confirmedAt).active <==> later >= height + n)
  {
  }

  /** The place of the first leaf listed under an id. */
  predicate FirstUnder(leaves: seq<LeafSummary>, id: string, i: int) {
    0 <= i < |leaves| && leaves[i].id == id && forall j :: 0 <= j < i ==> leaves[j].id != id
  }

  predicate PrimaryAt(leaves: seq<LeafSummary>, i: int) {
    0 <= i < |leaves| && leaves[i].unlock.Immediate? && forall j :: 0 <= j < i ==> !leaves[j].unlock.Immediate?
  }

  lemma {:induction false} FindLeafIsFirst(leaves: seq<LeafSummary>, id: string)
    ensures FindLeaf(leaves, id).None? <==> forall i :: 0 <= i < |leaves| ==> leaves[i].id != id
    ensures forall i :: FirstUnder(leaves, id, i) ==> FindLeaf(leaves, id) == Some(leaves[i])
    ensures FindLeaf(leaves, id).Some? ==> exists i :: FirstUnder(leaves, id, i)
  {
    if leaves != [] {
      var rest := leaves[1..];
      FindLeafIsFirst(rest, id);
      assert forall i :: 0 <= i < |rest| ==> rest[i] == leaves[i + 1];
      forall i | FirstUnder(leaves, id, i) ensures FindLeaf(leaves, id) == Some(leaves[i]) {
        if i > 0 { assert leaves[0].id != id; assert FirstUnder(rest, id, i - 1); }
      }
      if leaves[0].id == id {
        assert FirstUnder(leaves, id, 0);
      } else if FindLeaf(rest, id).Some? {
        var i :| FirstUnder(rest, id, i);
        assert FirstUnder(leaves, id, i + 1);
      }
    }
  }

  lemma {:induction false} PrimaryIsFirstImmediate(leaves: seq<LeafSummary>)
    ensures forall i :: PrimaryAt(leaves, i) ==> FirstImmediateId(leaves) == Some(leaves[i].id)
    ensures FirstImmediateId(leaves).Some? ==> exists i :: PrimaryAt(leaves, i)
  {
    if leaves != [] {
      var rest := leaves[1..];
      PrimaryIsFirstImmediate(rest);
      assert forall i :: 0 <= i < |rest| ==> rest[i] == leaves[i + 1];
      forall i | PrimaryAt(leaves, i) ensures FirstImmediateId(leaves) == Some(leaves[i].id) {
        if i > 0 { assert !leaves[0].unlock.Immediate?; assert PrimaryAt(rest, i - 1); }
      }
      if leaves[0].unlock.Immediate? {
        assert PrimaryAt(leaves, 0);
      } else if FirstImmediateId(rest).Some? {
        var i :| PrimaryAt(rest, i);
        assert PrimaryAt(leaves, i + 1);
      }
    }
  }

  /** A leaf's delay is over at this tip, the coin's own one counted from its height. */
  predicate DelayOver(unlock: Unlock, height: u32, confirmedAt: Option<u32>) {
    match unlock
    case Immediate => true
    case After(n) => height >= n
    case OlderThan(n) => confirmedAt.Some? && (height >= confirmedAt.value + n || height == U32_MAX)
  }

  /** What is to be said of a spend of a leaf-list vault, `leaf` being the one it names. */
  predicate LeafApplies(leaf: Option<LeafSummary>, primary: bool, spend: LeafProposedSpend, rule: Rule) {
    var signed := CountSigned(spend.signers);
    match rule
    case Gov001 => leaf.None? || !DelayOver(leaf.value.unlock, spend.height, spend.confirmedAt)
    case Gov002 => leaf.None? || signed < leaf.value.quorum
    case Gov003 => spend.amount < 546
    case Gov004 => spend.amount > spend.total
    case Gov005 => spend.total > 0 && 2 * spend.amount > spend.total
    case Gov006 => !primary
    case Gov008 => leaf.Some? && signed == 1 && leaf.value.quorum > 1
    case _ => false
  }

  /** The leaf named by a spend is the first listed under its id. */
  ghost predicate Names(leaves: seq<LeafSummary>, id: string, leaf: Option<LeafSummary>) {
    if leaf.None? then forall i :: 0 <= i < |leaves| ==> leaves[i].id != id
    else exists i :: FirstUnder(leaves, id, i) && leaf.value == leaves[i]
  }

  /** An audit of a leaf-list vault reports what applies to the leaf named, and allows the
      spend exactly when that leaf's delay is over and its quorum signed. */
  lemma LeafAuditReportsExactly(leaves: seq<LeafSummary>, spend: LeafProposedSpend, leaf: Option<LeafSummary>)
    requires Names(leaves, spend.leafId, leaf)
    ensures var a := LeafAuditOf(leaves, spend);
            var primary := IsPrimary(leaves, spend.leafId);
            var applies := rule => LeafApplies(leaf, primary, spend, rule);
            && ListsExactly(a.violations, 1, 4, applies) && ListsExactly(a.warnings, 5, 5, applies)
            && ListsExactly(a.notes, 6, 8, applies) && (a.approved <==> a.violations == [])
    ensures EvaluateLeafSpendProposal(leaves, spend.leafId, spend.height, spend.confirmedAt, spend.signers).allowed <==>
              leaf.Some? && DelayOver(leaf.value.unlock, spend.height, spend.confirmedAt)
              && CountSigned(spend.signers) >= leaf.value.quorum
  {
    LeafRulesApply(leaves, spend, leaf);
    var eval := EvaluateLeafSpendProposal(leaves, spend.leafId, spend.height, spend.confirmedAt, spend.signers);
    var applies := rule => LeafApplies(leaf, IsPrimary(leaves, spend.leafId), spend, rule);
    ViolationsListed(eval.timelockSatisfied, eval.quorumSatisfied, spend.amount, spend.total, applies);
    WarningListed(spend.amount, spend.total, applies);
    var note, lone := FirstImmediateId(leaves) != Some(spend.leafId), eval.provided == 1 && eval.required > 1;
    NotesListed(note, false, lone, applies);
    assert LeafAuditOf(leaves, spend).notes == Pushed(Pushed(Pushed([], note, Gov006), false, Gov007), lone, Gov008);
  }

  lemma LeafRulesApply(leaves: seq<LeafSummary>, spend: LeafProposedSpend, leaf: Option<LeafSummary>)
    requires Names(leaves, spend.leafId, leaf)
    ensures var eval := EvaluateLeafSpendProposal(leaves, spend.leafId, spend.height, spend.confirmedAt, spend.signers);
            var applies := rule => LeafApplies(leaf, IsPrimary(leaves, spend.leafId), spend, rule);
            && (applies(Gov001) <==> !eval.timelockSatisfied) && (applies(Gov002) <==> !eval.quorumSatisfied)
            && (applies(Gov003) <==> spend.amount < DUST_LIMIT) && (applies(Gov004) <==> spend.amount > spend.total)
            && (applies(Gov005) <==> spend.total > 0 && spend.amount > spend.total / 2)
            && (applies(Gov006) <==> FirstImmediateId(leaves) != Some(spend.leafId)) && !applies(Gov007)
            && (applies(Gov008) <==> eval.provided == 1 && eval.required > 1)
            && (eval.allowed <==> !applies(Gov001) && !applies(Gov002))
  {
    NamedLeafEvaluated(leaves, spend, leaf);
    PrimaryExactly(leaves, spend.leafId);
  }

  lemma NamedLeafEvaluated(leaves: seq<LeafSummary>, spend: LeafProposedSpend, leaf: Option<LeafSummary>)
    requires Names(leaves, spend.leafId, leaf)
    ensures var eval := EvaluateLeafSpendProposal(leaves, spend.leafId, spend.height, spend.confirmedAt, spend.signers);
            var signed := CountSigned(spend.signers);
            && (eval.timelockSatisfied <==> leaf.Some? && DelayOver(leaf.value.unlock, spend.height, spend.confirmedAt))
            && (eval.quorumSatisfied <==> leaf.Some? && signed >= leaf.value.quorum)
            && (eval.allowed <==> eval.timelockSatisfied && eval.quorumSatisfied)
            && (eval.provided == 1 && eval.required > 1 <==> leaf.Some? && signed == 1 && leaf.value.quorum > 1)
  {
    NamedLeafFound(leaves, spend.leafId, leaf);
  }

  lemma NamedLeafFound(leaves: seq<LeafSummary>, id: string, leaf: Option<LeafSummary>)
    requires Names(leaves, id, leaf)
    ensures FindLeaf(leaves, id) == leaf
  {
    FindLeafIsFirst(leaves, id);
  }

  /** The id is that of the first immediate leaf. */
  ghost predicate IsPrimary(leaves: seq<LeafSummary>, id: string) {
    exists i :: PrimaryAt(leaves, i) && leaves[i].id == id
  }

  lemma PrimaryExactly(leaves: seq<LeafSummary>, id: string)
    ensures IsPrimary(leaves, id) <==> FirstImmediateId(leaves) == Some(id)
  {
    PrimaryIsFirstImmediate(leaves);
  }
}
