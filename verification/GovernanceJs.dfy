/** The fallback governance engine of the request layer, against the main engine,
    and both against what the compiled vault really allows. */
module GovernanceJs {
  import opened Wrappers
  import opened SpendPolicy
  import opened Consensus
  import opened Taproot
  import opened LeafPolicies
  import opened LeafCompiler
  import opened LeafMeaning
  import opened DynastyPolicies
  import opened Refinement
  import G = Governance

  // ---- Named vaults ----

  method JsStatus(p: G.VaultPolicy, height: nat) returns (s: G.VaultStatus)
    ensures s == G.StatusAt(p, height)
  {
    var hasRecovery := p.recoveryAfter > 0;
    var recoveryUnlocked := hasRecovery && height >= p.recoveryAfter;
    var inheritanceUnlocked := height >= p.inheritanceAfter;
    var activePaths := [G.FoundersNow];
    if recoveryUnlocked { activePaths := activePaths + [G.Recovery]; }
    if inheritanceUnlocked { activePaths := activePaths + [G.Inheritance]; }
    var phase := if inheritanceUnlocked then G.InheritanceUnlocked
        else if recoveryUnlocked then G.RecoveryUnlocked else G.Active;
    var untilRecovery := if !hasRecovery || recoveryUnlocked then None else Some(p.recoveryAfter - height);
    var untilInheritance := if inheritanceUnlocked then None else Some(p.inheritanceAfter - height);
    s := G.VaultStatus(activePaths, phase, untilRecovery, untilInheritance);
  }

  datatype JsResult = JsResult(audit: G.Audit, evaluation: G.Evaluation, action: G.NextAction)

  method JsHardRules(timelockOk: bool, quorumOk: bool, amount: nat, total: nat) returns (violations: seq<G.Rule>)
    ensures violations == G.Violations(timelockOk, quorumOk, amount, total)
  {
    violations := [];
    if !timelockOk { violations := violations + [G.Gov001]; }
    if !quorumOk { violations := violations + [G.Gov002]; }
    if amount < G.DUST_LIMIT { violations := violations + [G.Gov003]; }
    if amount > total { violations := violations + [G.Gov004]; }
  }

  method JsAudit(p: G.VaultPolicy, spend: G.ProposedSpend) returns (r: JsResult)
    ensures r == JsAuditOf(p, spend)
  {
    var hasRecovery := p.recoveryAfter > 0;
    var timelockOk := if spend.path.FoundersNow? then true
                      else if spend.path.Recovery? then hasRecovery && spend.height >= p.recoveryAfter
                      else spend.height >= p.inheritanceAfter;
    var required := if spend.path.Inheritance? then p.heirQuorum else p.founderQuorum;
    var signed := G.CountSigned(spend.signers);
    var quorumOk := signed >= required;
    var violations := JsHardRules(timelockOk, quorumOk, spend.amount, spend.total);
    var warnings, notes := [], [];
    if spend.total > 0 && spend.amount as real > spend.total as real / 2.0 { warnings := warnings + [G.Gov005]; }
    if spend.path.Inheritance? { notes := notes + [G.Gov006]; }
    var missing := if required > signed then required - signed else 0;
    var pending := G.Pending(spend.signers);
    r := JsResult(G.Audit(violations, warnings, notes, violations == []),
                  G.Evaluation(timelockOk && quorumOk, required, signed, missing, timelockOk, quorumOk, pending),
                  G.NextAction(timelockOk && quorumOk, if pending == [] then None else Some(pending[0])));
  }

  function JsAuditOf(p: G.VaultPolicy, spend: G.ProposedSpend): JsResult {
    var eval := G.EvaluateSpendProposal(p, spend.path, spend.height, spend.signers);
    var violations := G.Violations(eval.timelockSatisfied, eval.quorumSatisfied, spend.amount, spend.total);
    JsResult(G.Audit(violations, G.LargeSpend(spend.total > 0 && spend.amount as real > spend.total as real / 2.0),
                     G.Pushed([], spend.path.Inheritance?, G.Gov006), violations == []),
             eval,
             G.NextAction(eval.allowed, if eval.pending == [] then None else Some(eval.pending[0])))
  }

  /** The engines give the same evaluation, violations, large-spend warning and
      verdict, halving in reals or in integers. Their notes agree exactly when the
      spend is not a recovery and is not a lone signature on a larger quorum; the
      signer they point at next agrees exactly when nobody is pending or the spend
      waits for signatures only. */
  lemma EnginesAgree(p: G.VaultPolicy, spend: G.ProposedSpend)
    ensures var eval := G.EvaluateSpendProposal(p, spend.path, spend.height, spend.signers);
            var js, main := JsAuditOf(p, spend), G.AuditOf(p, spend);
            && js.evaluation == eval
            && js.audit.violations == main.violations && js.audit.warnings == main.warnings
            && js.audit.approved == main.approved
            && (js.audit.notes == main.notes <==> !spend.path.Recovery? && !(eval.provided == 1 && eval.required > 1))
            && G.ListsExactly(js.audit.notes, 6, 6, rule => G.Applies(p, spend, rule))
            && (js.action.signerIndex.None? <==> eval.pending == [])
            && (js.action.signerIndex.Some? ==>
                  exists i ::
                    G.FirstUnsigned(spend.signers, i) && spend.signers[i].index == js.action.signerIndex.value)
            && js.action.readyToBroadcast == G.NextActionFor(eval).readyToBroadcast
            && (js.action == G.NextActionFor(eval) <==>
                eval.pending == [] || (eval.timelockSatisfied && !eval.quorumSatisfied))
  {
    HalvesAgree(spend.amount, spend.total);
    G.FirstPending(spend.signers);
    HeirsNote(p, spend);
  }

  lemma HeirsNote(p: G.VaultPolicy, spend: G.ProposedSpend)
    ensures G.ListsExactly(G.Pushed([], spend.path.Inheritance?, G.Gov006), 6, 6, rule => G.Applies(p, spend, rule))
  {
  }

  lemma HalvesAgree(amount: nat, total: nat)
    ensures amount as real > total as real / 2.0 <==> amount > total / 2
  {
    assert amount as real > total as real / 2.0 <==> 2 * amount > total;
  }

  // ---- Leaf-list vaults ----

  /** A relative unlock is never evaluated here: it is reported, not held against the spend. */
  function JsLeafOpen(leaf: G.LeafSummary, height: nat): bool {
    match leaf.unlock
    case Immediate => true
    case After(n) => height >= n
    case OlderThan(_) => false
  }

  method JsLeafAudit(leaves: seq<G.LeafSummary>, spend: G.LeafProposedSpend) returns (a: G.Audit, allowed: bool)
    ensures allowed == JsLeafAllowed(leaves, spend)
    ensures a == JsLeafAuditOf(leaves, spend)
  {
    var resolved := G.FindLeaf(leaves, spend.leafId);
    var violations, warnings, notes := [], [], [];
    if resolved.None? { violations := violations + [G.Gov000]; }
    var timelockOk := resolved.Some? && JsLeafOpen(resolved.value, spend.height);
    var required := if resolved.Some? then resolved.value.quorum else 0;
    var signed := G.CountSigned(spend.signers);
    var quorumOk := resolved.Some? && signed >= required;
    if resolved.Some? && !timelockOk {
      if resolved.value.unlock.OlderThan? {
        notes := notes + [G.Gov001];
      } else {
        violations := violations + [G.Gov001];
      }
    }
    if resolved.Some? && !quorumOk { violations := violations + [G.Gov002]; }
    if spend.amount < G.DUST_LIMIT { violations := violations + [G.Gov003]; }
    if spend.amount > spend.total { violations := violations + [G.Gov004]; }
    if spend.total > 0 && spend.amount as real > spend.total as real / 2.0 { warnings := warnings + [G.Gov005]; }
    a := G.Audit(violations, warnings, notes, violations == []);
    allowed := resolved.Some? && timelockOk && quorumOk;
    HalvesAgree(spend.amount, spend.total);
  }

  /** The fallback's audit in the main engine's terms: an unknown id is one violation
      of its own, and a relative clock is noted instead of counted. */
  function JsLeafAuditOf(leaves: seq<G.LeafSummary>, spend: G.LeafProposedSpend): G.Audit {
    var leaf := G.FindLeaf(leaves, spend.leafId);
    var relative := leaf.Some? && leaf.value.unlock.OlderThan?;
    var timelockOk := leaf.None? || relative || JsLeafOpen(leaf.value, spend.height);
    var quorumOk := leaf.None? || G.CountSigned(spend.signers) >= leaf.value.quorum;
    var violations := (if leaf.None? then [G.Gov000] else []) +
        G.Violations(timelockOk, quorumOk, spend.amount, spend.total);
    G.Audit(violations, G.LargeSpend(spend.total > 0 && spend.amount > spend.total / 2),
            if relative then [G.Gov001] else [], violations == [])
  }

  function JsLeafAllowed(leaves: seq<G.LeafSummary>, spend: G.LeafProposedSpend): bool {
    var leaf := G.FindLeaf(leaves, spend.leafId);
    leaf.Some? && JsLeafOpen(leaf.value, spend.height) && G.CountSigned(spend.signers) >= leaf.value.quorum
  }

  /** On leaf lists the two engines always agree on the large-spend warning. The
      fallback allows only what the main engine allows, and on leaves without a
      relative lock they agree on allowance and verdict, on known ones violation by
      violation. On a relative leaf the fallback reports what the main engine would
      if the clock had run out, so it approves what the main engine does not exactly
      while that clock is running or unknown. */
  lemma LeafEnginesAgree(leaves: seq<G.LeafSummary>, spend: G.LeafProposedSpend)
    ensures var eval := G.EvaluateLeafSpendProposal(leaves, spend.leafId, spend.height, spend.confirmedAt,
                                                    spend.signers);
            var leaf := G.FindLeaf(leaves, spend.leafId);
            var relative := leaf.Some? && leaf.value.unlock.OlderThan?;
            var js, main := JsLeafAuditOf(leaves, spend), G.LeafAuditOf(leaves, spend);
            && js.warnings == main.warnings
            && (JsLeafAllowed(leaves, spend) ==> eval.allowed)
            && (!relative ==> JsLeafAllowed(leaves, spend) == eval.allowed && js.approved == main.approved)
            && (leaf.Some? && !relative ==> js.violations == main.violations)
            && (relative ==> js.violations == G.Violations(true, eval.quorumSatisfied, spend.amount, spend.total))
            && (leaf.None? ==> G.Gov000 in js.violations && G.Gov001 in main.violations && G.Gov002 in main.violations)
            && (js.approved && !main.approved <==>
                  relative && eval.quorumSatisfied && !eval.timelockSatisfied &&
                      G.DUST_LIMIT <= spend.amount <= spend.total)
  {
    var eval := G.EvaluateLeafSpendProposal(leaves, spend.leafId, spend.height, spend.confirmedAt, spend.signers);
    G.ViolationsAreTheBrokenRules(eval.timelockSatisfied, eval.quorumSatisfied, spend.amount, spend.total);
    G.ViolationsAreTheBrokenRules(true, eval.quorumSatisfied, spend.amount, spend.total);
    assert [] + G.Violations(eval.timelockSatisfied, eval.quorumSatisfied, spend.amount, spend.total)
        == G.Violations(eval.timelockSatisfied, eval.quorumSatisfied, spend.amount, spend.total);
    assert [] + G.Violations(true, eval.quorumSatisfied, spend.amount, spend.total)
        == G.Violations(true, eval.quorumSatisfied, spend.amount, spend.total);
  }

  /** What the fallback is to say of a leaf-list spend; a relative clock is a note. */
  predicate JsLeafApplies(leaf: Option<G.LeafSummary>, spend: G.LeafProposedSpend, rule: G.Rule) {
    match rule
    case Gov000 => leaf.None?
    case Gov001 => leaf.Some? && leaf.value.unlock.After? && spend.height < leaf.value.unlock.blocks
    case Gov002 => leaf.Some? && G.CountSigned(spend.signers) < leaf.value.quorum
    case Gov003 => spend.amount < 546
    case Gov004 => spend.amount > spend.total
    case Gov005 => spend.total > 0 && 2 * spend.amount > spend.total
    case _ => false
  }

  /** The fallback reports what applies to the leaf named and nothing else, notes the
      clock of every relative leaf, and allows a spend exactly when the leaf is known,
      has no relative clock, is past its height and is signed by its quorum. */
  lemma JsLeafAuditReportsExactly(leaves: seq<G.LeafSummary>, spend: G.LeafProposedSpend, leaf: Option<G.LeafSummary>)
    requires G.Names(leaves, spend.leafId, leaf)
    ensures var a := JsLeafAuditOf(leaves, spend);
            var applies := rule => JsLeafApplies(leaf, spend, rule);
            && G.ListsExactly(a.violations, 0, 4, applies) && G.ListsExactly(a.warnings, 5, 5, applies)
            && a.notes == (if leaf.Some? && leaf.value.unlock.OlderThan? then [G.Gov001] else [])
            && (a.approved <==> a.violations == [])
    ensures JsLeafAllowed(leaves, spend) <==>
              && leaf.Some? && !leaf.value.unlock.OlderThan?
              && (leaf.value.unlock.After? ==> spend.height >= leaf.value.unlock.blocks)
              && G.CountSigned(spend.signers) >= leaf.value.quorum
  {
    G.NamedLeafFound(leaves, spend.leafId, leaf);
    JsViolationsExactly(leaves, spend, leaf);
    assert G.ListsExactly(JsLeafAuditOf(leaves, spend).warnings, 5, 5, rule => JsLeafApplies(leaf, spend, rule));
  }

  lemma JsViolationsExactly(leaves: seq<G.LeafSummary>, spend: G.LeafProposedSpend, leaf: Option<G.LeafSummary>)
    requires G.FindLeaf(leaves, spend.leafId) == leaf
    ensures G.ListsExactly(JsLeafAuditOf(leaves, spend).violations, 0, 4, rule => JsLeafApplies(leaf, spend, rule))
  {
    var timelockOk := leaf.None? || leaf.value.unlock.OlderThan? || JsLeafOpen(leaf.value, spend.height);
    var quorumOk := leaf.None? || G.CountSigned(spend.signers) >= leaf.value.quorum;
    var bucket := G.Violations(timelockOk, quorumOk, spend.amount, spend.total);
    var applies := rule => JsLeafApplies(leaf, spend, rule);
    G.ViolationsListed(timelockOk, quorumOk, spend.amount, spend.total, applies);
    Prefixed(leaf.None?, bucket, applies);
    assert JsLeafAuditOf(leaves, spend).violations == (if leaf.None? then [G.Gov000] else []) + bucket;
  }

  lemma Prefixed(unknown: bool, bucket: seq<G.Rule>, applies: G.Rule -> bool)
    requires G.ListsExactly(bucket, 1, 4, applies) && (applies(G.Gov000) <==> unknown)
    ensures G.ListsExactly((if unknown then [G.Gov000] else []) + bucket, 0, 4, applies)
  {
    var all := (if unknown then [G.Gov000] else []) + bucket;
    forall r ensures r in all <==> 0 <= G.Number(r) <= 4 && applies(r) { G.SameNumber(r, G.Gov000); }
  }

  // ---- Governance against the compiled vault ----

  /** The summary governance keeps of a named policy. */
  function Summary(p: DynastyPolicy): G.VaultPolicy {
    G.VaultPolicy(p.founderQuorum, p.heirQuorum, p.recoveryAfter, p.inheritanceAfter)
  }

  /** These statuses say who of `keys` is among the signers. */
  predicate Describes(statuses: seq<G.SignerStatus>, keys: seq<PublicKey>, signers: set<PublicKey>) {
    G.CountSigned(statuses) == SignedCount(keys, signers)
  }

  /** On a compiled vault, governance allows a founders spend exactly when the founders
      leaf is satisfied on chain up to consent, which governance does not look at; and
      an heirs spend, where the vault has heirs and their delay is a height, exactly
      when the inheritance leaf is. */
  lemma GovernanceMatchesLeaves(p: DynastyPolicy, lib: Library, m: Moment, founders: seq<G.SignerStatus>,
                                heirs: seq<G.SignerStatus>)
    requires BuildMultileaf(p, lib).Ok?
    requires Describes(founders, p.founderKeys, m.signers) && Describes(heirs, p.heirKeys, m.signers)
    ensures var out := BuildMultileaf(p, lib).value;
            ChainSat(out.founderLeaf.policy, m) <==>
              && G.EvaluateSpendProposal(Summary(p), G.FoundersNow, m.height, founders).allowed
              && (p.HasConsent() ==> SignedCount(p.consentKeys, m.signers) >= p.consentQuorum.value)
    ensures var out := BuildMultileaf(p, lib).value;
            p.WantsInheritance() && AfterInRange(p.inheritanceAfter) ==>
              && out.inheritanceLeaf.Some?
              && (ChainSat(out.inheritanceLeaf.value.policy, m) <==>
                    G.EvaluateSpendProposal(Summary(p), G.Inheritance, m.height, heirs).allowed)
  {
    NamedLeaves(p, lib);
    DelayedThresh(p.inheritanceAfter, p.heirQuorum, p.heirKeys, m);
  }

  /** The leaves a compiled vault has, by name. */
  lemma NamedLeaves(p: DynastyPolicy, lib: Library)
    requires BuildMultileaf(p, lib).Ok?
    ensures var out := BuildMultileaf(p, lib).value;
            && out.founderLeaf == Script(p.FounderBranch())
            && out.recoveryLeaf == (if p.HasMiddleLeaf() then Some(Script(p.MiddleBranch())) else None)
            && out.inheritanceLeaf == (if p.WantsInheritance() then Some(Script(p.InheritanceBranch())) else None)
  {
    NamedOutput(p, lib);
  }

  /** Statuses, one for each key, that say who of them signed. */
  function StatusesOf(keys: seq<PublicKey>, signers: set<PublicKey>): (s: seq<G.SignerStatus>)
    ensures Describes(s, keys, signers)
  {
    if keys == [] then []
    else [G.SignerStatus(|keys|, keys[0] in signers)] + StatusesOf(keys[1..], signers)
  }

  /** What the engine asks on each path of a named policy, whether or not the vault has
      it: the founders' quorum at once or from the recovery delay on, the heirs' quorum
      from theirs on. */
  lemma VerdictByPath(p: DynastyPolicy, m: Moment, founders: seq<G.SignerStatus>, heirs: seq<G.SignerStatus>)
    requires Describes(founders, p.founderKeys, m.signers) && Describes(heirs, p.heirKeys, m.signers)
    ensures G.EvaluateSpendProposal(Summary(p), G.FoundersNow, m.height, founders).allowed <==>
            SignedCount(p.founderKeys, m.signers) >= p.founderQuorum
    ensures G.EvaluateSpendProposal(Summary(p), G.Recovery, m.height, founders).allowed <==>
            p.recoveryAfter > 0 && m.height >= p.recoveryAfter
            && SignedCount(p.founderKeys, m.signers) >= p.founderQuorum
    ensures G.EvaluateSpendProposal(Summary(p), G.Inheritance, m.height, heirs).allowed <==>
            m.height >= p.inheritanceAfter && SignedCount(p.heirKeys, m.signers) >= p.heirQuorum
  {
  }

  /** At every moment, the engine allows a spend of these keys on this path exactly when
      the script is satisfied on chain. */
  ghost predicate EngineMatches(p: DynastyPolicy, path: G.SpendingPath, keys: seq<PublicKey>, script: Policy) {
    forall m: Moment, statuses | Describes(statuses, keys, m.signers) ::
      ChainSat(script, m) <==> G.EvaluateSpendProposal(Summary(p), path, m.height, statuses).allowed
  }

  /** The engine's verdict on an heirs spend is the compiled inheritance leaf's, at every
      moment, exactly when the heirs' delay is a height. */
  lemma InheritanceMatchesExactly(p: DynastyPolicy, lib: Library)
    requires BuildMultileaf(p, lib).Ok? && p.WantsInheritance()
    ensures BuildMultileaf(p, lib).value.inheritanceLeaf.Some?
    ensures EngineMatches(p, G.Inheritance, p.heirKeys, BuildMultileaf(p, lib).value.inheritanceLeaf.value.policy)
       <==> AfterInRange(p.inheritanceAfter)
  {
    NamedLeaves(p, lib);
    forall m: Moment, statuses | Describes(statuses, p.heirKeys, m.signers)
      ensures ChainSat(p.InheritanceBranch(), m) <==>
              AfterOpen(p.inheritanceAfter, m) && SignedCount(p.heirKeys, m.signers) >= p.heirQuorum
      ensures G.EvaluateSpendProposal(Summary(p), G.Inheritance, m.height, statuses).allowed <==>
              m.height >= p.inheritanceAfter && SignedCount(p.heirKeys, m.signers) >= p.heirQuorum
    {
      DelayedThresh(p.inheritanceAfter, p.heirQuorum, p.heirKeys, m);
      VerdictByPath(p, m, StatusesOf(p.founderKeys, m.signers), statuses);
    }
    if !AfterInRange(p.inheritanceAfter) {
      var m := EarlyForAfter(p.inheritanceAfter, set k | k in p.heirKeys);
      EverybodySigned(p.heirKeys, m.signers);
      var statuses := StatusesOf(p.heirKeys, m.signers);
      assert ChainSat(p.InheritanceBranch(), m);
      assert !G.EvaluateSpendProposal(Summary(p), G.Inheritance, m.height, statuses).allowed;
    }
  }

  /** Governance lists inheritance as active only on vaults that have such a leaf
      exactly when the vault has heirs: without them it lists a path from the stored
      delay on, from block 0 if that is 0, that no script backs. */
  lemma ListedInheritanceExists(p: DynastyPolicy, lib: Library)
    requires BuildMultileaf(p, lib).Ok?
    ensures (forall h: nat :: G.Inheritance in G.StatusAt(Summary(p), h).activePaths ==>
             BuildMultileaf(p, lib).value.inheritanceLeaf.Some?)
       <==> p.WantsInheritance()
  {
    NamedLeaves(p, lib);
    G.ActiveExactlyWhenSatisfied(Summary(p), p.inheritanceAfter);
    assert G.Inheritance in G.StatusAt(Summary(p), p.inheritanceAfter).activePaths;
  }

  /** A founders-only vault: governance allows an heirs spend nobody signed, the phase
      says inheritance is unlocked, and the chain allows nothing of the kind. */
  lemma PhantomInheritance(lib: Library) returns (p: DynastyPolicy)
    ensures Verify(p).Ok? && !p.WantsInheritance()
    ensures G.EvaluateSpendProposal(Summary(p), G.Inheritance, 0, []).allowed
    ensures G.StatusAt(Summary(p), 0).phase == G.InheritanceUnlocked
    ensures BuildMultileaf(p, lib).Ok? <==> lib.accepts(p.FounderBranch())
    ensures BuildMultileaf(p, lib).Ok? ==> !Spendable(BuildMultileaf(p, lib).value.root, Moment({}, 0, 0, 0, 0))
  {
    p := DynastyPolicy([PublicKey(0)], 1, None, [], 0, 0, 0, [], None, [], None, [], None, None);
    NamedOutput(p, lib);
    NobodySigned(p.founderKeys, {});
    if BuildMultileaf(p, lib).Ok? { NamedMeaning(p, lib, Moment({}, 0, 0, 0, 0)); }
  }

  /** The engine's verdict on a recovery, which asks the founders' quorum, is the compiled
      recovery leaf's, at every moment, exactly when no other recovery quorum is set and
      the recovery delay is a height. */
  lemma RecoveryMatchesWithoutOwnQuorum(p: DynastyPolicy, lib: Library)
    requires BuildMultileaf(p, lib).Ok? && p.HasRecovery() && Distinct(p.founderKeys)
    ensures BuildMultileaf(p, lib).value.recoveryLeaf.Some?
    ensures EngineMatches(p, G.Recovery, p.founderKeys, BuildMultileaf(p, lib).value.recoveryLeaf.value.policy)
       <==> p.recoveryQuorum.GetOr(p.founderQuorum) == p.founderQuorum && AfterInRange(p.recoveryAfter)
  {
    var rq, fq := p.recoveryQuorum.GetOr(p.founderQuorum), p.founderQuorum;
    NamedLeaves(p, lib);
    assert !p.HasBackup();
    forall m: Moment, statuses | Describes(statuses, p.founderKeys, m.signers)
      ensures ChainSat(p.MiddleBranch(), m) <==>
              AfterOpen(p.recoveryAfter, m) && SignedCount(p.founderKeys, m.signers) >= rq
      ensures G.EvaluateSpendProposal(Summary(p), G.Recovery, m.height, statuses).allowed <==>
              m.height >= p.recoveryAfter && SignedCount(p.founderKeys, m.signers) >= fq
    {
      DelayedThresh(p.recoveryAfter, rq, p.founderKeys, m);
      VerdictByPath(p, m, statuses, StatusesOf(p.heirKeys, m.signers));
    }
    if !AfterInRange(p.recoveryAfter) {
      var m := EarlyForAfter(p.recoveryAfter, set k | k in p.founderKeys);
      EverybodySigned(p.founderKeys, m.signers);
      RecoveryDiffers(p, m);
    } else if rq != fq {
      var signers := FirstSigners(p.founderKeys, if rq < fq then rq else fq);
      var m := Moment(signers, p.recoveryAfter, 0, 0, 0);
      RecoveryDiffers(p, m);
    }
  }

  /** A moment at which the recovery branch and the engine's rule part makes the verdicts part. */
  lemma RecoveryDiffers(p: DynastyPolicy, m: Moment)
    requires p.HasRecovery() && !p.HasBackup()
    requires var signed := SignedCount(p.founderKeys, m.signers);
             (AfterOpen(p.recoveryAfter, m) && signed >= p.recoveryQuorum.GetOr(p.founderQuorum))
             != (m.height >= p.recoveryAfter && signed >= p.founderQuorum)
    ensures !EngineMatches(p, G.Recovery, p.founderKeys, p.MiddleBranch())
  {
    var statuses := StatusesOf(p.founderKeys, m.signers);
    DelayedThresh(p.recoveryAfter, p.recoveryQuorum.GetOr(p.founderQuorum), p.founderKeys, m);
    VerdictByPath(p, m, statuses, StatusesOf(p.heirKeys, m.signers));
    assert Describes(statuses, p.founderKeys, m.signers);
  }

  // ---- Leaf-list governance against the drafted leaves ----

  /** The summary governance keeps of a leaf. */
  function LeafSummaryOf(leaf: Leaf): G.LeafSummary { G.LeafSummary(leaf.id, leaf.quorum, leaf.unlock) }

  /** Governance's rule for one leaf. */
  predicate LeafRule(leaf: Leaf, height: u32, confirmedAt: Option<u32>, signers: set<PublicKey>) {
    G.LeafStatusAt(LeafSummaryOf(leaf), height, confirmedAt).active && SignedCount(leaf.keys, signers) >= leaf.quorum
  }

  /** A proposal is allowed exactly by the rule of the first leaf listed under its id. */
  lemma LeafProposalIsRule(leaves: seq<G.LeafSummary>, leaf: Leaf, height: u32, confirmedAt: Option<u32>,
                           statuses: seq<G.SignerStatus>, signers: set<PublicKey>)
    requires G.FindLeaf(leaves, leaf.id) == Some(LeafSummaryOf(leaf)) && Describes(statuses, leaf.keys, signers)
    ensures G.EvaluateLeafSpendProposal(leaves, leaf.id, height, confirmedAt, statuses).allowed <==>
            LeafRule(leaf, height, confirmedAt, signers)
  {
  }

  /** The moment a governance question is about: at tip `height`, a coin confirmed at
      `confirmedAt` has aged one block more than their difference. */
  predicate AsksAbout(leaf: Leaf, height: u32, confirmedAt: Option<u32>, m: Moment) {
    && m.height == height
    && (leaf.unlock.OlderThan? && confirmedAt.Some? ==>
        confirmedAt.value <= height && m.age == height - confirmedAt.value + 1)
  }

  /** Governance saturates the sum of the two heights, and at the last height the clock
      can show it takes the saturated sum for a delay that has passed. */
  predicate OpensEarly(leaf: Leaf, height: u32, confirmedAt: Option<u32>) {
    && leaf.unlock.OlderThan? && confirmedAt.Some?
    && height == U32_MAX && confirmedAt.value + leaf.unlock.blocks > U32_MAX + 1
  }

  /** No step of the leaf's decay has passed, or none lowers its quorum. */
  predicate NoStepElapsed(leaf: Leaf, m: Moment)
    requires UnlockOpen(leaf.unlock, m)
  {
    leaf.decay.None? || leaf.unlock.Immediate? || leaf.decay.value.floorQuorum >= leaf.quorum
    || (leaf.decay.value.stepBlocks > 0 && Clock(leaf, m) - leaf.unlock.blocks < leaf.decay.value.stepBlocks)
  }

  lemma NoStepElapsedExactly(leaf: Leaf, m: Moment)
    requires UnlockOpen(leaf.unlock, m)
    ensures QuorumNow(leaf, m) <= leaf.quorum
    ensures QuorumNow(leaf, m) == leaf.quorum <==> NoStepElapsed(leaf, m)
  {
    if leaf.decay.Some? && !leaf.unlock.Immediate? && leaf.decay.value.floorQuorum <= leaf.quorum {
      DecayedQuorumHolds(leaf.quorum, leaf.decay.value.floorQuorum, leaf.decay.value.stepBlocks,
                         Clock(leaf, m) - leaf.unlock.blocks);
    }
  }

  /** Governance never allows what the leaf does not, short of that height: it asks the
      drafted quorum, and the drafted delay with one block to spare on a relative leaf. */
  lemma LeafRuleIsSafe(leaf: Leaf, height: u32, confirmedAt: Option<u32>, m: Moment)
    requires AsksAbout(leaf, height, confirmedAt, m) && !OpensEarly(leaf, height, confirmedAt)
    ensures LeafRule(leaf, height, confirmedAt, m.signers) ==> LeafAllows(leaf, m)
  {
    if UnlockOpen(leaf.unlock, m) { NoStepElapsedExactly(leaf, m); }
  }

  function At(m: Moment, signers: set<PublicKey>): Moment { m.(signers := signers) }

  /** On a checked leaf that height is the only exception, whoever signs. */
  lemma LeafRuleIsSafeExactly(leaf: Leaf, height: u32, confirmedAt: Option<u32>, m: Moment)
    requires AsksAbout(leaf, height, confirmedAt, m) && VerifyLeaf(leaf).Ok? && Distinct(leaf.keys)
    ensures (forall signers :: LeafRule(leaf, height, confirmedAt, signers) ==> LeafAllows(leaf, At(m, signers))) <==>
            !OpensEarly(leaf, height, confirmedAt)
  {
    if OpensEarly(leaf, height, confirmedAt) {
      var enough := FirstSigners(leaf.keys, leaf.quorum);
      assert LeafRule(leaf, height, confirmedAt, enough) && !LeafAllows(leaf, At(m, enough));
    } else {
      forall signers ensures LeafRule(leaf, height, confirmedAt, signers) ==> LeafAllows(leaf, At(m, signers)) {
        LeafRuleIsSafe(leaf, height, confirmedAt, At(m, signers));
      }
    }
  }

  /** A relative delay of ten blocks that governance calls over after one. */
  lemma SaturatedRuleOpensEarly() returns (leaf: Leaf, m: Moment)
    ensures VerifyLeaf(leaf).Ok? && AsksAbout(leaf, U32_MAX, Some(U32_MAX), m)
    ensures LeafRule(leaf, U32_MAX, Some(U32_MAX), m.signers) && !LeafAllows(leaf, m)
  {
    leaf := Leaf("relaxed", [PublicKey(0)], 1, OlderThan(10), None);
    m := Moment({PublicKey(0)}, U32_MAX, 1, 0, 0);
    assert [PublicKey(0)][1..] == [];
  }

  /** Governance too calls an open leaf open. */
  predicate ClockKnown(leaf: Leaf, height: u32, confirmedAt: Option<u32>, m: Moment) {
    leaf.unlock.OlderThan? ==> confirmedAt.Some? && (m.age > leaf.unlock.blocks || height == U32_MAX)
  }

  /** At a given moment governance and the leaf allow the same signers exactly when
      governance is not early and the leaf is closed, or no decay step has lowered its
      quorum and, on a relative leaf, the coin's height is known and its last block has passed. */
  lemma LeafRuleMatchesExactly(leaf: Leaf, height: u32, confirmedAt: Option<u32>, m: Moment)
    requires AsksAbout(leaf, height, confirmedAt, m) && VerifyLeaf(leaf).Ok? && Distinct(leaf.keys)
    ensures (forall signers :: LeafRule(leaf, height, confirmedAt, signers) <==> LeafAllows(leaf, At(m, signers))) <==>
            && !OpensEarly(leaf, height, confirmedAt)
            && (UnlockOpen(leaf.unlock, m) ==> NoStepElapsed(leaf, m) && ClockKnown(leaf, height, confirmedAt, m))
  {
    LeafRuleIsSafeExactly(leaf, height, confirmedAt, m);
    if !OpensEarly(leaf, height, confirmedAt) && UnlockOpen(leaf.unlock, m) {
      OpenRuleMatchesExactly(leaf, height, confirmedAt, m);
    }
  }

  lemma OpenRuleMatchesExactly(leaf: Leaf, height: u32, confirmedAt: Option<u32>, m: Moment)
    requires AsksAbout(leaf, height, confirmedAt, m) && VerifyLeaf(leaf).Ok? && Distinct(leaf.keys)
    requires !OpensEarly(leaf, height, confirmedAt) && UnlockOpen(leaf.unlock, m)
    ensures (forall signers :: LeafRule(leaf, height, confirmedAt, signers) <==> LeafAllows(leaf, At(m, signers))) <==>
            NoStepElapsed(leaf, m) && ClockKnown(leaf, height, confirmedAt, m)
  {
    NoStepElapsedExactly(leaf, m);
    var q := QuorumNow(leaf, m);
    forall signers ensures LeafAllows(leaf, At(m, signers)) <==> SignedCount(leaf.keys, signers) >= q {
      assert UnlockOpen(leaf.unlock, At(m, signers)) && QuorumNow(leaf, At(m, signers)) == q;
    }
    var enough := FirstSigners(leaf.keys, q);
    assert LeafAllows(leaf, At(m, enough));
    var active := G.LeafStatusAt(LeafSummaryOf(leaf), height, confirmedAt).active;
    assert active <==> ClockKnown(leaf, height, confirmedAt, m);
    assert LeafRule(leaf, height, confirmedAt, enough) <==> active && q >= leaf.quorum;
  }
}
