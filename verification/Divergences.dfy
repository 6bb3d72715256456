/** Inputs on which parts of the code that should agree do not: one for each exact
    condition proved elsewhere, all the way to a compiled output. */
module Divergences {
  import opened Wrappers
  import opened SpendPolicy
  import opened Consensus
  import opened Taproot
  import opened LeafPolicies
  import opened LeafCompiler
  import opened LeafMeaning
  import opened DynastyPolicies
  import opened Refinement
  import opened PsbtBinary
  import opened FaithfulLibrary
  import opened GovernanceJs
  import G = Governance

  function Alice(): PublicKey { PublicKey(0) }
  function Bob(): PublicKey { PublicKey(1) }
  function Carol(): PublicKey { PublicKey(2) }

  // ---- Path `backup` on a vault with a timelocked recovery ----

  /** Alice now, Alice after 26,000 blocks, Bob after 30,000. */
  function RecoveryVault(): DynastyPolicy {
    DynastyPolicy([Alice()], 1, None, [Bob()], 1, 26_000, 30_000, [], None, [], None, [], None, None)
  }

  lemma RecoveryVaultBuilds(lib: Library)
    requires forall p :: lib.accepts(p)
    ensures Verify(RecoveryVault()).Ok? && BuildMultileaf(RecoveryVault(), lib).Ok?
    ensures BuildMultileaf(RecoveryVault(), lib).value.recoveryLeaf == Some(Script(RecoveryVault().MiddleBranch()))
  {
    NamedOutput(RecoveryVault(), lib);
  }

  function BackupRequest(root: Hash): PsbtRequest {
    PsbtRequest([UtxoInput(Some(1), 0, 10_000, Some(VaultOutput(root)))], Some(OtherOutput(0)), 9_000, 1_000, None,
                "backup", Named(RecoveryVault()))
  }

  function BackupTransaction(out: MultileafOutput, leaf: Script): Psbt {
    Psbt(2, 0,
         [FilledInput(UtxoInput(Some(1), 0, 10_000, Some(VaultOutput(out.root))), ENABLE_RBF_NO_LOCKTIME, Some(out),
                      Some(leaf))],
         [TxOut(9_000, OtherOutput(0))], true)
  }

  lemma BackupBuilt(out: MultileafOutput, leaf: Script, lib: Library)
    requires FullOutput(Named(RecoveryVault()), lib) == Ok(Some(out)) && out.recoveryLeaf == Some(leaf)
    ensures Built(BackupRequest(out.root), lib, BackupTransaction(out, leaf))
  {
    var req, psbt := BackupRequest(out.root), BackupTransaction(out, leaf);
    assert InputTotal(req.inputs) == 10_000;
    assert Outputs(req) == Ok([TxOut(9_000, OtherOutput(0))]);
    assert Select(req.params, Some(out), "backup") == Ok(Selection(Some(leaf), 0, None));
    assert FirstProblem(req.inputs, Some(out)).None?;
    assert Filled(req.inputs, psbt.inputs, ENABLE_RBF_NO_LOCKTIME, Some(out), Some(leaf));
  }

  /** A transaction the builder makes for path `backup` that no signature can save: it
      carries the recovery script with lock time 0, and the script's opcode fails. */
  lemma BackupMisdirected() returns (lib: Library, req: PsbtRequest, psbt: Psbt, leaf: Script)
    ensures Faithful(lib) && Verify(RecoveryVault()).Ok? && RecoveryVault().HasRecovery()
    ensures req.path == "backup" && req.params == Named(RecoveryVault()) && Built(req, lib, psbt)
    ensures |psbt.inputs| == 1 && psbt.inputs[0].tapLeaf.Some? && psbt.inputs[0].tapLeaf.value.script == leaf
    ensures leaf.policy == RecoveryVault().MiddleBranch() && psbt.lockTime == 0
    ensures !ScriptTimelockPasses(leaf.policy, psbt)
  {
    lib := FaithfulLibraryExists();
    RecoveryVaultBuilds(lib);
    var out := BuildMultileaf(RecoveryVault(), lib).value;
    leaf := out.recoveryLeaf.value;
    req, psbt := BackupRequest(out.root), BackupTransaction(out, leaf);
    BackupBuilt(out, leaf, lib);
    NamedStamping(req, lib, psbt, leaf);
    assert psbt.inputs[0] in psbt.inputs;
  }

  // ---- A second delay of one block ----

  function HastyVault(): DynastyPolicy {
    DynastyPolicy([Alice()], 1, None, [Bob()], 1, 0, 30_000, [], None, [], None, [Carol()], Some(1), Some(1))
  }

  /** The hand-written compiler builds it, the generic one refuses its translation, and
      the second heir spends at height 1. */
  lemma OneBlockSecondDelay() returns (lib: Library)
    ensures Faithful(lib) && Verify(HastyVault()).Ok? && BuildMultileaf(HastyVault(), lib).Ok?
    ensures Compiled(Translate(HastyVault()), lib) == Err(RecoveryTooSoon)
    ensures Spendable(BuildMultileaf(HastyVault(), lib).value.root, Moment({Carol()}, 1, 0, 0, 0))
  {
    lib := FaithfulLibraryExists();
    var p, m := HastyVault(), Moment({Carol()}, 1, 0, 0, 0);
    NamedOutput(p, lib);
    GenericRefusesShortSecondDelay(p, lib);
    NamedMeaning(p, lib, m);
    EverybodySigned(p.secondHeirKeys, m.signers);
    DelayedThresh(1, 1, p.secondHeirKeys, m);
  }

  // ---- A recovery quorum of its own ----

  function EasierRecovery(): DynastyPolicy {
    DynastyPolicy([Alice(), Bob()], 2, Some(1), [Carol()], 1, 26_000, 30_000, [], None, [], None, [], None, None)
  }

  /** At the recovery height Alice alone satisfies the compiled recovery leaf, and
      governance says a signature is missing. */
  lemma GovernanceMissesRecovery() returns (lib: Library, m: Moment, statuses: seq<G.SignerStatus>)
    ensures Faithful(lib) && BuildMultileaf(EasierRecovery(), lib).Ok?
    ensures BuildMultileaf(EasierRecovery(), lib).value.recoveryLeaf.Some?
    ensures ChainSat(BuildMultileaf(EasierRecovery(), lib).value.recoveryLeaf.value.policy, m)
    ensures Describes(statuses, EasierRecovery().founderKeys, m.signers)
    ensures var eval := G.EvaluateSpendProposal(Summary(EasierRecovery()), G.Recovery, m.height, statuses);
            !eval.allowed && eval.timelockSatisfied && eval.missing == 1
  {
    lib := FaithfulLibraryExists();
    var p := EasierRecovery();
    m := Moment({Alice()}, 26_000, 0, 0, 0);
    NamedOutput(p, lib);
    NamedLeaves(p, lib);
    assert p.founderKeys[1..] == [Bob()] && [Bob()][1..] == [];
    assert SignedCount(p.founderKeys, m.signers) == 1;
    statuses := StatusesOf(p.founderKeys, m.signers);
    DelayedThresh(26_000, 1, p.founderKeys, m);
  }

  // ---- An id drafted to look like a rung ----

  function Now(): Leaf { Leaf("now", [Alice()], 1, Immediate, None) }

  function Decaying(): Leaf { Leaf("a", [Alice(), Bob()], 2, Unlock.After(26_000), Some(DecayConfig(1_000, 1))) }

  function Lookalike(): Leaf { Leaf("a_1", [Bob()], 1, Unlock.After(40_000), None) }

  function LookalikeVault(): LeafPolicy { LeafPolicy([Now(), Decaying(), Lookalike()], [], None) }

  lemma DecayingRungs()
    ensures VerifyLeaf(Decaying()).Ok? && Expanded(Decaying()).Ok?
    ensures Expanded(Decaying()).value ==
            [Leaf("a_0", [Alice(), Bob()], 2, Unlock.After(26_000), None),
             Leaf("a_1", [Alice(), Bob()], 1, Unlock.After(27_000), None)]
  {
    RungHeightClosed(26_000, 1_000, 0);
    RungHeightClosed(26_000, 1_000, 1);
    var leaf := Decaying();
    assert Expanded(leaf) == Ok(Ladder(leaf, 2));
    assert Ladder(leaf, 2)[0] == Rung(leaf, 0) && Ladder(leaf, 2)[1] == Rung(leaf, 1);
    assert "a" + "_" + "0" == "a_0" && "a" + "_" + "1" == "a_1";
  }

  lemma LookalikeFlattens()
    ensures VerifyLeafPolicy(LookalikeVault()).Ok?
    ensures Flatten(LookalikeVault().leaves) == Ok([Now()] + (Expanded(Decaying()).value + [Lookalike()]))
  {
    var leaves := LookalikeVault().leaves;
    DecayingRungs();
    assert leaves[0] == Now() && leaves[1] == Decaying() && leaves[2] == Lookalike() && Now() in leaves;
    VerifiedLeaves(leaves);
    SingleFlatten(Lookalike());
    assert leaves[1..] == [Decaying(), Lookalike()] && [Decaying(), Lookalike()][1..] == [Lookalike()];
    assert Flatten([Decaying(), Lookalike()]) == Ok(Expanded(Decaying()).value + [Lookalike()]);
  }

  /** The drafted `a_1` is compiled, and no path selects it: the rung before it has its id. */
  lemma ShadowedLeaf() returns (lib: Library)
    ensures Faithful(lib) && Compiled(LookalikeVault(), lib).Ok?
    ensures var table := Compiled(LookalikeVault(), lib).value.leafScripts;
            && |table| == 4 && table[2].0 == table[3].0 == "a_1" && table[2].1 != table[3].1
            && !FoundAt(table, 3)
            && forall path :: Find(table, path).Some? ==> FirstIndex(table, path) != 3
  {
    lib := FaithfulLibraryExists();
    LookalikeFlattens();
    DecayingRungs();
    var flat := Flatten(LookalikeVault().leaves).value;
    assert flat[2].id == "a_1" && flat[3] == Lookalike();
    NoneRejected(Conditions(flat, LookalikeVault().Consent()), lib);
    ConsentGatesPrimaryOnly(flat, LookalikeVault().Consent());
    var table := Compiled(LookalikeVault(), lib).value.leafScripts;
    FindListed(table, 2);
  }
}
