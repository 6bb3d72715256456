/** Two policies the compiler accepts whose timelocks leave the range the chain reads
    as written: what they compile to, who can spend them when, and how. */
module OutOfRange {
  import opened Wrappers
  import opened SpendPolicy
  import opened Consensus
  import opened Taproot
  import opened LeafPolicies
  import opened LeafCompiler
  import opened LeafMeaning
  import opened PsbtBinary
  import opened FaithfulLibrary

  function Alice(): PublicKey { PublicKey(0) }
  function Bob(): PublicKey { PublicKey(1) }

  /** Alice alone, now. */
  function Now(): Leaf { Leaf("now", [Alice()], 1, Immediate, None) }

  /** Alice alone, at a fixed height. */
  function Fixed(): Leaf { Leaf("fixed", [Alice()], 1, Unlock.After(26_000), None) }

  /** Both after 60,000 blocks, either of them 6,000 blocks later. */
  function Relaxed(): Leaf {
    Leaf("relaxed", [Alice(), Bob()], 2, OlderThan(60_000), Some(DecayConfig(6_000, 1)))
  }

  function Vault(): LeafPolicy { LeafPolicy([Now(), Fixed(), Relaxed()], [], None) }

  /** Bob alone, 464 blocks after the coin confirmed. */
  function BobEarly(): Moment { Moment({Bob()}, 0, 464, 0, 0) }

  lemma RelaxedRungs()
    ensures VerifyLeaf(Relaxed()).Ok? && Expanded(Relaxed()).Ok?
    ensures var rungs := Expanded(Relaxed()).value;
            && |rungs| == 2
            && rungs[0] == Leaf("relaxed_0", [Alice(), Bob()], 2, OlderThan(60_000), None)
            && rungs[1] == Leaf("relaxed_1", [Alice(), Bob()], 1, OlderThan(66_000), None)
    ensures !LeafInRange(Relaxed())
  {
    RungHeightClosed(60_000, 6_000, 0);
    RungHeightClosed(60_000, 6_000, 1);
    var leaf := Relaxed();
    assert Expanded(leaf) == Ok(Ladder(leaf, 2));
    assert Ladder(leaf, 2)[0] == Rung(leaf, 0) && Ladder(leaf, 2)[1] == Rung(leaf, 1);
    assert "relaxed" + "_" + "0" == "relaxed_0" && "relaxed" + "_" + "1" == "relaxed_1";
  }

  lemma VaultVerifies()
    ensures VerifyLeafPolicy(Vault()).Ok?
  {
    var leaves := Vault().leaves;
    assert leaves[0] == Now() && leaves[1] == Fixed() && leaves[2] == Relaxed();
    assert Now() in leaves && Fixed() in leaves;
    RelaxedRungs();
    VerifiedLeaves(leaves);
  }

  lemma VaultFlattens()
    ensures Flatten(Vault().leaves).Ok?
    ensures var flat := Flatten(Vault().leaves).value;
            |flat| == 4 && flat[0] == Now() && flat[1] == Fixed() && [flat[2], flat[3]] == Expanded(Relaxed()).value
  {
    RelaxedRungs();
    SingleFlatten(Relaxed());
    assert Vault().leaves[1..] == [Fixed(), Relaxed()] && [Fixed(), Relaxed()][1..] == [Relaxed()];
    assert Flatten([Fixed(), Relaxed()]) == Ok([Fixed()] + Expanded(Relaxed()).value);
    assert Flatten(Vault().leaves) == Ok([Now()] + ([Fixed()] + Expanded(Relaxed()).value));
  }

  /** A faithful library compiles the vault, with the truncated rung in its tables. */
  lemma VaultCompiles() returns (lib: Library)
    ensures Faithful(lib) && Compiled(Vault(), lib).Ok?
    ensures RungListed(Compiled(Vault(), lib).value)
  {
    lib := FaithfulLibraryExists();
    VaultVerifies();
    VaultFlattens();
    RelaxedRungs();
    NoneRejected(Conditions(Flatten(Vault().leaves).value, Vault().Consent()), lib);
    CompiledTablesMatch(Vault(), lib);
  }

  /** Bob alone spends the compiled vault 464 blocks after funding, though the leaf was
      drafted to open to both keys at 60,000 blocks and to one at 66,000. */
  lemma OneKeySpendsEarly(lib: Library)
    requires Compiled(Vault(), lib).Ok?
    ensures Spendable(Compiled(Vault(), lib).value.root, BobEarly()) && !VaultAllows(Vault(), BobEarly())
  {
    var leaves := Vault().leaves;
    assert leaves[0] == Now() && leaves[1] == Fixed() && leaves[2] == Relaxed();
    RelaxedOnChain();
    assert VaultOnChain(Vault(), BobEarly());
    SpendableOnChain(Vault(), lib, BobEarly());
  }

  lemma RelaxedOnChain()
    ensures LeafOnChain(Relaxed(), BobEarly()) && !LeafAllows(Relaxed(), BobEarly())
    ensures !LeafAllows(Now(), BobEarly()) && !LeafAllows(Fixed(), BobEarly())
  {
    RelaxedRungs();
    BobSigns();
    assert RungOnChain(Expanded(Relaxed()).value[1], BobEarly());
  }

  lemma BobSigns()
    ensures SignedCount([Alice()], {Bob()}) == 0 && SignedCount([Alice(), Bob()], {Bob()}) == 1
    ensures OlderOpen(66_000, BobEarly())
  {
    assert [Alice(), Bob()][1..] == [Bob()] && [Bob()][1..] == [] && [Alice()][1..] == [];
  }

  /** A request for the rung, with one coin of the vault. */
  function RungRequest(root: Hash): PsbtRequest {
    PsbtRequest([UtxoInput(Some(1), 0, 10_000, Some(VaultOutput(root)))], Some(OtherOutput(0)), 9_000, 1_000, None,
                "relaxed_1", LeafList(Vault()))
  }

  function RungTransaction(out: MultileafOutput, leaf: Script): Psbt {
    Psbt(2, 0, [FilledInput(UtxoInput(Some(1), 0, 10_000, Some(VaultOutput(out.root))), 464, Some(out), Some(leaf))],
         [TxOut(9_000, OtherOutput(0))], true)
  }

  lemma RungSelected(out: MultileafOutput)
    requires RungListed(out)
    ensures Find(out.leafScripts, "relaxed_1").Some? && FirstIndex(out.leafScripts, "relaxed_1") == 3
    ensures SelectListed(out, "relaxed_1") == Ok(Selection(Some(out.leafScripts[3].1), 0, Some(66_000)))
  {
    assert "relaxed_0"[8] != "relaxed_1"[8];
    FindSkips(out.leafScripts, "relaxed_1");
    FindSkips(out.leafScripts[1..], "relaxed_1");
    FindSkips(out.leafScripts[2..], "relaxed_1");
    LookupsAgree(out.leafScripts, out.leafUnlocks, "relaxed_1");
  }

  /** An entry under another id is passed over. */
  lemma FindSkips<T>(table: seq<(string, T)>, id: string)
    requires |table| > 1 && table[0].0 != id
    ensures Find(table, id) == Find(table[1..], id)
    ensures Find(table, id).Some? ==> FirstIndex(table, id) == 1 + FirstIndex(table[1..], id)
  {
  }

  /** Whatever vault selects the rung this way, the builder makes this transaction. */
  lemma RungBuilt(out: MultileafOutput, leaf: Script, lib: Library)
    requires FullOutput(LeafList(Vault()), lib) == Ok(Some(out))
    requires SelectListed(out, "relaxed_1") == Ok(Selection(Some(leaf), 0, Some(66_000)))
    ensures Built(RungRequest(out.root), lib, RungTransaction(out, leaf))
  {
    var req, psbt := RungRequest(out.root), RungTransaction(out, leaf);
    RungOutputs(out.root);
    assert SequenceFor(Some(66_000)) == 464;
    CoinFilled(out, leaf);
  }

  lemma CoinFilled(out: MultileafOutput, leaf: Script)
    ensures FirstProblem(RungRequest(out.root).inputs, Some(out)).None?
    ensures Filled(RungRequest(out.root).inputs, RungTransaction(out, leaf).inputs, 464, Some(out), Some(leaf))
  {
  }

  predicate RungListed(out: MultileafOutput) {
    && |out.leafScripts| == |out.leafUnlocks| == 4 && TablesMatch(out)
    && out.leafScripts[0].0 == "now" && out.leafScripts[1].0 == "fixed"
    && out.leafScripts[2].0 == "relaxed_0" && out.leafScripts[3].0 == "relaxed_1"
    && out.leafUnlocks[3] == ("relaxed_1", OlderThan(66_000))
  }

  /** The transaction the builder makes for that rung: it carries sequence 464 and not
      66,000, its script's opcode passes, and it can confirm while the rung is closed. */
  lemma TruncatedTransaction(lib: Library) returns (req: PsbtRequest, psbt: Psbt)
    requires Compiled(Vault(), lib).Ok? && RungListed(Compiled(Vault(), lib).value)
    ensures req.params == LeafList(Vault()) && Built(req, lib, psbt) && SpentLeaf(req, lib) == 3
    ensures |psbt.inputs| == 1 && psbt.inputs[0].sequence == 464
    ensures ScriptTimelockPasses(Compiled(Vault(), lib).value.leafScripts[3].1.policy, psbt)
    ensures TimelocksOpen(psbt, BobEarly()) && !UnlockOpen(OlderThan(66_000), BobEarly())
  {
    var out := Compiled(Vault(), lib).value;
    RungSelected(out);
    req, psbt := RungRequest(out.root), RungTransaction(out, out.leafScripts[3].1);
    RungBuilt(out, out.leafScripts[3].1, lib);
    TruncatedLocks(out, out.leafScripts[3].1);
    LeafListStamping(req, lib, psbt);
  }

  lemma TruncatedLocks(out: MultileafOutput, leaf: Script)
    ensures !TimeBit(66_000) && !UnlockOpen(OlderThan(66_000), BobEarly())
    ensures TimelocksOpen(RungTransaction(out, leaf), BobEarly())
  {
  }

  lemma RungOutputs(root: Hash)
    ensures Outputs(RungRequest(root)) == Ok([TxOut(9_000, OtherOutput(0))])
  {
    assert InputTotal(RungRequest(root).inputs) == 10_000;
  }

  /** All of it at once: accepted, compiled, spent early, and built. */
  lemma RelativeRungTruncates() returns (lib: Library, req: PsbtRequest, psbt: Psbt)
    ensures Faithful(lib) && Compiled(Vault(), lib).Ok? && !PolicyInRange(Vault())
    ensures Spendable(Compiled(Vault(), lib).value.root, BobEarly()) && !VaultAllows(Vault(), BobEarly())
    ensures req.params == LeafList(Vault()) && Built(req, lib, psbt) && SpentLeaf(req, lib) == 3
    ensures |psbt.inputs| == 1 && psbt.inputs[0].sequence == 464
    ensures ScriptTimelockPasses(Compiled(Vault(), lib).value.leafScripts[3].1.policy, psbt)
    ensures TimelocksOpen(psbt, BobEarly()) && !UnlockOpen(OlderThan(66_000), BobEarly())
  {
    lib := VaultCompiles();
    OneKeySpendsEarly(lib);
    req, psbt := TruncatedTransaction(lib);
    RelaxedRungs();
    assert Vault().leaves[2] == Relaxed();
  }

  // ---- The same with an absolute operand ----

  /** Bob alone, at a height that is a time in 1989. */
  function Heir(): Leaf { Leaf("heir", [Bob()], 1, Unlock.After(600_000_000), None) }

  function TimedVault(): LeafPolicy { LeafPolicy([Now(), Heir()], [], None) }

  function HeirMoment(): Moment { Moment({Bob()}, 900_000, 0, 1_700_000_000, 0) }

  lemma TimedVaultFlattens()
    ensures VerifyLeafPolicy(TimedVault()).Ok? && Flatten(TimedVault().leaves) == Ok([Now(), Heir()])
  {
    var leaves := TimedVault().leaves;
    assert leaves[0] == Now() && leaves[1] == Heir() && Now() in leaves;
    VerifiedLeaves(leaves);
    SingleFlatten(Heir());
    assert leaves[1..] == [Heir()];
    assert [Now()] + [Heir()] == [Now(), Heir()];
  }

  lemma HeirOnChain()
    ensures LeafOnChain(Heir(), HeirMoment()) && !LeafAllows(Heir(), HeirMoment()) && !LeafAllows(Now(), HeirMoment())
  {
    BobSigns();
    assert [Bob()][1..] == [] && SignedCount([Bob()], {Bob()}) == 1;
    assert Expanded(Heir()).value[0] == Heir() && RungOnChain(Heir(), HeirMoment());
  }

  /** The compiler accepts a delay of 600,000,000, and the chain does not hold the heir
      to it: at height 900,000 he spends, though the drafted height is millennia away. */
  lemma TimeValuedHeirSpends() returns (lib: Library)
    ensures Faithful(lib) && Compiled(TimedVault(), lib).Ok? && !PolicyInRange(TimedVault())
    ensures Spendable(Compiled(TimedVault(), lib).value.root, HeirMoment()) && !VaultAllows(TimedVault(), HeirMoment())
  {
    lib := FaithfulLibraryExists();
    TimedVaultFlattens();
    NoneRejected(Conditions([Now(), Heir()], TimedVault().Consent()), lib);
    HeirEarly();
    SpendableOnChain(TimedVault(), lib, HeirMoment());
  }

  lemma HeirEarly()
    ensures VaultOnChain(TimedVault(), HeirMoment()) && !VaultAllows(TimedVault(), HeirMoment())
    ensures !PolicyInRange(TimedVault())
  {
    HeirOnChain();
    var leaves := TimedVault().leaves;
    assert leaves[0] == Now() && leaves[1] == Heir() && Heir() in leaves;
  }
}
