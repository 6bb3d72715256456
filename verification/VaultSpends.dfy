/** Spends built from a stored leaf-list row, over the whole life of the vault:
    drafted, edited, compiled once, then rebuilt from storage for every spend. */
module VaultSpends {
  import opened Wrappers
  import opened SpendPolicy
  import opened Consensus
  import opened Taproot
  import opened LeafPolicies
  import opened LeafCompiler
  import opened LeafMeaning
  import opened PsbtBinary
  import L = Lifecycle

  /** The policy a spend forwards: the leaves as stored, consent only with keys and a quorum. */
  function ForwardedPolicy(row: L.Row): Option<LeafPolicy> {
    var gated := row.consentKeys != [] && row.consentQuorum.Some?;
    L.ParseLeafPolicy(row.leaves, if gated then row.consentKeys else [], if gated then row.consentQuorum else None)
  }

  /** A spend request for the row: coins found at its address, change sent back to it. */
  ghost predicate SpendOf(row: L.Row, req: PsbtRequest) {
    && row.address.Some? && ForwardedPolicy(row).Some?
    && req.params == LeafList(ForwardedPolicy(row).value)
    && req.changeAddress == Some(VaultOutput(row.address.value.root))
    && forall i :: 0 <= i < |req.inputs| ==>
         req.inputs[i].txid.Some? && req.inputs[i].script == Some(VaultOutput(row.address.value.root))
  }

  lemma RebuiltAtAddress(row: L.Row, lib: Library)
    requires L.Consistent(row, lib) && row.address.Some?
    ensures ForwardedPolicy(row).Some? && Compiled(ForwardedPolicy(row).value, lib).Ok?
    ensures Compiled(ForwardedPolicy(row).value, lib).value.root == row.address.value.root
  {
  }

  lemma {:induction false} OwnCoinsPass(inputs: seq<UtxoInput>, out: MultileafOutput)
    requires forall i :: 0 <= i < |inputs| ==> inputs[i].script == Some(VaultOutput(out.root))
    ensures FirstProblem(inputs, Some(out)).None?
  {
    if inputs != [] { OwnCoinsPass(inputs[1..], out); }
  }

  /** What can still go wrong with a spend of one's own coins from one's own row. */
  predicate CallersFault(error: PsbtError) {
    error in {NoInputs, SumOverflow, AmountOverflow, Insufficient, BadDestination, UnknownPath}
  }

  /** The first leaf listed under the path opens at a time and not at a height. */
  predicate PathIsTime(out: MultileafOutput, path: string)
    requires TablesMatch(out)
  {
    Find(out.leafScripts, path).Some?
    && var unlock := out.leafUnlocks[FirstIndex(out.leafScripts, path)].1; unlock.After? && !UnlockInRange(unlock)
  }

  /** After any run of edits, compilations and spends, a spend built from the row is
      never refused because the stored policy fails to rebuild or rebuilds to
      another address. What is left is the caller's own mistakes, and one fault of the
      stored vault: a leaf that opens at a time can never be spent through this builder. */
  lemma StoredPolicyAlwaysSpends(row: L.Row, events: seq<L.Event>, req: PsbtRequest, lib: Library, error: PsbtError)
    requires L.Consistent(row, lib) && SpendOf(L.Run(row, events, lib), req)
    requires Refused(req, lib, error)
    ensures FullOutput(req.params, lib).Ok? && FullOutput(req.params, lib).value.Some?
    ensures var out := FullOutput(req.params, lib).value.value;
            && TablesMatch(out)
            && (CallersFault(error) || (error == BadLockTime && PathIsTime(out, req.path)))
            && (Outputs(req).Ok? && PathIsTime(out, req.path) ==> error == BadLockTime)
  {
    var last := L.Run(row, events, lib);
    L.EveryRunIsConsistent(row, events, lib);
    RebuiltAtAddress(last, lib);
    var policy := ForwardedPolicy(last).value;
    CompiledTablesMatch(policy, lib);
    OwnPolicySpends(req, Compiled(policy, lib).value, lib, error);
  }

  lemma OwnPolicySpends(req: PsbtRequest, out: MultileafOutput, lib: Library, error: PsbtError)
    requires FullOutput(req.params, lib) == Ok(Some(out)) && req.params.LeafList? && TablesMatch(out)
    requires req.changeAddress == Some(VaultOutput(out.root))
    requires forall i :: 0 <= i < |req.inputs| ==>
               req.inputs[i].txid.Some? && req.inputs[i].script == Some(VaultOutput(out.root))
    requires Refused(req, lib, error)
    ensures CallersFault(error) || (error == BadLockTime && PathIsTime(out, req.path))
    ensures Outputs(req).Ok? && PathIsTime(out, req.path) ==> error == BadLockTime
  {
    OwnOutputs(req, out.root);
    if Outputs(req).Ok? {
      OwnCoinsPass(req.inputs, out);
      assert SelectListed(out, req.path) == Err(error);
      SelectionErrors(out, req.path);
    }
  }

  lemma SelectionErrors(out: MultileafOutput, path: string)
    requires TablesMatch(out)
    ensures SelectListed(out, path).Err? ==> SelectListed(out, path).error in {UnknownPath, BadLockTime}
    ensures SelectListed(out, path) == Err(BadLockTime) <==> PathIsTime(out, path)
  {
    BadLockTimeExactly(out, path);
  }

  lemma OwnOutputs(req: PsbtRequest, root: Hash)
    requires req.changeAddress == Some(VaultOutput(root))
    requires forall i :: 0 <= i < |req.inputs| ==> req.inputs[i].txid.Some?
    ensures Outputs(req).Err? ==> CallersFault(Outputs(req).error)
    ensures Outputs(req).Ok? && |Outputs(req).value| == 2 ==> Outputs(req).value[1].script == VaultOutput(root)
  {
  }

  // ---- From the spent leaf back to the drafted one ----

  /** Which leaf of the list the `i`-th leaf of the tree was expanded from. */
  function Origin(leaves: seq<Leaf>, i: nat): (k: nat)
    requires Flatten(leaves).Ok? && i < |Flatten(leaves).value|
    ensures k < |leaves|
  {
    var n := |Expanded(leaves[0]).value|;
    if i < n then 0 else 1 + Origin(leaves[1..], i - n)
  }

  lemma {:induction false} OriginExpandsToIt(leaves: seq<Leaf>, i: nat)
    requires Flatten(leaves).Ok? && i < |Flatten(leaves).value|
    ensures var k := Origin(leaves, i); Expanded(leaves[k]).Ok? && Flatten(leaves).value[i] in Expanded(leaves[k]).value
  {
    var n := |Expanded(leaves[0]).value|;
    if i >= n { OriginExpandsToIt(leaves[1..], i - n); }
  }

  /** Consent aside, a spend rebuilds the leaves that were compiled. */
  lemma ForwardedLeaves(row: L.Row)
    requires ForwardedPolicy(row).Some?
    ensures L.ParseLeaves(row.leaves) == Some(ForwardedPolicy(row).value.leaves)
  {
  }

  /** A rung of a delayed leaf keeps the delay. */
  lemma DelayedRung(draft: L.Row, tip: Option<nat>, lib: Library, leaves: seq<Leaf>, i: nat)
    requires L.CompileStep(draft, tip, lib).Ok?
    requires L.ParseLeaves(L.CompileStep(draft, tip, lib).value.leaves) == Some(leaves)
    requires Flatten(leaves).Ok? && i < |Flatten(leaves).value|
    ensures |leaves| == |draft.leaves|
    ensures L.DelayedLeaf(draft.leaves[Origin(leaves, i)]) ==>
              var rung := Flatten(leaves).value[i];
              tip.Some? && rung.unlock.After? && rung.unlock.blocks >= tip.value + MIN_RECOVERY_BLOCKS
  {
    var k := Origin(leaves, i);
    if L.DelayedLeaf(draft.leaves[k]) {
      L.CompiledDelaysHold(draft, tip, lib, k);
      L.ParsedLeafAt(L.CompileStep(draft, tip, lib).value.leaves, k);
      OriginExpandsToIt(leaves, i);
    }
  }

  /** The delay promise, end to end. Whatever happened between drafting a vault and
      spending from it, a transaction built on a path whose leaf was drafted `after`
      a nonzero number of blocks carries a lock time at least 26,000 blocks past
      the tip the vault was compiled at, and cannot confirm before that height. */
  lemma DraftedDelaysReachTheTransaction(row: L.Row, events: seq<L.Event>, req: PsbtRequest, lib: Library, psbt: Psbt)
    returns (n: nat, k: nat)
    requires row.status.Draft? && L.Consistent(row, lib)
    requires SpendOf(L.Run(row, events, lib), req) && Built(req, lib, psbt)
    ensures n < |events| && L.Compiles(L.RowBefore(row, events, n, lib), events[n], lib)
    ensures var draft, tip := L.RowBefore(row, events, n, lib), events[n].tip;
            && k == Origin(req.params.leafPolicy.leaves, SpentLeaf(req, lib)) && k < |draft.leaves|
            && (L.DelayedLeaf(draft.leaves[k]) ==>
                  && tip.Some? && psbt.lockTime >= tip.value + MIN_RECOVERY_BLOCKS
                  && forall m :: TimelocksOpen(psbt, m) ==> m.height >= tip.value + MIN_RECOVERY_BLOCKS)
  {
    var last := L.Run(row, events, lib);
    L.EveryRunIsConsistent(row, events, lib);
    n := L.CompiledOnceFrom(row, events, lib);
    ForwardedLeaves(last);
    SpentUnlock(req, lib, psbt);
    k := Origin(req.params.leafPolicy.leaves, SpentLeaf(req, lib));
    DelayedRung(L.RowBefore(row, events, n, lib), events[n].tip, lib, req.params.leafPolicy.leaves,
                SpentLeaf(req, lib));
  }

  /** An absolute leaf's height is the transaction's lock time. */
  lemma SpentUnlock(req: PsbtRequest, lib: Library, psbt: Psbt)
    requires Built(req, lib, psbt) && req.params.LeafList?
    ensures Flatten(req.params.leafPolicy.leaves).Ok? &&
            SpentLeaf(req, lib) < |Flatten(req.params.leafPolicy.leaves).value|
    ensures var leaf := Flatten(req.params.leafPolicy.leaves).value[SpentLeaf(req, lib)];
            leaf.unlock.After? ==> psbt.lockTime == leaf.unlock.blocks < LOCKTIME_THRESHOLD
  {
    var out := Compiled(req.params.leafPolicy, lib).value;
    CompiledTablesMatch(req.params.leafPolicy, lib);
    BuiltCarriesSelection(req, lib, psbt, out);
    SelectedTogether(out, req.path);
    var leaf, consent := CompiledLeaf(req.params.leafPolicy, lib, SpentLeaf(req, lib));
  }
}
