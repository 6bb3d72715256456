/** The request layer's own views of a vault, used for display and fee sizing,
    against what the compiler builds. */
module VaultShape {
  import opened Wrappers
  import opened SpendPolicy
  import opened LeafPolicies
  import opened LeafCompiler
  import opened LeafMeaning
  import opened DynastyPolicies
  import opened Refinement
  import opened Bloc

  /** One listed spending path. */
  datatype PathView = PathView(id: string, quorum: nat, keys: KeyList, unlock: Unlock)

  /** The listing of a named vault: on a verified policy, exactly the leaves the
      compiler compiles, in tree order unless there is a backup. */
  method GetSpendingPaths(p: DynastyPolicy) returns (paths: seq<PathView>)
    ensures paths == SpendingPaths(p)
    ensures Verify(p).Ok? ==> multiset(AsLeaves(paths)) == multiset(Translate(p).leaves)
    ensures Verify(p).Ok? && !p.HasBackup() ==> AsLeaves(paths) == Translate(p).leaves
  {
    paths := PushPaths(p);
    if Verify(p).Ok? { ListingMatchesCompiler(p); }
  }

  /** Built up path by path. */
  method PushPaths(p: DynastyPolicy) returns (paths: seq<PathView>)
    ensures paths == SpendingPaths(p)
  {
    paths := [PathView("founders_now", p.founderQuorum, p.founderKeys, Immediate)];
    if p.recoveryAfter > 0 {
      paths := paths + [PathView("recovery", p.recoveryQuorum.GetOr(p.founderQuorum), p.founderKeys,
                                 Unlock.After(p.recoveryAfter))];
    }
    if p.heirKeys != [] && p.inheritanceAfter > 0 {
      paths := paths + [PathView("inheritance", p.heirQuorum, p.heirKeys, Unlock.After(p.inheritanceAfter))];
    }
    if p.backupKeys != [] && p.backupQuorum.Some? {
      paths := paths + [PathView("backup", p.backupQuorum.value, p.backupKeys, Immediate)];
    }
    if p.secondHeirKeys != [] && p.secondHeirQuorum.Some? && p.secondInheritanceAfter.Some? {
      paths := paths + [PathView("second_inheritance", p.secondHeirQuorum.value, p.secondHeirKeys,
                                 Unlock.After(p.secondInheritanceAfter.value))];
    }
  }

  function FoundersView(p: DynastyPolicy): PathView {
    PathView("founders_now", p.founderQuorum, p.founderKeys, Immediate)
  }

  function RecoveryView(p: DynastyPolicy): seq<PathView> {
    if p.recoveryAfter > 0 then
      [PathView("recovery", p.recoveryQuorum.GetOr(p.founderQuorum), p.founderKeys, Unlock.After(p.recoveryAfter))]
    else []
  }

  function HeirsView(p: DynastyPolicy): seq<PathView> {
    if p.heirKeys != [] && p.inheritanceAfter > 0 then
      [PathView("inheritance", p.heirQuorum, p.heirKeys, Unlock.After(p.inheritanceAfter))]
    else []
  }

  function BackupView(p: DynastyPolicy): seq<PathView> {
    if p.HasBackup() then [PathView("backup", p.backupQuorum.value, p.backupKeys, Immediate)] else []
  }

  function SecondHeirsView(p: DynastyPolicy): seq<PathView> {
    if p.HasSecondInheritance() then
      [PathView("second_inheritance", p.secondHeirQuorum.value, p.secondHeirKeys,
                Unlock.After(p.secondInheritanceAfter.value))]
    else []
  }

  function SpendingPaths(p: DynastyPolicy): seq<PathView> {
    [FoundersView(p)] + RecoveryView(p) + HeirsView(p) + BackupView(p) + SecondHeirsView(p)
  }

  /** The leaf a listed path describes. */
  function AsLeaf(view: PathView): Leaf { Leaf(view.id, view.keys, view.quorum, view.unlock, None) }

  function AsLeaves(views: seq<PathView>): seq<Leaf> {
    if views == [] then [] else [AsLeaf(views[0])] + AsLeaves(views[1..])
  }

  lemma {:induction false} AsLeavesConcat(xs: seq<PathView>, ys: seq<PathView>)
    ensures AsLeaves(xs + ys) == AsLeaves(xs) + AsLeaves(ys)
  {
    if xs == [] {
      assert xs + ys == ys;
    } else {
      assert (xs + ys)[1..] == xs[1..] + ys;
      AsLeavesConcat(xs[1..], ys);
    }
  }

  /** On a verified named policy the listing holds exactly the leaves the compiler
      compiles, with their ids, quorums, keys and unlock heights; only where the
      backup sits in the order differs, and consent is not shown. */
  lemma ListingMatchesCompiler(p: DynastyPolicy)
    requires Verify(p).Ok?
    ensures multiset(AsLeaves(SpendingPaths(p))) == multiset(Translate(p).leaves)
    ensures !p.HasBackup() ==> AsLeaves(SpendingPaths(p)) == Translate(p).leaves
  {
    ListedLeaves(p);
    ListedFallbacks(p);
    Reordered([FounderLeaf(p)], AsLeaves(RecoveryView(p)), AsLeaves(HeirsView(p)), AsLeaves(BackupView(p)),
              AsLeaves(SecondHeirsView(p)));
  }

  lemma ListedLeaves(p: DynastyPolicy)
    ensures AsLeaves(SpendingPaths(p)) ==
            [FounderLeaf(p)] + AsLeaves(RecoveryView(p)) + AsLeaves(HeirsView(p)) + AsLeaves(BackupView(p)) +
                AsLeaves(SecondHeirsView(p))
  {
    var founders := [FoundersView(p)];
    AsLeavesConcat(founders + RecoveryView(p) + HeirsView(p) + BackupView(p), SecondHeirsView(p));
    AsLeavesConcat(founders + RecoveryView(p) + HeirsView(p), BackupView(p));
    AsLeavesConcat(founders + RecoveryView(p), HeirsView(p));
    AsLeavesConcat(founders, RecoveryView(p));
    SingleView(FoundersView(p));
  }

  lemma SingleView(view: PathView)
    ensures AsLeaves([view]) == [AsLeaf(view)]
  {
  }

  lemma ListedFallbacks(p: DynastyPolicy)
    requires Verify(p).Ok?
    ensures AsLeaves(RecoveryView(p)) + AsLeaves(BackupView(p)) == MiddleLeaf(p)
    ensures AsLeaves(HeirsView(p)) + AsLeaves(SecondHeirsView(p)) == InheritanceLeaf(p) + SecondInheritanceLeaf(p)
    ensures BackupView(p) == [] <==> !p.HasBackup()
  {
    if RecoveryView(p) != [] { SingleView(RecoveryView(p)[0]); }
    if BackupView(p) != [] { SingleView(BackupView(p)[0]); }
    if HeirsView(p) != [] { SingleView(HeirsView(p)[0]); }
    if SecondHeirsView(p) != [] { SingleView(SecondHeirsView(p)[0]); }
  }

  lemma Reordered<T>(a: seq<T>, b: seq<T>, c: seq<T>, d: seq<T>, e: seq<T>)
    ensures multiset(a + b + c + d + e) == multiset(a + ((b + d) + (c + e)))
    ensures d == [] ==> a + b + c + d + e == a + ((b + d) + (c + e))
  {
    assert multiset(a + b + c + d + e) == multiset(a) + multiset(b) + multiset(c) + multiset(d) + multiset(e);
    assert multiset(a + ((b + d) + (c + e))) == multiset(a) + (multiset(b) + multiset(d) + (multiset(c) + multiset(e)));
  }

  /** Whatever the policy, verified or not, a cohort is listed exactly if it has keys and what
      its path needs: the heirs and the founders' recovery a delay, the others a quorum. */
  lemma ListedCohortsExactly(p: DynastyPolicy)
    ensures var paths := SpendingPaths(p);
            && paths[0] == PathView("founders_now", p.founderQuorum, p.founderKeys, Immediate)
            && (Lists(paths, "recovery") <==> p.recoveryAfter > 0)
            && (Lists(paths, "inheritance") <==> p.heirKeys != [] && p.inheritanceAfter > 0)
            && (Lists(paths, "backup") <==> p.backupKeys != [] && p.backupQuorum.Some?)
            && (Lists(paths, "second_inheritance") <==>
                  p.secondHeirKeys != [] && p.secondHeirQuorum.Some? && p.secondInheritanceAfter.Some?)
  {
    var paths := SpendingPaths(p);
    var heirs := 1 + |RecoveryView(p)|;
    var backup := heirs + |HeirsView(p)|;
    var second := backup + |BackupView(p)|;
    assert "recovery"[0] == 'r' && "inheritance"[0] == 'i' && "backup"[0] == 'b' && "second_inheritance"[0] == 's';
    if RecoveryView(p) != [] { assert paths[1] == RecoveryView(p)[0]; }
    if HeirsView(p) != [] { assert paths[heirs] == HeirsView(p)[0]; }
    if BackupView(p) != [] { assert paths[backup] == BackupView(p)[0]; }
    if SecondHeirsView(p) != [] { assert paths[second] == SecondHeirsView(p)[0]; }
  }

  predicate Lists(paths: seq<PathView>, id: string) { exists i :: 0 <= i < |paths| && paths[i].id == id }

  // ---- The leaf-list listing ----

  /** The ids listed for a leaf-list vault: one per stored leaf. */
  function ListedIds(leaves: seq<Leaf>): (ids: seq<string>)
    ensures |ids| == |leaves|
  {
    if leaves == [] then [] else [leaves[0].id] + ListedIds(leaves[1..])
  }

  lemma {:induction false} ListedIdsConcat(xs: seq<Leaf>, ys: seq<Leaf>)
    ensures ListedIds(xs + ys) == ListedIds(xs) + ListedIds(ys)
  {
    if xs == [] {
      assert xs + ys == ys;
    } else {
      assert (xs + ys)[1..] == xs[1..] + ys;
      ListedIdsConcat(xs[1..], ys);
    }
  }

  /** A decaying leaf never keeps its id: its rungs carry a number. */
  lemma DecayRenames(leaf: Leaf)
    requires Expanded(leaf).Ok?
    ensures Expanded(leaf).value != []
    ensures Expanded(leaf).value[0].id == leaf.id <==> leaf.decay.None?
    ensures leaf.decay.None? ==> Expanded(leaf).value == [leaf]
  {
    if leaf.decay.Some? {
      RungHeightMonotone(leaf.unlock.blocks, leaf.decay.value.stepBlocks, 0,
                         leaf.quorum - leaf.decay.value.floorQuorum);
      assert Expanded(leaf).value[0] == Rung(leaf, 0);
      assert |Rung(leaf, 0).id| > |leaf.id|;
    }
  }

  lemma {:induction false} ExpandedIds(leaves: seq<Leaf>)
    requires Flatten(leaves).Ok?
    ensures |Flatten(leaves).value| >= |leaves|
    ensures ListedIds(Flatten(leaves).value) == ListedIds(leaves) <==>
            forall i :: 0 <= i < |leaves| ==> leaves[i].decay.None?
  {
    if leaves != [] {
      var rungs, rest := Expanded(leaves[0]).value, Flatten(leaves[1..]).value;
      DecayRenames(leaves[0]);
      ExpandedIds(leaves[1..]);
      ListedIdsConcat(rungs, rest);
      var all := ListedIds(rungs) + ListedIds(rest);
      assert all[0] == rungs[0].id;
      if all == ListedIds(leaves) {
        assert |rungs| == 1;
        assert ListedIds(rest) == all[1..] == ListedIds(leaves)[1..] == ListedIds(leaves[1..]);
      }
      assert forall i :: 0 <= i < |leaves[1..]| ==> leaves[1..][i] == leaves[i + 1];
    }
  }

  /** The ids a vault lists are, in order, the ids its scripts are compiled under
      exactly when no leaf decays: a decaying leaf's scripts carry rung numbers. */
  lemma ListedIdsAreCompiledExactly(policy: LeafPolicy, lib: Library)
    requires Compiled(policy, lib).Ok?
    ensures CompiledIds(Compiled(policy, lib).value.leafScripts) == ListedIds(policy.leaves) <==>
            forall i :: 0 <= i < |policy.leaves| ==> policy.leaves[i].decay.None?
  {
    var flat := Flatten(policy.leaves).value;
    var scripts := Compiled(policy, lib).value.leafScripts;
    ExpandedIds(policy.leaves);
    SameIds(flat, scripts);
  }

  function CompiledIds<T>(table: seq<(string, T)>): (ids: seq<string>)
    ensures |ids| == |table|
    ensures forall i :: 0 <= i < |ids| ==> ids[i] == table[i].0
  {
    seq(|table|, i requires 0 <= i < |table| => table[i].0)
  }

  lemma {:induction false} ListedIdAt(leaves: seq<Leaf>, i: nat)
    requires i < |leaves|
    ensures ListedIds(leaves)[i] == leaves[i].id
  {
    if i > 0 { ListedIdAt(leaves[1..], i - 1); }
  }

  lemma {:induction false} SameIds<T>(flat: seq<Leaf>, table: seq<(string, T)>)
    requires |flat| == |table| && forall i :: 0 <= i < |flat| ==> table[i].0 == flat[i].id
    ensures CompiledIds(table) == ListedIds(flat)
  {
    forall i | 0 <= i < |flat| ensures CompiledIds(table)[i] == ListedIds(flat)[i] { ListedIdAt(flat, i); }
  }

  // ---- Leaf counts for fee sizing ----

  /** The count of a named vault's leaves is the number of compiled branches. */
  method LeafCountForTree(p: DynastyPolicy) returns (n: nat)
    ensures Verify(p).Ok? ==> n == |Branches(p)|
  {
    n := 1;
    if p.recoveryAfter > 0 {
      n := n + 1;
    } else if p.backupKeys != [] && p.backupQuorum.Some? {
      n := n + 1;
    }
    if p.heirKeys != [] { n := n + 1; }
    if p.secondHeirKeys != [] && p.secondHeirQuorum.Some? && p.secondInheritanceAfter.Some? { n := n + 1; }
  }

  /** The count of a leaf list is the size of the tree it compiles to. */
  method LeafListCountForTree(leaves: seq<Leaf>, lib: Library) returns (n: nat)
    ensures forall consentKeys, consentQuorum ::
      var r := Compiled(LeafPolicy(leaves, consentKeys, consentQuorum), lib);
      r.Ok? ==> n == |r.value.leafScripts|
  {
    n := 0;
    for i := 0 to |leaves|
      invariant n == TreeSize(leaves[..i])
    {
      assert leaves[..i + 1] == leaves[..i] + [leaves[i]];
      TreeSizeAppend(leaves[..i], leaves[i]);
      var leaf := leaves[i];
      if leaf.decay.Some? {
        var rungs := leaf.quorum - leaf.decay.value.floorQuorum + 1;
        n := n + if rungs > 1 then rungs else 1;
      } else {
        n := n + 1;
      }
    }
    assert leaves[..|leaves|] == leaves;
    if n < 1 { n := 1; }
    forall consentKeys, consentQuorum | Compiled(LeafPolicy(leaves, consentKeys, consentQuorum), lib).Ok?
      ensures n == |Compiled(LeafPolicy(leaves, consentKeys, consentQuorum), lib).value.leafScripts|
    {
      FlattenSucceeds(leaves);
      FlattenNonempty(leaves);
    }
  }

  lemma {:induction false} TreeSizeAppend(leaves: seq<Leaf>, leaf: Leaf)
    ensures TreeSize(leaves + [leaf]) == TreeSize(leaves) + RungCount(leaf)
  {
    if leaves == [] {
      assert leaves + [leaf] == [leaf];
    } else {
      assert (leaves + [leaf])[1..] == leaves[1..] + [leaf];
      TreeSizeAppend(leaves[1..], leaf);
    }
  }

  /** The count of a family vault's leaves is the number of its branches. */
  method LeafCountForBlocTree(p: DynastyBlocPolicy) returns (n: nat)
    ensures VerifyBloc(p).Ok? && BlocBranches(p).Ok? ==> n == |BlocBranches(p).value|
  {
    var rungs := p.kidsDecayStartQuorum - p.kidsDecayFloorQuorum + 1;
    n := 3 + if rungs > 1 then rungs else 1;
  }
}
