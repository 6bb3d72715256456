/** Script trees, the depth-first tree builder, Merkle roots and control blocks
    (BIP 341, section "Constructing and spending Taproot outputs"). */
module Taproot {
  import opened Wrappers
  import opened SpendPolicy
  import opened Consensus

  /** BIP 341's limit on the length of a Merkle path. */
  const MAX_DEPTH := 128

  datatype TapTree<T> = Tip(leaf: T) | Fork(left: TapTree<T>, right: TapTree<T>)

  function Leaves<T>(t: TapTree<T>): (s: seq<T>)
    ensures s != []
  {
    match t
    case Tip(x) => [x]
    case Fork(l, r) => Leaves(l) + Leaves(r)
  }

  function Height<T>(t: TapTree<T>): nat {
    match t
    case Tip(_) => 0
    case Fork(l, r) => 1 + if Height(l) > Height(r) then Height(l) else Height(r)
  }

  /** The leaves of `t` with their depths, in depth-first order, `t` itself sitting at depth `d`. */
  function DepthLeaves<T>(t: TapTree<T>, d: nat): (s: seq<(nat, T)>)
    ensures |s| == |Leaves(t)|
  {
    match t
    case Tip(x) => [(d, x)]
    case Fork(l, r) => DepthLeaves(l, d + 1) + DepthLeaves(r, d + 1)
  }

  /** The leaves with their depths, the root at depth 0. */
  function DepthFirst<T>(t: TapTree<T>): seq<(nat, T)> { DepthLeaves(t, 0) }

  // ---- The builder: a stack of unfinished subtrees, one slot per depth ----

  /** Adding a finished subtree at `depth`: it joins the sibling waiting at that
      depth, if any, and the pair moves one level up. */
  function Insert<T>(branch: seq<Option<TapTree<T>>>, node: TapTree<T>, depth: nat): Option<seq<Option<TapTree<T>>>>
    decreases depth
  {
    if depth > MAX_DEPTH || depth + 1 < |branch| then None
    else if |branch| == depth + 1 && branch[depth].Some? then
      if depth == 0 then None
      else Insert(branch[..depth], Fork(branch[depth].value, node), depth - 1)
    else Some(Padded(branch, depth) + [Some(node)])
  }

  function Padded<T>(branch: seq<Option<TapTree<T>>>, depth: nat): (s: seq<Option<TapTree<T>>>)
    requires |branch| <= depth + 1
    ensures |s| == depth
    ensures forall i :: 0 <= i < depth ==> s[i] == if i < |branch| then branch[i] else None
  {
    seq(depth, i requires i >= 0 => if i < |branch| then branch[i] else None)
  }

  function Feed<T>(branch: seq<Option<TapTree<T>>>, items: seq<(nat, T)>): Option<seq<Option<TapTree<T>>>>
    decreases |items|
  {
    if items == [] then Some(branch)
    else
      match Insert(branch, Tip(items[0].1), items[0].0)
      case None => None
      case Some(next) => Feed(next, items[1..])
  }

  /** A builder is complete when its one slot holds the whole tree. */
  function Finish<T>(branch: seq<Option<TapTree<T>>>): Option<TapTree<T>> {
    if |branch| == 1 then branch[0] else None
  }

  function BuildTree<T>(items: seq<(nat, T)>): Option<TapTree<T>> {
    match Feed([], items)
    case None => None
    case Some(branch) => Finish(branch)
  }

  lemma {:induction false} FeedConcat<T>(branch: seq<Option<TapTree<T>>>, xs: seq<(nat, T)>, ys: seq<(nat, T)>)
    ensures Feed(branch, xs + ys) ==
            match Feed(branch, xs) case None => None case Some(b) => Feed(b, ys)
    decreases |xs|
  {
    if xs == [] {
      assert xs + ys == ys;
    } else {
      assert (xs + ys)[0] == xs[0] && (xs + ys)[1..] == xs[1..] + ys;
      match Insert(branch, Tip(xs[0].1), xs[0].0)
      case None =>
      case Some(next) => FeedConcat(next, xs[1..], ys);
    }
  }

  /** Feeding the leaves of a subtree one by one is inserting the subtree whole. */
  lemma {:induction false} FeedSubtree<T>(branch: seq<Option<TapTree<T>>>, t: TapTree<T>, d: nat)
    requires |branch| <= d + 1 && d + Height(t) <= MAX_DEPTH
    ensures Feed(branch, DepthLeaves(t, d)) == Insert(branch, t, d)
    decreases t
  {
    match t
    case Tip(x) =>
      var items := DepthLeaves(t, d);
      assert items == [(d, x)] && items[1..] == [];
    case Fork(l, r) =>
      FeedConcat(branch, DepthLeaves(l, d + 1), DepthLeaves(r, d + 1));
      FeedSubtree(branch, l, d + 1);
      var waiting := Padded(branch, d + 1);
      var mid := waiting + [Some(l)];
      FeedSubtree(mid, r, d + 1);
      assert mid[..d + 1] == waiting;
      JoinSiblings(branch, waiting, Fork(l, r), d);
  }

  lemma JoinSiblings<T>(branch: seq<Option<TapTree<T>>>, waiting: seq<Option<TapTree<T>>>, node: TapTree<T>, d: nat)
    requires |branch| <= d + 1 && waiting == Padded(branch, d + 1)
    ensures Insert(waiting, node, d) == Insert(branch, node, d)
  {
    if |branch| == d + 1 {
      assert waiting == branch;
    } else {
      assert waiting[d] == None;
      assert Padded(waiting, d) == Padded(branch, d);
    }
  }

  /** Completeness of the builder's contract: every tree within the depth limit
      is rebuilt from its depth-first leaf list. */
  lemma BuilderRebuildsEveryTree<T>(t: TapTree<T>)
    requires Height(t) <= MAX_DEPTH
    ensures BuildTree(DepthFirst(t)) == Some(t)
  {
    var none: seq<Option<TapTree<T>>>, d: nat := [], 0;
    FeedSubtree(none, t, d);
    assert Padded(none, d) + [Some(t)] == [Some(t)];
  }

  function Contents<T>(branch: seq<Option<TapTree<T>>>): seq<(nat, T)> {
    if branch == [] then []
    else
      var last := |branch| - 1;
      Contents(branch[..last]) + if branch[last].Some? then DepthLeaves(branch[last].value, last) else []
  }

  lemma {:induction false} PaddingAddsNothing<T>(branch: seq<Option<TapTree<T>>>, depth: nat)
    requires |branch| <= depth || (|branch| == depth + 1 && branch[depth] == None)
    ensures Contents(Padded(branch, depth)) == Contents(branch)
    decreases depth
  {
    var p := Padded(branch, depth);
    if |branch| == depth {
      assert p == branch;
    } else if |branch| == depth + 1 {
      assert p == branch[..depth];
    } else {
      PaddingAddsNothing(branch, depth - 1);
      assert p[..depth - 1] == Padded(branch, depth - 1);
    }
  }

  lemma ContentsPush<T>(branch: seq<Option<TapTree<T>>>, node: TapTree<T>)
    ensures Contents(branch + [Some(node)]) == Contents(branch) + DepthLeaves(node, |branch|)
  {
    assert (branch + [Some(node)])[..|branch|] == branch;
  }

  lemma Associative<T>(a: seq<T>, b: seq<T>, c: seq<T>)
    ensures (a + b) + c == a + (b + c)
  {
  }

  lemma {:induction false} InsertKeepsContents<T>(branch: seq<Option<TapTree<T>>>, node: TapTree<T>, depth: nat)
    requires Insert(branch, node, depth).Some?
    ensures Contents(Insert(branch, node, depth).value) == Contents(branch) + DepthLeaves(node, depth)
    decreases depth
  {
    if |branch| == depth + 1 && branch[depth].Some? {
      var lower, sibling := branch[..depth], branch[depth].value;
      InsertKeepsContents(lower, Fork(sibling, node), depth - 1);
      ContentsPush(lower, sibling);
      assert lower + [Some(sibling)] == branch;
      Associative(Contents(lower), DepthLeaves(sibling, depth), DepthLeaves(node, depth));
    } else {
      PaddingAddsNothing(branch, depth);
      ContentsPush(Padded(branch, depth), node);
    }
  }

  lemma {:induction false} FeedKeepsContents<T>(branch: seq<Option<TapTree<T>>>, items: seq<(nat, T)>)
    requires Feed(branch, items).Some?
    ensures Contents(Feed(branch, items).value) == Contents(branch) + items
    decreases |items|
  {
    if items != [] {
      var next := Insert(branch, Tip(items[0].1), items[0].0).value;
      InsertKeepsContents(branch, Tip(items[0].1), items[0].0);
      FeedKeepsContents(next, items[1..]);
      assert [items[0]] + items[1..] == items;
    } else {
      assert Contents(branch) + items == Contents(branch);
    }
  }

  /** Soundness of the builder's contract: whatever tree completes has exactly
      the fed leaves, in order, at the fed depths. */
  lemma BuilderIsSound<T>(items: seq<(nat, T)>, t: TapTree<T>)
    requires BuildTree(items) == Some(t)
    ensures DepthFirst(t) == items
  {
    FeedKeepsContents([], items);
    var branch := Feed([], items).value;
    assert branch == [Some(t)] && branch[..0] == [];
    var none: seq<Option<TapTree<T>>> := [];
    assert Contents(none) == [];
    assert Contents(branch) == [] + DepthLeaves(t, 0);
    assert Contents(none) + items == items;
  }

  /** A leaf deeper than the limit is refused wherever it appears. */
  lemma {:induction false} FeedRefusesDeepLeaf<T>(branch: seq<Option<TapTree<T>>>, items: seq<(nat, T)>, i: nat)
    requires i < |items| && items[i].0 > MAX_DEPTH
    ensures Feed(branch, items) == None
    decreases |items|
  {
    if i > 0 {
      match Insert(branch, Tip(items[0].1), items[0].0)
      case None =>
      case Some(next) => FeedRefusesDeepLeaf(next, items[1..], i - 1);
    }
  }

  /** The builder object; `AddLeaf` works slot by slot the way the function `Insert` says. */
  class TaprootBuilder<T> {
    var branch: seq<Option<TapTree<T>>>

    constructor ()
      ensures branch == []
    {
      branch := [];
    }

    method AddLeaf(depth: nat, leaf: T) returns (ok: bool)
      modifies this
      ensures ok == Insert(old(branch), Tip(leaf), depth).Some?
      ensures branch == Insert(old(branch), Tip(leaf), depth).GetOr(old(branch))
    {
      if depth > MAX_DEPTH || depth + 1 < |branch| { return false; }
      var slots, node := branch, Tip(leaf);
      var d: nat := depth;
      while |slots| == d + 1 && slots[d].Some?
        invariant 0 <= d <= MAX_DEPTH && |slots| <= d + 1
        invariant Insert(slots, node, d) == Insert(branch, Tip(leaf), depth)
        decreases d
      {
        if d == 0 { return false; }
        slots, node, d := slots[..d], Fork(slots[d].value, node), d - 1;
      }
      branch := Padded(slots, d) + [Some(node)];
      return true;
    }
  }

  // ---- The right-leaning shape every vault uses ----

  /** `{L1,{L2,{...{Ln-1,Ln}}}}` */
  function RightComb<T>(xs: seq<T>): TapTree<T>
    requires xs != []
  {
    if |xs| == 1 then Tip(xs[0]) else Fork(Tip(xs[0]), RightComb(xs[1..]))
  }

  /** The depth given to leaf `i` of `n`, with the source's cast to one byte. */
  function DepthAt(i: nat, n: nat): nat
    requires i < n
  {
    if n == 1 then 0 else if i + 1 < n then (i + 1) % 256 else (n - 1) % 256
  }

  function Schedule<T>(xs: seq<T>): (s: seq<(nat, T)>)
    ensures |s| == |xs|
    ensures forall i :: 0 <= i < |xs| ==> s[i] == (DepthAt(i, |xs|), xs[i])
  {
    seq(|xs|, i requires 0 <= i < |xs| => (DepthAt(i, |xs|), xs[i]))
  }

  lemma {:induction false} RightCombShape<T>(xs: seq<T>)
    requires xs != []
    ensures Height(RightComb(xs)) == |xs| - 1 && Leaves(RightComb(xs)) == xs
  {
    if |xs| > 1 {
      RightCombShape(xs[1..]);
      assert [xs[0]] + xs[1..] == xs;
    }
  }

  lemma {:induction false} RightCombDepths<T>(xs: seq<T>, d: nat, i: nat)
    requires i < |xs|
    ensures |DepthLeaves(RightComb(xs), d)| == |xs|
    ensures DepthLeaves(RightComb(xs), d)[i] == (d + if i + 1 < |xs| then i + 1 else |xs| - 1, xs[i])
  {
    RightCombShape(xs);
    if |xs| > 1 {
      var rest := DepthLeaves(RightComb(xs[1..]), d + 1);
      assert DepthLeaves(RightComb(xs), d) == [(d + 1, xs[0])] + rest;
      if i > 0 { RightCombDepths(xs[1..], d + 1, i - 1); }
    }
  }

  /** Up to 256 leaves the byte cast loses nothing. */
  lemma DepthAtFits(i: nat, n: nat)
    requires i < n <= 256
    ensures DepthAt(i, n) == if i + 1 < n then i + 1 else n - 1
  {
  }

  /** The same list of leaves with every depth moved down by `d`. */
  function Deepened<T>(items: seq<(nat, T)>, d: nat): (s: seq<(nat, T)>)
    ensures |s| == |items|
    ensures forall i :: 0 <= i < |s| ==> s[i] == (d + items[i].0, items[i].1)
  {
    seq(|items|, i requires 0 <= i < |items| => (d + items[i].0, items[i].1))
  }

  /** Wherever the right-leaning tree hangs, the schedule is its depth-first listing. */
  lemma ScheduleIsDepthFirst<T>(xs: seq<T>, d: nat)
    requires xs != [] && |xs| <= 256
    ensures DepthLeaves(RightComb(xs), d) == Deepened(Schedule(xs), d)
  {
    var s, t := DepthLeaves(RightComb(xs), d), Deepened(Schedule(xs), d);
    RightCombDepths(xs, d, 0);
    forall i | 0 <= i < |xs| ensures s[i] == t[i] {
      RightCombDepths(xs, d, i);
      DepthAtFits(i, |xs|);
      assert t[i] == (d + DepthAt(i, |xs|), xs[i]);
    }
  }

  lemma DeepenedByNothing<T>(items: seq<(nat, T)>)
    ensures Deepened(items, 0) == items
  {
  }

  lemma ShortScheduleBuilds<T>(xs: seq<T>)
    requires 1 <= |xs| <= MAX_DEPTH + 1
    ensures BuildTree(Schedule(xs)) == Some(RightComb(xs))
  {
    RightCombShape(xs);
    ScheduleIsDepthFirst(xs, 0);
    DeepenedByNothing(Schedule(xs));
    BuilderRebuildsEveryTree(RightComb(xs));
  }

  lemma FeedOne<T>(branch: seq<Option<TapTree<T>>>, item: (nat, T))
    ensures Feed(branch, [item]) == Insert(branch, Tip(item.1), item.0)
  {
    if Insert(branch, Tip(item.1), item.0).Some? {
      assert Feed(Insert(branch, Tip(item.1), item.0).value, [item][1..]) == Insert(branch, Tip(item.1), item.0);
    }
  }

  /** Every leaf but the last opens a slot one deeper, up to the depth limit. */
  lemma {:induction false} SchedulePrefixFeeds<T>(xs: seq<T>, k: nat)
    requires 1 <= k <= MAX_DEPTH && k < |xs|
    ensures Feed([], Schedule(xs)[..k]).Some? && |Feed([], Schedule(xs)[..k]).value| == k + 1
  {
    var items, none := Schedule(xs), [];
    assert items[..k] == items[..k - 1] + [items[k - 1]];
    FeedConcat(none, items[..k - 1], [items[k - 1]]);
    if k == 1 {
      assert items[..0] == [];
      FeedOne(none, items[0]);
    } else {
      SchedulePrefixFeeds(xs, k - 1);
      FeedOne(Feed(none, items[..k - 1]).value, items[k - 1]);
    }
  }

  lemma LongScheduleFails<T>(xs: seq<T>)
    requires |xs| > MAX_DEPTH + 1
    ensures BuildTree(Schedule(xs)) == None && DepthAt(MAX_DEPTH, |xs|) == MAX_DEPTH + 1
    ensures Feed([], Schedule(xs)[..MAX_DEPTH]).Some? && Feed([], Schedule(xs)[..MAX_DEPTH + 1]).None?
  {
    var i: nat := MAX_DEPTH;
    FeedRefusesDeepLeaf([], Schedule(xs), i);
    FeedRefusesDeepLeaf([], Schedule(xs)[..i + 1], i);
    SchedulePrefixFeeds(xs, i);
  }

  /** The schedule [1,2,...,n-1,n-1] (or [0]) builds the right-leaning tree for up
      to 129 leaves and is refused beyond that. With 130 leaves or more, leaves 0 to
      127 are taken and leaf 128 is refused, long before the byte cast could wrap. */
  lemma ScheduleBuildsRightComb<T>(xs: seq<T>)
    requires xs != []
    ensures |xs| <= MAX_DEPTH + 1 ==> BuildTree(Schedule(xs)) == Some(RightComb(xs))
    ensures |xs| > MAX_DEPTH + 1 ==> BuildTree(Schedule(xs)) == None && DepthAt(MAX_DEPTH, |xs|) == MAX_DEPTH + 1
    ensures |xs| > MAX_DEPTH + 1 ==>
              Feed([], Schedule(xs)[..MAX_DEPTH]).Some? && Feed([], Schedule(xs)[..MAX_DEPTH + 1]).None?
  {
    if |xs| <= MAX_DEPTH + 1 { ShortScheduleBuilds(xs); } else { LongScheduleFails(xs); }
  }

  // ---- Merkle roots and control blocks ----

  /** A compiled leaf script: an injective function of its spending condition. */
  datatype Script = Script(policy: Policy)

  /** Tagged hashes, collision-free. A branch hashes its two children in sorted
      order, so it depends on the pair and not on which side is which. */
  datatype Hash = LeafHash(script: Script) | BranchHash(children: multiset<Hash>)

  function Root(t: TapTree<Script>): Hash {
    match t
    case Tip(s) => LeafHash(s)
    case Fork(l, r) => BranchHash(multiset{Root(l), Root(r)})
  }

  /** The root recomputed from a leaf hash and the siblings on its way up. */
  function Recompute(h: Hash, path: seq<Hash>): Hash {
    if path == [] then h
    else BranchHash(multiset{Recompute(h, path[..|path| - 1]), path[|path| - 1]})
  }

  /** Consensus accepts a script-path spend of `root` revealing `s` with this path. */
  predicate Verifies(root: Hash, s: Script, path: seq<Hash>) {
    |path| <= MAX_DEPTH && Recompute(LeafHash(s), path) == root
  }

  /** The siblings met from leaf number `i` up to the root. */
  function MerklePath(t: TapTree<Script>, i: nat): seq<Hash>
    requires i < |Leaves(t)|
  {
    match t
    case Tip(_) => []
    case Fork(l, r) =>
      if i < |Leaves(l)| then MerklePath(l, i) + [Root(r)] else MerklePath(r, i - |Leaves(l)|) + [Root(l)]
  }

  lemma OneLevelUp(h: Hash, path: seq<Hash>, root: Hash, sibling: Hash)
    requires Recompute(h, path) == root
    ensures Recompute(h, path + [sibling]) == BranchHash(multiset{root, sibling})
    ensures BranchHash(multiset{root, sibling}) == BranchHash(multiset{sibling, root})
  {
    assert (path + [sibling])[..|path|] == path;
    assert multiset{root, sibling} == multiset{sibling, root};
  }

  lemma {:induction false} MerklePathRecomputes(t: TapTree<Script>, i: nat)
    requires i < |Leaves(t)|
    ensures Recompute(LeafHash(Leaves(t)[i]), MerklePath(t, i)) == Root(t)
    ensures |MerklePath(t, i)| <= Height(t)
  {
    match t
    case Tip(_) =>
    case Fork(l, r) =>
      var n := |Leaves(l)|;
      if i < n {
        MerklePathRecomputes(l, i);
        OneLevelUp(LeafHash(Leaves(l)[i]), MerklePath(l, i), Root(l), Root(r));
      } else {
        MerklePathRecomputes(r, i - n);
        OneLevelUp(LeafHash(Leaves(r)[i - n]), MerklePath(r, i - n), Root(r), Root(l));
      }
  }

  /** A leaf's Merkle path is as long as the depth it was added at. */
  lemma {:induction false} MerklePathLength(t: TapTree<Script>, i: nat, d: nat)
    requires i < |Leaves(t)|
    ensures d + |MerklePath(t, i)| == DepthLeaves(t, d)[i].0
  {
    match t
    case Tip(_) =>
    case Fork(l, r) =>
      var n := |Leaves(l)|;
      if i < n { MerklePathLength(l, i, d + 1); } else { MerklePathLength(r, i - n, d + 1); }
  }

  /** No path proves a script that is not a leaf. */
  lemma {:induction false} OnlyLeavesRecompute(t: TapTree<Script>, s: Script, path: seq<Hash>)
    requires Recompute(LeafHash(s), path) == Root(t)
    ensures s in Leaves(t)
    decreases t
  {
    match t
    case Tip(x) => if path != [] { assert false; }
    case Fork(l, r) =>
      if path == [] { assert false; }
      var below := Recompute(LeafHash(s), path[..|path| - 1]);
      assert below in multiset{Root(l), Root(r)};
      if below == Root(l) {
        OnlyLeavesRecompute(l, s, path[..|path| - 1]);
      } else {
        OnlyLeavesRecompute(r, s, path[..|path| - 1]);
      }
  }

  /** A control block exists for a script exactly when it is a leaf of the tree. */
  lemma SpendableScripts(t: TapTree<Script>, s: Script)
    requires Height(t) <= MAX_DEPTH
    ensures (exists path :: Verifies(Root(t), s, path)) <==> s in Leaves(t)
  {
    if s in Leaves(t) {
      var i :| 0 <= i < |Leaves(t)| && Leaves(t)[i] == s;
      MerklePathRecomputes(t, i);
      assert Verifies(Root(t), s, MerklePath(t, i));
    }
    if path :| Verifies(Root(t), s, path) {
      OnlyLeavesRecompute(t, s, path);
    }
  }

  /** The control block the signing data carries: the shortest path to a leaf holding `s`. */
  function ControlBlock(t: TapTree<Script>, s: Script): Option<seq<Hash>> {
    match t
    case Tip(x) => if x == s then Some([]) else None
    case Fork(l, r) =>
      match (ControlBlock(l, s), ControlBlock(r, s))
      case (None, None) => None
      case (Some(p), None) => Some(p + [Root(r)])
      case (None, Some(q)) => Some(q + [Root(l)])
      case (Some(p), Some(q)) => if |p| <= |q| then Some(p + [Root(r)]) else Some(q + [Root(l)])
  }

  lemma {:induction false} ControlBlockExists(t: TapTree<Script>, s: Script)
    ensures ControlBlock(t, s).Some? <==> s in Leaves(t)
  {
    match t
    case Tip(x) =>
    case Fork(l, r) => ControlBlockExists(l, s); ControlBlockExists(r, s);
  }

  /** The control block proves into the root and fits the depth of the tree. */
  lemma {:induction false} ControlBlockProves(t: TapTree<Script>, s: Script, path: seq<Hash>)
    requires ControlBlock(t, s) == Some(path)
    ensures Recompute(LeafHash(s), path) == Root(t) && |path| <= Height(t)
  {
    match t
    case Tip(x) =>
    case Fork(l, r) =>
      var p, q := ControlBlock(l, s), ControlBlock(r, s);
      if p.Some? && (q.None? || |p.value| <= |q.value|) {
        ControlBlockProves(l, s, p.value);
        OneLevelUp(LeafHash(s), p.value, Root(l), Root(r));
      } else {
        ControlBlockProves(r, s, q.value);
        OneLevelUp(LeafHash(s), q.value, Root(r), Root(l));
      }
  }

  /** No leaf holding the script sits above the control block's path. */
  lemma {:induction false} ControlBlockIsShortest(t: TapTree<Script>, s: Script, i: nat)
    requires i < |Leaves(t)| && Leaves(t)[i] == s
    ensures ControlBlock(t, s).Some? && |ControlBlock(t, s).value| <= |MerklePath(t, i)|
  {
    match t
    case Tip(_) =>
    case Fork(l, r) =>
      var n := |Leaves(l)|;
      if i < n { ControlBlockIsShortest(l, s, i); } else { ControlBlockIsShortest(r, s, i - n); }
  }

  /** A leaf's control block is accepted by consensus and no longer than any Merkle path to it. */
  lemma ControlBlockVerifies(t: TapTree<Script>, i: nat)
    requires i < |Leaves(t)| && Height(t) <= MAX_DEPTH
    ensures var path := ControlBlock(t, Leaves(t)[i]);
            path.Some? && Verifies(Root(t), Leaves(t)[i], path.value) && |path.value| <= |MerklePath(t, i)|
  {
    var s := Leaves(t)[i];
    ControlBlockIsShortest(t, s, i);
    ControlBlockProves(t, s, ControlBlock(t, s).value);
  }

  /** Consensus lets `m` spend the output: some script proves into the root and is
      satisfied the way the chain reads it. */
  ghost predicate Spendable(root: Hash, m: Moment) {
    exists s: Script, path: seq<Hash> :: Verifies(root, s, path) && ChainSat(s.policy, m)
  }

  function Scripts(policies: seq<Policy>): (s: seq<Script>)
    ensures |s| == |policies|
    ensures forall i :: 0 <= i < |s| ==> s[i] == Script(policies[i])
  {
    seq(|policies|, i requires 0 <= i < |policies| => Script(policies[i]))
  }

  /** The right-leaning output is spendable exactly through its leaves, and so exactly
      when the printed `or(...)` policy is satisfied on chain. */
  lemma TreeMeansNestedOr(policies: seq<Policy>, m: Moment)
    requires policies != [] && |policies| <= MAX_DEPTH + 1
    ensures Spendable(Root(RightComb(Scripts(policies))), m) <==> SomeChainSat(policies, m)
    ensures Spendable(Root(RightComb(Scripts(policies))), m) <==> ChainSat(NestOr(policies), m)
  {
    var t := RightComb(Scripts(policies));
    RightCombShape(Scripts(policies));
    NestOrOnChain(policies, m);
    if SomeChainSat(policies, m) {
      var i :| 0 <= i < |policies| && ChainSat(policies[i], m);
      SpendableScripts(t, Scripts(policies)[i]);
    }
    if s, path :| Verifies(Root(t), s, path) && ChainSat(s.policy, m) {
      SpendableScripts(t, s);
    }
  }
}
