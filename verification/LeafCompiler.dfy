/** Compiling a leaf-list policy into an output: leaf conditions, script tree,
    descriptor, and the per-leaf lookup tables the PSBT builder uses. */
module LeafCompiler {
  import opened Wrappers
  import opened SpendPolicy
  import opened Taproot
  import opened Descriptor
  import opened LeafPolicies

  /** The script library: which conditions it compiles, how it prints a compiled
      leaf, and how it reads that text back. */
  datatype Library = Library(accepts: Policy -> bool, text: Policy -> string, read: string -> Option<Policy>)

  /** What is taken for granted of the library: it reads back the leaf it
      printed, and a printed leaf is one expression. */
  ghost predicate Faithful(lib: Library) {
    forall p :: lib.accepts(p) ==> LeafText(lib.text(p)) && lib.read(lib.text(p)) == Some(p)
  }

  datatype MultileafOutput = MultileafOutput(
    tree: TapTree<Script>, root: Hash,
    founderLeaf: Script, recoveryLeaf: Option<Script>,
    inheritanceLeaf: Option<Script>, secondInheritanceLeaf: Option<Script>,
    descriptor: string, policy: Policy,
    leafScripts: seq<(string, Script)>, leafUnlocks: seq<(string, Unlock)>)

  // ---- Leaf conditions ----

  /** One leaf's condition, `consent` being the gate if this is the primary leaf. */
  function Condition(leaf: Leaf, consent: Option<Policy>): Policy {
    var thresh := Thresh(leaf.quorum, leaf.keys);
    var gated := if consent.Some? then And(thresh, consent.value) else thresh;
    match leaf.unlock
    case Immediate => gated
    case After(n) => And(Policy.After(n), gated)
    case OlderThan(n) => And(Older(n), gated)
  }

  /** The conditions of an expanded leaf list; the first immediate leaf takes the consent gate. */
  function Conditions(flat: seq<Leaf>, consent: Option<Policy>): (s: seq<Policy>)
    ensures |s| == |flat|
  {
    if flat == [] then []
    else if flat[0].unlock.Immediate? then [Condition(flat[0], consent)] + Conditions(flat[1..], None)
    else [Condition(flat[0], None)] + Conditions(flat[1..], consent)
  }

  function FirstImmediate(leaves: seq<Leaf>): (i: nat)
    ensures i <= |leaves|
    ensures i < |leaves| ==> leaves[i].unlock.Immediate?
    ensures forall j :: 0 <= j < i ==> !leaves[j].unlock.Immediate?
  {
    if leaves == [] || leaves[0].unlock.Immediate? then 0 else 1 + FirstImmediate(leaves[1..])
  }

  /** Consent gates the first immediate leaf and nothing else. */
  lemma {:induction false} ConsentGatesPrimaryOnly(flat: seq<Leaf>, consent: Option<Policy>)
    ensures forall i :: 0 <= i < |flat| ==>
              Conditions(flat, consent)[i] == Condition(flat[i], if i == FirstImmediate(flat) then consent else None)
  {
    if flat != [] {
      if flat[0].unlock.Immediate? {
        UngatedConditions(flat[1..]);
      } else {
        ConsentGatesPrimaryOnly(flat[1..], consent);
      }
      forall i | 0 <= i < |flat|
        ensures Conditions(flat, consent)[i] == Condition(flat[i], if i == FirstImmediate(flat) then consent else None)
      {
        if i > 0 { assert flat[i] == flat[1..][i - 1]; }
      }
    }
  }

  lemma {:induction false} UngatedConditions(flat: seq<Leaf>)
    ensures forall i :: 0 <= i < |flat| ==> Conditions(flat, None)[i] == Condition(flat[i], None)
  {
    if flat != [] { UngatedConditions(flat[1..]); }
  }

  // ---- The compiled output ----

  function FirstRejected(policies: seq<Policy>, lib: Library): Option<Policy> {
    if policies == [] then None
    else if !lib.accepts(policies[0]) then Some(policies[0])
    else FirstRejected(policies[1..], lib)
  }

  function Texts(policies: seq<Policy>, lib: Library): (s: seq<string>)
    ensures |s| == |policies|
    ensures forall i :: 0 <= i < |s| ==> s[i] == lib.text(policies[i])
  {
    seq(|policies|, i requires 0 <= i < |policies| => lib.text(policies[i]))
  }

  function LeafScripts(flat: seq<Leaf>, policies: seq<Policy>): (s: seq<(string, Script)>)
    requires |flat| == |policies|
    ensures |s| == |flat|
    ensures forall i :: 0 <= i < |s| ==> s[i] == (flat[i].id, Script(policies[i]))
  {
    seq(|flat|, i requires 0 <= i < |flat| => (flat[i].id, Script(policies[i])))
  }

  function LeafUnlocks(flat: seq<Leaf>): (s: seq<(string, Unlock)>)
    ensures |s| == |flat|
    ensures forall i :: 0 <= i < |s| ==> s[i] == (flat[i].id, flat[i].unlock)
  {
    seq(|flat|, i requires 0 <= i < |flat| => (flat[i].id, flat[i].unlock))
  }

  function OutputFor(flat: seq<Leaf>, policies: seq<Policy>, lib: Library): MultileafOutput
    requires |flat| == |policies| && policies != []
  {
    var tree := RightComb(Scripts(policies));
    MultileafOutput(tree, Root(tree), Script(policies[0]), None, None, None,
                    TrDescriptor(NUMS_HEX, NestLeaves(Texts(policies, lib))), NestOr(policies),
                    LeafScripts(flat, policies), LeafUnlocks(flat))
  }

  /** The compiler's specification: refusals in the order the source meets them. */
  function Compiled(policy: LeafPolicy, lib: Library): Result<MultileafOutput, PolicyError> {
    match VerifyLeafPolicy(policy)
    case Err(e) => Err(e)
    case Ok(_) =>
      match Flatten(policy.leaves)
      case Err(e) => Err(e)
      case Ok(flat) =>
        var policies := Conditions(flat, policy.Consent());
        match FirstRejected(policies, lib)
        case Some(p) => Err(Miniscript(p))
        case None => if 1 <= |policies| <= MAX_DEPTH + 1 then Ok(OutputFor(flat, policies, lib))
            else Err(DescriptorError)
  }

  // ---- Re-deriving the root from the printed descriptor ----

  function ReadTree(t: TapTree<string>, lib: Library): Option<TapTree<Script>> {
    match t
    case Tip(text) => if lib.read(text).Some? then Some(Tip(Script(lib.read(text).value))) else None
    case Fork(l, r) =>
      match (ReadTree(l, lib), ReadTree(r, lib))
      case (Some(a), Some(b)) => Some(Fork(a, b))
      case _ => None
  }

  function DescriptorRoot(descriptor: string, lib: Library): Option<Hash> {
    match ParseDescriptor(NUMS_HEX, descriptor)
    case None => None
    case Some(t) =>
      match ReadTree(t, lib)
      case None => None
      case Some(scripts) => Some(Root(scripts))
  }

  lemma {:induction false} AcceptedTexts(policies: seq<Policy>, lib: Library)
    requires Faithful(lib) && FirstRejected(policies, lib).None?
    ensures forall i :: 0 <= i < |policies| ==> lib.accepts(policies[i]) && LeafText(lib.text(policies[i]))
  {
    if policies != [] { AcceptedTexts(policies[1..], lib); }
  }

  lemma {:induction false} ReadPrintedComb(policies: seq<Policy>, lib: Library)
    requires policies != [] && Faithful(lib)
    requires forall i :: 0 <= i < |policies| ==> lib.accepts(policies[i])
    ensures ReadTree(RightComb(Texts(policies, lib)), lib) == Some(RightComb(Scripts(policies)))
  {
    assert lib.read(lib.text(policies[0])) == Some(policies[0]);
    if |policies| > 1 {
      assert Texts(policies, lib)[1..] == Texts(policies[1..], lib);
      assert Scripts(policies)[1..] == Scripts(policies[1..]);
      ReadPrintedComb(policies[1..], lib);
    }
  }

  /** The descriptor of every output re-derives to the address's own root. */
  lemma DescriptorDerivesRoot(policies: seq<Policy>, lib: Library)
    requires policies != [] && Faithful(lib) && FirstRejected(policies, lib).None?
    ensures DescriptorRoot(TrDescriptor(NUMS_HEX, NestLeaves(Texts(policies, lib))), lib) ==
            Some(Root(RightComb(Scripts(policies))))
  {
    AcceptedTexts(policies, lib);
    var texts := Texts(policies, lib);
    NestLeavesPrintsRightComb(texts);
    RightCombLeafTexts(texts);
    DescriptorRoundTrip(NUMS_HEX, RightComb(texts), TrDescriptor(NUMS_HEX, NestLeaves(texts)));
    ReadPrintedComb(policies, lib);
  }

  // ---- The source's loops ----

  lemma ConditionsAppend(flat: seq<Leaf>, more: seq<Leaf>, consent: Option<Policy>)
    ensures Conditions(flat + more, consent)
         == Conditions(flat, consent)
          + Conditions(more, if FirstImmediate(flat) < |flat| then None else consent)
    decreases |flat|
  {
    if flat == [] {
      assert flat + more == more;
    } else {
      assert (flat + more)[0] == flat[0] && (flat + more)[1..] == flat[1..] + more;
      ConditionsAppend(flat[1..], more, if flat[0].unlock.Immediate? then None else consent);
    }
  }

  lemma {:induction false} FirstRejectedAppend(xs: seq<Policy>, ys: seq<Policy>, lib: Library)
    ensures FirstRejected(xs + ys, lib)
         == if FirstRejected(xs, lib).Some? then FirstRejected(xs, lib) else FirstRejected(ys, lib)
    decreases |xs|
  {
    if xs == [] {
      assert xs + ys == ys;
    } else {
      assert (xs + ys)[0] == xs[0] && (xs + ys)[1..] == xs[1..] + ys;
      FirstRejectedAppend(xs[1..], ys, lib);
    }
  }

  lemma {:induction false} FlattenAppend(xs: seq<Leaf>, ys: seq<Leaf>)
    ensures Flatten(xs + ys) ==
            match Flatten(xs) case Err(e) => Err(e) case Ok(a) =>
              match Flatten(ys) case Err(e) => Err(e) case Ok(b) => Ok(a + b)
    decreases |xs|
  {
    if xs == [] {
      assert xs + ys == ys;
      if Flatten(ys).Ok? { assert [] + Flatten(ys).value == Flatten(ys).value; }
    } else {
      assert (xs + ys)[0] == xs[0] && (xs + ys)[1..] == xs[1..] + ys;
      FlattenAppend(xs[1..], ys);
      if Expanded(xs[0]).Ok? && Flatten(xs[1..]).Ok? && Flatten(ys).Ok? {
        var a, b, c := Expanded(xs[0]).value, Flatten(xs[1..]).value, Flatten(ys).value;
        assert a + (b + c) == (a + b) + c;
      }
    }
  }

  method FlattenLoop(leaves: seq<Leaf>) returns (r: Result<seq<Leaf>, PolicyError>)
    requires VerifyLeaves(leaves).Ok?
    ensures r == Flatten(leaves)
  {
    VerifiedLeaves(leaves);
    var flat: seq<Leaf> := [];
    for i := 0 to |leaves|
      invariant Flatten(leaves[..i]) == Ok(flat)
    {
      assert leaves[i] in leaves && VerifyLeaf(leaves[i]).Ok?;
      var rungs := ExpandDecay(leaves[i]);
      assert leaves[..i + 1] == leaves[..i] + [leaves[i]];
      assert leaves == leaves[..i + 1] + leaves[i + 1..];
      FlattenAppend(leaves[..i], [leaves[i]]);
      FlattenAppend(leaves[..i + 1], leaves[i + 1..]);
      SingleFlatten(leaves[i]);
      if rungs.Err? { return Err(rungs.error); }
      flat := flat + rungs.value;
    }
    assert leaves[..|leaves|] == leaves;
    return Ok(flat);
  }

  lemma SingleFlatten(leaf: Leaf)
    ensures Flatten([leaf]) == Expanded(leaf)
  {
    if Expanded(leaf).Ok? { assert Expanded(leaf).value + [] == Expanded(leaf).value; }
  }

  /** The gate the source's loop hands to the next leaf. */
  function GateAfter(seen: bool, leaf: Leaf, consent: Option<Policy>): Option<Policy> {
    if leaf.unlock.Immediate? && !seen then consent else None
  }

  lemma ConditionsStep(flat: seq<Leaf>, i: nat, consent: Option<Policy>)
    requires i < |flat|
    ensures Conditions(flat[..i + 1], consent) ==
            Conditions(flat[..i], consent) +
                [Condition(flat[i], GateAfter(FirstImmediate(flat[..i]) < i, flat[i], consent))]
    ensures FirstImmediate(flat[..i + 1]) < i + 1 <==> FirstImmediate(flat[..i]) < i || flat[i].unlock.Immediate?
  {
    assert flat[..i + 1] == flat[..i] + [flat[i]];
    ConditionsAppend(flat[..i], [flat[i]], consent);
    FirstImmediateAppend(flat[..i], flat[i]);
  }

  lemma RejectedEarly(flat: seq<Leaf>, i: nat, consent: Option<Policy>, lib: Library)
    requires i <= |flat| && FirstRejected(Conditions(flat[..i], consent), lib).Some?
    ensures FirstRejected(Conditions(flat, consent), lib) == FirstRejected(Conditions(flat[..i], consent), lib)
  {
    assert flat == flat[..i] + flat[i..];
    ConditionsAppend(flat[..i], flat[i..], consent);
    var rest := Conditions(flat[i..], if FirstImmediate(flat[..i]) < i then None else consent);
    FirstRejectedAppend(Conditions(flat[..i], consent), rest, lib);
  }

  method CompileLoop(flat: seq<Leaf>, policy: LeafPolicy, lib: Library) returns (r: Result<seq<Policy>, PolicyError>)
    ensures var policies := Conditions(flat, policy.Consent());
            r == match FirstRejected(policies, lib) case Some(p) => Err(Miniscript(p)) case None => Ok(policies)
  {
    var hasConsent := policy.consentQuorum.Some? && policy.consentKeys != [];
    var primarySeen := false;
    var compiled: seq<Policy> := [];
    for i := 0 to |flat|
      invariant compiled == Conditions(flat[..i], policy.Consent())
      invariant FirstRejected(compiled, lib).None?
      invariant primarySeen <==> FirstImmediate(flat[..i]) < i
    {
      var leaf := flat[i];
      var thresh := Thresh(leaf.quorum, leaf.keys);
      var isPrimary := leaf.unlock.Immediate? && !primarySeen;
      var gated := if isPrimary && hasConsent then And(thresh, Thresh(policy.consentQuorum.value, policy.consentKeys))
          else thresh;
      var condition :=
        match leaf.unlock
        case Immediate => gated
        case After(n) => And(Policy.After(n), gated)
        case OlderThan(n) => And(Older(n), gated);
      assert condition == Condition(leaf, GateAfter(primarySeen, leaf, policy.Consent()));
      ConditionsStep(flat, i, policy.Consent());
      FirstRejectedAppend(compiled, [condition], lib);
      if !lib.accepts(condition) {
        RejectedEarly(flat, i + 1, policy.Consent(), lib);
        return Err(Miniscript(condition));
      }
      compiled := compiled + [condition];
      if isPrimary { primarySeen := true; }
    }
    assert flat[..|flat|] == flat;
    return Ok(compiled);
  }

  lemma {:induction false} FirstImmediateAppend(leaves: seq<Leaf>, leaf: Leaf)
    ensures (FirstImmediate(leaves + [leaf]) < |leaves| + 1)
       <==> (FirstImmediate(leaves) < |leaves| || leaf.unlock.Immediate?)
  {
    var all := leaves + [leaf];
    assert all[|leaves|] == leaf;
    assert forall j :: 0 <= j < |leaves| ==> all[j] == leaves[j];
  }

  method BuildTreeLoop(policies: seq<Policy>) returns (tree: Option<TapTree<Script>>)
    requires policies != []
    ensures tree == BuildTree(Schedule(Scripts(policies)))
  {
    var n := |policies|;
    var items := Schedule(Scripts(policies));
    var builder := new TaprootBuilder();
    for i := 0 to n
      invariant Feed([], items[..i]) == Some(builder.branch)
    {
      var depth := if n == 1 then 0 else if i + 1 < n then (i + 1) % 256 else (n - 1) % 256;
      assert items[..i + 1] == items[..i] + [items[i]] && items == items[..i + 1] + items[i + 1..];
      FeedConcat([], items[..i], [items[i]]);
      FeedConcat([], items[..i + 1], items[i + 1..]);
      FeedOne(builder.branch, items[i]);
      var ok := builder.AddLeaf(depth, Script(policies[i]));
      if !ok { return None; }
    }
    assert items[..n] == items;
    return Finish(builder.branch);
  }

  /** The compiler. Its last check re-derives the root from the printed
      descriptor; the specification has no such refusal, so that check never fires. */
  method BuildLeafMultileaf(policy: LeafPolicy, lib: Library) returns (r: Result<MultileafOutput, PolicyError>)
    requires Faithful(lib)
    ensures r == Compiled(policy, lib)
  {
    var verified := VerifyLeafPolicy(policy);
    if verified.Err? { return Err(verified.error); }
    var flat := FlattenLoop(policy.leaves);
    if flat.Err? { return Err(flat.error); }
    var compiled := CompileLoop(flat.value, policy, lib);
    if compiled.Err? { return Err(compiled.error); }
    var policies := compiled.value;
    FlattenNonempty(policy.leaves);
    var tree := BuildTreeLoop(policies);
    ScheduleBuildsRightComb(Scripts(policies));
    if tree.None? { return Err(DescriptorError); }
    var texts := Texts(policies, lib);
    var descriptor := if |policies| == 1 then TrDescriptor(NUMS_HEX, texts[0])
        else TrDescriptor(NUMS_HEX, NestLeaves(texts));
    var derived := DescriptorRoot(descriptor, lib);
    DescriptorDerivesRoot(policies, lib);
    if derived != Some(Root(tree.value)) { return Err(DescriptorError); }
    return Ok(MultileafOutput(tree.value, Root(tree.value), Script(policies[0]), None, None, None, descriptor,
                              NestOr(policies), LeafScripts(flat.value, policies), LeafUnlocks(flat.value)));
  }

  lemma {:induction false} FlattenNonempty(leaves: seq<Leaf>)
    requires leaves != [] && Flatten(leaves).Ok?
    ensures |Flatten(leaves).value| >= |leaves|
  {
    if |leaves| > 1 { FlattenNonempty(leaves[1..]); }
  }
}
