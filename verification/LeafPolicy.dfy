/** The leaf-list vault policy: an ordered list of leaves, each saying who can
    spend and when, with optional decay ladders and a consent gate. */
module LeafPolicies {
  import opened Wrappers
  import opened SpendPolicy

  const U32_MAX := 0xffff_ffff
  type u32 = n: nat | n <= U32_MAX

  /** Key lists are far shorter than 2^32 entries (such a list would fill 140 GB). */
  type KeyList = s: seq<PublicKey> | |s| <= U32_MAX

  const MIN_RECOVERY_BLOCKS: u32 := 26_000
  const MAX_RELATIVE_BLOCKS: u32 := 60_000

  datatype PolicyError =
    | InvalidQuorum
    | RecoveryTooSoon
    | InheritanceTooSoon
    | InheritanceRequiresDelay
    | InheritanceTooSoonNoRecovery
    | BackupConflictsWithRecovery
    | SecondInheritanceRequiresInheritance
    | SecondInheritanceRequiresDelay
    | Miniscript(rejected: Policy)
    | DescriptorError
    | InvalidBloc
    | EmptyLeafPolicy
    | NoImmediateLeaf
    | DecayRequiresTimelock
    | RelativeTimelockTooLong(blocks: u32)
    | RelativeTimelockNeedsAbsoluteFallback

  datatype Unlock = Immediate | After(blocks: u32) | OlderThan(blocks: u32)

  datatype DecayConfig = DecayConfig(stepBlocks: u32, floorQuorum: nat)

  datatype Leaf = Leaf(id: string, keys: KeyList, quorum: nat, unlock: Unlock, decay: Option<DecayConfig>)

  datatype LeafPolicy = LeafPolicy(leaves: seq<Leaf>, consentKeys: KeyList, consentQuorum: Option<nat>) {
    predicate HasConsent() { consentQuorum.Some? && consentKeys != [] }

    /** The consent threshold, when one gates the primary leaf. */
    function Consent(): Option<Policy> {
      if HasConsent() then Some(Thresh(consentQuorum.value, consentKeys)) else None
    }
  }

  // ---- Checks ----

  function VerifyLeaf(leaf: Leaf): Result<(), PolicyError> {
    if leaf.quorum == 0 || leaf.quorum > |leaf.keys| then Err(InvalidQuorum)
    else if leaf.unlock.OlderThan? && leaf.unlock.blocks > MAX_RELATIVE_BLOCKS then
      Err(RelativeTimelockTooLong(leaf.unlock.blocks))
    else if leaf.unlock.After? && 0 < leaf.unlock.blocks < MIN_RECOVERY_BLOCKS then Err(RecoveryTooSoon)
    else if leaf.decay.Some? && (leaf.decay.value.floorQuorum == 0 || leaf.decay.value.floorQuorum > leaf.quorum) then
      Err(InvalidQuorum)
    else Ok(())
  }

  function VerifyLeaves(leaves: seq<Leaf>): Result<(), PolicyError> {
    if leaves == [] then Ok(())
    else if VerifyLeaf(leaves[0]).Err? then VerifyLeaf(leaves[0])
    else VerifyLeaves(leaves[1..])
  }

  function VerifyLeafPolicy(policy: LeafPolicy): Result<(), PolicyError> {
    if policy.leaves == [] then Err(EmptyLeafPolicy)
    else if policy.consentQuorum.Some?
            && (policy.consentQuorum.value == 0 || policy.consentQuorum.value > |policy.consentKeys|) then
                Err(InvalidQuorum)
    else if !exists l | l in policy.leaves :: l.unlock.Immediate? then Err(NoImmediateLeaf)
    else if VerifyLeaves(policy.leaves).Err? then VerifyLeaves(policy.leaves)
    else if (exists l | l in policy.leaves :: l.unlock.OlderThan?) &&
        !exists l | l in policy.leaves :: l.unlock.After? then
      Err(RelativeTimelockNeedsAbsoluteFallback)
    else Ok(())
  }

  lemma {:induction false} VerifiedLeaves(leaves: seq<Leaf>)
    ensures VerifyLeaves(leaves).Ok? <==> forall l | l in leaves :: VerifyLeaf(l).Ok?
  {
    if leaves != [] {
      VerifiedLeaves(leaves[1..]);
      assert leaves == [leaves[0]] + leaves[1..];
    }
  }

  // ---- What the checks ask for ----

  /** A quorum somebody can meet and nobody can skip, a delay that is zero or long, a
      relative delay that is not too long, and a decay that stops between one and the quorum. */
  predicate SoundLeaf(leaf: Leaf) {
    && 1 <= leaf.quorum <= |leaf.keys|
    && (leaf.unlock.After? ==> leaf.unlock.blocks == 0 || leaf.unlock.blocks >= 26_000)
    && (leaf.unlock.OlderThan? ==> leaf.unlock.blocks <= 60_000)
    && (leaf.decay.Some? ==> 1 <= leaf.decay.value.floorQuorum <= leaf.quorum)
  }

  predicate SoundConsent(policy: LeafPolicy) {
    policy.consentQuorum.Some? ==> 1 <= policy.consentQuorum.value <= |policy.consentKeys|
  }

  predicate HasImmediate(leaves: seq<Leaf>) {
    exists i :: 0 <= i < |leaves| && leaves[i].unlock.Immediate?
  }

  /** Nobody depends on a coin's age alone: a relative leaf comes with an absolute one. */
  predicate RelativeBacked(leaves: seq<Leaf>) {
    forall i :: 0 <= i < |leaves| && leaves[i].unlock.OlderThan? ==>
      exists k :: 0 <= k < |leaves| && leaves[k].unlock.After?
  }

  predicate SoundPolicy(policy: LeafPolicy) {
    && policy.leaves != [] && SoundConsent(policy) && HasImmediate(policy.leaves)
    && (forall i :: 0 <= i < |policy.leaves| ==> SoundLeaf(policy.leaves[i]))
    && RelativeBacked(policy.leaves)
  }

  /** A leaf passes exactly when it is sound, and each refusal has its own fault. */
  lemma LeafChecksExactly(leaf: Leaf)
    ensures VerifyLeaf(leaf).Ok? <==> SoundLeaf(leaf)
    ensures VerifyLeaf(leaf).Err? ==> VerifyLeaf(leaf).error == LeafFault(leaf)
  {
  }

  /** What is wrong with an unsound leaf. */
  function LeafFault(leaf: Leaf): PolicyError {
    var quorumMet := 1 <= leaf.quorum <= |leaf.keys|;
    match leaf.unlock
    case OlderThan(n) => if quorumMet && n > 60_000 then RelativeTimelockTooLong(n) else InvalidQuorum
    case After(n) => if quorumMet && 0 < n < 26_000 then RecoveryTooSoon else InvalidQuorum
    case Immediate => InvalidQuorum
  }

  lemma {:induction false} LeavesCheckExactly(leaves: seq<Leaf>)
    ensures VerifyLeaves(leaves).Ok? <==> forall i :: 0 <= i < |leaves| ==> SoundLeaf(leaves[i])
    ensures VerifyLeaves(leaves).Err? ==>
              exists i :: FirstUnsound(leaves, i) && VerifyLeaves(leaves).error == LeafFault(leaves[i])
  {
    if leaves != [] {
      LeafChecksExactly(leaves[0]);
      LeavesCheckExactly(leaves[1..]);
      if VerifyLeaf(leaves[0]).Err? {
        assert FirstUnsound(leaves, 0);
      } else if VerifyLeaves(leaves).Err? {
        var i :| FirstUnsound(leaves[1..], i) && VerifyLeaves(leaves).error == LeafFault(leaves[1..][i]);
        assert FirstUnsound(leaves, i + 1) && leaves[1..][i] == leaves[i + 1];
      }
      assert forall i :: 0 <= i < |leaves[1..]| ==> leaves[1..][i] == leaves[i + 1];
    }
  }

  predicate FirstUnsound(leaves: seq<Leaf>, i: int) {
    0 <= i < |leaves| && !SoundLeaf(leaves[i]) && forall j :: 0 <= j < i ==> SoundLeaf(leaves[j])
  }

  /** The checks accept exactly the sound policies, and a refusal names the first thing
      that is wrong: no leaves, the consent quorum, nothing immediate, the first
      unsound leaf, and last a relative leaf without an absolute one. */
  lemma ChecksExactly(policy: LeafPolicy)
    ensures VerifyLeafPolicy(policy).Ok? <==> SoundPolicy(policy)
    ensures VerifyLeafPolicy(policy).Err? ==>
              var e := VerifyLeafPolicy(policy).error;
              if policy.leaves == [] then e == EmptyLeafPolicy
              else if !SoundConsent(policy) then e == InvalidQuorum
              else if !HasImmediate(policy.leaves) then e == NoImmediateLeaf
              else (exists i :: FirstUnsound(policy.leaves, i) && e == LeafFault(policy.leaves[i]))
                   || (e == RelativeTimelockNeedsAbsoluteFallback && !RelativeBacked(policy.leaves)
                       && forall i :: 0 <= i < |policy.leaves| ==> SoundLeaf(policy.leaves[i]))
  {
    LeavesCheckExactly(policy.leaves);
    assert forall l :: l in policy.leaves <==> exists i :: 0 <= i < |policy.leaves| && policy.leaves[i] == l;
  }

  // ---- Decay ladders ----

  function Decimal(n: nat): string {
    if n < 10 then ["0123456789"[n]] else Decimal(n / 10) + ["0123456789"[n % 10]]
  }

  /** The number a text of digits stands for. */
  function DecimalValue(s: string): nat {
    if s == "" then 0
    else
      var last := s[|s| - 1];
      10 * DecimalValue(s[..|s| - 1]) + if '0' <= last <= '9' then (last - '0') as nat else 0
  }

  /** A printed number is digits that read back as it, so different rungs have different ids. */
  lemma {:induction false} DecimalReads(n: nat)
    ensures (forall c | c in Decimal(n) :: '0' <= c <= '9') && DecimalValue(Decimal(n)) == n
    ensures Decimal(n) != "" && (n > 0 ==> Decimal(n)[0] != '0')
  {
    if n >= 10 {
      DecimalReads(n / 10);
      DigitReads(n % 10);
      assert Decimal(n)[..|Decimal(n)| - 1] == Decimal(n / 10);
    } else {
      DigitReads(n);
      assert Decimal(n)[..0] == "";
    }
  }

  lemma DigitReads(d: nat)
    requires d < 10
    ensures var c := "0123456789"[d]; '0' <= c <= '9' && (c - '0') as nat == d
  {
  }

  /** Where rung `i` opens: one step after another. */
  function RungHeight(start: nat, step: nat, i: nat): nat {
    if i == 0 then start else RungHeight(start, step, i - 1) + step
  }

  lemma {:induction false} RungHeightClosed(start: nat, step: nat, i: nat)
    ensures RungHeight(start, step, i) == start + i * step
  {
    if i > 0 {
      RungHeightClosed(start, step, i - 1);
      assert i * step == (i - 1) * step + step;
    }
  }

  /** The source's checked multiplication and addition. */
  method CheckedHeight(start: u32, step: u32, rung: u32) returns (height: Option<u32>)
    ensures height == if RungHeight(start, step, rung) <= U32_MAX then Some(RungHeight(start, step, rung)) else None
  {
    RungHeightClosed(start, step, rung);
    var offset := rung * step;
    if offset > U32_MAX { return None; }
    if start + offset > U32_MAX { return None; }
    return Some(start + offset);
  }

  /** Rung `i` of the ladder: same keys, quorum lowered by `i`, unlock moved out by `i` steps. */
  function Rung(leaf: Leaf, i: nat): Leaf
    requires leaf.decay.Some? && !leaf.unlock.Immediate? && i <= leaf.quorum
    requires RungHeight(leaf.unlock.blocks, leaf.decay.value.stepBlocks, i) <= U32_MAX
  {
    var height := RungHeight(leaf.unlock.blocks, leaf.decay.value.stepBlocks, i);
    Leaf(leaf.id + "_" + Decimal(i), leaf.keys, leaf.quorum - i,
         if leaf.unlock.OlderThan? then OlderThan(height) else Unlock.After(height), None)
  }

  lemma {:induction false} RungHeightMonotone(start: nat, step: nat, i: nat, j: nat)
    requires i <= j
    ensures RungHeight(start, step, i) <= RungHeight(start, step, j)
  {
    if i < j { RungHeightMonotone(start, step, i, j - 1); }
  }

  function Ladder(leaf: Leaf, rungs: nat): (ladder: seq<Leaf>)
    requires leaf.decay.Some? && !leaf.unlock.Immediate? && rungs <= leaf.quorum + 1
    requires rungs > 0 ==> RungHeight(leaf.unlock.blocks, leaf.decay.value.stepBlocks, rungs - 1) <= U32_MAX
    ensures |ladder| == rungs
  {
    seq(rungs, i requires 0 <= i < rungs =>
      RungHeightMonotone(leaf.unlock.blocks, leaf.decay.value.stepBlocks, i, rungs - 1);
      Rung(leaf, i))
  }

  /** What decay expansion yields: the leaf itself without decay; else the whole
      ladder from the leaf's own quorum down to the floor, refused exactly when
      the last rung's height does not fit 32 bits. */
  function Expanded(leaf: Leaf): Result<seq<Leaf>, PolicyError> {
    if leaf.decay.None? then Ok([leaf])
    else if leaf.unlock.Immediate? then Err(DecayRequiresTimelock)
    else
      var cfg := leaf.decay.value;
      if cfg.floorQuorum == 0 || cfg.floorQuorum > leaf.quorum then Err(InvalidQuorum)
      else
        var drop := leaf.quorum - cfg.floorQuorum;
        if RungHeight(leaf.unlock.blocks, cfg.stepBlocks, drop) > U32_MAX then Err(RelativeTimelockTooLong(U32_MAX))
        else Ok(Ladder(leaf, drop + 1))
  }

  /** The ladder in closed form: on a checked leaf with a clock, expansion is
      refused exactly when the last rung's height does not fit 32 bits; otherwise it
      gives one rung per quorum from the leaf's own down to the floor, each asking
      the full key pool and opening one step after the one before. */
  lemma LadderClosedForm(leaf: Leaf)
    requires VerifyLeaf(leaf).Ok? && leaf.decay.Some? && !leaf.unlock.Immediate?
    ensures var start, step, drop :=
            leaf.unlock.blocks, leaf.decay.value.stepBlocks, leaf.quorum - leaf.decay.value.floorQuorum;
            && (Expanded(leaf).Ok? <==> start + drop * step <= U32_MAX)
            && (Expanded(leaf).Err? ==> Expanded(leaf).error == RelativeTimelockTooLong(U32_MAX))
            && (Expanded(leaf).Ok? ==>
                  && |Expanded(leaf).value| == drop + 1
                  && forall i: nat {:trigger Expanded(leaf).value[i]} :: i <= drop ==>
                       var rung := Expanded(leaf).value[i];
                       && rung.quorum == leaf.quorum - i && rung.keys == leaf.keys && rung.decay.None?
                       && rung.id == leaf.id + "_" + Decimal(i)
                       && rung.unlock.OlderThan? == leaf.unlock.OlderThan? && !rung.unlock.Immediate?
                       && rung.unlock.blocks == start + i * step)
  {
    var start, step, drop := leaf.unlock.blocks, leaf.decay.value.stepBlocks,
        leaf.quorum - leaf.decay.value.floorQuorum;
    RungHeightClosed(start, step, drop);
    if Expanded(leaf).Ok? {
      var rungs := Expanded(leaf).value;
      forall i: nat | i < |rungs|
        ensures RungHeight(start, step, i) == start + i * step <= U32_MAX && rungs[i] == Rung(leaf, i)
      {
        RungHeightClosed(start, step, i);
        RungHeightMonotone(start, step, i, drop);
      }
    }
  }

  /** No two rungs of a ladder share an id. */
  lemma RungIdsDiffer(leaf: Leaf, i: nat, j: nat)
    requires Expanded(leaf).Ok? && leaf.decay.Some? && i < j < |Expanded(leaf).value|
    ensures Expanded(leaf).value[i].id != Expanded(leaf).value[j].id
  {
    RungId(leaf, i);
    RungId(leaf, j);
    DecimalReads(i);
    DecimalReads(j);
    if Expanded(leaf).value[i].id == Expanded(leaf).value[j].id { SamePrefix(leaf.id + "_", Decimal(i), Decimal(j)); }
  }

  lemma RungId(leaf: Leaf, i: nat)
    requires Expanded(leaf).Ok? && leaf.decay.Some? && i < |Expanded(leaf).value|
    ensures Expanded(leaf).value[i].id == leaf.id + "_" + Decimal(i)
  {
    RungHeightMonotone(leaf.unlock.blocks, leaf.decay.value.stepBlocks, i, |Expanded(leaf).value| - 1);
    assert Expanded(leaf).value[i] == Rung(leaf, i);
  }

  lemma SamePrefix(prefix: string, a: string, b: string)
    requires prefix + a == prefix + b
    ensures a == b
  {
    assert (prefix + a)[|prefix|..] == a && (prefix + b)[|prefix|..] == b;
  }

  /** The source's loop, with its checked 32-bit arithmetic and 32-bit rung counter. */
  method ExpandDecay(leaf: Leaf) returns (r: Result<seq<Leaf>, PolicyError>)
    requires leaf.quorum <= |leaf.keys|
    ensures r == Expanded(leaf)
  {
    if leaf.decay.None? { return Ok([leaf]); }
    var cfg := leaf.decay.value;
    if leaf.unlock.Immediate? { return Err(DecayRequiresTimelock); }
    var start := leaf.unlock.blocks;
    if cfg.floorQuorum == 0 || cfg.floorQuorum > leaf.quorum { return Err(InvalidQuorum); }
    var out: seq<Leaf> := [];
    var q := leaf.quorum;
    var rung: u32 := 0;
    while true
      invariant cfg.floorQuorum <= q <= leaf.quorum && rung == leaf.quorum - q
      invariant rung > 0 ==> RungHeight(start, cfg.stepBlocks, rung - 1) <= U32_MAX
      invariant out == Ladder(leaf, rung)
      decreases q
    {
      RungHeightMonotone(start, cfg.stepBlocks, rung, leaf.quorum - cfg.floorQuorum);
      var height := CheckedHeight(start, cfg.stepBlocks, rung);
      if height.None? { return Err(RelativeTimelockTooLong(U32_MAX)); }
      out := out + [Leaf(leaf.id + "_" + Decimal(rung), leaf.keys, q,
                         if leaf.unlock.OlderThan? then OlderThan(height.value) else Unlock.After(height.value), None)];
      assert out == Ladder(leaf, rung + 1);
      if q == cfg.floorQuorum { break; }
      q := q - 1;
      rung := rung + 1;
    }
    return Ok(out);
  }

  /** Every leaf expanded, in order; the first refusal wins. */
  function Flatten(leaves: seq<Leaf>): Result<seq<Leaf>, PolicyError> {
    if leaves == [] then Ok([])
    else
      match Expanded(leaves[0])
      case Err(e) => Err(e)
      case Ok(rungs) =>
        match Flatten(leaves[1..])
        case Err(e) => Err(e)
        case Ok(rest) => Ok(rungs + rest)
  }

  // ---- What a ladder means ----

  /** The quorum asked `elapsed` blocks after the ladder's start. */
  function DecayedQuorum(quorum: nat, floor: nat, step: nat, elapsed: nat): (q: nat)
    requires floor <= quorum
  {
    if step == 0 || elapsed / step > quorum - floor then floor else quorum - elapsed / step
  }

  /** Rung `i` is open at `now` and signed by enough. */
  predicate RungServes(start: nat, step: nat, quorum: nat, floor: nat, now: nat, signed: nat, i: nat) {
    i + floor <= quorum && now >= RungHeight(start, step, i) && signed + i >= quorum
  }

  /** Some rung is open and signed exactly when the decayed quorum is. */
  lemma LadderIsStepFunction(start: nat, step: nat, quorum: nat, floor: nat, now: nat, signed: nat)
    requires floor <= quorum
    ensures (exists i: nat :: RungServes(start, step, quorum, floor, now, signed, i))
       <==> (now >= start && signed >= DecayedQuorum(quorum, floor, step, now - start))
  {
    if i: nat :| RungServes(start, step, quorum, floor, now, signed, i) {
      ServingRungMeetsQuorum(start, step, quorum, floor, now, signed, i);
    }
    if now >= start && signed >= DecayedQuorum(quorum, floor, step, now - start) {
      var i := RungForQuorum(start, step, quorum, floor, now, signed);
    }
  }

  lemma ServingRungMeetsQuorum(start: nat, step: nat, quorum: nat, floor: nat, now: nat, signed: nat, i: nat)
    requires floor <= quorum && RungServes(start, step, quorum, floor, now, signed, i)
    ensures now >= start && signed >= DecayedQuorum(quorum, floor, step, now - start)
  {
    RungHeightClosed(start, step, i);
    if step > 0 { QuotientAtLeast(now - start, step, i); }
  }

  lemma RungForQuorum(start: nat, step: nat, quorum: nat, floor: nat, now: nat, signed: nat) returns (i: nat)
    requires floor <= quorum && now >= start && signed >= DecayedQuorum(quorum, floor, step, now - start)
    ensures RungServes(start, step, quorum, floor, now, signed, i)
  {
    if step == 0 {
      i := quorum - floor;
    } else {
      i := if (now - start) / step > quorum - floor then quorum - floor else (now - start) / step;
      QuotientCovers(now - start, step, i);
    }
    RungHeightClosed(start, step, i);
  }

  lemma QuotientAtLeast(n: nat, d: nat, k: nat)
    requires d > 0 && n >= k * d
    ensures n / d >= k
  {
    var r := n % d;
    assert n == n / d * d + r && (n / d + 1) * d > k * d;
  }

  lemma QuotientCovers(n: nat, d: nat, k: nat)
    requires d > 0 && k <= n / d
    ensures k * d <= n
  {
    assert (n / d - k) * d >= 0;
    assert (n / d) * d <= n;
  }

  /** The quorum holds exactly until the first step has passed, or where decay lowers nothing. */
  lemma DecayedQuorumHolds(quorum: nat, floor: nat, step: nat, elapsed: nat)
    requires floor <= quorum
    ensures DecayedQuorum(quorum, floor, step, elapsed) <= quorum
    ensures DecayedQuorum(quorum, floor, step, elapsed) == quorum <==>
            floor == quorum || (step > 0 && elapsed < step)
  {
    if step > 0 { QuotientIsZeroExactly(elapsed, step); }
  }

  lemma QuotientIsZeroExactly(n: nat, d: nat)
    requires d > 0
    ensures n / d == 0 <==> n < d
  {
    if n >= d { QuotientAtLeast(n, d, 1); }
  }

  /** Waiting never raises the quorum. */
  lemma DecayedQuorumFalls(quorum: nat, floor: nat, step: nat, elapsed: nat, later: nat)
    requires floor <= quorum && elapsed <= later
    ensures floor <= DecayedQuorum(quorum, floor, step, later) <= DecayedQuorum(quorum, floor, step, elapsed) <= quorum
  {
    if step > 0 { QuotientCovers(elapsed, step, elapsed / step); QuotientAtLeast(later, step, elapsed / step); }
  }
}
