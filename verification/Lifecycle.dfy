/** The stored row of a leaf-list vault: draft, edits, the one compilation, and
    the rebuild every spend does from the stored row. */
module Lifecycle {
  import opened Wrappers
  import opened SpendPolicy
  import opened Consensus
  import opened Taproot
  import opened LeafPolicies
  import opened LeafCompiler
  import opened LeafMeaning

  const NETWORKS := {"testnet", "signet", "bitcoin"}

  /** A key as stored: a public key, an extended private key, or text that is neither. */
  datatype WireKey = Pubkey(key: PublicKey) | PrivateExtendedKey | NotAKey
  type WireKeys = s: seq<WireKey> | |s| <= U32_MAX

  /** A block count as JSON holds it; `NotWhole` stands for anything that is not a safe whole number. */
  datatype Blocks = Missing | Whole(n: int) | NotWhole

  datatype StoredUnlock = StoredUnlock(kind: string, blocks: Blocks)
  datatype StoredLeaf = StoredLeaf(id: string, keys: WireKeys, quorum: int, unlock: StoredUnlock,
                                   decay: Option<DecayConfig>)

  datatype Status = Draft | CompiledStatus
  datatype Address = Address(root: Hash, network: string)

  datatype Row = Row(status: Status, network: string, leaves: seq<StoredLeaf>, consentKeys: WireKeys,
                     consentQuorum: Option<nat>, address: Option<Address>, descriptor: Option<string>)

  datatype RequestError =
    | BadNetwork | NothingToUpdate | NotDraft | ConstraintViolation
    | NoLeaves | BadLeaf | PrivateKey | NoTip | CompilerRefused

  // ---- The compiler's wire format ----

  function ParseKeys(keys: WireKeys): (r: Option<KeyList>)
    ensures r.Some? ==> |r.value| == |keys|
  {
    if keys == [] then Some([])
    else if !keys[0].Pubkey? then None
    else
      match ParseKeys(keys[1..])
      case None => None
      case Some(rest) => Some([keys[0].key] + rest)
  }

  function ParseUnlock(unlock: StoredUnlock): Option<Unlock> {
    if unlock.blocks.NotWhole? || (unlock.blocks.Whole? && !(0 <= unlock.blocks.n <= U32_MAX)) then None
    else if unlock.kind == "immediate" then Some(Immediate)
    else if unlock.kind == "after" && unlock.blocks.Whole? then Some(Unlock.After(unlock.blocks.n))
    else if unlock.kind == "older" && unlock.blocks.Whole? then Some(OlderThan(unlock.blocks.n))
    else None
  }

  function ParseLeaf(leaf: StoredLeaf): Option<Leaf> {
    var keys, unlock := ParseKeys(leaf.keys), ParseUnlock(leaf.unlock);
    if keys.None? || unlock.None? || leaf.quorum < 0 then None
    else Some(Leaf(leaf.id, keys.value, leaf.quorum, unlock.value, leaf.decay))
  }

  function ParseLeaves(leaves: seq<StoredLeaf>): (r: Option<seq<Leaf>>)
    ensures r.Some? ==> |r.value| == |leaves|
  {
    if leaves == [] then Some([])
    else
      match (ParseLeaf(leaves[0]), ParseLeaves(leaves[1..]))
      case (Some(leaf), Some(rest)) => Some([leaf] + rest)
      case _ => None
  }

  function ParseLeafPolicy(leaves: seq<StoredLeaf>, consentKeys: WireKeys, consentQuorum: Option<nat>)
    : Option<LeafPolicy>
  {
    match (ParseLeaves(leaves), ParseKeys(consentKeys))
    case (Some(ls), Some(cs)) => Some(LeafPolicy(ls, cs, consentQuorum))
    case _ => None
  }

  /** The text of each key is a public key. */
  predicate AllPubkeys(keys: WireKeys) { forall i :: 0 <= i < |keys| ==> keys[i].Pubkey? }

  /** A leaf the wire format can carry: public keys, a known kind of unlock, and with
      any kind but immediate a whole 32-bit number of blocks. */
  predicate WireLeafOk(leaf: StoredLeaf) {
    && AllPubkeys(leaf.keys) && leaf.quorum >= 0 && !leaf.unlock.blocks.NotWhole?
    && (leaf.unlock.blocks.Whole? ==> 0 <= leaf.unlock.blocks.n <= U32_MAX)
    && leaf.unlock.kind in {"immediate", "after", "older"}
    && (leaf.unlock.kind != "immediate" ==> leaf.unlock.blocks.Whole?)
  }

  /** The parsed leaf says what the stored one says, key by key. */
  predicate SameLeaf(stored: StoredLeaf, leaf: Leaf) {
    && leaf.id == stored.id && leaf.quorum == stored.quorum && leaf.decay == stored.decay
    && SameKeys(stored.keys, leaf.keys)
    && (leaf.unlock.Immediate? <==> stored.unlock.kind == "immediate")
    && (leaf.unlock.After? <==> stored.unlock.kind == "after")
    && (!leaf.unlock.Immediate? ==> stored.unlock.blocks == Whole(leaf.unlock.blocks))
  }

  predicate SameKeys(stored: WireKeys, keys: KeyList) {
    |keys| == |stored| && forall i :: 0 <= i < |keys| ==> stored[i] == Pubkey(keys[i])
  }

  lemma {:induction false} KeysParseExactly(keys: WireKeys)
    ensures ParseKeys(keys).Some? <==> AllPubkeys(keys)
    ensures ParseKeys(keys).Some? ==> SameKeys(keys, ParseKeys(keys).value)
  {
    if keys != [] {
      KeysParseExactly(keys[1..]);
      assert AllPubkeys(keys) <==> keys[0].Pubkey? && AllPubkeys(keys[1..]);
    }
  }

  lemma LeafParsesExactly(leaf: StoredLeaf)
    ensures ParseLeaf(leaf).Some? <==> WireLeafOk(leaf)
    ensures ParseLeaf(leaf).Some? ==> SameLeaf(leaf, ParseLeaf(leaf).value)
  {
    KeysParseExactly(leaf.keys);
  }

  /** The request parses exactly when every leaf and every consent key does, and the
      compiler then sees leaf by leaf and key by key what was sent, in order. */
  lemma RequestParsesExactly(leaves: seq<StoredLeaf>, consentKeys: WireKeys, consentQuorum: Option<nat>)
    ensures ParseLeafPolicy(leaves, consentKeys, consentQuorum).Some? <==>
            (forall i :: 0 <= i < |leaves| ==> WireLeafOk(leaves[i])) && AllPubkeys(consentKeys)
    ensures ParseLeafPolicy(leaves, consentKeys, consentQuorum).Some? ==>
              var policy := ParseLeafPolicy(leaves, consentKeys, consentQuorum).value;
              && |policy.leaves| == |leaves| &&
                  (forall i :: 0 <= i < |leaves| ==> SameLeaf(leaves[i], policy.leaves[i]))
              && SameKeys(consentKeys, policy.consentKeys) && policy.consentQuorum == consentQuorum
  {
    LeavesParseExactly(leaves);
    KeysParseExactly(consentKeys);
  }

  lemma {:induction false} LeavesParseExactly(leaves: seq<StoredLeaf>)
    ensures ParseLeaves(leaves).Some? <==> forall i :: 0 <= i < |leaves| ==> WireLeafOk(leaves[i])
    ensures ParseLeaves(leaves).Some? ==> forall i :: 0 <= i < |leaves| ==>
            SameLeaf(leaves[i], ParseLeaves(leaves).value[i])
  {
    if leaves != [] {
      LeafParsesExactly(leaves[0]);
      LeavesParseExactly(leaves[1..]);
      assert forall i :: 0 <= i < |leaves[1..]| ==> leaves[1..][i] == leaves[i + 1];
    }
  }

  function CompileRequest(leaves: seq<StoredLeaf>, consentKeys: WireKeys, consentQuorum: Option<nat>, lib: Library)
    : Option<MultileafOutput>
  {
    match ParseLeafPolicy(leaves, consentKeys, consentQuorum)
    case None => None
    case Some(policy) => match Compiled(policy, lib) case Ok(out) => Some(out) case Err(_) => None
  }

  // ---- Draft creation and edits ----

  /** An absent or empty network means testnet. */
  function CreateDraft(network: string, leaves: seq<StoredLeaf>, consentKeys: WireKeys, consentQuorum: Option<nat>)
    : Result<Row, RequestError>
  {
    var chosen := if network == "" then "testnet" else network;
    if chosen !in NETWORKS then Err(BadNetwork)
    else Ok(Row(Draft, chosen, leaves, consentKeys, consentQuorum, None, None))
  }

  /** The fields an edit carries; an empty network stands for any falsy value. */
  datatype Updates = Updates(network: Option<string>, leaves: Option<seq<StoredLeaf>>,
                             consentKeys: Option<WireKeys>, consentQuorum: Option<Option<nat>>, cosmetic: bool)

  /** The guards, and the column constraint that still holds where the network guard looks away. */
  function PatchError(row: Row, u: Updates): Option<RequestError> {
    if u.network.None? && u.leaves.None? && u.consentKeys.None? && u.consentQuorum.None? && !u.cosmetic then
        Some(NothingToUpdate)
    else if u.network.Some? && u.network.value != "" && u.network.value !in NETWORKS then Some(BadNetwork)
    else if u.network.Some? && u.network.value != "" && !row.status.Draft? then Some(NotDraft)
    else if (u.leaves.Some? || u.consentKeys.Some? || u.consentQuorum.Some?) && !row.status.Draft? then Some(NotDraft)
    else if u.network.Some? && u.network.value !in NETWORKS then Some(ConstraintViolation)
    else None
  }

  function Patched(row: Row, u: Updates): Row {
    if PatchError(row, u).Some? then row
    else row.(network := u.network.GetOr(row.network), leaves := u.leaves.GetOr(row.leaves),
              consentKeys := u.consentKeys.GetOr(row.consentKeys),
              consentQuorum := u.consentQuorum.GetOr(row.consentQuorum))
  }

  /** A policy or network is edited exactly on drafts, and to a known network; an edit that
      passes sets the fields it carries, and one that does not changes nothing. */
  lemma EditsApplyExactly(row: Row, u: Updates)
    ensures PatchError(row, u).None? <==>
            && (u.network.Some? || u.leaves.Some? || u.consentKeys.Some? || u.consentQuorum.Some? || u.cosmetic)
            && (u.network.Some? ==> row.status == Draft && u.network.value in {"testnet", "signet", "bitcoin"})
            && (u.leaves.Some? || u.consentKeys.Some? || u.consentQuorum.Some? ==> row.status == Draft)
    ensures PatchError(row, u).Some? ==> Patched(row, u) == row
    ensures PatchError(row, u).None? ==>
              var next := Patched(row, u);
              && next.network == (if u.network.Some? then u.network.value else row.network)
              && next.leaves == (if u.leaves.Some? then u.leaves.value else row.leaves)
              && next.consentKeys == (if u.consentKeys.Some? then u.consentKeys.value else row.consentKeys)
              && next.consentQuorum == (if u.consentQuorum.Some? then u.consentQuorum.value else row.consentQuorum)
              && next.status == row.status && next.address == row.address && next.descriptor == row.descriptor
  {
  }

  /** What an edit is refused for: carrying nothing, an unknown network, a row that is no
      draft any more, and an empty network, which only the column's constraint catches. */
  lemma EditRefusals(row: Row, u: Updates)
    ensures var e := PatchError(row, u);
            var policy := u.leaves.Some? || u.consentKeys.Some? || u.consentQuorum.Some?;
            var known := u.network.None? || u.network.value in {"", "testnet", "signet", "bitcoin"};
            && (e == Some(NothingToUpdate) <==> u.network.None? && !policy && !u.cosmetic)
            && (e == Some(BadNetwork) <==> !known)
            && (e == Some(NotDraft) <==>
                  known && row.status == CompiledStatus && (policy || (u.network.Some? && u.network.value != "")))
            && (e == Some(ConstraintViolation) <==> u.network == Some("") && (policy ==> row.status == Draft))
  {
  }

  /** A draft starts with what was sent, on testnet if no network was, and nothing compiled. */
  lemma CreatedExactly(network: string, leaves: seq<StoredLeaf>, consentKeys: WireKeys, consentQuorum: Option<nat>)
    ensures var r := CreateDraft(network, leaves, consentKeys, consentQuorum);
            if network !in {"", "testnet", "signet", "bitcoin"} then r == Err(BadNetwork)
            else
              && r.Ok? && r.value.network == (if network == "" then "testnet" else network)
              && r.value.status == Draft && r.value.leaves == leaves && r.value.consentKeys == consentKeys
              && r.value.consentQuorum == consentQuorum && r.value.address.None? && r.value.descriptor.None?
  {
  }

  // ---- Compilation ----

  /** No value or zero means no leaf at this path; anything else must be whole and at least the floor. */
  predicate TimelockFloorOk(blocks: Blocks) {
    match blocks
    case Missing => true
    case Whole(n) => n == 0 || n >= MIN_RECOVERY_BLOCKS
    case NotWhole => false
  }

  predicate LeafOk(leaf: StoredLeaf) {
    && leaf.id != "" && leaf.keys != [] && 1 <= leaf.quorum <= |leaf.keys|
    && (forall k | k in leaf.keys :: !k.PrivateExtendedKey?)
    && (leaf.unlock.kind == "after" ==> TimelockFloorOk(leaf.unlock.blocks))
  }

  function RelativeToAbsolute(blocks: Blocks, tip: nat): int {
    if !blocks.Whole? || blocks.n <= 0 then 0 else tip + blocks.n
  }

  function WireLeaf(leaf: StoredLeaf, tip: nat): StoredLeaf {
    if leaf.unlock.kind == "after"
    then leaf.(unlock := StoredUnlock("after", Whole(RelativeToAbsolute(leaf.unlock.blocks, tip))))
    else leaf
  }

  function WireLeaves(leaves: seq<StoredLeaf>, tip: nat): (s: seq<StoredLeaf>)
    ensures |s| == |leaves|
    ensures forall i :: 0 <= i < |s| ==> s[i] == WireLeaf(leaves[i], tip)
  {
    if leaves == [] then [] else [WireLeaf(leaves[0], tip)] + WireLeaves(leaves[1..], tip)
  }

  predicate NeedsTip(leaves: seq<StoredLeaf>) { exists l | l in leaves :: l.unlock.kind == "after" }

  /** What keeps a row from being compiled; `tip` is what the chain oracle answers, if it answers. */
  function DraftProblem(row: Row, tip: Option<nat>): Option<RequestError> {
    if !row.status.Draft? then Some(NotDraft)
    else if row.leaves == [] then Some(NoLeaves)
    else if exists l | l in row.leaves :: !LeafOk(l) then Some(BadLeaf)
    else if exists k | k in row.consentKeys :: k.PrivateExtendedKey? then Some(PrivateKey)
    else if NeedsTip(row.leaves) && tip.None? then Some(NoTip)
    else None
  }

  /** The leaves sent to the compiler, and stored afterwards. */
  function WireOf(row: Row, tip: Option<nat>): (s: seq<StoredLeaf>)
    ensures |s| == |row.leaves|
  {
    WireLeaves(row.leaves, if NeedsTip(row.leaves) then tip.GetOr(0) else 0)
  }

  function Stored(row: Row, wire: seq<StoredLeaf>, out: MultileafOutput): Row {
    row.(address := Some(Address(out.root, row.network)), descriptor := Some(out.descriptor),
         leaves := wire, status := CompiledStatus)
  }

  function CompileStep(row: Row, tip: Option<nat>, lib: Library): Result<Row, RequestError> {
    match DraftProblem(row, tip)
    case Some(e) => Err(e)
    case None =>
      match CompileRequest(WireOf(row, tip), row.consentKeys, row.consentQuorum, lib)
      case None => Err(CompilerRefused)
      case Some(out) => Ok(Stored(row, WireOf(row, tip), out))
  }

  /** What a spend rebuilds from the stored row: consent is forwarded only when it has keys and a quorum. */
  function Rebuilt(row: Row, lib: Library): Option<MultileafOutput> {
    var gated := row.consentKeys != [] && row.consentQuorum.Some?;
    CompileRequest(row.leaves, if gated then row.consentKeys else [], if gated then row.consentQuorum else None, lib)
  }

  /** The stored row, updated in place by its handlers. */
  class VaultRow {
    var status: Status
    var network: string
    var leaves: seq<StoredLeaf>
    var consentKeys: WireKeys
    var consentQuorum: Option<nat>
    var address: Option<Address>
    var descriptor: Option<string>

    function State(): Row
      reads this
    {
      Row(status, network, leaves, consentKeys, consentQuorum, address, descriptor)
    }

    constructor (row: Row)
      ensures State() == row
    {
      status, network, leaves := row.status, row.network, row.leaves;
      consentKeys, consentQuorum, address, descriptor :=
          row.consentKeys, row.consentQuorum, row.address, row.descriptor;
    }

    method Patch(u: Updates) returns (error: Option<RequestError>)
      modifies this
      ensures error == PatchError(old(State()), u) && State() == Patched(old(State()), u)
    {
      error := PatchError(State(), u);
      if error.Some? { return; }
      if u.network.Some? { network := u.network.value; }
      if u.leaves.Some? { leaves := u.leaves.value; }
      if u.consentKeys.Some? { consentKeys := u.consentKeys.value; }
      if u.consentQuorum.Some? { consentQuorum := u.consentQuorum.value; }
    }

    method Compile(tip: Option<nat>, lib: Library) returns (error: Option<RequestError>)
      requires Faithful(lib)
      modifies this
      ensures match CompileStep(old(State()), tip, lib)
              case Ok(row) => error == None && State() == row
              case Err(e) => error == Some(e) && State() == old(State())
    {
      var problem := CheckDraft(tip);
      if problem.Some? { return problem; }
      var wire := WireLeaves(leaves, if NeedsTip(leaves) then tip.value else 0);
      var compiled := AskCompiler(wire, consentKeys, consentQuorum, lib);
      if compiled.None? { return Some(CompilerRefused); }
      address := Some(Address(compiled.value.root, network));
      descriptor := Some(compiled.value.descriptor);
      leaves := wire;
      status := CompiledStatus;
      return None;
    }

    /** The handler's validation, in its order. */
    method CheckDraft(tip: Option<nat>) returns (problem: Option<RequestError>)
      ensures problem == DraftProblem(State(), tip)
    {
      if !status.Draft? { return Some(NotDraft); }
      if leaves == [] { return Some(NoLeaves); }
      var leafError := CheckLeaves(leaves);
      if leafError { return Some(BadLeaf); }
      if exists k | k in consentKeys :: k.PrivateExtendedKey? { return Some(PrivateKey); }
      if NeedsTip(leaves) && tip.None? { return Some(NoTip); }
      return None;
    }
  }

  /** The compile request, parsed and answered by the compiler. */
  method AskCompiler(leaves: seq<StoredLeaf>, consentKeys: WireKeys, consentQuorum: Option<nat>, lib: Library)
    returns (out: Option<MultileafOutput>)
    requires Faithful(lib)
    ensures out == CompileRequest(leaves, consentKeys, consentQuorum, lib)
  {
    var policy := ParseLeafPolicy(leaves, consentKeys, consentQuorum);
    if policy.None? { return None; }
    var compiled := BuildLeafMultileaf(policy.value, lib);
    if compiled.Err? { return None; }
    return Some(compiled.value);
  }

  method CheckLeaves(leaves: seq<StoredLeaf>) returns (bad: bool)
    ensures bad <==> exists l | l in leaves :: !LeafOk(l)
  {
    for i := 0 to |leaves|
      invariant forall j :: 0 <= j < i ==> LeafOk(leaves[j])
    {
      if !LeafOk(leaves[i]) { return true; }
    }
    return false;
  }

  // ---- Runs ----

  datatype Event = PatchEvent(updates: Updates) | CompileEvent(tip: Option<nat>) | SpendEvent

  /** One request; a refused one changes nothing, and building a spend changes nothing. */
  function Next(row: Row, e: Event, lib: Library): Row {
    match e
    case PatchEvent(u) => Patched(row, u)
    case CompileEvent(tip) => (match CompileStep(row, tip, lib) case Ok(next) => next case Err(_) => row)
    case SpendEvent => row
  }

  function Run(row: Row, events: seq<Event>, lib: Library): Row
    decreases |events|
  {
    if events == [] then row else Run(Next(row, events[0], lib), events[1..], lib)
  }

  predicate Compiles(row: Row, e: Event, lib: Library) { e.CompileEvent? && CompileStep(row, e.tip, lib).Ok? }

  function CompileCount(row: Row, events: seq<Event>, lib: Library): nat
    decreases |events|
  {
    if events == [] then 0
    else (if Compiles(row, events[0], lib) then 1 else 0) + CompileCount(Next(row, events[0], lib), events[1..], lib)
  }

  /** Once compiled, nothing a later request does touches what the address depends on. */
  lemma {:induction false} CompiledIsFrozen(row: Row, events: seq<Event>, lib: Library)
    requires row.status.CompiledStatus?
    ensures CompileCount(row, events, lib) == 0
    ensures var later := Run(row, events, lib);
            later.leaves == row.leaves && later.consentKeys == row.consentKeys &&
                later.consentQuorum == row.consentQuorum
            && later.network == row.network && later.address == row.address && later.status == row.status
    decreases |events|
  {
    if events != [] {
      var next := Next(row, events[0], lib);
      assert next.status == row.status && next.leaves == row.leaves && next.network == row.network;
      CompiledIsFrozen(next, events[1..], lib);
    }
  }

  /** A stored row that claims an address rebuilds to that address on its own network. */
  predicate Consistent(row: Row, lib: Library) {
    if row.status.Draft? then row.address.None?
    else Rebuilt(row, lib).Some? && row.address == Some(Address(Rebuilt(row, lib).value.root, row.network))
  }

  lemma SameGate(policy: LeafPolicy, lib: Library)
    requires Compiled(policy, lib).Ok?
    ensures Compiled(if policy.HasConsent() then policy else LeafPolicy(policy.leaves, [], None), lib) ==
            Compiled(policy, lib)
  {
  }

  lemma {:induction false} ParsedKeysEmpty(keys: WireKeys)
    requires ParseKeys(keys).Some?
    ensures ParseKeys(keys).value == [] <==> keys == []
  {
  }

  /** Consent keys without a quorum gate nothing, so forwarding none compiles the same. */
  lemma ForwardedConsentCompilesTheSame(leaves: seq<StoredLeaf>, consentKeys: WireKeys, consentQuorum: Option<nat>,
                                        lib: Library)
    requires CompileRequest(leaves, consentKeys, consentQuorum, lib).Some?
    ensures var gated := consentKeys != [] && consentQuorum.Some?;
            CompileRequest(leaves, if gated then consentKeys else [], if gated then consentQuorum else None, lib) ==
            CompileRequest(leaves, consentKeys, consentQuorum, lib)
  {
    ParsedKeysEmpty(consentKeys);
    SameGate(ParseLeafPolicy(leaves, consentKeys, consentQuorum).value, lib);
  }

  lemma CompileIsConsistent(row: Row, tip: Option<nat>, lib: Library)
    requires CompileStep(row, tip, lib).Ok?
    ensures Consistent(CompileStep(row, tip, lib).value, lib)
    ensures var next := CompileStep(row, tip, lib).value; next.descriptor == Some(Rebuilt(next, lib).value.descriptor)
  {
    ForwardedConsentCompilesTheSame(CompileStep(row, tip, lib).value.leaves, row.consentKeys, row.consentQuorum, lib);
  }

  lemma StepKeepsConsistent(row: Row, e: Event, lib: Library)
    requires Consistent(row, lib)
    ensures Consistent(Next(row, e, lib), lib)
  {
    if Compiles(row, e, lib) { CompileIsConsistent(row, e.tip, lib); }
  }

  /** The lifecycle invariant, over every run: the stored policy always rebuilds to
      the stored address, and a vault is compiled at most once. */
  lemma {:induction false} EveryRunIsConsistent(row: Row, events: seq<Event>, lib: Library)
    requires Consistent(row, lib)
    ensures Consistent(Run(row, events, lib), lib)
    ensures CompileCount(row, events, lib) <= 1
    decreases |events|
  {
    if events != [] {
      var e := events[0];
      var next := Next(row, e, lib);
      StepKeepsConsistent(row, e, lib);
      EveryRunIsConsistent(next, events[1..], lib);
      if Compiles(row, e, lib) { CompiledIsFrozen(next, events[1..], lib); }
    }
  }

  /** From creation on: the row a run ends with is consistent. */
  lemma FromDraftOn(network: string, leaves: seq<StoredLeaf>, consentKeys: WireKeys, consentQuorum: Option<nat>,
                    events: seq<Event>, lib: Library)
    requires CreateDraft(network, leaves, consentKeys, consentQuorum).Ok?
    ensures var row := CreateDraft(network, leaves, consentKeys, consentQuorum).value;
            Consistent(Run(row, events, lib), lib) && CompileCount(row, events, lib) <= 1
  {
    EveryRunIsConsistent(CreateDraft(network, leaves, consentKeys, consentQuorum).value, events, lib);
  }

  /** The row just before event `n` of a run. */
  function RowBefore(row: Row, events: seq<Event>, n: nat, lib: Library): Row
    requires n <= |events|
  {
    Run(row, events[..n], lib)
  }

  /** The one event that compiled a compiled row: the leaves stored at the end are the
      draft's of that moment with that moment's tip added once, whatever came after. */
  lemma {:induction false} CompiledOnceFrom(row: Row, events: seq<Event>, lib: Library)
    returns (n: nat)
    requires row.status.Draft? && Run(row, events, lib).status.CompiledStatus?
    ensures n < |events| && Compiles(RowBefore(row, events, n, lib), events[n], lib)
    ensures var draft, tip := RowBefore(row, events, n, lib), events[n].tip;
            && Run(row, events, lib).leaves == CompileStep(draft, tip, lib).value.leaves
            && Run(row, events, lib).address == CompileStep(draft, tip, lib).value.address
            && AllCarriedOver(draft.leaves, Run(row, events, lib).leaves, tip)
            && Run(row, events, lib).network == draft.network
            && Run(row, events, lib).consentKeys == draft.consentKeys
            && Run(row, events, lib).consentQuorum == draft.consentQuorum
    decreases |events|
  {
    var e := events[0];
    var next := Next(row, e, lib);
    if next.status.CompiledStatus? {
      n := 0;
      assert events[..0] == [];
      StoredAsDrafted(row, e.tip, lib);
      CompiledIsFrozen(next, events[1..], lib);
    } else {
      var later := CompiledOnceFrom(next, events[1..], lib);
      n := later + 1;
      assert events[..n][0] == e && events[..n][1..] == events[1..][..later];
    }
  }

  lemma {:induction false} ParsedLeafAt(leaves: seq<StoredLeaf>, i: nat)
    requires ParseLeaves(leaves).Some? && i < |leaves|
    ensures ParseLeaf(leaves[i]) == Some(ParseLeaves(leaves).value[i])
  {
    if i > 0 { ParsedLeafAt(leaves[1..], i - 1); }
  }

  // ---- What becomes of a drafted leaf ----

  /** A stored leaf is the drafted one in everything but the blocks of an `after` leaf:
      those are the tip and the drafted delay added up, or zero if no delay was drafted. */
  predicate CarriedOver(draft: StoredLeaf, stored: StoredLeaf, tip: Option<nat>) {
    && stored.id == draft.id && stored.keys == draft.keys && stored.quorum == draft.quorum
    && stored.decay == draft.decay && stored.unlock.kind == draft.unlock.kind
    && if draft.unlock.kind != "after" then stored.unlock.blocks == draft.unlock.blocks
       else if draft.unlock.blocks == Missing || draft.unlock.blocks == Whole(0) then
         stored.unlock.blocks == Whole(0)
       else tip.Some? && draft.unlock.blocks.Whole? && draft.unlock.blocks.n > 0
            && stored.unlock.blocks == Whole(tip.value + draft.unlock.blocks.n)
  }

  predicate AllCarriedOver(draft: seq<StoredLeaf>, stored: seq<StoredLeaf>, tip: Option<nat>) {
    |stored| == |draft| && forall i :: 0 <= i < |draft| ==> CarriedOver(draft[i], stored[i], tip)
  }

  /** A compiled row keeps everything of its draft but those blocks, and its address is on
      its own network. */
  lemma StoredAsDrafted(row: Row, tip: Option<nat>, lib: Library)
    requires CompileStep(row, tip, lib).Ok?
    ensures var next := CompileStep(row, tip, lib).value;
            && AllCarriedOver(row.leaves, next.leaves, tip)
            && next.consentKeys == row.consentKeys && next.consentQuorum == row.consentQuorum
            && next.network == row.network && next.status.CompiledStatus?
            && next.address.Some? && next.address.value.network == row.network
  {
    DraftChecksExactly(row);
    CarriedOverByWire(row, tip);
  }

  /** A leaf a draft may be compiled with: named, with public keys and a quorum they can
      meet, and with no `after` delay or one of 26,000 blocks at least. */
  predicate Draftable(leaf: StoredLeaf) {
    && leaf.id != "" && 1 <= leaf.quorum <= |leaf.keys|
    && (forall i :: 0 <= i < |leaf.keys| ==> leaf.keys[i] != PrivateExtendedKey)
    && (leaf.unlock.kind == "after" ==>
          leaf.unlock.blocks == Missing
          || (leaf.unlock.blocks.Whole? && (leaf.unlock.blocks.n == 0 || leaf.unlock.blocks.n >= 26_000)))
  }

  predicate AllDraftable(leaves: seq<StoredLeaf>) { forall i :: 0 <= i < |leaves| ==> Draftable(leaves[i]) }

  predicate TipNeeded(leaves: seq<StoredLeaf>) {
    exists i :: 0 <= i < |leaves| && leaves[i].unlock.kind == "after"
  }

  /** A row compiles exactly when it is a draft with leaves, all of them draftable, no
      consent key is private, the tip is known if an `after` leaf needs it, and the
      compiler takes the leaves so carried over; a refusal names the first of these to fail. */
  lemma CompilesExactlyWhen(row: Row, tip: Option<nat>, lib: Library)
    ensures var r := CompileStep(row, tip, lib);
            if row.status == CompiledStatus then r == Err(NotDraft)
            else if row.leaves == [] then r == Err(NoLeaves)
            else if !AllDraftable(row.leaves) then r == Err(BadLeaf)
            else if exists i :: 0 <= i < |row.consentKeys| && row.consentKeys[i] == PrivateExtendedKey then
              r == Err(PrivateKey)
            else if TipNeeded(row.leaves) && tip == None then r == Err(NoTip)
            else exists wire :: AllCarriedOver(row.leaves, wire, tip) &&
                   if CompileRequest(wire, row.consentKeys, row.consentQuorum, lib).Some? then
                     r.Ok? && r.value.leaves == wire
                   else r == Err(CompilerRefused)
  {
    var r := CompileStep(row, tip, lib);
    DraftChecksExactly(row);
    if AllDraftable(row.leaves) && (TipNeeded(row.leaves) ==> tip.Some?) {
      CarriedOverByWire(row, tip);
      assert AllCarriedOver(row.leaves, WireOf(row, tip), tip);
    }
  }

  lemma DraftChecksExactly(row: Row)
    ensures AllDraftable(row.leaves) <==> forall l | l in row.leaves :: LeafOk(l)
    ensures TipNeeded(row.leaves) <==> NeedsTip(row.leaves)
    ensures (exists k | k in row.consentKeys :: k.PrivateExtendedKey?) <==>
            exists i :: 0 <= i < |row.consentKeys| && row.consentKeys[i] == PrivateExtendedKey
  {
    forall i | 0 <= i < |row.leaves| ensures Draftable(row.leaves[i]) <==> LeafOk(row.leaves[i]) {
      DraftableExactly(row.leaves[i]);
    }
    assert forall l :: l in row.leaves <==> exists i :: 0 <= i < |row.leaves| && row.leaves[i] == l;
  }

  lemma DraftableExactly(leaf: StoredLeaf)
    ensures Draftable(leaf) <==> LeafOk(leaf)
  {
    assert forall k :: k in leaf.keys <==> exists i :: 0 <= i < |leaf.keys| && leaf.keys[i] == k;
  }

  lemma CarriedOverByWire(row: Row, tip: Option<nat>)
    requires AllDraftable(row.leaves) && (TipNeeded(row.leaves) ==> tip.Some?)
    ensures AllCarriedOver(row.leaves, WireOf(row, tip), tip)
  {
    DraftChecksExactly(row);
    forall i | 0 <= i < |row.leaves| ensures CarriedOver(row.leaves[i], WireOf(row, tip)[i], tip) {
      assert Draftable(row.leaves[i]);
      if row.leaves[i].unlock.kind == "after" { assert TipNeeded(row.leaves); }
    }
  }

  /** The compiler's leaf for a drafted one: its id, keys, quorum and decay, opening at
      once, at the tip plus the drafted delay, or after the drafted age. */
  predicate CompiledFrom(draft: StoredLeaf, leaf: Leaf, tip: Option<nat>) {
    && leaf.id == draft.id && leaf.quorum == draft.quorum && leaf.decay == draft.decay
    && SameKeys(draft.keys, leaf.keys)
    && match draft.unlock
       case StoredUnlock("immediate", _) => leaf.unlock == Immediate
       case StoredUnlock("older", Whole(n)) => leaf.unlock.OlderThan? && leaf.unlock.blocks == n
       case StoredUnlock("after", Whole(n)) =>
         leaf.unlock.After? && leaf.unlock.blocks == if n > 0 then tip.GetOr(0) + n else 0
       case StoredUnlock("after", Missing) => leaf.unlock == Unlock.After(0)
       case _ => false
  }

  /** So what the stored address commits to are the drafted leaves, one by one. */
  lemma CompiledAsDrafted(row: Row, tip: Option<nat>, lib: Library)
    requires CompileStep(row, tip, lib).Ok?
    ensures var parsed := ParseLeaves(CompileStep(row, tip, lib).value.leaves);
            && parsed.Some? && |parsed.value| == |row.leaves|
            && (forall i :: 0 <= i < |row.leaves| ==> CompiledFrom(row.leaves[i], parsed.value[i], tip))
            && (NeedsTip(row.leaves) ==> tip.Some?)
  {
    var stored := CompileStep(row, tip, lib).value.leaves;
    StoredAsDrafted(row, tip, lib);
    LeavesParseExactly(stored);
    forall i | 0 <= i < |row.leaves| ensures CompiledFrom(row.leaves[i], ParseLeaves(stored).value[i], tip) {
      assert CarriedOver(row.leaves[i], stored[i], tip) && SameLeaf(stored[i], ParseLeaves(stored).value[i]);
      assert WireLeafOk(stored[i]);
    }
  }

  /** Over every run, a compiled row's leaves are what one draft's leaves say at the tip they
      were compiled at: same ids, keys, quorums and decay, opening when drafted. */
  lemma CompiledRowIsDraft(row: Row, events: seq<Event>, lib: Library) returns (n: nat)
    requires row.status.Draft? && Run(row, events, lib).status.CompiledStatus?
    ensures n < |events| && Compiles(RowBefore(row, events, n, lib), events[n], lib)
    ensures var draft, parsed := RowBefore(row, events, n, lib).leaves, ParseLeaves(Run(row, events, lib).leaves);
            && parsed.Some? && |parsed.value| == |draft|
            && (forall i :: 0 <= i < |draft| ==> CompiledFrom(draft[i], parsed.value[i], events[n].tip))
  {
    n := CompiledOnceFrom(row, events, lib);
    CompiledAsDrafted(RowBefore(row, events, n, lib), events[n].tip, lib);
  }

  /** The leaf was drafted to open only after a nonzero number of blocks. */
  predicate DelayedLeaf(leaf: StoredLeaf) {
    leaf.unlock.kind == "after" && leaf.unlock.blocks != Missing && leaf.unlock.blocks != Whole(0)
  }

  /** Every rung this leaf compiles to opens at an absolute height of at least `height`. */
  ghost predicate OpensNoEarlierThan(leaf: Leaf, height: nat) {
    Expanded(leaf).Ok? && forall rung | rung in Expanded(leaf).value ::
      rung.unlock.After? && rung.unlock.blocks >= height && rung.keys == leaf.keys
  }

  /** On chain, no rung of this leaf opens before `height`. */
  ghost predicate WaitsOnChain(leaf: Leaf, height: nat)
    requires Expanded(leaf).Ok?
  {
    forall rung, m | rung in Expanded(leaf).value && UnlockOnChain(rung.unlock, m) :: m.height >= height
  }

  /** Rungs that say a height or more wait for it exactly when the last one is a height. */
  lemma WaitsExactly(leaf: Leaf, height: nat)
    requires leaf.unlock.After? && height > 0 && OpensNoEarlierThan(leaf, height)
    ensures WaitsOnChain(leaf, height) <==> LeafInRange(leaf)
  {
    RungsBounded(leaf);
    var rungs := Expanded(leaf).value;
    var last := rungs[|rungs| - 1];
    if !LeafInRange(leaf) {
      var m := EarlyForAfter(last.unlock.blocks, {});
      assert last in rungs && UnlockOnChain(last.unlock, m) && m.height == 0;
    }
  }

  /** Delays survive compilation: a leaf drafted `after` a nonzero number of blocks
      compiles to rungs that all say at least 26,000 blocks past the tip it was
      compiled at, and the chain holds them to it exactly when the last rung is a height. */
  lemma CompiledDelaysHold(row: Row, tip: Option<nat>, lib: Library, i: nat)
    requires CompileStep(row, tip, lib).Ok? && i < |row.leaves| && DelayedLeaf(row.leaves[i])
    ensures tip.Some? && row.leaves[i].unlock.blocks.Whole?
    ensures |CompileStep(row, tip, lib).value.leaves| == |row.leaves|
    ensures var leaf := ParseLeaf(CompileStep(row, tip, lib).value.leaves[i]);
            && leaf.Some? && leaf.value.unlock.After? &&
                leaf.value.unlock.blocks == tip.value + row.leaves[i].unlock.blocks.n
            && OpensNoEarlierThan(leaf.value, tip.value + MIN_RECOVERY_BLOCKS)
            && (WaitsOnChain(leaf.value, tip.value + MIN_RECOVERY_BLOCKS) <==> LeafInRange(leaf.value))
  {
    var next := CompileStep(row, tip, lib).value;
    assert row.leaves[i] in row.leaves && LeafOk(row.leaves[i]);
    CompiledParts(row, tip, lib);
    WireOfDelayed(row.leaves[i], tip.value);
    var leaves := ParseLeaves(next.leaves).value;
    ParsedLeafAt(next.leaves, i);
    FlattenedExpand(leaves);
    RungsNeverEarlier(leaves[i]);
    WaitsExactly(leaves[i], tip.value + MIN_RECOVERY_BLOCKS);
  }

  lemma WireOfDelayed(leaf: StoredLeaf, tip: nat)
    requires LeafOk(leaf) && DelayedLeaf(leaf)
    ensures leaf.unlock.blocks.Whole? && leaf.unlock.blocks.n >= MIN_RECOVERY_BLOCKS
    ensures var parsed := ParseLeaf(WireLeaf(leaf, tip));
            parsed.Some? ==> parsed.value.unlock.After? && parsed.value.unlock.blocks == tip + leaf.unlock.blocks.n
  {
  }

  lemma CompiledParts(row: Row, tip: Option<nat>, lib: Library)
    requires CompileStep(row, tip, lib).Ok?
    ensures NeedsTip(row.leaves) ==> tip.Some?
    ensures CompileStep(row, tip, lib).value.leaves == WireOf(row, tip)
    ensures var leaves := ParseLeaves(CompileStep(row, tip, lib).value.leaves);
            leaves.Some? && Flatten(leaves.value).Ok?
  {
  }

  /** No rung of an absolute leaf unlocks before the leaf's own height, or to other keys. */
  lemma RungsNeverEarlier(leaf: Leaf)
    requires leaf.unlock.After? && Expanded(leaf).Ok?
    ensures OpensNoEarlierThan(leaf, leaf.unlock.blocks)
  {
    RungsBounded(leaf);
  }
}
