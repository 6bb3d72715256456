/** Building the unsigned transaction of a vault spend: value, leaf selection,
    timelock stamping and the signing data of each input. */
module PsbtBinary {
  import opened Wrappers
  import opened SpendPolicy
  import opened Consensus
  import opened Taproot
  import opened Descriptor
  import opened LeafPolicies
  import opened LeafCompiler
  import opened LeafMeaning
  import opened DynastyPolicies
  import opened Refinement
  import opened CoinSelection

  const U64_MODULUS: nat := 0x1_0000_0000_0000_0000
  type u64 = n: nat | n < U64_MODULUS

  const ENABLE_RBF_NO_LOCKTIME: nat := 0xffff_fffd

  /** Output scripts: a vault's own (a function of its root), a witness script hash, or any other. */
  datatype ScriptPubkey = VaultOutput(root: Hash) | P2wsh(id: nat) | OtherOutput(id: nat)

  /** One coin as the request describes it; `None` is a malformed txid or script. */
  datatype UtxoInput = UtxoInput(txid: Option<nat>, vout: nat, value: u64, script: Option<ScriptPubkey>)

  datatype PolicyParams = LeafList(leafPolicy: LeafPolicy) | Named(named: DynastyPolicy) | Unspecified

  /** `None` addresses do not parse or belong to another network. */
  datatype PsbtRequest = PsbtRequest(
    inputs: seq<UtxoInput>, destination: Option<ScriptPubkey>, amount: u64, fee: u64,
    changeAddress: Option<ScriptPubkey>, path: string, params: PolicyParams)

  datatype PsbtError =
    | NoInputs | SumOverflow | AmountOverflow | Insufficient | BadTxid | BadDestination | BadChangeAddress
    | LeafPolicyRejected(error: PolicyError) | UnknownPath | BadLockTime | ChangeMismatch
    | BadInputScript | InputMismatch

  datatype TxOut = TxOut(value: nat, script: ScriptPubkey)
  datatype TapLeaf = TapLeaf(script: Script, controlBlock: seq<Hash>)
  datatype PsbtInput = PsbtInput(outpoint: OutPoint, sequence: nat, value: nat, script: ScriptPubkey,
                                 tapLeaf: Option<TapLeaf>)
  datatype Psbt = Psbt(version: nat, lockTime: nat, inputs: seq<PsbtInput>, outputs: seq<TxOut>, hasTapLeaf: bool)

  // ---- Value ----

  function InputTotal(inputs: seq<UtxoInput>): nat {
    if inputs == [] then 0 else inputs[0].value + InputTotal(inputs[1..])
  }

  function Leftover(req: PsbtRequest): int { InputTotal(req.inputs) - req.amount - req.fee }

  /** `SumOverflow` is the overflow check of the release build, which ends the request
      when the coins do not sum to 64 bits. */
  function Outputs(req: PsbtRequest): Result<seq<TxOut>, PsbtError> {
    if req.inputs == [] then Err(NoInputs)
    else if InputTotal(req.inputs) >= U64_MODULUS then Err(SumOverflow)
    else if req.amount + req.fee >= U64_MODULUS then Err(AmountOverflow)
    else if Leftover(req) < 0 then Err(Insufficient)
    else if exists u | u in req.inputs :: u.txid.None? then Err(BadTxid)
    else if req.destination.None? then Err(BadDestination)
    else
      var pay := TxOut(req.amount, req.destination.value);
      if Leftover(req) < DUST then Ok([pay])
      else if req.changeAddress.None? then Err(BadChangeAddress)
      else Ok([pay, TxOut(Leftover(req), req.changeAddress.value)])
  }

  // ---- Policy and path ----

  /** The rebuilt vault. A rejected leaf list is an error; a rejected named policy just leaves none. */
  function FullOutput(params: PolicyParams, lib: Library): Result<Option<MultileafOutput>, PsbtError> {
    match params
    case LeafList(policy) =>
      (match Compiled(policy, lib) case Ok(out) => Ok(Some(out)) case Err(e) => Err(LeafPolicyRejected(e)))
    case Named(policy) =>
      (match BuildMultileaf(policy, lib) case Ok(out) => Ok(Some(out)) case Err(_) => Ok(None))
    case Unspecified => Ok(None)
  }

  function Find<T>(table: seq<(string, T)>, id: string): Option<T> {
    if table == [] then None else if table[0].0 == id then Some(table[0].1) else Find(table[1..], id)
  }

  /** The leaf to spend, `lock_time`, and the relative lock for `nSequence`, if any. */
  datatype Selection = Selection(leaf: Option<Script>, lockTime: nat, relative: Option<u32>)

  function FromHeight(blocks: nat): Result<nat, PsbtError> {
    if blocks < LOCKTIME_THRESHOLD then Ok(blocks) else Err(BadLockTime)
  }

  function SelectListed(out: MultileafOutput, path: string): Result<Selection, PsbtError> {
    var leaf := Find(out.leafScripts, path);
    if leaf.None? then Err(UnknownPath)
    else
      match Find(out.leafUnlocks, path)
      case None => Ok(Selection(leaf, 0, None))
      case Some(unlock) =>
        match unlock
        case Immediate => Ok(Selection(leaf, 0, None))
        case After(blocks) =>
          if blocks == 0 then Ok(Selection(leaf, 0, None))
          else (match FromHeight(blocks) case Err(e) => Err(e) case Ok(h) => Ok(Selection(leaf, h, None)))
        case OlderThan(blocks) => Ok(Selection(leaf, 0, Some(blocks)))
  }

  function NamedHeight(params: PolicyParams, path: string): Option<nat> {
    if !params.Named? then None
    else if path == "recovery" then Some(params.named.recoveryAfter)
    else if path == "inheritance" then Some(params.named.inheritanceAfter)
    else if path == "second_inheritance" then params.named.secondInheritanceAfter
    else None
  }

  function NamedLeaf(out: MultileafOutput, path: string): Option<Script> {
    if path == "recovery" || path == "backup" then out.recoveryLeaf
    else if path == "inheritance" then out.inheritanceLeaf
    else if path == "second_inheritance" then out.secondInheritanceLeaf
    else Some(out.founderLeaf)
  }

  predicate ValidPath(path: string) {
    path in {"founders_now", "recovery", "inheritance", "backup", "second_inheritance"}
  }

  function SelectNamed(params: PolicyParams, out: Option<MultileafOutput>, path: string): Result<Selection, PsbtError> {
    if !ValidPath(path) then Err(UnknownPath)
    else
      match FromHeight(NamedHeight(params, path).GetOr(0))
      case Err(e) => Err(e)
      case Ok(lockTime) => Ok(Selection(if out.Some? then NamedLeaf(out.value, path) else None, lockTime, None))
  }

  function Select(params: PolicyParams, out: Option<MultileafOutput>, path: string): Result<Selection, PsbtError>
    requires params.LeafList? ==> out.Some?
  {
    if params.LeafList? then SelectListed(out.value, path) else SelectNamed(params, out, path)
  }

  /** The block count is cast to 16 bits. */
  function SequenceFor(relative: Option<u32>): nat {
    if relative.Some? then relative.value % 0x1_0000 else ENABLE_RBF_NO_LOCKTIME
  }

  // ---- Inputs ----

  function TapLeafFor(out: Option<MultileafOutput>, leaf: Option<Script>): Option<TapLeaf> {
    if out.None? || leaf.None? then None
    else
      match ControlBlock(out.value.tree, leaf.value)
      case None => None
      case Some(path) => Some(TapLeaf(leaf.value, path))
  }

  function InputProblem(u: UtxoInput, out: Option<MultileafOutput>): Option<PsbtError> {
    if u.script.None? then Some(BadInputScript)
    else if out.Some? && u.script.value != VaultOutput(out.value.root) then Some(InputMismatch)
    else None
  }

  function FirstProblem(inputs: seq<UtxoInput>, out: Option<MultileafOutput>): Option<PsbtError> {
    if inputs == [] then None
    else if InputProblem(inputs[0], out).Some? then InputProblem(inputs[0], out)
    else FirstProblem(inputs[1..], out)
  }

  function FilledInput(u: UtxoInput, sequence: nat, out: Option<MultileafOutput>, leaf: Option<Script>): PsbtInput
    requires u.txid.Some? && u.script.Some?
  {
    PsbtInput(OutPoint(u.txid.value, u.vout), sequence, u.value, u.script.value,
              if u.script.value.VaultOutput? then TapLeafFor(out, leaf) else None)
  }

  ghost predicate Filled(inputs: seq<UtxoInput>, filled: seq<PsbtInput>, sequence: nat,
                         out: Option<MultileafOutput>, leaf: Option<Script>)
  {
    |filled| == |inputs| && forall i :: 0 <= i < |inputs| ==>
      inputs[i].txid.Some? && inputs[i].script.Some? && filled[i] == FilledInput(inputs[i], sequence, out, leaf)
  }

  /** Everything a built transaction promises, given the request. */
  ghost predicate Built(req: PsbtRequest, lib: Library, psbt: Psbt) {
    && Outputs(req) == Ok(psbt.outputs)
    && FullOutput(req.params, lib).Ok?
    && var out := FullOutput(req.params, lib).value;
    && (req.params.LeafList? ==> out.Some?)
    && Select(req.params, out, req.path).Ok?
    && var selection := Select(req.params, out, req.path).value;
    && psbt.version == 2 && psbt.lockTime == selection.lockTime
    && (out.Some? && |psbt.outputs| == 2 ==> psbt.outputs[1].script == VaultOutput(out.value.root))
    && FirstProblem(req.inputs, out).None?
    && Filled(req.inputs, psbt.inputs, SequenceFor(selection.relative), out, selection.leaf)
    && psbt.hasTapLeaf == (out.Some? && selection.leaf.Some?)
  }

  /** Why a request is refused, in the order the source checks. */
  ghost predicate Refused(req: PsbtRequest, lib: Library, error: PsbtError) {
    || Outputs(req) == Err(error)
    || (Outputs(req).Ok? && FullOutput(req.params, lib) == Err(error))
    || (Outputs(req).Ok? && FullOutput(req.params, lib).Ok?
        && var out := FullOutput(req.params, lib).value;
        (req.params.LeafList? ==> out.Some?) &&
        (|| Select(req.params, out, req.path) == Err(error)
         || (Select(req.params, out, req.path).Ok?
             && if out.Some? && |Outputs(req).value| == 2 && Outputs(req).value[1].script != VaultOutput(out.value.root)
                then error == ChangeMismatch
                else FirstProblem(req.inputs, out) == Some(error))))
  }

  method BuildPsbt(req: PsbtRequest, lib: Library) returns (r: Result<Psbt, PsbtError>)
    requires Faithful(lib)
    ensures r.Ok? ==> Built(req, lib, r.value)
    ensures r.Err? ==> Refused(req, lib, r.error)
  {
    var txOutputs := PushOutputs(req);
    if txOutputs.Err? { return Err(txOutputs.error); }
    var rebuilt := RebuildVault(req.params, lib);
    if rebuilt.Err? { return Err(rebuilt.error); }
    var out := rebuilt.value;
    var selected := Select(req.params, out, req.path);
    if selected.Err? { return Err(selected.error); }
    var selection := selected.value;
    if |txOutputs.value| == 2 && out.Some? && txOutputs.value[1].script != VaultOutput(out.value.root) {
      return Err(ChangeMismatch);
    }
    var inputs := FillInputs(req.inputs, SequenceFor(selection.relative), out, selection.leaf);
    if inputs.Err? { return Err(inputs.error); }
    return Ok(Psbt(2, selection.lockTime, inputs.value, txOutputs.value, out.Some? && selection.leaf.Some?));
  }

  /** Sums the inputs and pushes the payment and, above dust, the change. */
  method PushOutputs(req: PsbtRequest) returns (r: Result<seq<TxOut>, PsbtError>)
    ensures r == Outputs(req)
    ensures r == Err(SumOverflow) <==> InputTotal(req.inputs) >= U64_MODULUS
    ensures r.Ok? ==> forall u | u in req.inputs :: u.txid.Some?
  {
    if req.inputs == [] { return Err(NoInputs); }
    var sum := SumInputs(req.inputs);
    if sum.None? { return Err(SumOverflow); }
    var totalIn := sum.value;
    var totalNeed := req.amount + req.fee;
    if totalNeed >= U64_MODULUS { return Err(AmountOverflow); }
    if totalIn < totalNeed { return Err(Insufficient); }
    var changeValue := totalIn - totalNeed;
    var hasChange := changeValue >= DUST;
    if exists u | u in req.inputs :: u.txid.None? { return Err(BadTxid); }
    if req.destination.None? { return Err(BadDestination); }
    var txOutputs := [TxOut(req.amount, req.destination.value)];
    if hasChange {
      if req.changeAddress.None? { return Err(BadChangeAddress); }
      txOutputs := txOutputs + [TxOut(changeValue, req.changeAddress.value)];
    }
    assert hasChange ==> txOutputs == [txOutputs[0], txOutputs[1]];
    return Ok(txOutputs);
  }

  method RebuildVault(params: PolicyParams, lib: Library) returns (r: Result<Option<MultileafOutput>, PsbtError>)
    requires Faithful(lib)
    ensures r == FullOutput(params, lib)
  {
    match params {
      case LeafList(policy) =>
        var built := BuildLeafMultileaf(policy, lib);
        if built.Err? { return Err(LeafPolicyRejected(built.error)); }
        return Ok(Some(built.value));
      case Named(policy) =>
        var built := BuildMultileaf(policy, lib);
        if built.Ok? { return Ok(Some(built.value)); }
        return Ok(None);
      case Unspecified => return Ok(None);
    }
  }

  /** What a rebuilt vault is good for: its root is the one its descriptor derives,
      and the chain lets it be spent exactly when its printed policy is satisfied. */
  lemma RebuiltVaultMeansItsPolicy(params: PolicyParams, lib: Library, out: MultileafOutput, m: Moment)
    requires Faithful(lib) && FullOutput(params, lib) == Ok(Some(out))
    ensures DescriptorRoot(out.descriptor, lib) == Some(out.root)
    ensures Spendable(out.root, m) <==> ChainSat(out.policy, m)
  {
    match params
    case LeafList(policy) =>
      DescriptorMatchesAddress(policy, lib);
      CompilationPreservesMeaning(policy, lib, m);
    case Named(policy) =>
      NamedDescriptorMatchesAddress(policy, lib);
      NamedOutput(policy, lib);
      TreeMeansNestedOr(Branches(policy), m);
  }

  /** Checks each coin's script against the vault's own and attaches the signing data. */
  method FillInputs(coins: seq<UtxoInput>, sequence: nat, out: Option<MultileafOutput>, leaf: Option<Script>)
    returns (r: Result<seq<PsbtInput>, PsbtError>)
    requires forall u | u in coins :: u.txid.Some?
    ensures r.Ok? ==> FirstProblem(coins, out).None? && Filled(coins, r.value, sequence, out, leaf)
    ensures r.Err? ==> FirstProblem(coins, out) == Some(r.error)
  {
    var inputs: seq<PsbtInput> := [];
    for i := 0 to |coins|
      invariant |inputs| == i && Filled(coins[..i], inputs, sequence, out, leaf)
      invariant FirstProblem(coins, out) == FirstProblem(coins[i..], out)
    {
      var u := coins[i];
      assert coins[i..][0] == u && coins[i..][1..] == coins[i + 1..] && u in coins;
      var problem := InputProblem(u, out);
      if problem.Some? { return Err(problem.value); }
      inputs := inputs + [FilledInput(u, sequence, out, leaf)];
    }
    assert coins[..|coins|] == coins;
    return Ok(inputs);
  }

  /** The sum stops at the first coin that takes it past 64 bits, and only if the whole sum is past them. */
  method SumInputs(inputs: seq<UtxoInput>) returns (total: Option<u64>)
    ensures total == if InputTotal(inputs) < U64_MODULUS then Some(InputTotal(inputs)) else None
  {
    var sum: u64 := 0;
    for i := 0 to |inputs|
      invariant sum == InputTotal(inputs[..i])
    {
      assert inputs[..i + 1] == inputs[..i] + [inputs[i]];
      InputTotalAppend(inputs[..i], inputs[i]);
      if sum + inputs[i].value >= U64_MODULUS {
        PrefixTotal(inputs, i + 1);
        return None;
      }
      sum := sum + inputs[i].value;
    }
    assert inputs[..|inputs|] == inputs;
    return Some(sum);
  }

  lemma {:induction false} PrefixTotal(inputs: seq<UtxoInput>, k: nat)
    requires k <= |inputs|
    ensures InputTotal(inputs[..k]) <= InputTotal(inputs)
  {
    if k > 0 {
      PrefixTotal(inputs[1..], k - 1);
      assert inputs[..k][1..] == inputs[1..][..k - 1];
    }
  }

  lemma {:induction false} InputTotalAppend(inputs: seq<UtxoInput>, u: UtxoInput)
    ensures InputTotal(inputs + [u]) == InputTotal(inputs) + u.value
  {
    if inputs != [] {
      assert (inputs + [u])[1..] == inputs[1..] + [u];
      InputTotalAppend(inputs[1..], u);
    }
  }

  // ---- Value is conserved ----

  function OutputTotal(outputs: seq<TxOut>): nat {
    if outputs == [] then 0 else outputs[0].value + OutputTotal(outputs[1..])
  }

  function SpentTotal(inputs: seq<PsbtInput>): nat {
    if inputs == [] then 0 else inputs[0].value + SpentTotal(inputs[1..])
  }

  lemma {:induction false} SpentIsInputTotal(inputs: seq<UtxoInput>, filled: seq<PsbtInput>, sequence: nat,
                                             out: Option<MultileafOutput>, leaf: Option<Script>)
    requires Filled(inputs, filled, sequence, out, leaf)
    ensures SpentTotal(filled) == InputTotal(inputs)
  {
    if inputs != [] { SpentIsInputTotal(inputs[1..], filled[1..], sequence, out, leaf); }
  }

  /** Whatever comes in goes to the destination, to change, or to the miners, in every
      built transaction; the miners get the quoted fee and at most 545 satoshis of
      dust, and change is made exactly when more than that is left. */
  lemma ValueIsConserved(req: PsbtRequest, lib: Library, psbt: Psbt)
    requires Built(req, lib, psbt)
    ensures psbt.outputs[0].value == req.amount && 1 <= |psbt.outputs| <= 2
    ensures 0 <= SpentTotal(psbt.inputs) - OutputTotal(psbt.outputs) - req.fee < DUST
    ensures |psbt.outputs| == 2 <==> SpentTotal(psbt.inputs) - req.amount - req.fee >= DUST
    ensures |psbt.outputs| == 2 ==> SpentTotal(psbt.inputs) == OutputTotal(psbt.outputs) + req.fee
  {
    var out := FullOutput(req.params, lib).value;
    var selection := Select(req.params, out, req.path).value;
    SpentIsInputTotal(req.inputs, psbt.inputs, SequenceFor(selection.relative), out, selection.leaf);
    OutputsTakeTotal(req, psbt.outputs);
  }

  lemma OutputsTakeTotal(req: PsbtRequest, outputs: seq<TxOut>)
    requires Outputs(req) == Ok(outputs)
    ensures OutputTotal(outputs) + req.fee + (if |outputs| == 1 then Leftover(req) else 0) == InputTotal(req.inputs)
    ensures 1 <= |outputs| <= 2 && (|outputs| == 1 <==> Leftover(req) < DUST) && Leftover(req) >= 0
  {
    if |outputs| == 2 {
      assert outputs[1..][1..] == [];
      assert OutputTotal(outputs[1..]) == outputs[1].value;
    }
  }

  // ---- Whom a built transaction pays, and from what ----

  /** The destination gets the asked amount, what is left over goes to the change address
      if it is worth an output, and the transaction spends the request's coins, one by
      one and in order, and nothing else. */
  lemma PaysAsAsked(req: PsbtRequest, lib: Library, psbt: Psbt)
    requires Built(req, lib, psbt)
    ensures req.destination.Some? && 1 <= |psbt.outputs| <= 2
    ensures psbt.outputs[0] == TxOut(req.amount, req.destination.value)
    ensures |psbt.outputs| == 2 ==>
              req.changeAddress.Some?
              && psbt.outputs[1] == TxOut(InputTotal(req.inputs) - req.amount - req.fee, req.changeAddress.value)
    ensures |psbt.outputs| == 2 <==> InputTotal(req.inputs) - req.amount - req.fee >= 546
    ensures |psbt.inputs| == |req.inputs|
    ensures forall i :: 0 <= i < |psbt.inputs| ==>
              && req.inputs[i].txid == Some(psbt.inputs[i].outpoint.txid)
              && req.inputs[i].vout == psbt.inputs[i].outpoint.vout
              && req.inputs[i].value == psbt.inputs[i].value && req.inputs[i].script == Some(psbt.inputs[i].script)
  {
  }

  /** With no vault to rebuild, a transaction still carries the lock time the path asks for,
      and no script to sign for. */
  lemma UnbuiltVaultSpend(req: PsbtRequest, lib: Library, psbt: Psbt)
    requires Built(req, lib, psbt) && RebuiltOutput(req, lib).None?
    ensures !psbt.hasTapLeaf && !req.params.LeafList?
    ensures forall u | u in psbt.inputs :: u.tapLeaf.None? && u.sequence == 0xffff_fffd
    ensures var p := req.params;
            psbt.lockTime ==
              if p.Unspecified? then 0
              else if req.path == "recovery" then p.named.recoveryAfter
              else if req.path == "inheritance" then p.named.inheritanceAfter
              else if req.path == "second_inheritance" then p.named.secondInheritanceAfter.GetOr(0)
              else 0
  {
  }

  // ---- When a transaction is built ----

  /** The vault rebuilt from the request, if there is one. */
  function RebuiltOutput(req: PsbtRequest, lib: Library): Option<MultileafOutput> {
    var r := FullOutput(req.params, lib);
    if r.Ok? then r.value else None
  }

  predicate LeavesChange(req: PsbtRequest) { InputTotal(req.inputs) >= req.amount + req.fee + 546 }

  /** The path names a leaf that opens at a time and not at a height. */
  ghost predicate TimeValuedPath(req: PsbtRequest, lib: Library) {
    match req.params
    case LeafList(policy) =>
      Compiled(policy, lib).Ok? && ListedAsTime(Compiled(policy, lib).value.leafUnlocks, req.path)
    case Named(p) =>
      || (req.path == "recovery" && p.recoveryAfter >= 500_000_000)
      || (req.path == "inheritance" && p.inheritanceAfter >= 500_000_000)
      || (req.path == "second_inheritance" && p.secondInheritanceAfter.GetOr(0) >= 500_000_000)
    case Unspecified => false
  }

  predicate FirstListed<T>(table: seq<(string, T)>, id: string, i: int) {
    0 <= i < |table| && table[i].0 == id && forall j :: 0 <= j < i ==> table[j].0 != id
  }

  /** The first entry under the path opens at a time. */
  ghost predicate ListedAsTime(unlocks: seq<(string, Unlock)>, path: string) {
    exists i ::
      FirstListed(unlocks, path, i) && unlocks[i].1.After? && unlocks[i].1.blocks >= 500_000_000
  }

  /** The path is none of the vault's. */
  ghost predicate NoSuchPath(req: PsbtRequest, lib: Library) {
    if req.params.LeafList? then
      Compiled(req.params.leafPolicy, lib).Ok?
      && forall i :: 0 <= i < |Compiled(req.params.leafPolicy, lib).value.leafScripts| ==>
           Compiled(req.params.leafPolicy, lib).value.leafScripts[i].0 != req.path
    else
      req.path != "founders_now" && req.path != "recovery" && req.path != "inheritance"
      && req.path != "backup" && req.path != "second_inheritance"
  }

  /** The coin sits at a script that is not the vault's. */
  predicate StrayScript(u: UtxoInput, out: MultileafOutput) {
    u.script.Some? && u.script != Some(VaultOutput(out.root))
  }

  /** What is wrong with a request when it is refused with this error. */
  ghost predicate Fault(req: PsbtRequest, lib: Library, error: PsbtError) {
    var out := RebuiltOutput(req, lib);
    match error
    case NoInputs => req.inputs == []
    case SumOverflow => InputTotal(req.inputs) >= U64_MODULUS
    case AmountOverflow => req.amount + req.fee >= U64_MODULUS
    case Insufficient => InputTotal(req.inputs) < req.amount + req.fee
    case BadTxid => exists i :: 0 <= i < |req.inputs| && req.inputs[i].txid.None?
    case BadDestination => req.destination.None?
    case BadChangeAddress => LeavesChange(req) && req.changeAddress.None?
    case LeafPolicyRejected(e) => req.params.LeafList? && Compiled(req.params.leafPolicy, lib) == Err(e)
    case UnknownPath => NoSuchPath(req, lib)
    case BadLockTime => TimeValuedPath(req, lib)
    case ChangeMismatch => LeavesChange(req) && out.Some? && req.changeAddress != Some(VaultOutput(out.value.root))
    case BadInputScript => exists i :: 0 <= i < |req.inputs| && req.inputs[i].script.None?
    case InputMismatch =>
      out.Some? && exists i :: 0 <= i < |req.inputs| && StrayScript(req.inputs[i], out.value)
  }

  /** The order in which the faults are looked for; the coins' scripts come last, coin by coin. */
  function Turn(error: PsbtError): nat {
    match error
    case NoInputs => 0
    case SumOverflow => 1
    case AmountOverflow => 2
    case Insufficient => 3
    case BadTxid => 4
    case BadDestination => 5
    case BadChangeAddress => 6
    case LeafPolicyRejected(_) => 7
    case UnknownPath => 8
    case BadLockTime => 9
    case ChangeMismatch => 10
    case BadInputScript => 11
    case InputMismatch => 11
  }

  /** Nothing the builder looks for before its `turn`-th check is wrong. */
  ghost predicate NoFaultBefore(req: PsbtRequest, lib: Library, turn: nat) {
    forall e :: Turn(e) < turn ==> !Fault(req, lib, e)
  }

  lemma {:induction false} FindFirstListed<T>(table: seq<(string, T)>, id: string)
    ensures Find(table, id).None? <==> forall i :: 0 <= i < |table| ==> table[i].0 != id
    ensures Find(table, id).Some? ==> FirstListed(table, id, FirstIndex(table, id))
    ensures forall i :: FirstListed(table, id, i) ==> Find(table, id) == Some(table[i].1)
  {
    if table != [] {
      var rest := table[1..];
      FindFirstListed(rest, id);
      assert forall i :: 0 <= i < |rest| ==> rest[i] == table[i + 1];
      forall i | FirstListed(table, id, i) ensures Find(table, id) == Some(table[i].1) {
        if i > 0 { assert table[0].0 != id; assert FirstListed(rest, id, i - 1); }
      }
    }
  }

  lemma OutputsFaults(req: PsbtRequest, lib: Library)
    ensures Outputs(req).Err? ==> Turn(Outputs(req).error) < 7 && Fault(req, lib, Outputs(req).error)
    ensures NoFaultBefore(req, lib, if Outputs(req).Err? then Turn(Outputs(req).error) else 7)
  {
  }

  lemma SelectFaults(req: PsbtRequest, lib: Library)
    requires FullOutput(req.params, lib).Ok?
    ensures var r := Select(req.params, FullOutput(req.params, lib).value, req.path);
            && (r.Err? ==> r.error in {UnknownPath, BadLockTime} && Fault(req, lib, r.error))
            && (r.Ok? ==> !Fault(req, lib, UnknownPath) && !Fault(req, lib, BadLockTime))
            && (r == Err(BadLockTime) ==> !Fault(req, lib, UnknownPath))
  {
    if req.params.LeafList? {
      var out := Compiled(req.params.leafPolicy, lib).value;
      CompiledTablesMatch(req.params.leafPolicy, lib);
      ListedFaults(out, req.path);
    } else {
      NamedFaults(req.params, RebuiltOutput(req, lib), req.path);
    }
  }

  lemma ListedFaults(out: MultileafOutput, path: string)
    requires TablesMatch(out)
    ensures SelectListed(out, path) == Err(UnknownPath) <==>
            forall i :: 0 <= i < |out.leafScripts| ==> out.leafScripts[i].0 != path
    ensures SelectListed(out, path) == Err(BadLockTime) <==> ListedAsTime(out.leafUnlocks, path)
    ensures SelectListed(out, path).Err? ==> SelectListed(out, path).error in {UnknownPath, BadLockTime}
  {
    FindFirstListed(out.leafScripts, path);
    ListedAsTimeExactly(out.leafUnlocks, path);
    if Find(out.leafScripts, path).Some? { LookupsAgree(out.leafScripts, out.leafUnlocks, path); }
    if Find(out.leafUnlocks, path).Some? { LookupsAgree(out.leafUnlocks, out.leafScripts, path); }
  }

  lemma ListedAsTimeExactly(unlocks: seq<(string, Unlock)>, path: string)
    ensures ListedAsTime(unlocks, path) <==>
            var found := Find(unlocks, path);
            found.Some? && found.value.After? && found.value.blocks >= 500_000_000
  {
    FindFirstListed(unlocks, path);
    if Find(unlocks, path).Some? { assert FirstListed(unlocks, path, FirstIndex(unlocks, path)); }
  }

  lemma NamedFaults(params: PolicyParams, out: Option<MultileafOutput>, path: string)
    ensures var r := SelectNamed(params, out, path);
            && (r == Err(UnknownPath) <==>
                  path != "founders_now" && path != "recovery" && path != "inheritance"
                  && path != "backup" && path != "second_inheritance")
            && (r == Err(BadLockTime) <==>
                  params.Named? &&
                  (|| (path == "recovery" && params.named.recoveryAfter >= 500_000_000)
                   || (path == "inheritance" && params.named.inheritanceAfter >= 500_000_000)
                   || (path == "second_inheritance" && params.named.secondInheritanceAfter.GetOr(0) >= 500_000_000)))
            && (r.Err? ==> r.error in {UnknownPath, BadLockTime})
  {
  }

  lemma {:induction false} InputFaults(inputs: seq<UtxoInput>, out: Option<MultileafOutput>)
    ensures FirstProblem(inputs, out).None? <==>
            forall i :: 0 <= i < |inputs| ==> GoodCoin(inputs[i], out)
    ensures FirstProblem(inputs, out).Some? ==>
              exists i :: FirstBadCoin(inputs, out, i, FirstProblem(inputs, out).value)
  {
    if inputs != [] {
      var rest := inputs[1..];
      InputFaults(rest, out);
      assert forall i :: 0 <= i < |rest| ==> rest[i] == inputs[i + 1];
      if InputProblem(inputs[0], out).Some? {
        assert FirstBadCoin(inputs, out, 0, FirstProblem(inputs, out).value);
      } else if FirstProblem(rest, out).Some? {
        var i :| FirstBadCoin(rest, out, i, FirstProblem(rest, out).value);
        assert FirstBadCoin(inputs, out, i + 1, FirstProblem(inputs, out).value);
      }
    }
  }

  predicate GoodCoin(u: UtxoInput, out: Option<MultileafOutput>) {
    u.script.Some? && (out.Some? ==> u.script == Some(VaultOutput(out.value.root)))
  }

  /** The coin whose script is refused, and why: it does not read, or it is not the vault's. */
  predicate FirstBadCoin(inputs: seq<UtxoInput>, out: Option<MultileafOutput>, i: int, error: PsbtError) {
    && 0 <= i < |inputs| && !GoodCoin(inputs[i], out) && (forall j :: 0 <= j < i ==> GoodCoin(inputs[j], out))
    && error == if inputs[i].script.None? then BadInputScript else InputMismatch
  }

  /** A refusal names the first thing that is wrong with the request. */
  lemma RefusedForFirstFault(req: PsbtRequest, lib: Library, error: PsbtError)
    requires Refused(req, lib, error)
    ensures Fault(req, lib, error) && NoFaultBefore(req, lib, Turn(error))
    ensures Turn(error) == 11 ==> exists i :: FirstBadCoin(req.inputs, RebuiltOutput(req, lib), i, error)
  {
    OutputsFaults(req, lib);
    if Outputs(req).Ok? && FullOutput(req.params, lib).Ok? {
      var selected := Select(req.params, FullOutput(req.params, lib).value, req.path);
      SelectFaults(req, lib);
      if selected.Ok? { RefusedAfterSelection(req, lib, error); }
    }
  }

  lemma RefusedAfterSelection(req: PsbtRequest, lib: Library, error: PsbtError)
    requires Refused(req, lib, error) && Outputs(req).Ok? && FullOutput(req.params, lib).Ok?
    requires Select(req.params, RebuiltOutput(req, lib), req.path).Ok?
    ensures error in {ChangeMismatch, BadInputScript, InputMismatch} && Fault(req, lib, error)
    ensures error != ChangeMismatch ==> !Fault(req, lib, ChangeMismatch)
    ensures error != ChangeMismatch ==> exists i :: FirstBadCoin(req.inputs, RebuiltOutput(req, lib), i, error)
  {
    var out := RebuiltOutput(req, lib);
    PaidOutputs(req);
    InputFaults(req.inputs, out);
    if error != ChangeMismatch {
      var i :| FirstBadCoin(req.inputs, out, i, error);
    }
  }

  lemma PaidOutputs(req: PsbtRequest)
    requires Outputs(req).Ok?
    ensures |Outputs(req).value| == 2 <==> LeavesChange(req)
    ensures LeavesChange(req) ==>
              req.changeAddress.Some? && Outputs(req).value[1].script == req.changeAddress.value
  {
  }

  /** And a transaction is built exactly when nothing is wrong with it. */
  lemma BuiltExactlyWhenFaultless(req: PsbtRequest, lib: Library)
    ensures (exists psbt :: Built(req, lib, psbt)) <==> forall e :: !Fault(req, lib, e)
  {
    OutputsFaults(req, lib);
    if psbt :| Built(req, lib, psbt) {
      PaidOutputs(req);
      SelectFaults(req, lib);
      InputFaults(req.inputs, FullOutput(req.params, lib).value);
    }
    if forall e :: !Fault(req, lib, e) {
      var psbt := FaultlessTransaction(req, lib);
    }
  }

  lemma FaultlessTransaction(req: PsbtRequest, lib: Library) returns (psbt: Psbt)
    requires forall e :: !Fault(req, lib, e)
    ensures Built(req, lib, psbt)
  {
    OutputsFaults(req, lib);
    PaidOutputs(req);
    assert FullOutput(req.params, lib).Ok? by {
      if FullOutput(req.params, lib).Err? { assert Fault(req, lib, FullOutput(req.params, lib).error); }
    }
    SelectFaults(req, lib);
    var out := FullOutput(req.params, lib).value;
    InputFaults(req.inputs, out);
    assert !Fault(req, lib, BadInputScript) && !Fault(req, lib, InputMismatch) && !Fault(req, lib, ChangeMismatch);
    assert forall i :: 0 <= i < |req.inputs| ==> req.inputs[i].txid.Some?;
    var selection := Select(req.params, out, req.path).value;
    var sequence := SequenceFor(selection.relative);
    var inputs := seq(|req.inputs|, i requires 0 <= i < |req.inputs| =>
      FilledInput(req.inputs[i], sequence, out, selection.leaf));
    psbt := Psbt(2, selection.lockTime, inputs, Outputs(req).value, out.Some? && selection.leaf.Some?);
  }

  // ---- Timelocks ----

  /** The transaction's own timelocks are over: the chain passed its lock time and every coin aged enough. */
  ghost predicate TimelocksOpen(psbt: Psbt, m: Moment) {
    LockTimeFinal(psbt.lockTime, m) && forall u | u in psbt.inputs :: SequenceOpen(u.sequence, m)
  }

  /** The leaf script's timelock opcode passes on every input. */
  predicate ScriptTimelockPasses(policy: Policy, psbt: Psbt) {
    if policy.And? && policy.left.After? then
      forall u | u in psbt.inputs :: CltvPasses(policy.left.blocks, psbt.lockTime, u.sequence)
    else if policy.And? && policy.left.Older? then
      forall u | u in psbt.inputs :: CsvPasses(policy.left.blocks, psbt.version, u.sequence)
    else true
  }

  /** Where the first entry under `id` is. */
  function FirstIndex<T>(table: seq<(string, T)>, id: string): (i: nat)
    requires Find(table, id).Some?
    ensures i < |table| && table[i].0 == id && Find(table, id) == Some(table[i].1)
  {
    if table[0].0 == id then 0 else 1 + FirstIndex(table[1..], id)
  }

  /** Tables with the same ids in the same order are looked up at the same place. */
  lemma {:induction false} LookupsAgree<A, B>(xs: seq<(string, A)>, ys: seq<(string, B)>, id: string)
    requires |xs| == |ys| && forall j :: 0 <= j < |xs| ==> xs[j].0 == ys[j].0
    requires Find(xs, id).Some?
    ensures Find(ys, id) == Some(ys[FirstIndex(xs, id)].1)
  {
    if xs[0].0 != id { LookupsAgree(xs[1..], ys[1..], id); }
  }

  /** Blocks a 16-bit relative lock can hold. */
  predicate StampsExactly(unlock: Unlock) { unlock.OlderThan? ==> OlderInRange(unlock.blocks) }

  lemma StampedSequence(relative: Option<u32>)
    ensures !DisableBit(SequenceFor(relative)) <==> relative.Some?
    ensures relative.Some? ==>
            !TimeBit(SequenceFor(relative)) && SequenceFor(relative) % 0x1_0000 == relative.value % 0x1_0000
  {
  }

  lemma OpenUntilStamped(psbt: Psbt, unlock: Unlock)
    requires psbt.inputs != []
    requires psbt.lockTime == (if unlock.After? then unlock.blocks else 0) < LOCKTIME_THRESHOLD
    requires forall u | u in psbt.inputs ::
      u.sequence == SequenceFor(if unlock.OlderThan? then Some(unlock.blocks) else None)
    ensures StampsExactly(unlock) <==> forall m :: TimelocksOpen(psbt, m) <==> UnlockOpen(unlock, m)
  {
    var u := psbt.inputs[0];
    assert u in psbt.inputs;
    StampedSequence(if unlock.OlderThan? then Some(unlock.blocks) else None);
    if unlock.OlderThan? && unlock.blocks > 0xffff {
      var early := Moment({}, 0, unlock.blocks % 0x1_0000, 0, 0);
      assert TimelocksOpen(psbt, early) && !UnlockOpen(unlock, early);
    }
  }

  /** The leaf a leaf-list spend goes through: the first one listed under the path. */
  function SpentLeaf(req: PsbtRequest, lib: Library): (i: nat)
    requires req.params.LeafList? && Compiled(req.params.leafPolicy, lib).Ok?
    requires SelectListed(Compiled(req.params.leafPolicy, lib).value, req.path).Ok?
    ensures var out := Compiled(req.params.leafPolicy, lib).value;
            i < |out.leafScripts| == |out.leafUnlocks| && out.leafScripts[i].0 == req.path
  {
    FirstIndex(Compiled(req.params.leafPolicy, lib).value.leafScripts, req.path)
  }

  /** Selection refuses a listed path for its lock time exactly when the first leaf
      listed under it has an absolute operand that is a time: then every spend through
      that leaf is refused, for good. */
  lemma BadLockTimeExactly(out: MultileafOutput, path: string)
    requires TablesMatch(out)
    ensures SelectListed(out, path) == Err(BadLockTime) <==>
            && Find(out.leafScripts, path).Some?
            && !UnlockInRange(out.leafUnlocks[FirstIndex(out.leafScripts, path)].1)
            && out.leafUnlocks[FirstIndex(out.leafScripts, path)].1.After?
  {
    if Find(out.leafScripts, path).Some? { LookupsAgree(out.leafScripts, out.leafUnlocks, path); }
  }

  /** The lookup tables of an output list the same ids in the same order. */
  predicate TablesMatch(out: MultileafOutput) {
    |out.leafScripts| == |out.leafUnlocks|
    && forall j :: 0 <= j < |out.leafScripts| ==> out.leafScripts[j].0 == out.leafUnlocks[j].0
  }

  lemma CompiledTablesMatch(policy: LeafPolicy, lib: Library)
    requires Compiled(policy, lib).Ok?
    ensures TablesMatch(Compiled(policy, lib).value)
  {
  }

  predicate DistinctIds<T>(table: seq<(string, T)>) {
    forall i, j :: 0 <= i < j < |table| ==> table[i].0 != table[j].0
  }

  lemma {:induction false} FindListed<T>(table: seq<(string, T)>, i: nat)
    requires i < |table|
    ensures Find(table, table[i].0).Some? && FirstIndex(table, table[i].0) <= i
  {
    if i > 0 && table[0].0 != table[i].0 { FindListed(table[1..], i - 1); }
  }

  /** Every entry is found under its own id exactly when no id repeats. */
  lemma FoundUnderOwnIdExactly<T>(table: seq<(string, T)>)
    ensures (forall i :: 0 <= i < |table| ==> FoundAt(table, i)) <==> DistinctIds(table)
  {
    forall i | 0 <= i < |table| ensures Find(table, table[i].0).Some? && FirstIndex(table, table[i].0) <= i {
      FindListed(table, i);
    }
    if i, j :| 0 <= i < j < |table| && table[i].0 == table[j].0 { assert !FoundAt(table, j); }
  }

  predicate FoundAt<T>(table: seq<(string, T)>, i: nat)
    requires i < |table|
  {
    Find(table, table[i].0).Some? && FirstIndex(table, table[i].0) == i
  }

  /** Every compiled leaf can be selected by a path, its own id, exactly when the
      expanded ids are distinct; of leaves that share one, only the first can. */
  lemma EveryLeafSelectableExactly(policy: LeafPolicy, lib: Library)
    requires Compiled(policy, lib).Ok?
    ensures var out := Compiled(policy, lib).value;
            && ((forall i :: 0 <= i < |out.leafScripts| ==> FoundAt(out.leafScripts, i)) <==>
                DistinctIds(out.leafScripts))
            && (forall path :: SelectListed(out, path).Ok? ==>
                  var i := FirstIndex(out.leafScripts, path);
                  FoundAt(out.leafScripts, i) && SelectListed(out, path).value.leaf == Some(out.leafScripts[i].1))
  {
    var out := Compiled(policy, lib).value;
    FoundUnderOwnIdExactly(out.leafScripts);
    CompiledTablesMatch(policy, lib);
    forall path | SelectListed(out, path).Ok?
      ensures FoundAt(out.leafScripts, FirstIndex(out.leafScripts, path))
      ensures SelectListed(out, path).value.leaf == Some(out.leafScripts[FirstIndex(out.leafScripts, path)].1)
    {
      SelectedTogether(out, path);
    }
  }

  /** What is selected under a path comes from one place of both tables. */
  lemma SelectedTogether(out: MultileafOutput, path: string)
    requires TablesMatch(out) && SelectListed(out, path).Ok?
    ensures var i := FirstIndex(out.leafScripts, path);
            var selection := SelectListed(out, path).value;
            && i < |out.leafUnlocks|
            && Find(out.leafUnlocks, path) == Some(out.leafUnlocks[i].1)
            && selection.leaf == Some(out.leafScripts[i].1)
            && SelectedFor(out.leafUnlocks[i].1, selection)
  {
    LookupsAgree(out.leafScripts, out.leafUnlocks, path);
  }

  /** The selection carries this unlock and no other. */
  predicate SelectedFor(unlock: Unlock, selection: Selection) {
    && selection.lockTime == (if unlock.After? then unlock.blocks else 0) < LOCKTIME_THRESHOLD
    && selection.relative == (if unlock.OlderThan? then Some(unlock.blocks) else None)
  }

  /** Every input carries the vault's script, the selected sequence and the selected leaf. */
  ghost predicate CarriesSelection(psbt: Psbt, out: MultileafOutput, selection: Selection) {
    && psbt.inputs != [] && psbt.version == 2 && psbt.lockTime == selection.lockTime
    && psbt.hasTapLeaf == selection.leaf.Some?
    && forall u | u in psbt.inputs ::
         && u.script == VaultOutput(out.root) && u.sequence == SequenceFor(selection.relative)
         && u.tapLeaf == TapLeafFor(Some(out), selection.leaf)
  }

  lemma BuiltCarriesSelection(req: PsbtRequest, lib: Library, psbt: Psbt, out: MultileafOutput)
    requires Built(req, lib, psbt) && FullOutput(req.params, lib) == Ok(Some(out))
    ensures Select(req.params, Some(out), req.path).Ok?
    ensures CarriesSelection(psbt, out, Select(req.params, Some(out), req.path).value)
  {
    NoProblem(req.inputs, Some(out));
    var selection := Select(req.params, Some(out), req.path).value;
    forall k | 0 <= k < |psbt.inputs|
      ensures var u := psbt.inputs[k];
              u.script == VaultOutput(out.root) && u.sequence == SequenceFor(selection.relative)
              && u.tapLeaf == TapLeafFor(Some(out), selection.leaf)
    {
      assert psbt.inputs[k] == FilledInput(req.inputs[k], SequenceFor(selection.relative), Some(out), selection.leaf);
    }
  }

  /** Change goes back to the very script the spent coins sit at. */
  lemma ChangeReturnsToVault(req: PsbtRequest, lib: Library, psbt: Psbt, out: MultileafOutput)
    requires Built(req, lib, psbt) && FullOutput(req.params, lib) == Ok(Some(out))
    ensures psbt.inputs != []
    ensures |psbt.outputs| == 2 ==>
            forall u | u in psbt.inputs :: psbt.outputs[1].script == u.script == VaultOutput(out.root)
  {
    BuiltCarriesSelection(req, lib, psbt, out);
  }

  /** The script and the unlock looked up under a path belong to one leaf even when
      ids repeat, and every input carries that leaf's script with a control block
      consensus accepts. */
  lemma LeafListSpendsOneLeaf(req: PsbtRequest, lib: Library, psbt: Psbt)
    requires Built(req, lib, psbt) && req.params.LeafList?
    ensures var out := Compiled(req.params.leafPolicy, lib).value;
            var i := SpentLeaf(req, lib);
            && Find(out.leafScripts, req.path) == Some(out.leafScripts[i].1)
            && Find(out.leafUnlocks, req.path) == Some(out.leafUnlocks[i].1)
            && psbt.hasTapLeaf
            && forall u | u in psbt.inputs :: u.tapLeaf.Some? && u.tapLeaf.value.script == out.leafScripts[i].1
                 && u.script == VaultOutput(out.root)
                 && Verifies(out.root, out.leafScripts[i].1, u.tapLeaf.value.controlBlock)
  {
    var out := Compiled(req.params.leafPolicy, lib).value;
    CompiledTablesMatch(req.params.leafPolicy, lib);
    BuiltCarriesSelection(req, lib, psbt, out);
    SelectedTogether(out, req.path);
    ListedLeafAttaches(req.params.leafPolicy, lib, SpentLeaf(req, lib));
  }

  lemma ListedLeafAttaches(policy: LeafPolicy, lib: Library, i: nat)
    requires Compiled(policy, lib).Ok? && i < |Compiled(policy, lib).value.leafScripts|
    ensures var out := Compiled(policy, lib).value;
            var leaf := out.leafScripts[i].1;
            var attached := TapLeafFor(Some(out), Some(leaf));
            attached.Some? && attached.value.script == leaf && Verifies(out.root, leaf, attached.value.controlBlock)
  {
    EveryLeafHasControlBlock(policy, lib);
    assert HasControlBlock(Compiled(policy, lib).value, i);
  }

  /** Stamping of a leaf-list spend: the transaction can confirm exactly when the
      spent leaf's unlock is open, if and only if a relative unlock fits 16 bits;
      and the script's own timelock opcode passes, if and only if a relative
      operand leaves BIP 68's time bit clear. */
  lemma LeafListStamping(req: PsbtRequest, lib: Library, psbt: Psbt)
    requires Built(req, lib, psbt) && req.params.LeafList?
    ensures var out := Compiled(req.params.leafPolicy, lib).value;
            var i := SpentLeaf(req, lib);
            var unlock := out.leafUnlocks[i].1;
            && (StampsExactly(unlock) <==> forall m :: TimelocksOpen(psbt, m) <==> UnlockOpen(unlock, m))
            && (ScriptTimelockPasses(out.leafScripts[i].1.policy, psbt) <==>
                  (unlock.OlderThan? ==> DisableBit(unlock.blocks) || !TimeBit(unlock.blocks)))
  {
    var out, i := Compiled(req.params.leafPolicy, lib).value, SpentLeaf(req, lib);
    CompiledTablesMatch(req.params.leafPolicy, lib);
    BuiltCarriesSelection(req, lib, psbt, out);
    SelectedTogether(out, req.path);
    var leaf, consent := CompiledLeaf(req.params.leafPolicy, lib, i);
    StampedLeaf(leaf, consent, psbt);
  }

  /** The listed script and unlock are those of one leaf of the expanded list. */
  lemma CompiledLeaf(policy: LeafPolicy, lib: Library, i: nat) returns (leaf: Leaf, consent: Option<Policy>)
    requires Compiled(policy, lib).Ok? && i < |Compiled(policy, lib).value.leafScripts|
    ensures var out := Compiled(policy, lib).value;
            && i < |out.leafUnlocks| && i < |Flatten(policy.leaves).value| && leaf == Flatten(policy.leaves).value[i]
            && out.leafScripts[i].1.policy == Condition(leaf, consent) && out.leafUnlocks[i].1 == leaf.unlock
    ensures consent.Some? ==> consent.value.Thresh?
  {
    var flat := Flatten(policy.leaves).value;
    ConsentGatesPrimaryOnly(flat, policy.Consent());
    leaf, consent := flat[i], if i == FirstImmediate(flat) then policy.Consent() else None;
  }

  /** What stamping one leaf's unlock achieves. */
  lemma StampedLeaf(leaf: Leaf, consent: Option<Policy>, psbt: Psbt)
    requires consent.Some? ==> consent.value.Thresh?
    requires psbt.inputs != [] && psbt.version == 2
    requires psbt.lockTime == (if leaf.unlock.After? then leaf.unlock.blocks else 0) < LOCKTIME_THRESHOLD
    requires forall u | u in psbt.inputs ::
      u.sequence == SequenceFor(if leaf.unlock.OlderThan? then Some(leaf.unlock.blocks) else None)
    ensures StampsExactly(leaf.unlock) <==> forall m :: TimelocksOpen(psbt, m) <==> UnlockOpen(leaf.unlock, m)
    ensures ScriptTimelockPasses(Condition(leaf, consent), psbt) <==>
            (leaf.unlock.OlderThan? ==> DisableBit(leaf.unlock.blocks) || !TimeBit(leaf.unlock.blocks))
  {
    OpenUntilStamped(psbt, leaf.unlock);
    var u := psbt.inputs[0];
    assert u in psbt.inputs;
    if leaf.unlock.OlderThan? { SixteenBits(leaf.unlock.blocks); }
  }

  lemma SixteenBits(n: nat)
    ensures !DisableBit(n % 0x1_0000) && !TimeBit(n % 0x1_0000) && n % 0x1_0000 % 0x1_0000 == n % 0x1_0000
  {
  }

  lemma {:induction false} NoProblem(inputs: seq<UtxoInput>, out: Option<MultileafOutput>)
    requires FirstProblem(inputs, out).None?
    ensures forall i :: 0 <= i < |inputs| ==> InputProblem(inputs[i], out).None?
  {
    if inputs != [] { NoProblem(inputs[1..], out); }
  }

  /** The unlock each named branch really has. */
  function NamedUnlock(p: DynastyPolicy, path: string): Unlock {
    if path == "recovery" || path == "backup" then
      if p.HasRecovery() then Unlock.After(p.recoveryAfter) else Immediate
    else if path == "inheritance" then Unlock.After(p.inheritanceAfter)
    else if path == "second_inheritance" && p.secondInheritanceAfter.Some? then
        Unlock.After(p.secondInheritanceAfter.value)
    else Immediate
  }

  /** Stamping of a named spend: the chosen script's own timelock passes, and the
      transaction confirms exactly when its branch is open, on every path but one:
      asking for `backup` on a vault whose middle leaf is the timelocked recovery
      selects that leaf with no lock time. */
  lemma NamedStamping(req: PsbtRequest, lib: Library, psbt: Psbt, leaf: Script)
    requires Built(req, lib, psbt) && req.params.Named? && FullOutput(req.params, lib).value.Some?
    requires Select(req.params, FullOutput(req.params, lib).value, req.path).value.leaf == Some(leaf)
    ensures var p := req.params.named;
            var misdirected := req.path == "backup" && p.HasRecovery();
            && (forall u | u in psbt.inputs :: u.tapLeaf.Some? && u.tapLeaf.value.script == leaf
                  && Verifies(BuildMultileaf(p, lib).value.root, leaf, u.tapLeaf.value.controlBlock))
            && (ScriptTimelockPasses(leaf.policy, psbt) <==> !misdirected)
            && ((forall m :: TimelocksOpen(psbt, m) <==> UnlockOpen(NamedUnlock(p, req.path), m)) <==> !misdirected)
  {
    var p := req.params.named;
    var out := BuildMultileaf(p, lib).value;
    BuiltCarriesSelection(req, lib, psbt, out);
    NamedLeafIsBranch(p, lib, req.path, leaf);
    NamedControlBlock(p, lib, leaf);
    StampedHeight(p, out, req.path, leaf, psbt);
  }

  lemma StampedHeight(p: DynastyPolicy, out: MultileafOutput, path: string, leaf: Script, psbt: Psbt)
    requires psbt.inputs != [] && forall u | u in psbt.inputs :: u.sequence == ENABLE_RBF_NO_LOCKTIME
    requires Select(Named(p), Some(out), path) == Ok(Selection(Some(leaf), psbt.lockTime, None))
    requires match NamedUnlock(p, path)
             case After(n) => leaf.policy.And? && leaf.policy.left == Policy.After(n)
             case _ => !leaf.policy.And? || leaf.policy.left.Thresh?
    ensures var misdirected := path == "backup" && p.HasRecovery();
            && (ScriptTimelockPasses(leaf.policy, psbt) <==> !misdirected)
            && ((forall m :: TimelocksOpen(psbt, m) <==> UnlockOpen(NamedUnlock(p, path), m)) <==> !misdirected)
  {
    assert psbt.inputs[0] in psbt.inputs;
    var unlock := NamedUnlock(p, path);
    if path == "backup" && p.HasRecovery() {
      var early := Moment({}, 0, 0, 0, 0);
      assert TimelocksOpen(psbt, early) && !UnlockOpen(unlock, early);
    } else {
      assert psbt.lockTime == if unlock.After? then unlock.blocks else 0;
      OpenUntilStamped(psbt, unlock);
      assert StampsExactly(unlock);
    }
  }

  /** The branch a named path leads to. */
  function BranchOf(p: DynastyPolicy, path: string): Option<Policy> {
    if path == "recovery" || path == "backup" then if p.HasMiddleLeaf() then Some(p.MiddleBranch()) else None
    else if path == "inheritance" then if p.WantsInheritance() then Some(p.InheritanceBranch()) else None
    else if path == "second_inheritance" then
        if p.HasSecondInheritance() then Some(p.SecondInheritanceBranch()) else None
    else Some(p.FounderBranch())
  }

  lemma NamedLeafIsBranchOf(p: DynastyPolicy, lib: Library, path: string)
    requires BuildMultileaf(p, lib).Ok?
    ensures NamedLeaf(BuildMultileaf(p, lib).value, path) == AsScript(BranchOf(p, path))
  {
    NamedOutput(p, lib);
  }

  lemma BranchOfListed(p: DynastyPolicy, path: string)
    requires BranchOf(p, path).Some?
    ensures BranchOf(p, path).value in Branches(p)
  {
    var rest := Fallbacks(p);
    assert Branches(p)[0] == p.FounderBranch();
    assert p.HasMiddleLeaf() ==> rest[0] == p.MiddleBranch();
    assert p.WantsInheritance() ==> rest[if p.HasMiddleLeaf() then 1 else 0] == p.InheritanceBranch();
    assert p.HasSecondInheritance() ==> rest[|rest| - 1] == p.SecondInheritanceBranch();
    assert forall k | k in rest :: k in Branches(p);
  }

  /** The script a named path selects is the branch with that path's unlock. */
  lemma NamedLeafIsBranch(p: DynastyPolicy, lib: Library, path: string, leaf: Script)
    requires BuildMultileaf(p, lib).Ok? && NamedLeaf(BuildMultileaf(p, lib).value, path) == Some(leaf)
    ensures leaf.policy in Branches(p)
    ensures match NamedUnlock(p, path)
            case After(n) => leaf.policy.And? && leaf.policy.left == Policy.After(n)
            case _ => !leaf.policy.And? || leaf.policy.left.Thresh?
  {
    NamedLeafIsBranchOf(p, lib, path);
    BranchOfListed(p, path);
    assert Verify(p).Ok?;
  }

  lemma NamedTree(p: DynastyPolicy, lib: Library)
    requires BuildMultileaf(p, lib).Ok?
    ensures var out := BuildMultileaf(p, lib).value;
            out.tree == RightComb(Scripts(Branches(p))) && out.root == Root(out.tree) && |Branches(p)| <= 4
  {
    NamedOutput(p, lib);
  }

  lemma CombLeafAttaches(out: MultileafOutput, policies: seq<Policy>, leaf: Script)
    requires policies != [] && |policies| <= MAX_DEPTH + 1 && leaf.policy in policies
    requires out.tree == RightComb(Scripts(policies)) && out.root == Root(out.tree)
    ensures var attached := TapLeafFor(Some(out), Some(leaf));
            attached.Some? && attached.value.script == leaf && Verifies(out.root, leaf, attached.value.controlBlock)
  {
    var i :| 0 <= i < |policies| && policies[i] == leaf.policy;
    assert Scripts(policies)[i] == leaf;
    CombControlBlock(Scripts(policies), i);
  }

  lemma NamedControlBlock(p: DynastyPolicy, lib: Library, leaf: Script)
    requires BuildMultileaf(p, lib).Ok? && leaf.policy in Branches(p)
    ensures var out := BuildMultileaf(p, lib).value;
            var attached := TapLeafFor(Some(out), Some(leaf));
            attached.Some? && attached.value.script == leaf && Verifies(out.root, leaf, attached.value.controlBlock)
  {
    NamedTree(p, lib);
    CombLeafAttaches(BuildMultileaf(p, lib).value, Branches(p), leaf);
  }

  // ---- Rungs past the 16-bit limit ----

  predicate AllStampExactly(leaves: seq<Leaf>) {
    forall i :: 0 <= i < |leaves| ==> StampsExactly(leaves[i].unlock)
  }

  lemma AllStampConcat(xs: seq<Leaf>, ys: seq<Leaf>)
    ensures AllStampExactly(xs + ys) <==> AllStampExactly(xs) && AllStampExactly(ys)
  {
    var all := xs + ys;
    assert forall i :: 0 <= i < |xs| ==> all[i] == xs[i];
    assert forall i :: 0 <= i < |ys| ==> all[|xs| + i] == ys[i];
  }

  /** Every relative leaf's last rung fits a 16-bit lock. */
  predicate AllLaddersFit(leaves: seq<Leaf>) { forall l | l in leaves :: l.unlock.OlderThan? ==> LeafInRange(l) }

  lemma LadderStamps(leaf: Leaf)
    requires Expanded(leaf).Ok?
    ensures (leaf.unlock.OlderThan? ==> LeafInRange(leaf)) <==> AllStampExactly(Expanded(leaf).value)
  {
    if !leaf.unlock.Immediate? {
      RungsBounded(leaf);
      var rungs := Expanded(leaf).value;
      assert StampsExactly(rungs[|rungs| - 1].unlock) <==> (leaf.unlock.OlderThan? ==> LeafInRange(leaf));
    }
  }

  lemma {:induction false} ExpandedRelativeLeaves(leaves: seq<Leaf>)
    requires VerifyLeaves(leaves).Ok? && Flatten(leaves).Ok?
    ensures AllLaddersFit(leaves) <==> AllStampExactly(Flatten(leaves).value)
  {
    if leaves != [] {
      ExpandedRelativeLeaves(leaves[1..]);
      LadderStamps(leaves[0]);
      AllStampConcat(Expanded(leaves[0]).value, Flatten(leaves[1..]).value);
      assert leaves == [leaves[0]] + leaves[1..];
    }
  }

  /** Every leaf of an accepted policy stamps exactly if and only if no relative
      ladder climbs past 65,535 blocks. Leaves without decay always do: the
      60,000-block cap covers them. */
  lemma EveryLeafStampsExactly(policy: LeafPolicy, lib: Library)
    requires Compiled(policy, lib).Ok?
    ensures AllLaddersFit(policy.leaves) <==>
            forall i :: 0 <= i < |Compiled(policy, lib).value.leafUnlocks| ==>
                StampsExactly(Compiled(policy, lib).value.leafUnlocks[i].1)
  {
    ExpandedRelativeLeaves(policy.leaves);
    var flat, unlocks := Flatten(policy.leaves).value, Compiled(policy, lib).value.leafUnlocks;
    assert forall i :: 0 <= i < |flat| ==> unlocks[i].1 == flat[i].unlock;
  }

  // ---- From quoted plan to built transaction ----

  /** The request the vault's spend endpoint sends for a plan: the chosen coins,
      and change back to the vault. */
  ghost predicate RequestFor(req: PsbtRequest, plan: Plan) {
    && |req.inputs| == |plan.selected| && req.amount == plan.amount && req.fee == plan.fee
    && forall i :: 0 <= i < |req.inputs| ==>
         && req.inputs[i].txid == Some(plan.selected[i].outpoint.txid) &&
             req.inputs[i].vout == plan.selected[i].outpoint.vout
         && req.inputs[i].value == plan.selected[i].value
  }

  lemma {:induction false} SameTotals(inputs: seq<UtxoInput>, coins: seq<Utxo>)
    requires |inputs| == |coins| && forall i :: 0 <= i < |inputs| ==> inputs[i].value == coins[i].value
    ensures InputTotal(inputs) == Total(coins)
  {
    if inputs != [] { SameTotals(inputs[1..], coins[1..]); }
  }

  /** The plan's numbers add up, and it has change exactly from the dust limit on. */
  predicate Balanced(plan: Plan) {
    && plan.totalIn == Total(plan.selected) && plan.totalIn >= plan.amount + plan.fee
    && (plan.hasChange <==> plan.totalIn - plan.amount - plan.fee >= DUST)
    && (plan.hasChange ==> plan.change == plan.totalIn - plan.amount - plan.fee)
  }

  /** What a quoted plan always satisfies. */
  lemma PlanAddsUp(confirmed: seq<Utxo>, requested: seq<OutPoint>, sweep: bool, amount: int, rate: real,
                   inputVbytes: real)
    requires rate > 0.0 && inputVbytes > 0.0
    requires VaultPlan(confirmed, requested, sweep, amount, rate, inputVbytes).Ok?
    ensures var plan := VaultPlan(confirmed, requested, sweep, amount, rate, inputVbytes).value;
            && Balanced(plan)
            && (sweep ==> plan.totalIn == plan.amount + plan.fee)
            && (!sweep ==> plan.amount == amount)
  {
  }

  lemma QuotedTotals(plan: Plan, req: PsbtRequest)
    requires Balanced(plan) && RequestFor(req, plan)
    ensures InputTotal(req.inputs) == plan.totalIn && Leftover(req) == plan.totalIn - plan.amount - plan.fee
    ensures Outputs(req) != Err(Insufficient) && Outputs(req) != Err(AmountOverflow)
  {
    SameTotals(req.inputs, plan.selected);
  }

  /** The two layers agree: the builder never calls a quoted plan short, makes a
      change output exactly when the plan quoted one and of the quoted size, and
      spends exactly the planned coins. The miners get the quoted fee plus at most
      545 satoshis of dust. */
  lemma PlanIsBuiltAsQuoted(plan: Plan, req: PsbtRequest, lib: Library, psbt: Psbt)
    requires Balanced(plan) && RequestFor(req, plan)
    requires Built(req, lib, psbt)
    ensures psbt.outputs[0].value == plan.amount && (|psbt.outputs| == 2 <==> plan.hasChange)
    ensures plan.hasChange ==> psbt.outputs[1].value == plan.change
    ensures plan.fee <= plan.totalIn - OutputTotal(psbt.outputs) < plan.fee + DUST
    ensures plan.totalIn == plan.amount + plan.fee ==>
              |psbt.outputs| == 1 && plan.totalIn - OutputTotal(psbt.outputs) == plan.fee
    ensures |psbt.inputs| == |plan.selected|
    ensures forall i :: 0 <= i < |psbt.inputs| ==> psbt.inputs[i].outpoint == plan.selected[i].outpoint
  {
    QuotedTotals(plan, req);
    OutputsTakeTotal(req, psbt.outputs);
  }

  /** A spend the vault's endpoint plans is never refused as short of money. */
  lemma PlannedSpendIsNeverShort(confirmed: seq<Utxo>, requested: seq<OutPoint>, sweep: bool, amount: int, rate: real,
                                 inputVbytes: real, plan: Plan, req: PsbtRequest)
    requires rate > 0.0 && inputVbytes > 0.0
    requires VaultPlan(confirmed, requested, sweep, amount, rate, inputVbytes) == Ok(plan)
    requires RequestFor(req, plan)
    ensures Outputs(req) != Err(Insufficient) && Outputs(req) != Err(AmountOverflow)
  {
    PlanAddsUp(confirmed, requested, sweep, amount, rate, inputVbytes);
    QuotedTotals(plan, req);
  }

  /** The outpoints a transaction spends. */
  function SpentPoints(inputs: seq<PsbtInput>): (s: seq<OutPoint>)
    ensures |s| == |inputs|
    ensures forall i :: 0 <= i < |s| ==> s[i] == inputs[i].outpoint
  {
    seq(|inputs|, i requires 0 <= i < |inputs| => inputs[i].outpoint)
  }

  lemma {:induction false} SamePoints(inputs: seq<PsbtInput>, coins: seq<Utxo>)
    requires |inputs| == |coins| && forall i :: 0 <= i < |inputs| ==> inputs[i].outpoint == coins[i].outpoint
    ensures SpentPoints(inputs) == OutPoints(coins)
  {
    forall i | 0 <= i < |coins| ensures SpentPoints(inputs)[i] == OutPoints(coins)[i] { OutPointAt(coins, i); }
  }

  lemma {:induction false} PointsOfPart(confirmed: seq<Utxo>, spent: seq<Utxo>)
    requires multiset(spent) <= multiset(confirmed)
    ensures AsSet(OutPoints(spent)) <= AsSet(OutPoints(confirmed))
  {
    forall i | 0 <= i < |spent| ensures OutPoints(spent)[i] in OutPoints(confirmed) {
      OutPointAt(spent, i);
      assert spent[i] in multiset(spent) && spent[i] in multiset(confirmed);
      var j :| 0 <= j < |confirmed| && confirmed[j] == spent[i];
      OutPointAt(confirmed, j);
    }
  }

  /** And it is built as the caller asked. The caller's destination gets the whole sweep
      less the quoted fee, in the only output, or the asked amount; and the transaction
      spends exactly the coins asked for, or in a sweep without a request all of them,
      none twice and none that is not confirmed. */
  lemma VaultSpendBuiltAsAsked(confirmed: seq<Utxo>, requested: seq<OutPoint>, sweep: bool, amount: int, rate: real,
                               inputVbytes: real, plan: Plan, req: PsbtRequest, lib: Library, psbt: Psbt)
    requires rate > 0.0 && inputVbytes > 0.0
    requires VaultPlan(confirmed, requested, sweep, amount, rate, inputVbytes) == Ok(plan)
    requires RequestFor(req, plan) && Built(req, lib, psbt)
    ensures req.destination.Some?
    ensures sweep ==> psbt.outputs == [TxOut(plan.totalIn - plan.fee, req.destination.value)]
    ensures !sweep ==> psbt.outputs[0] == TxOut(amount, req.destination.value)
    ensures Distinct(OutPoints(confirmed)) ==>
              var spent := SpentPoints(psbt.inputs);
              && Distinct(spent) && AsSet(spent) <= AsSet(OutPoints(confirmed))
              && (requested != [] ==> AsSet(spent) == AsSet(requested))
              && (requested == [] && sweep ==> AsSet(spent) == AsSet(OutPoints(confirmed)))
  {
    PlanAddsUp(confirmed, requested, sweep, amount, rate, inputVbytes);
    PlanIsBuiltAsQuoted(plan, req, lib, psbt);
    PaysAsAsked(req, lib, psbt);
    SamePoints(psbt.inputs, plan.selected);
    if Distinct(OutPoints(confirmed)) { PlannedPoints(confirmed, requested, sweep, amount, rate, inputVbytes, plan); }
  }

  /** The outpoints an accepted plan spends. */
  lemma PlannedPoints(confirmed: seq<Utxo>, requested: seq<OutPoint>, sweep: bool, amount: int, rate: real,
                      inputVbytes: real, plan: Plan)
    requires rate > 0.0 && inputVbytes > 0.0 && Distinct(OutPoints(confirmed))
    requires VaultPlan(confirmed, requested, sweep, amount, rate, inputVbytes) == Ok(plan)
    ensures var spent := OutPoints(plan.selected);
            && Distinct(spent) && AsSet(spent) <= AsSet(OutPoints(confirmed))
            && (requested != [] ==> AsSet(spent) == AsSet(requested))
            && (requested == [] && sweep ==> AsSet(spent) == AsSet(OutPoints(confirmed)))
  {
    PlanSpendsAsAsked(confirmed, requested, sweep, amount, rate, inputVbytes);
    PointsOfPart(confirmed, plan.selected);
    if multiset(plan.selected) == multiset(confirmed) { PointsOfPart(plan.selected, confirmed); }
  }
}
