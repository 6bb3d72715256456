/** Choosing which coins a spend uses, and what fee it quotes for them. */
module CoinSelection {
  import opened Wrappers

  datatype OutPoint = OutPoint(txid: nat, vout: nat)
  datatype Utxo = Utxo(outpoint: OutPoint, value: nat)

  const DUST: nat := 546
  const MAX_SAFE_INTEGER: nat := 0x1f_ffff_ffff_ffff

  // ---- Fees ----

  const TR_INPUT_VBYTES: real := 57.5
  const TR_OUTPUT_VBYTES: real := 43.0
  const TX_OVERHEAD: real := 10.5

  function Ceil(x: real): int { -((-x).Floor) }

  /** Positive rates and sizes give a fee of at least one unit. */
  function EstimateFee(numInputs: nat, numOutputs: nat, rate: real, inputVbytes: real): (fee: nat)
    requires rate > 0.0 && inputVbytes > 0.0
  {
    var vbytes := TX_OVERHEAD + numInputs as real * inputVbytes + numOutputs as real * TR_OUTPUT_VBYTES;
    assert vbytes * rate >= 0.0 by { assert numInputs as real * inputVbytes >= 0.0; }
    Ceil(vbytes * rate)
  }

  lemma FeeGrowsWithInputs(a: nat, b: nat, numOutputs: nat, rate: real, inputVbytes: real)
    requires rate > 0.0 && inputVbytes > 0.0 && a <= b
    ensures EstimateFee(a, numOutputs, rate, inputVbytes) <= EstimateFee(b, numOutputs, rate, inputVbytes)
  {
    var va := TX_OVERHEAD + a as real * inputVbytes + numOutputs as real * TR_OUTPUT_VBYTES;
    var vb := TX_OVERHEAD + b as real * inputVbytes + numOutputs as real * TR_OUTPUT_VBYTES;
    assert (b as real - a as real) * inputVbytes >= 0.0;
    assert (vb - va) * rate >= 0.0;
    assert va * rate <= vb * rate;
  }

  /** The fee is the least whole number that covers the rate on the transaction's size. */
  lemma FeeCoversSize(numInputs: nat, numOutputs: nat, rate: real, inputVbytes: real)
    requires rate > 0.0 && inputVbytes > 0.0
    ensures var size := 10.5 + numInputs as real * inputVbytes + numOutputs as real * 43.0;
            var fee := EstimateFee(numInputs, numOutputs, rate, inputVbytes);
            fee as real - 1.0 < size * rate <= fee as real
  {
  }

  // ---- Largest first ----

  function Total(coins: seq<Utxo>): nat {
    if coins == [] then 0 else coins[0].value + Total(coins[1..])
  }

  /** Total of the first `k` coins. */
  function Prefix(coins: seq<Utxo>, k: nat): nat {
    if k == 0 || coins == [] then 0 else coins[0].value + Prefix(coins[1..], k - 1)
  }

  lemma {:induction false} PrefixIsTotal(coins: seq<Utxo>, k: nat)
    requires k <= |coins|
    ensures Prefix(coins, k) == Total(coins[..k])
  {
    if k > 0 {
      PrefixIsTotal(coins[1..], k - 1);
      assert coins[..k][1..] == coins[1..][..k - 1];
    }
  }

  lemma {:induction false} PrefixStep(coins: seq<Utxo>, k: nat)
    requires k < |coins|
    ensures Prefix(coins, k + 1) == Prefix(coins, k) + coins[k].value
  {
    if k > 0 { PrefixStep(coins[1..], k - 1); }
  }

  /** Stable insertion into a list sorted by falling value. */
  function InsertDesc(x: Utxo, coins: seq<Utxo>): seq<Utxo> {
    if coins == [] || x.value >= coins[0].value then [x] + coins else [coins[0]] + InsertDesc(x, coins[1..])
  }

  function SortDesc(coins: seq<Utxo>): (s: seq<Utxo>)
    ensures |s| == |coins|
  {
    if coins == [] then [] else
      InsertDescLength(coins[0], SortDesc(coins[1..]));
      InsertDesc(coins[0], SortDesc(coins[1..]))
  }

  lemma {:induction false} InsertDescLength(x: Utxo, coins: seq<Utxo>)
    ensures |InsertDesc(x, coins)| == |coins| + 1
  {
    if coins != [] && x.value < coins[0].value { InsertDescLength(x, coins[1..]); }
  }

  lemma {:induction false} InsertDescKeeps(x: Utxo, coins: seq<Utxo>)
    ensures multiset(InsertDesc(x, coins)) == multiset{x} + multiset(coins)
  {
    if coins != [] {
      assert coins == [coins[0]] + coins[1..];
      if x.value < coins[0].value { InsertDescKeeps(x, coins[1..]); }
    }
  }

  lemma {:induction false} SortDescPermutes(coins: seq<Utxo>)
    ensures multiset(SortDesc(coins)) == multiset(coins)
  {
    if coins != [] {
      SortDescPermutes(coins[1..]);
      InsertDescKeeps(coins[0], SortDesc(coins[1..]));
      assert coins == [coins[0]] + coins[1..];
    }
  }

  predicate Descending(coins: seq<Utxo>) {
    forall i, j :: 0 <= i < j < |coins| ==> coins[i].value >= coins[j].value
  }

  lemma {:induction false} InsertDescSorted(x: Utxo, coins: seq<Utxo>)
    requires Descending(coins)
    ensures Descending(InsertDesc(x, coins))
  {
    if coins != [] && x.value < coins[0].value {
      InsertDescSorted(x, coins[1..]);
      InsertDescKeeps(x, coins[1..]);
      var rest := InsertDesc(x, coins[1..]);
      forall u | u in rest ensures u.value <= coins[0].value { assert u in multiset(rest); }
    }
  }

  lemma {:induction false} SortDescSorts(coins: seq<Utxo>)
    ensures Descending(SortDesc(coins))
  {
    if coins != [] { SortDescSorts(coins[1..]); InsertDescSorted(coins[0], SortDesc(coins[1..])); }
  }

  function OfValue(coins: seq<Utxo>, value: nat): seq<Utxo> {
    if coins == [] then []
    else (if coins[0].value == value then [coins[0]] else []) + OfValue(coins[1..], value)
  }

  lemma {:induction false} InsertKeepsTies(x: Utxo, coins: seq<Utxo>, value: nat)
    ensures OfValue(InsertDesc(x, coins), value) == OfValue([x] + coins, value)
  {
    if coins != [] && x.value < coins[0].value {
      InsertKeepsTies(x, coins[1..], value);
      assert InsertDesc(x, coins)[1..] == InsertDesc(x, coins[1..]);
      assert ([x] + coins)[1..] == coins && ([x] + coins[1..])[1..] == coins[1..];
    }
  }

  /** Coins of one value stay in the order they came in. */
  lemma {:induction false} SortDescKeepsTies(coins: seq<Utxo>, value: nat)
    ensures OfValue(SortDesc(coins), value) == OfValue(coins, value)
  {
    if coins != [] {
      SortDescKeepsTies(coins[1..], value);
      InsertKeepsTies(coins[0], SortDesc(coins[1..]), value);
      assert ([coins[0]] + SortDesc(coins[1..]))[1..] == SortDesc(coins[1..]);
    }
  }

  // ---- Any choice of coins ----

  /** A choice marks each coin as taken or left. */
  function ChosenCount(mask: seq<bool>): nat {
    if mask == [] then 0 else (if mask[0] then 1 else 0) + ChosenCount(mask[1..])
  }

  function ChosenTotal(coins: seq<Utxo>, mask: seq<bool>): nat
    requires |coins| == |mask|
  {
    if coins == [] then 0 else (if mask[0] then coins[0].value else 0) + ChosenTotal(coins[1..], mask[1..])
  }

  /** Taking one more coin into a sorted list never lowers its best totals. */
  lemma {:induction false} InsertRaisesPrefix(x: Utxo, coins: seq<Utxo>, k: nat)
    requires k <= |coins| && Descending(coins)
    ensures Prefix(InsertDesc(x, coins), k) >= Prefix(coins, k)
    ensures Prefix(InsertDesc(x, coins), k + 1) >= x.value + Prefix(coins, k)
  {
    if coins == [] {
    } else if x.value >= coins[0].value {
      assert ([x] + coins)[1..] == coins;
      if k > 0 { PrefixStep(coins, k - 1); }
    } else {
      assert ([coins[0]] + InsertDesc(x, coins[1..]))[1..] == InsertDesc(x, coins[1..]);
      if k > 0 { InsertRaisesPrefix(x, coins[1..], k - 1); }
    }
  }

  /** The exchange argument: no choice of `k` coins is worth more than the `k` largest. */
  lemma {:induction false} LargestFirstIsBest(coins: seq<Utxo>, mask: seq<bool>)
    requires |coins| == |mask|
    ensures ChosenCount(mask) <= |coins|
    ensures ChosenTotal(coins, mask) <= Prefix(SortDesc(coins), ChosenCount(mask))
  {
    if coins != [] {
      LargestFirstIsBest(coins[1..], mask[1..]);
      SortDescSorts(coins[1..]);
      InsertRaisesPrefix(coins[0], SortDesc(coins[1..]), ChosenCount(mask[1..]));
    }
  }

  /** And the `k` largest are themselves a choice. */
  lemma {:induction false} PrefixIsAChoice(coins: seq<Utxo>, k: nat) returns (mask: seq<bool>)
    requires k <= |coins|
    ensures |mask| == |coins| && ChosenCount(mask) == k && ChosenTotal(coins, mask) == Prefix(SortDesc(coins), k)
  {
    if coins == [] {
      mask := [];
    } else {
      var rest := SortDesc(coins[1..]);
      var p := Position(coins[0], rest);
      InsertPrefix(coins[0], rest, k);
      mask := PrefixIsAChoice(coins[1..], if p < k then k - 1 else k);
      mask := [p < k] + mask;
      assert mask[1..] == mask[1..];
    }
  }

  /** Where insertion puts the coin. */
  function Position(x: Utxo, coins: seq<Utxo>): (p: nat)
    ensures p <= |coins|
  {
    if coins == [] || x.value >= coins[0].value then 0 else 1 + Position(x, coins[1..])
  }

  lemma {:induction false} InsertPrefix(x: Utxo, coins: seq<Utxo>, k: nat)
    requires k <= |coins| + 1
    ensures Prefix(InsertDesc(x, coins), k) ==
            if Position(x, coins) < k then x.value + Prefix(coins, k - 1) else Prefix(coins, k)
  {
    if coins != [] {
      if x.value >= coins[0].value {
        assert ([x] + coins)[1..] == coins;
      } else {
        assert ([coins[0]] + InsertDesc(x, coins[1..]))[1..] == InsertDesc(x, coins[1..]);
        if k > 0 { InsertPrefix(x, coins[1..], k - 1); }
      }
    }
  }

  // ---- The selection loops ----

  /** The first number of coins at which the loop stops: the total reaches what that many need, or no coin is left. */
  function StopAt(sorted: seq<Utxo>, need: nat -> nat, k: nat): (stop: nat)
    requires 1 <= k <= |sorted|
    ensures k <= stop <= |sorted|
    ensures forall j :: k <= j < stop ==> Prefix(sorted, j) < need(j)
    ensures stop < |sorted| ==> Prefix(sorted, stop) >= need(stop)
    decreases |sorted| - k
  {
    if k == |sorted| || Prefix(sorted, k) >= need(k) then k else StopAt(sorted, need, k + 1)
  }

  /** One pass of the loop, from `k` coins to `k + 1`. */
  lemma TakeOne(sorted: seq<Utxo>, need: nat -> nat, k: nat)
    requires k < |sorted|
    ensures sorted[..k] + [sorted[k]] == sorted[..k + 1] && Prefix(sorted, k) + sorted[k].value == Prefix(sorted, k + 1)
    ensures StopAt(sorted, need, k + 1) ==
            if k + 1 == |sorted| || Prefix(sorted, k + 1) >= need(k + 1) then k + 1 else StopAt(sorted, need, k + 2)
  {
    PrefixStep(sorted, k);
  }

  /** Pushes coins largest first until the running total meets the need for that many coins. */
  method TakeLargestFirst(confirmed: seq<Utxo>, need: nat -> nat) returns (selected: seq<Utxo>, totalIn: nat)
    requires confirmed != []
    ensures selected == SortDesc(confirmed)[..StopAt(SortDesc(confirmed), need, 1)]
    ensures totalIn == Total(selected)
  {
    selected, totalIn := TakeUntil(SortDesc(confirmed), need);
  }

  method TakeUntil(sorted: seq<Utxo>, need: nat -> nat) returns (selected: seq<Utxo>, totalIn: nat)
    requires sorted != []
    ensures selected == sorted[..StopAt(sorted, need, 1)]
    ensures totalIn == Total(selected)
  {
    selected, totalIn := [], 0;
    ghost var stop := StopAt(sorted, need, 1);
    var k := 0;
    while k < |sorted|
      invariant k <= |sorted| && selected == sorted[..k] && totalIn == Prefix(sorted, k)
      invariant k < |sorted| ==> stop == StopAt(sorted, need, k + 1)
      invariant k == |sorted| ==> stop == k
    {
      TakeOne(sorted, need, k);
      selected := selected + [sorted[k]];
      totalIn := totalIn + sorted[k].value;
      k := k + 1;
      if totalIn >= need(k) { break; }
    }
    PrefixIsTotal(sorted, k);
  }

  // ---- Spend plans ----

  datatype SpendError = InvalidAmount | NoUtxos | InsufficientFunds(need: int, have: int) | NotFound

  /** What the request layer quotes and forwards to the PSBT builder. */
  datatype Plan = Plan(selected: seq<Utxo>, totalIn: nat, amount: nat, fee: nat, hasChange: bool, change: nat)

  /** Everything confirmed in one output; nothing left over. */
  function SweepPlan(selected: seq<Utxo>, rate: real, inputVbytes: real): Result<Plan, SpendError>
    requires rate > 0.0 && inputVbytes > 0.0
  {
    var totalIn, fee := Total(selected), EstimateFee(|selected|, 1, rate, inputVbytes);
    if totalIn - fee < DUST then Err(InsufficientFunds(fee + DUST, totalIn))
    else Ok(Plan(selected, totalIn, totalIn - fee, fee, false, 0))
  }

  /** The fee, change and funds check once the coins are chosen. */
  function FixedPlan(selected: seq<Utxo>, amount: nat, rate: real, inputVbytes: real): Result<Plan, SpendError>
    requires rate > 0.0 && inputVbytes > 0.0
  {
    var totalIn, fee := Total(selected), EstimateFee(|selected|, 2, rate, inputVbytes);
    if totalIn < amount + fee then Err(InsufficientFunds(amount + fee, totalIn))
    else
      var change := totalIn - amount - fee;
      Ok(Plan(selected, totalIn, amount, fee, change >= DUST, change))
  }

  /** What funding `amount` takes with `k` coins and two outputs. */
  function Needed(amount: nat, rate: real, inputVbytes: real): nat -> nat
    requires rate > 0.0 && inputVbytes > 0.0
  {
    (k: nat) => amount + EstimateFee(k, 2, rate, inputVbytes)
  }

  /** A choice of coins that covers the amount and its own fee. */
  ghost predicate Funds(confirmed: seq<Utxo>, mask: seq<bool>, amount: nat, rate: real, inputVbytes: real)
    requires rate > 0.0 && inputVbytes > 0.0
  {
    |mask| == |confirmed| && ChosenCount(mask) > 0
    && ChosenTotal(confirmed, mask) >= amount + EstimateFee(ChosenCount(mask), 2, rate, inputVbytes)
  }

  // ---- Tranche claims ----

  function TranchePlan(confirmed: seq<Utxo>, amount: Option<int>, rate: real): Result<Plan, SpendError>
    requires rate > 0.0
  {
    if amount.Some? && !(DUST <= amount.value <= MAX_SAFE_INTEGER) then Err(InvalidAmount)
    else if confirmed == [] then Err(NoUtxos)
    else if amount.None? then SweepPlan(confirmed, rate, TR_INPUT_VBYTES)
    else
      var sorted := SortDesc(confirmed);
      FixedPlan(sorted[..StopAt(sorted, Needed(amount.value, rate, TR_INPUT_VBYTES), 1)], amount.value, rate,
                TR_INPUT_VBYTES)
  }

  method PlanTrancheClaim(confirmed: seq<Utxo>, amount: Option<int>, rate: real) returns (r: Result<Plan, SpendError>)
    requires rate > 0.0
    ensures r == TranchePlan(confirmed, amount, rate)
  {
    if amount.Some? && !(DUST <= amount.value <= MAX_SAFE_INTEGER) { return Err(InvalidAmount); }
    if confirmed == [] { return Err(NoUtxos); }
    if amount.None? {
      r := SweepPlan(confirmed, rate, TR_INPUT_VBYTES);
    } else {
      var selected, totalIn := TakeLargestFirst(confirmed, Needed(amount.value, rate, TR_INPUT_VBYTES));
      var fee := EstimateFee(|selected|, 2, rate, TR_INPUT_VBYTES);
      if totalIn < amount.value + fee { return Err(InsufficientFunds(amount.value + fee, totalIn)); }
      var change := totalIn - amount.value - fee;
      r := Ok(Plan(selected, totalIn, amount.value, fee, change >= DUST, change));
    }
  }

  /** Complete and optimal: a partial claim fails exactly when no choice of coins
      funds it, and otherwise uses as few coins, hence quotes as low a fee, as any
      choice that does. */
  lemma TrancheSelectionIsOptimal(confirmed: seq<Utxo>, amount: nat, rate: real)
    requires rate > 0.0 && confirmed != [] && DUST <= amount <= MAX_SAFE_INTEGER
    ensures var r := TranchePlan(confirmed, Some(amount), rate);
            && (r.Ok? <==> exists mask :: Funds(confirmed, mask, amount, rate, TR_INPUT_VBYTES))
            && (r.Ok? ==> multiset(r.value.selected) <= multiset(confirmed))
            && (forall mask :: r.Ok? && Funds(confirmed, mask, amount, rate, TR_INPUT_VBYTES) ==>
                  |r.value.selected| <= ChosenCount(mask)
                  && r.value.fee <= EstimateFee(ChosenCount(mask), 2, rate, TR_INPUT_VBYTES))
  {
    var sorted, need := SortDesc(confirmed), Needed(amount, rate, TR_INPUT_VBYTES);
    var k := StopAt(sorted, need, 1);
    var r := TranchePlan(confirmed, Some(amount), rate);
    PrefixIsTotal(sorted, k);
    assert r.Ok? <==> Prefix(sorted, k) >= need(k);
    if r.Ok? {
      var mask := PrefixIsAChoice(confirmed, k);
      assert Funds(confirmed, mask, amount, rate, TR_INPUT_VBYTES);
      SortDescPermutes(confirmed);
      assert sorted == sorted[..k] + sorted[k..];
    }
    forall mask | Funds(confirmed, mask, amount, rate, TR_INPUT_VBYTES)
      ensures r.Ok? && k <= ChosenCount(mask)
      ensures EstimateFee(k, 2, rate, TR_INPUT_VBYTES) <= EstimateFee(ChosenCount(mask), 2, rate, TR_INPUT_VBYTES)
    {
      var c := ChosenCount(mask);
      LargestFirstIsBest(confirmed, mask);
      assert Prefix(sorted, c) >= need(c);
      FeeGrowsWithInputs(k, c, 2, rate, TR_INPUT_VBYTES);
    }
  }

  // ---- Vault spends: one-input stopping rule, coin control, sweep ----

  /** Membership of the requested outpoints, as the source's set of `txid:vout` keys. */
  function PickRequested(confirmed: seq<Utxo>, wanted: set<OutPoint>): seq<Utxo> {
    if confirmed == [] then []
    else (if confirmed[0].outpoint in wanted then [confirmed[0]] else []) + PickRequested(confirmed[1..], wanted)
  }

  function CoinControl(confirmed: seq<Utxo>, requested: seq<OutPoint>): Result<seq<Utxo>, SpendError> {
    var selected := PickRequested(confirmed, AsSet(requested));
    if |selected| != |requested| then Err(NotFound) else Ok(selected)
  }

  /** `requested` empty means none were given. */
  function VaultPlan(confirmed: seq<Utxo>, requested: seq<OutPoint>, sweep: bool, amount: int, rate: real,
                     inputVbytes: real)
    : Result<Plan, SpendError>
    requires rate > 0.0 && inputVbytes > 0.0
  {
    if !sweep && !(DUST <= amount <= MAX_SAFE_INTEGER) then Err(InvalidAmount)
    else if confirmed == [] then Err(NoUtxos)
    else if requested != [] then
      match CoinControl(confirmed, requested)
      case Err(e) => Err(e)
      case Ok(selected) =>
        if sweep then SweepPlan(selected, rate, inputVbytes) else FixedPlan(selected, amount, rate, inputVbytes)
    else if sweep then SweepPlan(confirmed, rate, inputVbytes)
    else FixedPlan(SortDesc(confirmed)[..OneInputStop(confirmed, amount, rate, inputVbytes)], amount, rate, inputVbytes)
  }

  /** Where the vault's loop stops: it compares against the fee for one input throughout. */
  function OneInputStop(confirmed: seq<Utxo>, amount: nat, rate: real, inputVbytes: real): nat
    requires confirmed != [] && rate > 0.0 && inputVbytes > 0.0
  {
    StopAt(SortDesc(confirmed), (k: nat) => amount + EstimateFee(1, 2, rate, inputVbytes), 1)
  }

  method PlanVaultSpend(confirmed: seq<Utxo>, requested: seq<OutPoint>, sweep: bool, amount: int, rate: real,
                        inputVbytes: real)
    returns (r: Result<Plan, SpendError>)
    requires rate > 0.0 && inputVbytes > 0.0
    ensures r == VaultPlan(confirmed, requested, sweep, amount, rate, inputVbytes)
  {
    if !sweep && !(DUST <= amount <= MAX_SAFE_INTEGER) { return Err(InvalidAmount); }
    if confirmed == [] { return Err(NoUtxos); }
    var selected := confirmed;
    if requested != [] {
      var picked := CoinControl(confirmed, requested);
      if picked.Err? { return Err(picked.error); }
      selected := picked.value;
    } else if !sweep {
      var estFee := EstimateFee(1, 2, rate, inputVbytes);
      var totalIn: nat;
      selected, totalIn := TakeLargestFirst(confirmed, (k: nat) => amount + EstimateFee(1, 2, rate, inputVbytes));
    }
    r := if sweep then SweepPlan(selected, rate, inputVbytes) else FixedPlan(selected, amount, rate, inputVbytes);
  }

  /** The vault's loop is sound, and refuses a fundable request exactly when it
      stopped on coins that pay a one-input fee but not their own, while taking
      more of the largest coins would have paid. */
  lemma VaultSelectionSoundness(confirmed: seq<Utxo>, amount: nat, rate: real, inputVbytes: real)
    requires rate > 0.0 && inputVbytes > 0.0 && confirmed != [] && DUST <= amount <= MAX_SAFE_INTEGER
    ensures var r := VaultPlan(confirmed, [], false, amount, rate, inputVbytes);
            var k := OneInputStop(confirmed, amount, rate, inputVbytes);
            var sorted := SortDesc(confirmed);
            && (r.Ok? ==> exists mask :: Funds(confirmed, mask, amount, rate, inputVbytes))
            && (r.Err? && (exists mask :: Funds(confirmed, mask, amount, rate, inputVbytes)) <==>
                  && Prefix(sorted, k) < amount + EstimateFee(k, 2, rate, inputVbytes)
                  && exists j :: k < j <= |sorted| &&
                      Prefix(sorted, j) >= amount + EstimateFee(j, 2, rate, inputVbytes))
  {
    var sorted := SortDesc(confirmed);
    var k := OneInputStop(confirmed, amount, rate, inputVbytes);
    var r := VaultPlan(confirmed, [], false, amount, rate, inputVbytes);
    PrefixIsTotal(sorted, k);
    assert r.Ok? <==> Prefix(sorted, k) >= amount + EstimateFee(k, 2, rate, inputVbytes);
    if r.Ok? {
      var mask := PrefixIsAChoice(confirmed, k);
      assert Funds(confirmed, mask, amount, rate, inputVbytes);
    }
    if mask :| Funds(confirmed, mask, amount, rate, inputVbytes) && r.Err? {
      var c := ChosenCount(mask);
      LargestFirstIsBest(confirmed, mask);
      FeeGrowsWithInputs(1, c, 2, rate, inputVbytes);
      assert k < c;
    }
    if j :| k < j <= |sorted| && Prefix(sorted, j) >= amount + EstimateFee(j, 2, rate, inputVbytes) {
      var mask := PrefixIsAChoice(confirmed, j);
      assert Funds(confirmed, mask, amount, rate, inputVbytes);
    }
  }

  /** The request layer's size of an input that signs through a leaf of `total` keys. */
  function TapscriptInputVbytes(quorum: nat, total: nat, treeDepth: nat): real {
    var leafScript := 33 * total + 2;
    var controlBlock := 33 + 1 + 32 * treeDepth;
    var witnessBytes := quorum * 65 + (if total > quorum then total - quorum else 0) + (leafScript + 3) +
        (controlBlock + 3) + 1;
    41.0 + witnessBytes as real / 4.0
  }

  /** No leaf is smaller than a single key in a tree of two. */
  lemma SmallestLeaf(quorum: nat, total: nat, treeDepth: nat)
    requires 1 <= quorum <= total && treeDepth >= 1
    ensures TapscriptInputVbytes(quorum, total, treeDepth) >= TapscriptInputVbytes(1, 1, 1) == 84.25
  {
  }

  /** Each key in the leaf costs 8.5 vbytes, each signature 16, and each level of the tree 8. */
  lemma LeafSizeSteps(quorum: nat, total: nat, treeDepth: nat)
    requires quorum <= total
    ensures var size := TapscriptInputVbytes(quorum, total, treeDepth);
            && TapscriptInputVbytes(quorum, total + 1, treeDepth) == size + 8.5
            && (quorum < total ==> TapscriptInputVbytes(quorum + 1, total, treeDepth) == size + 16.0)
            && TapscriptInputVbytes(quorum, total, treeDepth + 1) == size + 8.0
  {
  }

  /** From one unit of fee per input on, a second input costs more. */
  lemma SecondInputCosts(rate: real, inputVbytes: real)
    requires rate > 0.0 && inputVbytes > 0.0 && rate * inputVbytes >= 1.0
    ensures EstimateFee(1, 2, rate, inputVbytes) < EstimateFee(2, 2, rate, inputVbytes)
  {
    var a := (TX_OVERHEAD + inputVbytes + 2.0 * TR_OUTPUT_VBYTES) * rate;
    var b := (TX_OVERHEAD + 2.0 * inputVbytes + 2.0 * TR_OUTPUT_VBYTES) * rate;
    assert b == a + rate * inputVbytes;
    assert EstimateFee(1, 2, rate, inputVbytes) == Ceil(a) && EstimateFee(2, 2, rate, inputVbytes) == Ceil(b);
  }

  /** Such a refusal happens at every size and rate the endpoints compute, not only at
      odd ones: there are always three equal coins and an amount that two of them cover
      with one input's fee, not with their own, while all three would pay. Rates start
      at 1, leaves at 84.25; the fee is assumed to be an amount that exists. */
  lemma VaultSelectionIncomplete(rate: real, inputVbytes: real) returns (coins: seq<Utxo>, amount: nat)
    requires rate > 0.0 && inputVbytes > 0.0 && rate * inputVbytes >= 1.0
    requires EstimateFee(3, 2, rate, inputVbytes) <= 2_100_000_000_000_000
    ensures DUST <= amount <= MAX_SAFE_INTEGER
    ensures VaultPlan(coins, [], false, amount, rate, inputVbytes).Err?
    ensures Funds(coins, [true, true, true], amount, rate, inputVbytes)
  {
    var f1, f2, f3 := EstimateFee(1, 2, rate, inputVbytes), EstimateFee(2, 2, rate, inputVbytes),
        EstimateFee(3, 2, rate, inputVbytes);
    SecondInputCosts(rate, inputVbytes);
    FeeGrowsWithInputs(2, 3, 2, rate, inputVbytes);
    var value := f3 + DUST;
    coins := [Utxo(OutPoint(1, 0), value), Utxo(OutPoint(2, 0), value), Utxo(OutPoint(3, 0), value)];
    amount := 2 * value - f1;
    EqualCoins(coins, value);
    assert amount + f1 == Prefix(coins, 2) < amount + f2;
    var need := (k: nat) => amount + EstimateFee(1, 2, rate, inputVbytes);
    assert StopAt(coins, need, 1) == StopAt(coins, need, 2) == 2;
    assert Total(coins[..2]) == 2 * value by { PrefixIsTotal(coins, 2); }
  }

  lemma EqualCoins(coins: seq<Utxo>, value: nat)
    requires |coins| == 3 && forall i :: 0 <= i < 3 ==> coins[i].value == value
    ensures SortDesc(coins) == coins
    ensures Prefix(coins, 1) == value && Prefix(coins, 2) == 2 * value
    ensures ChosenCount([true, true, true]) == 3 && ChosenTotal(coins, [true, true, true]) == 3 * value
  {
    var a, b, c := coins[0], coins[1], coins[2];
    assert coins == [a, b, c] && coins[1..] == [b, c] && [b, c][1..] == [c] && [c][1..] == [];
    assert SortDesc([c]) == [c];
    assert SortDesc([b, c]) == [b, c];
    PrefixStep(coins, 0);
    PrefixStep(coins, 1);
    assert [true, true, true][1..] == [true, true] && [true, true][1..] == [true] && [true][1..] == [];
    assert ChosenTotal([c], [true]) == value;
    assert ChosenTotal([b, c], [true, true]) == value + ChosenTotal([c], [true]);
  }

  // ---- Coin control ----

  function OutPoints(coins: seq<Utxo>): (s: seq<OutPoint>)
    ensures |s| == |coins|
  {
    if coins == [] then [] else [coins[0].outpoint] + OutPoints(coins[1..])
  }

  function AsSet<T(==)>(s: seq<T>): set<T> { set x | x in s }

  lemma SetOfCons<T>(x: T, rest: seq<T>)
    ensures AsSet([x] + rest) == {x} + AsSet(rest)
    ensures Distinct([x] + rest) <==> x !in AsSet(rest) && Distinct(rest)
  {
    var s := [x] + rest;
    assert forall j :: 0 <= j < |rest| ==> rest[j] == s[j + 1];
    if Distinct(s) {
      forall i, j | 0 <= i < j < |rest| ensures rest[i] != rest[j] { assert s[i + 1] != s[j + 1]; }
      forall j | 0 <= j < |rest| ensures rest[j] != x { assert s[0] != s[j + 1]; }
    }
  }

  lemma {:induction false} CardinalityOfSeq<T>(s: seq<T>)
    ensures |AsSet(s)| <= |s|
    ensures |AsSet(s)| == |s| <==> Distinct(s)
  {
    if s != [] {
      CardinalityOfSeq(s[1..]);
      SetOfCons(s[0], s[1..]);
      assert s == [s[0]] + s[1..];
    }
  }

  lemma PickOne(u: Utxo, rest: seq<Utxo>, wanted: set<OutPoint>)
    ensures OutPoints([u] + rest) == [u.outpoint] + OutPoints(rest)
    ensures OutPoints(PickRequested([u] + rest, wanted)) ==
            (if u.outpoint in wanted then [u.outpoint] else []) + OutPoints(PickRequested(rest, wanted))
  {
    assert ([u] + rest)[1..] == rest;
    if u.outpoint in wanted {
      assert PickRequested([u] + rest, wanted)[1..] == PickRequested(rest, wanted);
    } else {
      assert PickRequested([u] + rest, wanted) == PickRequested(rest, wanted);
    }
  }

  lemma {:induction false} PickedOutPoints(confirmed: seq<Utxo>, wanted: set<OutPoint>)
    ensures AsSet(OutPoints(PickRequested(confirmed, wanted))) == AsSet(OutPoints(confirmed)) * wanted
    ensures Distinct(OutPoints(confirmed)) ==> Distinct(OutPoints(PickRequested(confirmed, wanted)))
  {
    if confirmed != [] {
      var u, rest := confirmed[0], confirmed[1..];
      var picked := OutPoints(PickRequested(rest, wanted));
      PickedOutPoints(rest, wanted);
      assert confirmed == [u] + rest;
      PickOne(u, rest, wanted);
      SetOfCons(u.outpoint, OutPoints(rest));
      SetOfCons(u.outpoint, picked);
      assert u.outpoint !in wanted ==> OutPoints(PickRequested(confirmed, wanted)) == picked;
    }
  }

  /** Coin control spends exactly the requested coins, and is refused exactly when
      a request repeats a coin or names one that is not confirmed. */
  lemma CoinControlIsExact(confirmed: seq<Utxo>, requested: seq<OutPoint>)
    requires Distinct(OutPoints(confirmed))
    ensures CoinControl(confirmed, requested).Ok? <==>
            Distinct(requested) && AsSet(requested) <= AsSet(OutPoints(confirmed))
    ensures CoinControl(confirmed, requested).Ok? ==>
              var spent := OutPoints(CoinControl(confirmed, requested).value);
              Distinct(spent) && AsSet(spent) == AsSet(requested)
  {
    var wanted := AsSet(requested);
    var found := AsSet(OutPoints(confirmed)) * wanted;
    PickedOutPoints(confirmed, wanted);
    CardinalityOfSeq(requested);
    CardinalityOfSeq(OutPoints(PickRequested(confirmed, wanted)));
    assert |wanted| == |found| + |wanted - found| by { assert wanted == found + (wanted - found); }
    if |found| == |wanted| { assert wanted - found == {}; assert found == wanted; }
  }

  // ---- What a plan is, whatever the way to it ----

  /** What must come of spending these coins: a refusal when they do not cover the fee and
      the amount, or for a sweep an output worth making; else a plan over all of them. */
  predicate PlanOver(coins: seq<Utxo>, sweep: bool, amount: int, rate: real, inputVbytes: real,
                     r: Result<Plan, SpendError>)
    requires rate > 0.0 && inputVbytes > 0.0
  {
    var fee := EstimateFee(|coins|, if sweep then 1 else 2, rate, inputVbytes);
    var need := fee + if sweep then 546 else amount;
    match r
    case Err(e) => Total(coins) < need && e == InsufficientFunds(need, Total(coins))
    case Ok(plan) =>
      && Total(coins) >= need && plan.selected == coins && plan.totalIn == Total(coins) && plan.fee == fee
      && plan.amount == (if sweep then Total(coins) - fee else amount)
      && plan.change == Total(coins) - fee - plan.amount && (plan.hasChange <==> plan.change >= 546)
  }

  /** The coins asked for and no others. */
  predicate TheRequested(confirmed: seq<Utxo>, requested: seq<OutPoint>, coins: seq<Utxo>) {
    && Distinct(OutPoints(coins)) && AsSet(OutPoints(coins)) == AsSet(requested)
    && multiset(coins) <= multiset(confirmed)
  }

  /** The largest coins, up to the first number of them that meets the need, or all. */
  ghost predicate LargestUntil(confirmed: seq<Utxo>, need: nat -> nat, coins: seq<Utxo>) {
    && coins != [] && Descending(coins) && multiset(coins) <= multiset(confirmed)
    && (forall u: Utxo, v: Utxo :: u in coins && v in multiset(confirmed) - multiset(coins) ==> u.value >= v.value)
    && (forall k :: 1 <= k < |coins| ==> Total(coins[..k]) < need(k))
    && (|coins| < |confirmed| ==> Total(coins) >= need(|coins|))
  }

  lemma StopTakesLargest(confirmed: seq<Utxo>, need: nat -> nat)
    requires confirmed != []
    ensures LargestUntil(confirmed, need, SortDesc(confirmed)[..StopAt(SortDesc(confirmed), need, 1)])
  {
    var sorted, k := SortDesc(confirmed), StopAt(SortDesc(confirmed), need, 1);
    SortedFirst(confirmed, k);
    StopTotals(sorted, need, k);
  }

  lemma SortedFirst(confirmed: seq<Utxo>, k: nat)
    requires k <= |confirmed|
    ensures var coins := SortDesc(confirmed)[..k];
            && Descending(coins) && multiset(coins) <= multiset(confirmed)
            && forall u: Utxo, v: Utxo ::
                 u in coins && v in multiset(confirmed) - multiset(coins) ==> u.value >= v.value
  {
    var sorted := SortDesc(confirmed);
    SortDescSorts(confirmed);
    SortDescPermutes(confirmed);
    assert sorted == sorted[..k] + sorted[k..];
    FirstAreLargest(multiset(confirmed), sorted[..k], sorted[k..]);
  }

  lemma FirstAreLargest(all: multiset<Utxo>, coins: seq<Utxo>, left: seq<Utxo>)
    requires Descending(coins + left) && all == multiset(coins + left)
    ensures Descending(coins) && multiset(coins) <= all
    ensures forall u: Utxo, v: Utxo :: u in coins && v in all - multiset(coins) ==> u.value >= v.value
  {
    assert forall i :: 0 <= i < |coins| ==> (coins + left)[i] == coins[i];
    assert all == multiset(coins) + multiset(left);
    forall u: Utxo, v: Utxo | u in coins && v in all - multiset(coins) ensures u.value >= v.value {
      assert v in multiset(left);
      Ordered(coins, left, u, v);
    }
  }

  lemma StopTotals(sorted: seq<Utxo>, need: nat -> nat, k: nat)
    requires sorted != [] && k == StopAt(sorted, need, 1)
    ensures forall j :: 1 <= j < k ==> Total(sorted[..k][..j]) < need(j)
    ensures k < |sorted| ==> Total(sorted[..k]) >= need(k)
  {
    forall j | 1 <= j < k ensures Total(sorted[..k][..j]) < need(j) {
      PrefixIsTotal(sorted, j);
      assert sorted[..k][..j] == sorted[..j];
    }
    PrefixIsTotal(sorted, k);
  }

  lemma Ordered(coins: seq<Utxo>, left: seq<Utxo>, u: Utxo, v: Utxo)
    requires Descending(coins + left) && u in coins && v in left
    ensures u.value >= v.value
  {
    var i :| 0 <= i < |coins| && coins[i] == u;
    var j :| 0 <= j < |left| && left[j] == v;
    assert (coins + left)[i] == u && (coins + left)[|coins| + j] == v;
  }

  lemma {:induction false} PickedAreConfirmed(confirmed: seq<Utxo>, wanted: set<OutPoint>)
    ensures multiset(PickRequested(confirmed, wanted)) <= multiset(confirmed)
  {
    if confirmed != [] {
      PickedAreConfirmed(confirmed[1..], wanted);
      assert confirmed == [confirmed[0]] + confirmed[1..];
    }
  }

  /** Which coins a vault spend uses: those asked for; else all in a sweep; else the
      largest until they cover the amount and the fee of one input. */
  ghost predicate Asked(confirmed: seq<Utxo>, requested: seq<OutPoint>, sweep: bool, amount: int, rate: real,
                        inputVbytes: real, coins: seq<Utxo>)
    requires rate > 0.0 && inputVbytes > 0.0 && (sweep || amount >= 0)
  {
    if requested != [] then TheRequested(confirmed, requested, coins)
    else if sweep then coins == confirmed
    else LargestUntil(confirmed, (k: nat) => amount + EstimateFee(1, 2, rate, inputVbytes), coins)
  }

  /** A vault spend, start to end: refused for an amount out of bounds, for no coins, for a
      request that repeats a coin or names one that is not confirmed; else it is a plan
      over the coins asked for, or the refusal of those coins as too few. */
  lemma VaultPlanIsAsAsked(confirmed: seq<Utxo>, requested: seq<OutPoint>, sweep: bool, amount: int, rate: real,
                           inputVbytes: real)
    requires rate > 0.0 && inputVbytes > 0.0 && Distinct(OutPoints(confirmed))
    ensures var r := VaultPlan(confirmed, requested, sweep, amount, rate, inputVbytes);
            if !sweep && !(546 <= amount <= 9_007_199_254_740_991) then r == Err(InvalidAmount)
            else if confirmed == [] then r == Err(NoUtxos)
            else if !Distinct(requested) || !(AsSet(requested) <= AsSet(OutPoints(confirmed))) then r == Err(NotFound)
            else exists coins :: Asked(confirmed, requested, sweep, amount, rate, inputVbytes, coins)
                   && PlanOver(coins, sweep, amount, rate, inputVbytes, r)
  {
    var r := VaultPlan(confirmed, requested, sweep, amount, rate, inputVbytes);
    if (sweep || DUST <= amount <= MAX_SAFE_INTEGER) && confirmed != [] {
      CoinControlIsExact(confirmed, requested);
      if requested == [] || CoinControl(confirmed, requested).Ok? {
        var coins := VaultCoins(confirmed, requested, sweep, amount, rate, inputVbytes);
        CoinsAsAsked(confirmed, requested, sweep, amount, rate, inputVbytes);
        CoinsPlanned(coins, sweep, amount, rate, inputVbytes);
        assert r == if sweep then SweepPlan(coins, rate, inputVbytes) else FixedPlan(coins, amount, rate, inputVbytes);
      }
    }
  }

  /** The coins each way of selecting comes to. */
  function VaultCoins(confirmed: seq<Utxo>, requested: seq<OutPoint>, sweep: bool, amount: int, rate: real,
                      inputVbytes: real): seq<Utxo>
    requires rate > 0.0 && inputVbytes > 0.0 && confirmed != [] && (sweep || amount >= 0)
  {
    if requested != [] then PickRequested(confirmed, AsSet(requested))
    else if sweep then confirmed
    else SortDesc(confirmed)[..OneInputStop(confirmed, amount, rate, inputVbytes)]
  }

  lemma CoinsAsAsked(confirmed: seq<Utxo>, requested: seq<OutPoint>, sweep: bool, amount: int, rate: real,
                     inputVbytes: real)
    requires rate > 0.0 && inputVbytes > 0.0 && confirmed != [] && (sweep || amount >= 0)
    requires Distinct(OutPoints(confirmed)) && (requested == [] || CoinControl(confirmed, requested).Ok?)
    ensures var coins := VaultCoins(confirmed, requested, sweep, amount, rate, inputVbytes);
            Asked(confirmed, requested, sweep, amount, rate, inputVbytes, coins)
  {
    if requested != [] {
      CoinControlIsExact(confirmed, requested);
      PickedAreConfirmed(confirmed, AsSet(requested));
    } else if !sweep {
      StopTakesLargest(confirmed, (k: nat) => amount + EstimateFee(1, 2, rate, inputVbytes));
    }
  }

  lemma CoinsPlanned(coins: seq<Utxo>, sweep: bool, amount: int, rate: real, inputVbytes: real)
    requires rate > 0.0 && inputVbytes > 0.0 && (sweep || amount >= 0)
    ensures PlanOver(coins, sweep, amount, rate, inputVbytes,
                     if sweep then SweepPlan(coins, rate, inputVbytes) else FixedPlan(coins, amount, rate, inputVbytes))
  {
  }

  /** A tranche claim, start to end: a sweep spends every coin; a partial claim the largest
      until they cover the amount and their own fee. */
  lemma TranchePlanIsAsAsked(confirmed: seq<Utxo>, amount: Option<int>, rate: real)
    requires rate > 0.0
    ensures var r := TranchePlan(confirmed, amount, rate);
            if amount.Some? && !(546 <= amount.value <= 9_007_199_254_740_991) then r == Err(InvalidAmount)
            else if confirmed == [] then r == Err(NoUtxos)
            else if amount.None? then PlanOver(confirmed, true, 0, rate, 57.5, r)
            else exists coins :: LargestUntil(confirmed, Needed(amount.value, rate, 57.5), coins)
                   && PlanOver(coins, false, amount.value, rate, 57.5, r)
  {
    var r := TranchePlan(confirmed, amount, rate);
    if amount.Some? && DUST <= amount.value <= MAX_SAFE_INTEGER && confirmed != [] {
      var need := Needed(amount.value, rate, TR_INPUT_VBYTES);
      var coins := SortDesc(confirmed)[..StopAt(SortDesc(confirmed), need, 1)];
      StopTakesLargest(confirmed, need);
      CoinsPlanned(coins, false, amount.value, rate, TR_INPUT_VBYTES);
      assert r == FixedPlan(coins, amount.value, rate, TR_INPUT_VBYTES);
    } else if amount.None? && confirmed != [] {
      CoinsPlanned(confirmed, true, 0, rate, TR_INPUT_VBYTES);
    }
  }

  /** So an accepted plan spends confirmed coins only, no more often than they are there;
      exactly those asked for, if any were; and in a sweep without a request all of them. */
  lemma PlanSpendsAsAsked(confirmed: seq<Utxo>, requested: seq<OutPoint>, sweep: bool, amount: int, rate: real,
                          inputVbytes: real)
    requires rate > 0.0 && inputVbytes > 0.0 && Distinct(OutPoints(confirmed))
    requires VaultPlan(confirmed, requested, sweep, amount, rate, inputVbytes).Ok?
    ensures var spent := VaultPlan(confirmed, requested, sweep, amount, rate, inputVbytes).value.selected;
            && multiset(spent) <= multiset(confirmed) && Distinct(OutPoints(spent))
            && (requested != [] ==> AsSet(OutPoints(spent)) == AsSet(requested))
            && (requested == [] && sweep ==> multiset(spent) == multiset(confirmed))
  {
    VaultPlanIsAsAsked(confirmed, requested, sweep, amount, rate, inputVbytes);
    var spent := VaultPlan(confirmed, requested, sweep, amount, rate, inputVbytes).value.selected;
    DistinctPart(confirmed, spent);
  }

  lemma {:induction false} OutPointAt(coins: seq<Utxo>, i: nat)
    requires i < |coins|
    ensures OutPoints(coins)[i] == coins[i].outpoint
  {
    if i > 0 { OutPointAt(coins[1..], i - 1); }
  }

  /** Coins taken from a list without repeated outpoints repeat none. */
  lemma DistinctPart(confirmed: seq<Utxo>, spent: seq<Utxo>)
    requires Distinct(OutPoints(confirmed)) && multiset(spent) <= multiset(confirmed)
    ensures Distinct(OutPoints(spent))
  {
    forall i, j | 0 <= i < j < |spent| ensures OutPoints(spent)[i] != OutPoints(spent)[j] {
      OutPointAt(spent, i);
      OutPointAt(spent, j);
      var a, b := TwoPlaces(confirmed, spent, i, j);
      OutPointAt(confirmed, a);
      OutPointAt(confirmed, b);
    }
  }

  lemma TwoPlaces(confirmed: seq<Utxo>, spent: seq<Utxo>, i: nat, j: nat) returns (a: nat, b: nat)
    requires multiset(spent) <= multiset(confirmed) && i < j < |spent|
    ensures a < |confirmed| && b < |confirmed| && a != b && confirmed[a] == spent[i] && confirmed[b] == spent[j]
  {
    var u, v := spent[i], spent[j];
    assert u in multiset(spent) && v in multiset(spent);
    assert u in multiset(confirmed);
    a :| 0 <= a < |confirmed| && confirmed[a] == u;
    Without(confirmed, a);
    Without(spent, i);
    assert v == (spent[..i] + spent[i + 1..])[j - 1];
    assert v in multiset(confirmed[..a] + confirmed[a + 1..]);
    b := PlaceApart(confirmed, a, v);
  }

  lemma Without(coins: seq<Utxo>, a: nat)
    requires a < |coins|
    ensures multiset(coins) == multiset(coins[..a] + coins[a + 1..]) + multiset{coins[a]}
  {
    assert coins == coins[..a] + [coins[a]] + coins[a + 1..];
  }

  lemma PlaceApart(coins: seq<Utxo>, a: nat, v: Utxo) returns (b: nat)
    requires a < |coins| && v in coins[..a] + coins[a + 1..]
    ensures b < |coins| && b != a && coins[b] == v
  {
    var rest := coins[..a] + coins[a + 1..];
    var c :| 0 <= c < |rest| && rest[c] == v;
    b := if c < a then c else c + 1;
  }
}
