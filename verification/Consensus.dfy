/** How the chain itself reads a timelock operand (BIP 65, BIP 68, BIP 112, BIP 113),
    and when that is what the operand says. */
module Consensus {
  import opened SpendPolicy

  const FIELD_MAX: nat := 0xffff_ffff
  const FINAL_SEQUENCE: nat := 0xffff_ffff

  /** Lock times below this are block heights, from it on they are times. */
  const LOCKTIME_THRESHOLD: nat := 500_000_000

  /** A relative lock counts in this many low bits. */
  const RELATIVE_MAX: nat := 0xffff

  predicate DisableBit(n: nat) { n / 0x8000_0000 % 2 == 1 }
  predicate TimeBit(n: nat) { n / 0x40_0000 % 2 == 1 }

  // ---- A transaction's own locks ----

  /** A lock time is over at `m`. */
  predicate LockTimeFinal(lockTime: nat, m: Moment) {
    if lockTime < LOCKTIME_THRESHOLD then lockTime <= m.height else lockTime < m.time
  }

  /** An input's relative lock is over at `m`. */
  predicate SequenceOpen(sequence: nat, m: Moment) {
    DisableBit(sequence)
    || (if TimeBit(sequence) then sequence % 0x1_0000 <= m.intervals else sequence % 0x1_0000 <= m.age)
  }

  // ---- The script's opcodes ----

  /** BIP 65: the script's operand against the transaction's lock time. */
  predicate CltvPasses(operand: nat, lockTime: nat, sequence: nat) {
    (operand < LOCKTIME_THRESHOLD <==> lockTime < LOCKTIME_THRESHOLD)
    && operand <= lockTime && sequence != FINAL_SEQUENCE
  }

  /** BIP 112: the script's operand against an input's sequence, on the bits BIP 68 uses. */
  predicate CsvPasses(operand: nat, version: nat, sequence: nat) {
    DisableBit(operand)
    || (version >= 2 && !DisableBit(sequence) && (TimeBit(operand) <==> TimeBit(sequence))
        && operand % 0x1_0000 <= sequence % 0x1_0000)
  }

  // ---- What an operand comes to ----

  predicate AfterOpen(n: nat, m: Moment) { n <= FIELD_MAX && LockTimeFinal(n, m) }

  predicate OlderOpen(n: nat, m: Moment) { SequenceOpen(n, m) }

  /** An absolute operand is over exactly when some transaction that passes its opcode can confirm. */
  lemma AfterOpenExactly(n: nat, m: Moment)
    ensures AfterOpen(n, m) <==>
            exists lockTime: nat, sequence: nat :: lockTime <= FIELD_MAX && CltvPasses(n, lockTime, sequence) &&
                LockTimeFinal(lockTime, m)
  {
    if AfterOpen(n, m) { assert CltvPasses(n, n, 0); }
  }

  /** The sequence that asks for exactly what a relative operand asks. */
  function SequenceOf(n: nat): nat {
    if DisableBit(n) then 0 else n % 0x1_0000 + if TimeBit(n) then 0x40_0000 else 0
  }

  lemma SequenceOfBits(n: nat)
    ensures SequenceOf(n) <= FIELD_MAX && !DisableBit(SequenceOf(n))
    ensures !DisableBit(n) ==> (TimeBit(SequenceOf(n)) <==> TimeBit(n)) && SequenceOf(n) % 0x1_0000 == n % 0x1_0000
    ensures DisableBit(n) ==> SequenceOf(n) == 0
  {
  }

  /** A relative operand is over exactly when some input that passes its opcode can confirm. */
  lemma OlderOpenExactly(n: nat, m: Moment)
    ensures OlderOpen(n, m) <==>
            exists sequence: nat :: sequence <= FIELD_MAX && CsvPasses(n, 2, sequence) && SequenceOpen(sequence, m)
  {
    SequenceOfBits(n);
    if OlderOpen(n, m) { assert CsvPasses(n, 2, SequenceOf(n)) && SequenceOpen(SequenceOf(n), m); }
  }

  // ---- Conditions on chain ----

  /** What consensus makes of a condition, as against what it says (`Sat`). */
  predicate ChainSat(p: Policy, m: Moment) {
    match p
    case Thresh(k, keys) => SignedCount(keys, m.signers) >= k
    case And(l, r) => ChainSat(l, m) && ChainSat(r, m)
    case Or(l, r) => ChainSat(l, m) || ChainSat(r, m)
    case After(n) => AfterOpen(n, m)
    case Older(n) => OlderOpen(n, m)
  }

  lemma DelayedThresh(n: nat, k: nat, keys: seq<PublicKey>, m: Moment)
    ensures ChainSat(And(After(n), Thresh(k, keys)), m) <==> AfterOpen(n, m) && SignedCount(keys, m.signers) >= k
  {
    assert ChainSat(After(n), m) <==> AfterOpen(n, m);
    assert ChainSat(Thresh(k, keys), m) <==> SignedCount(keys, m.signers) >= k;
  }

  /** One input of a transaction satisfies the script, opcode by opcode. */
  predicate InputPasses(p: Policy, signers: set<PublicKey>, lockTime: nat, sequence: nat) {
    match p
    case Thresh(k, keys) => SignedCount(keys, signers) >= k
    case And(l, r) => InputPasses(l, signers, lockTime, sequence) && InputPasses(r, signers, lockTime, sequence)
    case Or(l, r) => InputPasses(l, signers, lockTime, sequence) || InputPasses(r, signers, lockTime, sequence)
    case After(n) => CltvPasses(n, lockTime, sequence)
    case Older(n) => CsvPasses(n, 2, sequence)
  }

  /** A transaction with these locks can confirm at `m`. */
  predicate Confirms(lockTime: nat, sequence: nat, m: Moment) {
    lockTime <= FIELD_MAX && sequence <= FIELD_MAX && LockTimeFinal(lockTime, m) && SequenceOpen(sequence, m)
  }

  predicate LockFree(p: Policy) {
    match p
    case Thresh(_, _) => true
    case And(l, r) => LockFree(l) && LockFree(r)
    case Or(l, r) => LockFree(l) && LockFree(r)
    case _ => false
  }

  /** The shape of every leaf: at most one timelock, in front. */
  predicate OneLock(p: Policy) {
    LockFree(p) || (p.And? && (p.left.After? || p.left.Older?) && LockFree(p.right))
  }

  lemma {:induction false} LockFreeReading(p: Policy, m: Moment, lockTime: nat, sequence: nat)
    requires LockFree(p)
    ensures ChainSat(p, m) == Sat(p, m) == InputPasses(p, m.signers, lockTime, sequence)
  {
    match p
    case Thresh(_, _) =>
    case And(l, r) => LockFreeReading(l, m, lockTime, sequence); LockFreeReading(r, m, lockTime, sequence);
    case Or(l, r) => LockFreeReading(l, m, lockTime, sequence); LockFreeReading(r, m, lockTime, sequence);
  }

  /** The chain's reading of a leaf is what transactions can do: it is satisfied at a
      moment exactly when some transaction whose own locks are over passes its script. */
  lemma ChainSatExactly(p: Policy, m: Moment)
    requires OneLock(p)
    ensures ChainSat(p, m) <==>
            exists lockTime: nat, sequence: nat :: Confirms(lockTime, sequence, m) &&
                InputPasses(p, m.signers, lockTime, sequence)
  {
    if ChainSat(p, m) {
      var lockTime, sequence := PassingLocks(p, m);
      assert Confirms(lockTime, sequence, m);
    }
    if lockTime: nat, sequence: nat :|
        Confirms(lockTime, sequence, m) && InputPasses(p, m.signers, lockTime, sequence) {
      PassingIsOpen(p, m, lockTime, sequence);
    }
  }

  lemma PassingLocks(p: Policy, m: Moment) returns (lockTime: nat, sequence: nat)
    requires OneLock(p) && ChainSat(p, m)
    ensures Confirms(lockTime, sequence, m) && InputPasses(p, m.signers, lockTime, sequence)
  {
    lockTime, sequence := 0, 0;
    if LockFree(p) {
      LockFreeReading(p, m, lockTime, sequence);
    } else {
      if p.left.After? {
        lockTime := p.left.blocks;
      } else {
        sequence := SequenceOf(p.left.blocks);
        SequenceOfBits(p.left.blocks);
      }
      LockFreeReading(p.right, m, lockTime, sequence);
    }
  }

  lemma PassingIsOpen(p: Policy, m: Moment, lockTime: nat, sequence: nat)
    requires OneLock(p) && Confirms(lockTime, sequence, m) && InputPasses(p, m.signers, lockTime, sequence)
    ensures ChainSat(p, m)
  {
    if LockFree(p) {
      LockFreeReading(p, m, lockTime, sequence);
    } else {
      LockFreeReading(p.right, m, lockTime, sequence);
    }
  }

  /** On chain too, nothing is revoked as signers join and time passes. */
  lemma {:induction false} ChainSatMonotone(p: Policy, m: Moment, later: Moment)
    requires m.LeadsTo(later) && ChainSat(p, m)
    ensures ChainSat(p, later)
  {
    match p
    case Thresh(_, keys) => SignedCountMonotone(keys, m.signers, later.signers);
    case And(l, r) => ChainSatMonotone(l, m, later); ChainSatMonotone(r, m, later);
    case Or(l, r) => if ChainSat(l, m) { ChainSatMonotone(l, m, later); } else { ChainSatMonotone(r, m, later); }
    case After(_) =>
    case Older(_) =>
  }

  ghost predicate SomeChainSat(branches: seq<Policy>, m: Moment) {
    exists i :: 0 <= i < |branches| && ChainSat(branches[i], m)
  }

  lemma {:induction false} NestOrOnChain(branches: seq<Policy>, m: Moment)
    requires branches != []
    ensures ChainSat(NestOr(branches), m) <==> SomeChainSat(branches, m)
  {
    if |branches| > 1 {
      var rest := branches[1..];
      NestOrOnChain(rest, m);
      if SomeChainSat(branches, m) && !ChainSat(branches[0], m) {
        var i :| 0 <= i < |branches| && ChainSat(branches[i], m);
        assert rest[i - 1] == branches[i];
      }
      if SomeChainSat(rest, m) {
        var i :| 0 <= i < |rest| && ChainSat(rest[i], m);
        assert branches[i + 1] == rest[i];
      }
    }
  }

  lemma SomeChainSatConcat(xs: seq<Policy>, ys: seq<Policy>, m: Moment)
    ensures SomeChainSat(xs + ys, m) <==> SomeChainSat(xs, m) || SomeChainSat(ys, m)
  {
    var all := xs + ys;
    if i :| 0 <= i < |xs| && ChainSat(xs[i], m) { assert all[i] == xs[i]; }
    if i :| 0 <= i < |ys| && ChainSat(ys[i], m) { assert all[|xs| + i] == ys[i]; }
    if i :| 0 <= i < |all| && ChainSat(all[i], m) {
      if i < |xs| { assert xs[i] == all[i]; } else { assert ys[i - |xs|] == all[i]; }
    }
  }

  // ---- When the chain reads what is written ----

  predicate AfterInRange(n: nat) { n < LOCKTIME_THRESHOLD }
  predicate OlderInRange(n: nat) { n <= RELATIVE_MAX }

  predicate InRange(p: Policy) {
    match p
    case Thresh(_, _) => true
    case And(l, r) => InRange(l) && InRange(r)
    case Or(l, r) => InRange(l) && InRange(r)
    case After(n) => AfterInRange(n)
    case Older(n) => OlderInRange(n)
  }

  lemma OlderInRangeBits(n: nat)
    requires OlderInRange(n)
    ensures !DisableBit(n) && !TimeBit(n) && n % 0x1_0000 == n
  {
  }

  lemma {:induction false} InRangeReadsAsWritten(p: Policy, m: Moment)
    requires InRange(p)
    ensures ChainSat(p, m) <==> Sat(p, m)
  {
    match p
    case Thresh(_, _) =>
    case And(l, r) => InRangeReadsAsWritten(l, m); InRangeReadsAsWritten(r, m);
    case Or(l, r) => InRangeReadsAsWritten(l, m); InRangeReadsAsWritten(r, m);
    case After(_) =>
    case Older(n) => OlderInRangeBits(n);
  }

  lemma SomeReadsAsWritten(branches: seq<Policy>, m: Moment)
    requires forall i :: 0 <= i < |branches| ==> InRange(branches[i])
    ensures SomeChainSat(branches, m) <==> SomeSat(branches, m)
  {
    forall i | 0 <= i < |branches| ensures ChainSat(branches[i], m) <==> Sat(branches[i], m) {
      InRangeReadsAsWritten(branches[i], m);
    }
  }

  /** Out of range, an absolute operand is over at height 0 once its time has come. */
  function EarlyForAfter(n: nat, signers: set<PublicKey>): Moment { Moment(signers, 0, 0, n + 1, 0) }

  /** Out of range, a relative operand is over at a younger age than it says. */
  function EarlyForOlder(n: nat, signers: set<PublicKey>): Moment {
    if TimeBit(n) then Moment(signers, 0, 0, 0, n) else Moment(signers, 0, n % 0x1_0000, 0, 0)
  }

  lemma EarlyForOlderIsEarly(n: nat, signers: set<PublicKey>)
    requires !OlderInRange(n)
    ensures OlderOpen(n, EarlyForOlder(n, signers)) && EarlyForOlder(n, signers).age < n
    ensures EarlyForOlder(n, signers).signers == signers
  {
  }

  /** An operand is read as written, at every moment, exactly when it is in range. */
  lemma OperandReadAsWrittenExactly(n: nat)
    requires n <= FIELD_MAX
    ensures (forall m :: AfterOpen(n, m) <==> m.height >= n) <==> AfterInRange(n)
    ensures (forall m :: OlderOpen(n, m) <==> m.age >= n) <==> OlderInRange(n)
  {
    if !AfterInRange(n) {
      var m := EarlyForAfter(n, {});
      assert AfterOpen(n, m) && m.height < n;
    }
    if OlderInRange(n) {
      OlderInRangeBits(n);
    } else {
      EarlyForOlderIsEarly(n, {});
    }
  }
}
