/** Spending conditions and what they say. A leaf of a vault is one condition. */
module SpendPolicy {
  import opened Wrappers

  datatype PublicKey = PublicKey(id: nat)

  /** `Thresh(k, keys)` is the source's `thresh(k,pk(K1),...,pk(Kn))`. */
  datatype Policy =
    | Thresh(quorum: nat, keys: seq<PublicKey>)
    | And(left: Policy, right: Policy)
    | Or(left: Policy, right: Policy)
    | After(blocks: nat)
    | Older(blocks: nat)

  /** Everything a spend can depend on: who signed, the tip's height and median time,
      and how many blocks and whole 512-second intervals the coin has aged, counted to
      the next block, the first a spend can be in. */
  datatype Moment = Moment(signers: set<PublicKey>, height: nat, age: nat, time: nat, intervals: nat) {
    predicate LeadsTo(later: Moment) {
      && signers <= later.signers && height <= later.height && age <= later.age
      && time <= later.time && intervals <= later.intervals
    }
  }

  function SignedCount(keys: seq<PublicKey>, signers: set<PublicKey>): (n: nat)
    ensures n <= |keys|
  {
    if keys == [] then 0
    else (if keys[0] in signers then 1 else 0) + SignedCount(keys[1..], signers)
  }

  /** What the condition says, every operand a number of blocks. */
  predicate Sat(p: Policy, m: Moment) {
    match p
    case Thresh(k, keys) => SignedCount(keys, m.signers) >= k
    case And(l, r) => Sat(l, m) && Sat(r, m)
    case Or(l, r) => Sat(l, m) || Sat(r, m)
    case After(n) => m.height >= n
    case Older(n) => m.age >= n
  }

  lemma {:induction false} SignedCountMonotone(keys: seq<PublicKey>, a: set<PublicKey>, b: set<PublicKey>)
    requires a <= b
    ensures SignedCount(keys, a) <= SignedCount(keys, b)
  {
    if keys != [] { SignedCountMonotone(keys[1..], a, b); }
  }

  /** More signers, a higher chain or an older coin never revokes a spend. */
  lemma {:induction false} SatMonotone(p: Policy, m: Moment, later: Moment)
    requires m.LeadsTo(later) && Sat(p, m)
    ensures Sat(p, later)
  {
    match p
    case Thresh(_, keys) => SignedCountMonotone(keys, m.signers, later.signers);
    case And(l, r) => SatMonotone(l, m, later); SatMonotone(r, m, later);
    case Or(l, r) => if Sat(l, m) { SatMonotone(l, m, later); } else { SatMonotone(r, m, later); }
    case After(_) =>
    case Older(_) =>
  }

  /** Counting distinct keys is counting the signers among them. */
  lemma {:induction false} SignedCountIsCardinality(keys: seq<PublicKey>, signers: set<PublicKey>)
    requires Distinct(keys)
    ensures SignedCount(keys, signers) == |set k | k in keys && k in signers|
  {
    if keys == [] {
      assert (set k | k in keys && k in signers) == {};
    } else {
      SignedCountIsCardinality(keys[1..], signers);
      PresentOfCons(keys, signers);
      assert keys[0] !in keys[1..];
    }
  }

  lemma PresentOfCons(keys: seq<PublicKey>, signers: set<PublicKey>)
    requires keys != []
    ensures (set k | k in keys && k in signers)
         == (if keys[0] in signers then {keys[0]} else {}) + (set k | k in keys[1..] && k in signers)
  {
    assert keys == [keys[0]] + keys[1..];
  }

  lemma {:induction false} NobodySigned(keys: seq<PublicKey>, signers: set<PublicKey>)
    requires forall k | k in keys :: k !in signers
    ensures SignedCount(keys, signers) == 0
  {
    if keys != [] { NobodySigned(keys[1..], signers); }
  }

  lemma {:induction false} EverybodySigned(keys: seq<PublicKey>, signers: set<PublicKey>)
    requires forall k | k in keys :: k in signers
    ensures SignedCount(keys, signers) == |keys|
  {
    if keys != [] { EverybodySigned(keys[1..], signers); }
  }

  /** Any number of distinct keys can be the ones that sign. */
  lemma {:induction false} FirstSigners(keys: seq<PublicKey>, n: nat) returns (signers: set<PublicKey>)
    requires n <= |keys| && Distinct(keys)
    ensures SignedCount(keys, signers) == n && forall k | k in signers :: k in keys
  {
    if n == 0 {
      signers := {};
      NobodySigned(keys, {});
    } else {
      var rest := FirstSigners(keys[1..], n - 1);
      signers := rest + {keys[0]};
      assert keys[0] !in keys[1..];
      OneMoreSigner(keys[1..], rest, keys[0]);
    }
  }

  lemma {:induction false} OneMoreSigner(keys: seq<PublicKey>, signers: set<PublicKey>, k: PublicKey)
    requires k !in keys
    ensures SignedCount(keys, signers + {k}) == SignedCount(keys, signers)
  {
    if keys != [] { OneMoreSigner(keys[1..], signers, k); }
  }

  /** `or(a,or(b,...))` of every branch. */
  function NestOr(branches: seq<Policy>): Policy
    requires branches != []
  {
    if |branches| == 1 then branches[0] else Or(branches[0], NestOr(branches[1..]))
  }

  ghost predicate SomeSat(branches: seq<Policy>, m: Moment) {
    exists i :: 0 <= i < |branches| && Sat(branches[i], m)
  }

  lemma {:induction false} NestOrMeaning(branches: seq<Policy>, m: Moment)
    requires branches != []
    ensures Sat(NestOr(branches), m) <==> SomeSat(branches, m)
  {
    if |branches| > 1 {
      var rest := branches[1..];
      NestOrMeaning(rest, m);
      if SomeSat(branches, m) && !Sat(branches[0], m) {
        var i :| 0 <= i < |branches| && Sat(branches[i], m);
        assert rest[i - 1] == branches[i];
      }
      if SomeSat(rest, m) {
        var i :| 0 <= i < |rest| && Sat(rest[i], m);
        assert branches[i + 1] == rest[i];
      }
    }
  }
}
