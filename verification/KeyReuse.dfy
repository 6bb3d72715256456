/** Which keys a leaf list uses more than once, shown to the operator as a note. */
module KeyReuse {
  import opened Wrappers
  import opened SpendPolicy
  import opened LeafPolicies
  import opened LeafMeaning

  /** The leaf's id, once for every time the leaf lists the key. */
  function LeafUses(id: string, keys: seq<PublicKey>, k: PublicKey): seq<string> {
    if keys == [] then [] else (if keys[0] == k then [id] else []) + LeafUses(id, keys[1..], k)
  }

  function Uses(leaves: seq<Leaf>, k: PublicKey): seq<string> {
    if leaves == [] then [] else LeafUses(leaves[0].id, leaves[0].keys, k) + Uses(leaves[1..], k)
  }

  lemma {:induction false} LeafUsesAppend(id: string, keys: seq<PublicKey>, last: PublicKey, k: PublicKey)
    ensures LeafUses(id, keys + [last], k) == LeafUses(id, keys, k) + if last == k then [id] else []
  {
    if keys == [] {
      assert keys + [last] == [last] && [last][1..] == [];
    } else {
      assert (keys + [last])[1..] == keys[1..] + [last];
      LeafUsesAppend(id, keys[1..], last, k);
    }
  }

  lemma {:induction false} UsesAppend(leaves: seq<Leaf>, last: Leaf, k: PublicKey)
    ensures Uses(leaves + [last], k) == Uses(leaves, k) + LeafUses(last.id, last.keys, k)
  {
    if leaves == [] {
      assert leaves + [last] == [last] && [last][1..] == [];
    } else {
      assert (leaves + [last])[1..] == leaves[1..] + [last];
      UsesAppend(leaves[1..], last, k);
    }
  }

  /** The table lists under `k` its uses in the leaves done and in the keys of the current one. */
  predicate Lists(table: map<PublicKey, seq<string>>, leaves: seq<Leaf>, id: string, keys: seq<PublicKey>,
                  k: PublicKey) {
    Uses(leaves, k) + LeafUses(id, keys, k) == if k in table then table[k] else []
  }

  ghost predicate Tabulates(table: map<PublicKey, seq<string>>, leaves: seq<Leaf>, id: string, keys: seq<PublicKey>) {
    forall k :: Lists(table, leaves, id, keys, k)
  }

  /** The source's two loops over leaves and keys, and the filter on two or more uses. */
  method FindKeyReuse(leaves: seq<Leaf>) returns (notes: map<PublicKey, seq<string>>)
    ensures forall k :: k in notes <==> |Uses(leaves, k)| > 1
    ensures forall k :: k in notes ==> notes[k] == Uses(leaves, k)
    ensures notes == map[] <==> SeparateKeys(leaves)
  {
    var byKey: map<PublicKey, seq<string>> := map[];
    for i := 0 to |leaves|
      invariant Tabulates(byKey, leaves[..i], "", [])
    {
      byKey := AddLeaf(byKey, leaves[..i], leaves[i]);
      assert leaves[..i + 1] == leaves[..i] + [leaves[i]];
    }
    assert leaves[..|leaves|] == leaves;
    notes := map k | k in byKey && |byKey[k]| > 1 :: byKey[k];
    forall k ensures Uses(leaves, k) == if k in byKey then byKey[k] else [] {
      assert Lists(byKey, leaves, "", [], k);
    }
    NoReuseExactly(leaves);
    if notes != map[] {
      var k :| k in notes;
      assert |Uses(leaves, k)| > 1;
    }
  }

  /** One leaf's keys entered one by one. */
  method AddLeaf(table: map<PublicKey, seq<string>>, leaves: seq<Leaf>, leaf: Leaf)
    returns (byKey: map<PublicKey, seq<string>>)
    requires Tabulates(table, leaves, "", [])
    ensures Tabulates(byKey, leaves + [leaf], "", [])
  {
    byKey := table;
    forall k ensures Lists(byKey, leaves, leaf.id, leaf.keys[..0], k) { assert Lists(table, leaves, "", [], k); }
    for j := 0 to |leaf.keys|
      invariant Tabulates(byKey, leaves, leaf.id, leaf.keys[..j])
    {
      var key := leaf.keys[j];
      KeyEntered(byKey, leaves, leaf.id, leaf.keys[..j], key);
      byKey := byKey[key := (if key in byKey then byKey[key] else []) + [leaf.id]];
      assert leaf.keys[..j + 1] == leaf.keys[..j] + [key];
    }
    assert leaf.keys[..|leaf.keys|] == leaf.keys;
    LeafEntered(byKey, leaves, leaf);
  }

  lemma KeyEntered(table: map<PublicKey, seq<string>>, leaves: seq<Leaf>, id: string, keys: seq<PublicKey>,
                   key: PublicKey)
    requires Tabulates(table, leaves, id, keys)
    ensures Tabulates(table[key := (if key in table then table[key] else []) + [id]], leaves, id, keys + [key])
  {
    var entered := table[key := (if key in table then table[key] else []) + [id]];
    forall k ensures Lists(entered, leaves, id, keys + [key], k) {
      assert Lists(table, leaves, id, keys, k);
      LeafUsesAppend(id, keys, key, k);
      var more := if key == k then [id] else [];
      assert Uses(leaves, k) + (LeafUses(id, keys, k) + more) == (Uses(leaves, k) + LeafUses(id, keys, k)) + more;
    }
  }

  lemma LeafEntered(table: map<PublicKey, seq<string>>, leaves: seq<Leaf>, leaf: Leaf)
    requires Tabulates(table, leaves, leaf.id, leaf.keys)
    ensures Tabulates(table, leaves + [leaf], "", [])
  {
    forall k ensures Lists(table, leaves + [leaf], "", [], k) {
      assert Lists(table, leaves, leaf.id, leaf.keys, k);
      UsesAppend(leaves, leaf, k);
    }
  }

  // ---- No note is no shared key ----

  lemma {:induction false} LeafUseCount(id: string, keys: seq<PublicKey>, k: PublicKey)
    ensures |LeafUses(id, keys, k)| > 0 <==> k in keys
    ensures Distinct(keys) ==> |LeafUses(id, keys, k)| <= 1
  {
    if keys != [] {
      LeafUseCount(id, keys[1..], k);
      assert keys == [keys[0]] + keys[1..];
      if Distinct(keys) { assert keys[0] !in keys[1..]; }
    }
  }

  /** A key listed twice in one leaf is used twice. */
  lemma {:induction false} RepeatedKey(id: string, keys: seq<PublicKey>) returns (k: PublicKey)
    requires !Distinct(keys)
    ensures |LeafUses(id, keys, k)| > 1
  {
    if keys[0] in keys[1..] {
      k := keys[0];
      LeafUseCount(id, keys[1..], k);
    } else {
      DistinctTail(keys);
      k := RepeatedKey(id, keys[1..]);
    }
  }

  lemma DistinctTail(keys: seq<PublicKey>)
    requires keys != [] && keys[0] !in keys[1..] && !Distinct(keys)
    ensures !Distinct(keys[1..])
  {
    var i, j :| 0 <= i < j < |keys| && keys[i] == keys[j];
    var rest := keys[1..];
    assert rest[j - 1] == keys[j];
    if i > 0 { assert rest[i - 1] == rest[j - 1]; }
  }

  lemma {:induction false} UseCount(leaves: seq<Leaf>, k: PublicKey)
    ensures |Uses(leaves, k)| > 0 <==> exists i :: 0 <= i < |leaves| && k in leaves[i].keys
  {
    if leaves != [] {
      LeafUseCount(leaves[0].id, leaves[0].keys, k);
      UseCount(leaves[1..], k);
      if i :| 0 <= i < |leaves[1..]| && k in leaves[1..][i].keys { assert k in leaves[i + 1].keys; }
      if i :| 0 <= i < |leaves| && k in leaves[i].keys && i > 0 { assert k in leaves[1..][i - 1].keys; }
    }
  }

  lemma SeparateSplit(leaves: seq<Leaf>)
    requires leaves != []
    ensures SeparateKeys(leaves) <==>
            && Distinct(leaves[0].keys) && SeparateKeys(leaves[1..])
            && forall k | k in leaves[0].keys :: !exists i :: 0 <= i < |leaves[1..]| && k in leaves[1..][i].keys
  {
    var rest := leaves[1..];
    if SeparateKeys(leaves) {
      forall i, j | 0 <= i < |rest| && 0 <= j < |rest| && i != j ensures DisjointKeys(rest[i], rest[j]) {
        assert DisjointKeys(leaves[i + 1], leaves[j + 1]);
      }
      forall i | 0 <= i < |rest| ensures Distinct(rest[i].keys) && DisjointKeys(leaves[0], rest[i]) {
        assert Distinct(leaves[i + 1].keys) && DisjointKeys(leaves[0], leaves[i + 1]);
      }
    }
    if Distinct(leaves[0].keys) && SeparateKeys(rest)
       && forall k | k in leaves[0].keys :: !exists i :: 0 <= i < |rest| && k in rest[i].keys {
      forall i, j | 0 <= i < |leaves| && 0 <= j < |leaves| && i != j ensures DisjointKeys(leaves[i], leaves[j]) {
        if i > 0 && j > 0 { assert DisjointKeys(rest[i - 1], rest[j - 1]); }
        if i == 0 { assert leaves[j] == rest[j - 1]; }
        if j == 0 { assert leaves[i] == rest[i - 1]; }
      }
      forall i | 0 <= i < |leaves| ensures Distinct(leaves[i].keys) { if i > 0 { assert leaves[i] == rest[i - 1]; } }
    }
  }

  lemma UsesSplit(leaves: seq<Leaf>, k: PublicKey)
    requires leaves != []
    ensures |Uses(leaves, k)| == |LeafUses(leaves[0].id, leaves[0].keys, k)| + |Uses(leaves[1..], k)|
    ensures |LeafUses(leaves[0].id, leaves[0].keys, k)| > 0 <==> k in leaves[0].keys
    ensures |Uses(leaves[1..], k)| > 0 <==> exists i :: 0 <= i < |leaves[1..]| && k in leaves[1..][i].keys
    ensures Distinct(leaves[0].keys) ==> |LeafUses(leaves[0].id, leaves[0].keys, k)| <= 1
  {
    LeafUseCount(leaves[0].id, leaves[0].keys, k);
    UseCount(leaves[1..], k);
  }

  /** No key is used more than once exactly when the leaves keep their keys separate. */
  lemma {:induction false} NoReuseExactly(leaves: seq<Leaf>)
    ensures (forall k :: |Uses(leaves, k)| <= 1) <==> SeparateKeys(leaves)
  {
    if leaves != [] {
      var first, rest := leaves[0], leaves[1..];
      NoReuseExactly(rest);
      SeparateSplit(leaves);
      if SeparateKeys(leaves) {
        forall k ensures |Uses(leaves, k)| <= 1 {
          UsesSplit(leaves, k);
          assert |Uses(rest, k)| <= 1;
        }
      } else if !Distinct(first.keys) {
        var k := RepeatedKey(first.id, first.keys);
        UsesSplit(leaves, k);
      } else if !SeparateKeys(rest) {
        var k :| |Uses(rest, k)| > 1;
        UsesSplit(leaves, k);
      } else {
        var k :| k in first.keys && exists i :: 0 <= i < |rest| && k in rest[i].keys;
        UsesSplit(leaves, k);
      }
    }
  }
}
