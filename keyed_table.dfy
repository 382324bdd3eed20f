/** First-seen de-duplication through an insertion-ordered table, the way a JavaScript
    `Map` is filled by `if (k && !m.has(k)) m.set(k, v)` and read back with
    `Array.from(m.values())`. Positions carry an optional key (none: nothing is set) and
    a value; the table keeps the value of the first position that carries each key. */
module KeyedTable {
  import opened JsValues

  /** Some position below `n` carries `key`. */
  ghost predicate SeenBelow<K>(keys: seq<Option<K>>, n: nat, key: K)
    requires n <= |keys|
  {
    exists j :: 0 <= j < n && keys[j] == Some(key)
  }

  /** Position `i` carries a key that no earlier position carries. */
  ghost predicate FirstSeen<K>(keys: seq<Option<K>>, i: nat)
    requires i < |keys|
  {
    keys[i].Some? && !SeenBelow(keys, i, keys[i].value)
  }

  /** The positions below `n` that first carry their key, in increasing order. */
  ghost function FirstIndicesBelow<K>(keys: seq<Option<K>>, n: nat): (r: seq<nat>)
    requires n <= |keys|
    ensures forall j :: 0 <= j < |r| ==> r[j] < n
  {
    if n == 0 then []
    else FirstIndicesBelow(keys, n - 1) + (if FirstSeen(keys, n - 1) then [n - 1] else [])
  }

  /** The values the table ends with, in insertion order: the value at every position
      that first carries its key. */
  ghost function Dedup<K, V>(keys: seq<Option<K>>, vals: seq<V>): seq<V>
    requires |vals| == |keys|
  {
    var firsts := FirstIndicesBelow(keys, |keys|);
    seq(|firsts|, j requires 0 <= j < |firsts| => vals[firsts[j]])
  }

  /** The state of the table after the first `n` positions: `order` is its key order,
      `table` its contents, and `firsts` (ghost) the position each entry came from. */
  ghost predicate TableAfter<K, V>(keys: seq<Option<K>>, vals: seq<V>, n: nat,
                                       order: seq<K>, table: map<K, V>, firsts: seq<nat>)
  {
    && n <= |keys| && |vals| == |keys|
    && firsts == FirstIndicesBelow(keys, n)
    && |order| == |firsts|
    && (forall j :: 0 <= j < |order| ==> keys[firsts[j]] == Some(order[j]))
    && (forall j :: 0 <= j < |order| ==> order[j] in table && table[order[j]] == vals[firsts[j]])
    && (forall key :: key in table ==> SeenBelow(keys, n, key))
    && (forall j :: 0 <= j < n && keys[j].Some? ==> keys[j].value in table)
  }

  lemma {:induction false} TableStart<K, V>(keys: seq<Option<K>>, vals: seq<V>)
    requires |vals| == |keys|
    ensures TableAfter(keys, vals, 0, [], map[], [])
  {
  }

  lemma {:induction false} SeenBelowStep<K>(keys: seq<Option<K>>, n: nat, key: K)
    requires n < |keys|
    ensures SeenBelow(keys, n + 1, key) <==> SeenBelow(keys, n, key) || keys[n] == Some(key)
  {
    if SeenBelow(keys, n + 1, key) && keys[n] != Some(key) {
      var j :| 0 <= j < n + 1 && keys[j] == Some(key);
      assert j < n;
    }
  }

  /** A position whose key is not yet in the table appends its key and value. */
  lemma {:induction false} TableAdd<K, V>(keys: seq<Option<K>>, vals: seq<V>, n: nat,
                          order: seq<K>, table: map<K, V>, firsts: seq<nat>)
    requires TableAfter(keys, vals, n, order, table, firsts) && n < |keys|
    requires keys[n].Some? && keys[n].value !in table
    ensures TableAfter(keys, vals, n + 1, order + [keys[n].value],
                       table[keys[n].value := vals[n]], firsts + [n])
  {
    assert FirstSeen(keys, n);
    forall key ensures SeenBelow(keys, n + 1, key) <==> SeenBelow(keys, n, key) || keys[n] == Some(key) {
      SeenBelowStep(keys, n, key);
    }
  }

  /** A position without a key, or with a key already in the table, changes nothing. */
  lemma {:induction false} TableSkip<K, V>(keys: seq<Option<K>>, vals: seq<V>, n: nat,
                           order: seq<K>, table: map<K, V>, firsts: seq<nat>)
    requires TableAfter(keys, vals, n, order, table, firsts) && n < |keys|
    requires keys[n].None? || keys[n].value in table
    ensures TableAfter(keys, vals, n + 1, order, table, firsts)
  {
    assert !FirstSeen(keys, n);
    assert FirstIndicesBelow(keys, n + 1) == firsts + [];
    forall key ensures SeenBelow(keys, n + 1, key) <==> SeenBelow(keys, n, key) || keys[n] == Some(key) {
      SeenBelowStep(keys, n, key);
    }
  }

  /** Reading the table's values in key order after the last position gives `Dedup`. */
  lemma {:induction false} TableValues<K, V>(keys: seq<Option<K>>, vals: seq<V>,
                              order: seq<K>, table: map<K, V>, firsts: seq<nat>)
    requires TableAfter(keys, vals, |keys|, order, table, firsts)
    ensures seq(|order|, j requires 0 <= j < |order| => table[order[j]]) == Dedup(keys, vals)
  {
  }

  ghost predicate Increasing(s: seq<nat>) {
    forall p, q :: 0 <= p < q < |s| ==> s[p] < s[q]
  }

  lemma {:induction false} FirstIndicesAreFirst<K>(keys: seq<Option<K>>, n: nat)
    requires n <= |keys|
    ensures forall j :: 0 <= j < |FirstIndicesBelow(keys, n)| ==> FirstSeen(keys, FirstIndicesBelow(keys, n)[j])
  {
    if n > 0 {
      FirstIndicesAreFirst(keys, n - 1);
      var g := FirstIndicesBelow(keys, n - 1);
      assert FirstIndicesBelow(keys, n) == g + (if FirstSeen(keys, n - 1) then [n - 1] else []);
    }
  }

  lemma {:induction false} FirstIndicesIncrease<K>(keys: seq<Option<K>>, n: nat)
    requires n <= |keys|
    ensures Increasing(FirstIndicesBelow(keys, n))
  {
    if n > 0 {
      FirstIndicesIncrease(keys, n - 1);
      var g := FirstIndicesBelow(keys, n - 1);
      assert FirstIndicesBelow(keys, n) == g + (if FirstSeen(keys, n - 1) then [n - 1] else []);
    }
  }

  /** The first positions below `n` are those below `n - 1`, then `n - 1` if it is one. */
  lemma {:induction false} FirstIndicesStep<K>(keys: seq<Option<K>>, n: nat)
    requires 0 < n <= |keys|
    ensures FirstIndicesBelow(keys, n)
            == FirstIndicesBelow(keys, n - 1) + (if FirstSeen(keys, n - 1) then [n - 1] else [])
  {
  }

  /** Every position below `n` that carries a key is matched, at or before it, by a first
      position with the same key; `j` says which. */
  lemma {:induction false} FirstIndicesCover<K>(keys: seq<Option<K>>, n: nat, i: nat) returns (j: nat)
    requires i < n <= |keys| && keys[i].Some?
    ensures j < |FirstIndicesBelow(keys, n)| && FirstIndicesBelow(keys, n)[j] <= i
    ensures keys[FirstIndicesBelow(keys, n)[j]] == keys[i]
  {
    var g := FirstIndicesBelow(keys, n - 1);
    FirstIndicesStep(keys, n);
    if i < n - 1 {
      j := FirstIndicesCover(keys, n - 1, i);
    } else if FirstSeen(keys, i) {
      j := |g|;
    } else {
      var k :| 0 <= k < i && keys[k] == keys[i];
      j := FirstIndicesCover(keys, n - 1, k);
    }
  }

  /** What the table ends with: one value per distinct key, taken from the earliest
      position carrying that key, in order of those positions; positions without a key
      contribute nothing, and every key that occurs is represented. */
  lemma {:induction false} DedupProperties<K, V>(keys: seq<Option<K>>, vals: seq<V>)
    requires |vals| == |keys|
    ensures var f := FirstIndicesBelow(keys, |keys|);
            var d := Dedup(keys, vals);
            && |d| == |f|
            && (forall j :: 0 <= j < |f| ==> f[j] < |keys| && d[j] == vals[f[j]] && keys[f[j]].Some?)
            && (forall p, q :: 0 <= p < q < |f| ==> f[p] < f[q])
            && (forall p, q :: 0 <= p < q < |f| ==> keys[f[p]] != keys[f[q]])
            && (forall j, i :: 0 <= j < |f| && 0 <= i < f[j] ==> keys[i] != keys[f[j]])
            && (forall i :: 0 <= i < |keys| && keys[i].Some? ==>
                  exists j :: 0 <= j < |f| && f[j] <= i && keys[f[j]] == keys[i])
  {
    var f := FirstIndicesBelow(keys, |keys|);
    FirstIndicesIncrease(keys, |keys|);
    FirstIndicesAreFirst(keys, |keys|);
    forall i | 0 <= i < |keys| && keys[i].Some?
      ensures exists j :: 0 <= j < |f| && f[j] <= i && keys[f[j]] == keys[i]
    {
      var j := FirstIndicesCover(keys, |keys|, i);
    }
    forall j, i | 0 <= j < |f| && 0 <= i < f[j] ensures keys[i] != keys[f[j]] {
      assert FirstSeen(keys, f[j]);
    }
  }

  /** Two positions with different keys are both kept; with the same key only the first. */
  lemma {:induction false} DedupOfTwo<K, V>(k0: K, k1: K, v0: V, v1: V)
    ensures k0 != k1 ==> Dedup([Some(k0), Some(k1)], [v0, v1]) == [v0, v1]
    ensures k0 == k1 ==> Dedup([Some(k0), Some(k1)], [v0, v1]) == [v0]
  {
    var keys := [Some(k0), Some(k1)];
    assert FirstSeen(keys, 0);
    assert FirstIndicesBelow(keys, 1) == [0];
    if k0 != k1 {
      assert FirstSeen(keys, 1);
      assert FirstIndicesBelow(keys, 2) == [0, 1];
    } else {
      assert SeenBelow(keys, 1, k1);
      assert FirstIndicesBelow(keys, 2) == [0];
    }
  }
}
