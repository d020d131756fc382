/**
 * Insertion-ordered maps with string keys: the semantics of a PHP array with string keys and of a
 * JavaScript object with non-index keys. Assigning to an existing key replaces
 * its value in place; a new key goes to the end.
 */
module OrderedMap {

  /** No two positions of `ks` hold the same element. */
  predicate Distinct<K(==)>(ks: seq<K>) {
    forall i, j :: 0 <= i < j < |ks| ==> Apart(ks, i, j)
  }

  /** Positions `i` and `j` of `ks` hold different elements. */
  predicate Apart<K(==)>(ks: seq<K>, i: int, j: int)
    requires 0 <= i < |ks| && 0 <= j < |ks|
  {
    ks[i] != ks[j]
  }

  /** Two positions of a distinct sequence hold different elements. */
  lemma DistinctAt<K>(ks: seq<K>, i: nat, j: nat)
    requires Distinct(ks) && i < |ks| && j < |ks| && i != j
    ensures ks[i] != ks[j]
  {
    if i < j {
      assert Apart(ks, i, j);
    } else {
      assert Apart(ks, j, i);
    }
  }

  /** Appending an element the sequence lacks keeps it distinct. */
  lemma DistinctSnoc<K>(ks: seq<K>, k: K)
    requires Distinct(ks) && k !in ks
    ensures Distinct(ks + [k])
  {
    var s := ks + [k];
    forall i, j | 0 <= i < j < |s| ensures Apart(s, i, j) {
      if j < |ks| {
        assert Apart(ks, i, j);
      } else {
        assert s[i] == ks[i];
      }
    }
  }

  /** `Distinct` in plain words: no element occurs twice. */
  lemma DistinctMeaning<K>(ks: seq<K>)
    ensures Distinct(ks) <==> forall i, j :: 0 <= i < j < |ks| ==> ks[i] != ks[j]
  {
    if Distinct(ks) {
      forall i, j | 0 <= i < j < |ks| ensures ks[i] != ks[j] {
        DistinctAt(ks, i, j);
      }
    }
  }

  /** A distinct sequence has as many elements as its set of elements. */
  lemma {:induction false} DistinctCard<K>(ks: seq<K>)
    requires Distinct(ks)
    ensures |set k | k in ks| == |ks|
  {
    if ks != [] {
      var init := ks[..|ks| - 1];
      var last := ks[|ks| - 1];
      assert Distinct(init) by {
        forall i, j | 0 <= i < j < |init| ensures Apart(init, i, j) {
          assert Apart(ks, i, j);
        }
      }
      DistinctCard(init);
      assert last !in init by {
        forall i | 0 <= i < |init| ensures init[i] != last {
          assert Apart(ks, i, |ks| - 1);
        }
      }
      assert ks == init + [last];
      assert (set k | k in ks) == (set k | k in init) + {last};
    }
  }

  /** A prefix one longer is the shorter prefix and the next element. */
  lemma TakeSnoc<T>(s: seq<T>, n: nat)
    requires 0 < n <= |s|
    ensures s[..n] == s[..n - 1] + [s[n - 1]]
  {
  }

  datatype RawMap<V> = RawMap(keys: seq<string>, values: map<string, V>) {
    ghost predicate Valid() {
      Distinct(keys) && values.Keys == set k | k in keys
    }
  }

  /** `keys` lists the domain of `values` once each, in insertion order. */
  type OMap<V> = m: RawMap<V> | m.Valid() witness RawMap([], map[])

  function Empty<V>(): (r: OMap<V>)
    ensures r.keys == [] && r.values == map[]
  {
    RawMap([], map[])
  }

  /** `$m[$k] = $v`. */
  function Put<V>(m: OMap<V>, k: string, v: V): (r: OMap<V>)
    ensures r.values == m.values[k := v]
    ensures k in m.values ==> r.keys == m.keys
    ensures k !in m.values ==> r.keys == m.keys + [k]
  {
    if k in m.values then RawMap(m.keys, m.values[k := v])
    else
      DistinctSnoc(m.keys, k);
      RawMap(m.keys + [k], m.values[k := v])
  }

  /** The values in key order. */
  function Values<V>(m: OMap<V>): (r: seq<V>)
    ensures |r| == |m.keys|
    ensures forall i :: 0 <= i < |m.keys| ==> r[i] == m.values[m.keys[i]]
  {
    seq(|m.keys|, i requires 0 <= i < |m.keys| => m.values[m.keys[i]])
  }

  /** The keys of `ks` that `m` does not hold, in the order of `ks`. */
  function NewKeys<V>(m: map<string, V>, ks: seq<string>): seq<string> {
    if ks == [] then []
    else if ks[0] in m then NewKeys(m, ks[1..])
    else [ks[0]] + NewKeys(m, ks[1..])
  }

  /** The new keys are those of `ks` missing from `m`. */
  lemma {:induction false} NewKeysMembers<V>(m: map<string, V>, ks: seq<string>)
    ensures forall k :: k in NewKeys(m, ks) <==> k in ks && k !in m
  {
    if ks != [] {
      NewKeysMembers(m, ks[1..]);
      assert forall k :: k in ks <==> k == ks[0] || k in ks[1..];
    }
  }

  lemma {:induction false} NewKeysSnoc<V>(m: map<string, V>, ks: seq<string>, k: string)
    ensures NewKeys(m, ks + [k]) == NewKeys(m, ks) + (if k in m then [] else [k])
  {
    if ks != [] {
      assert (ks + [k])[1..] == ks[1..] + [k];
      NewKeysSnoc(m, ks[1..], k);
    }
  }

  /** When `m` holds none of `ks`, all of them are new. */
  lemma {:induction false} NewKeysNone<V>(m: map<string, V>, ks: seq<string>)
    requires forall k :: k in ks ==> k !in m
    ensures NewKeys(m, ks) == ks
  {
    if ks != [] {
      NewKeysNone(m, ks[1..]);
    }
  }

  /** Assigning the same key twice keeps only the second value. */
  lemma PutTwice<V>(m: OMap<V>, k: string, v: V, w: V)
    ensures Put(Put(m, k, v), k, w) == Put(m, k, w)
  {
  }

  /** Assigns the first `n` keys of `b`, in `b`'s order, into `a`. */
  function PutPrefix<V>(a: OMap<V>, b: OMap<V>, n: nat): OMap<V>
    requires n <= |b.keys|
  {
    if n == 0 then a
    else
      var k := b.keys[n - 1];
      Put(PutPrefix(a, b, n - 1), k, b.values[k])
  }

  /** The assigned keys take `b`'s values; the others keep `a`'s. */
  lemma {:induction false} PutPrefixValues<V>(a: OMap<V>, b: OMap<V>, n: nat)
    requires n <= |b.keys|
    ensures forall k :: k in PutPrefix(a, b, n).values <==> k in a.values || k in b.keys[..n]
    ensures forall k :: k in b.keys[..n] ==> PutPrefix(a, b, n).values[k] == b.values[k]
    ensures forall k :: k in a.values && k !in b.keys[..n] ==> PutPrefix(a, b, n).values[k] == a.values[k]
  {
    if n > 0 {
      PutPrefixValues(a, b, n - 1);
      var k := b.keys[n - 1];
      TakeSnoc(b.keys, n);
      forall j | j in a.values && j !in b.keys[..n] ensures PutPrefix(a, b, n).values[j] == a.values[j] {
        assert j != k && j !in b.keys[..n - 1];
      }
    }
  }

  /** The keys `a` lacks are appended in `b`'s order. */
  lemma {:induction false} PutPrefixKeys<V>(a: OMap<V>, b: OMap<V>, n: nat)
    requires n <= |b.keys|
    ensures PutPrefix(a, b, n).keys == a.keys + NewKeys(a.values, b.keys[..n])
  {
    if n == 0 {
      assert b.keys[..0] == [];
      assert a.keys + [] == a.keys;
    } else {
      var k := b.keys[n - 1];
      var tail: seq<string> := if k in a.values then [] else [k];
      var added := NewKeys(a.values, b.keys[..n - 1]);
      PutPrefixKeys(a, b, n - 1);
      PutPrefixStepKeys(a, b, n);
      TakeSnoc(b.keys, n);
      NewKeysSnoc(a.values, b.keys[..n - 1], k);
      if k in a.values {
        assert added + tail == added;
      } else {
        assert (a.keys + added) + tail == a.keys + (added + tail);
      }
    }
  }

  /** Assigning the `n`th key of `b` appends it exactly when `a` lacks it. */
  lemma PutPrefixStepKeys<V>(a: OMap<V>, b: OMap<V>, n: nat)
    requires 0 < n <= |b.keys|
    ensures b.keys[n - 1] in a.values ==> PutPrefix(a, b, n).keys == PutPrefix(a, b, n - 1).keys
    ensures b.keys[n - 1] !in a.values ==> PutPrefix(a, b, n).keys == PutPrefix(a, b, n - 1).keys + [b.keys[n - 1]]
  {
    PutPrefixStepHas(a, b, n);
  }

  /** Before the `n`th assignment, its key is present exactly when `a` holds it. */
  lemma PutPrefixStepHas<V>(a: OMap<V>, b: OMap<V>, n: nat)
    requires 0 < n <= |b.keys|
    ensures b.keys[n - 1] in PutPrefix(a, b, n - 1).values <==> b.keys[n - 1] in a.values
  {
    var k := b.keys[n - 1];
    PrefixHasNot(b, n - 1);
    PutPrefixHas(a, b, n - 1, k);
  }

  /** A key is present after the first `n` assignments exactly when `a` or those `n` keys hold it. */
  lemma {:induction false} PutPrefixHas<V>(a: OMap<V>, b: OMap<V>, n: nat, k: string)
    requires n <= |b.keys|
    ensures k in PutPrefix(a, b, n).values <==> k in a.values || k in b.keys[..n]
  {
    if n > 0 {
      PutPrefixHas(a, b, n - 1, k);
      TakeSnoc(b.keys, n);
    }
  }

  /** The `n`th key of `b` is not among the first `n`. */
  lemma PrefixHasNot<V>(b: OMap<V>, n: nat)
    requires n < |b.keys|
    ensures b.keys[n] !in b.keys[..n]
  {
    forall j | 0 <= j < n ensures b.keys[..n][j] != b.keys[n] {
      DistinctAt(b.keys, j, n);
    }
  }

  /**
   * PHP `array_merge($a, $b)` for string keys: `$b` wins on a shared key,
   * which keeps its position from `$a`; the keys only `$b` has follow, in
   * `$b`'s order.
   */
  function Merge<V>(a: OMap<V>, b: OMap<V>): (r: OMap<V>)
    ensures r.values == a.values + b.values
    ensures r.keys == a.keys + NewKeys(a.values, b.keys)
  {
    PutAllValues(a, b);
    PutAllKeys(a, b);
    PutPrefix(a, b, |b.keys|)
  }

  lemma PutAllValues<V>(a: OMap<V>, b: OMap<V>)
    ensures PutPrefix(a, b, |b.keys|).values == a.values + b.values
  {
    var r := PutPrefix(a, b, |b.keys|).values;
    assert forall k :: k in b.keys[..|b.keys|] <==> k in b.values by {
      assert b.keys[..|b.keys|] == b.keys;
    }
    PutPrefixValues(a, b, |b.keys|);
    assert r.Keys == (a.values + b.values).Keys;
    forall k | k in r ensures r[k] == (a.values + b.values)[k] { }
  }

  lemma PutAllKeys<V>(a: OMap<V>, b: OMap<V>)
    ensures PutPrefix(a, b, |b.keys|).keys == a.keys + NewKeys(a.values, b.keys)
  {
    var ks := b.keys[..|b.keys|];
    assert ks == b.keys;
    assert NewKeys(a.values, ks) == NewKeys(a.values, b.keys);
    PutPrefixKeys(a, b, |b.keys|);
  }

  /** Assigns the pairs one after another: `foreach ($ps as [$k, $v]) $m[$k] = $v;` from empty. */
  function FromPairs<V>(ps: seq<(string, V)>): OMap<V>
    decreases |ps|
  {
    if ps == [] then Empty() else Put(FromPairs(ps[..|ps| - 1]), ps[|ps| - 1].0, ps[|ps| - 1].1)
  }

  /** The pairs whose key is not `k`, in order. */
  function DropKey<V>(ps: seq<(string, V)>, k: string): seq<(string, V)> {
    if ps == [] then []
    else DropKey(ps[..|ps| - 1], k) + if ps[|ps| - 1].0 == k then [] else [ps[|ps| - 1]]
  }

  /** Leaving out the assignments to `k` leaves out `k` and changes no other key or value. */
  lemma {:induction false} FromPairsDropKey<V>(ps: seq<(string, V)>, k: string, j: string)
    decreases |ps|
    ensures j in FromPairs(DropKey(ps, k)).values <==> j in FromPairs(ps).values && j != k
    ensures j in FromPairs(DropKey(ps, k)).values ==> FromPairs(DropKey(ps, k)).values[j] == FromPairs(ps).values[j]
  {
    if ps != [] {
      var init := ps[..|ps| - 1];
      var p := ps[|ps| - 1];
      FromPairsDropKey(init, k, j);
      var d := DropKey(ps, k);
      if p.0 == k {
        assert d == DropKey(init, k);
      } else {
        assert d == DropKey(init, k) + [p];
        assert d[..|d| - 1] == DropKey(init, k) && d[|d| - 1] == p;
      }
    }
  }

  /** No later pair in `ps` has the key of `ps[i]`. */
  predicate LastWith<V>(ps: seq<(string, V)>, i: nat)
    requires i < |ps|
  {
    forall j :: i < j < |ps| ==> ps[j].0 != ps[i].0
  }

  /** The keys of the result are exactly the keys of the pairs. */
  lemma {:induction false} FromPairsKeys<V>(ps: seq<(string, V)>)
    decreases |ps|
    ensures FromPairs(ps).values.Keys == set i | 0 <= i < |ps| :: ps[i].0
  {
    if ps != [] {
      var init := ps[..|ps| - 1];
      FromPairsKeys(init);
      assert (set i | 0 <= i < |ps| :: ps[i].0) == (set i | 0 <= i < |init| :: init[i].0) + {ps[|ps| - 1].0} by {
        assert forall i :: 0 <= i < |init| ==> init[i] == ps[i];
      }
    }
  }

  /** No pair up to and including position `i` has key `k`. */
  predicate AbsentUpTo<V>(ps: seq<(string, V)>, k: string, i: int) {
    forall j :: 0 <= j <= i && j < |ps| ==> ps[j].0 != k
  }

  /**
   * Keys are ordered by their first assignment: an earlier key of the result
   * is assigned before the later key is assigned at all.
   */
  lemma {:induction false} FromPairsKeyOrder<V>(ps: seq<(string, V)>, a: nat, b: nat)
    requires a < b < |FromPairs(ps).keys|
    decreases |ps|
    ensures exists i :: 0 <= i < |ps| && ps[i].0 == FromPairs(ps).keys[a] && AbsentUpTo(ps, FromPairs(ps).keys[b], i)
  {
    var init := ps[..|ps| - 1];
    var k := ps[|ps| - 1].0;
    var before := FromPairs(init);
    var ks := FromPairs(ps).keys;
    assert forall j :: 0 <= j < |init| ==> init[j] == ps[j];
    if b < |before.keys| {
      assert ks[a] == before.keys[a] && ks[b] == before.keys[b];
      FromPairsKeyOrder(init, a, b);
      var i :| 0 <= i < |init| && init[i].0 == before.keys[a] && AbsentUpTo(init, before.keys[b], i);
      assert AbsentUpTo(ps, ks[b], i);
    } else {
      assert k !in before.values && ks == before.keys + [k] && ks[b] == k;
      FromPairsKeys(init);
      assert ks[a] in before.values;
      var i :| 0 <= i < |init| && init[i].0 == ks[a];
      assert AbsentUpTo(ps, k, i) by {
        forall j | 0 <= j <= i ensures ps[j].0 != k {
          assert ps[j].0 == init[j].0 && init[j].0 in before.values.Keys;
        }
      }
    }
  }

  /** Last assignment wins: a key's value comes from the last pair with that key. */
  lemma {:induction false} FromPairsLastWins<V>(ps: seq<(string, V)>, i: nat)
    requires i < |ps| && LastWith(ps, i)
    decreases |ps|
    ensures ps[i].0 in FromPairs(ps).values && FromPairs(ps).values[ps[i].0] == ps[i].1
  {
    if i < |ps| - 1 {
      var init := ps[..|ps| - 1];
      assert init[i] == ps[i];
      assert LastWith(init, i);
      FromPairsLastWins(init, i);
    }
  }

  /** Every value of the result is the value of some pair with its key. */
  lemma {:induction false} FromPairsValues<V>(ps: seq<(string, V)>)
    decreases |ps|
    ensures forall k :: k in FromPairs(ps).values ==>
      exists i :: 0 <= i < |ps| && ps[i].0 == k && ps[i].1 == FromPairs(ps).values[k]
  {
    if ps != [] {
      var init := ps[..|ps| - 1];
      FromPairsValues(init);
      forall k | k in FromPairs(ps).values
        ensures exists i :: 0 <= i < |ps| && ps[i].0 == k && ps[i].1 == FromPairs(ps).values[k]
      {
        if k == ps[|ps| - 1].0 {
          assert ps[|ps| - 1].1 == FromPairs(ps).values[k];
        } else {
          assert FromPairs(ps).values == FromPairs(init).values[ps[|ps| - 1].0 := ps[|ps| - 1].1];
          assert k in FromPairs(init).values && FromPairs(init).values[k] == FromPairs(ps).values[k];
          var i :| 0 <= i < |init| && init[i].0 == k && init[i].1 == FromPairs(init).values[k];
          assert ps[i] == init[i];
        }
      }
    }
  }

  /** The same keys in the same order, each value passed through `f`. */
  function MapValues<V, W>(m: OMap<V>, f: V -> W): (r: OMap<W>)
    ensures r.keys == m.keys
    ensures forall k :: k in r.values <==> k in m.values
    ensures forall k :: k in m.values ==> r.values[k] == f(m.values[k])
  {
    RawMap(m.keys, map k | k in m.values :: f(m.values[k]))
  }
}
