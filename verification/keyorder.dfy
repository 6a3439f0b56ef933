/** Orders on map keys.

    Two orders matter to the system: serde_json keeps object members in a
    `BTreeMap`, so a rendered object lists its keys in ascending code-point
    order (`SortedKeys`); and Rust's `HashMap` iterates in an order nobody
    controls, which the model takes as an explicit `hint` (`Enumerate`).
    Every duplicate-free listing of a key set is some hint's enumeration
    (`EnumerateComplete`), so a property proved for all hints holds for every
    iteration order. */
module KeyOrder {

  /** Lexicographic order on strings by code point, which is also the byte
      order of their UTF-8 encodings. */
  predicate Below(a: string, b: string)
  {
    |a| == 0 || (|b| > 0 && (a[0] < b[0] || (a[0] == b[0] && Below(a[1..], b[1..]))))
  }

  lemma {:induction false} BelowReflexive(a: string)
    ensures Below(a, a)
  {
    if |a| > 0 {
      BelowReflexive(a[1..]);
    }
  }

  lemma {:induction false} BelowAntisymmetric(a: string, b: string)
    requires Below(a, b) && Below(b, a)
    ensures a == b
  {
    if |a| > 0 {
      BelowAntisymmetric(a[1..], b[1..]);
    }
  }

  lemma {:induction false} BelowTransitive(a: string, b: string, c: string)
    requires Below(a, b) && Below(b, c)
    ensures Below(a, c)
  {
    if |a| > 0 && a[0] == b[0] && b[0] == c[0] {
      BelowTransitive(a[1..], b[1..], c[1..]);
    }
  }

  lemma {:induction false} BelowTotal(a: string, b: string)
    ensures Below(a, b) || Below(b, a)
  {
    if |a| > 0 && |b| > 0 && a[0] == b[0] {
      BelowTotal(a[1..], b[1..]);
    }
  }

  predicate IsLeast(k: string, keys: set<string>)
  {
    k in keys && forall j | j in keys :: Below(k, j)
  }

  /** A set has at most one least key. */
  lemma LeastUnique(keys: set<string>)
    ensures forall a, b | IsLeast(a, keys) && IsLeast(b, keys) :: a == b
  {
    forall a, b | IsLeast(a, keys) && IsLeast(b, keys)
      ensures a == b
    {
      BelowAntisymmetric(a, b);
    }
  }

  lemma {:induction false} LeastExists(keys: set<string>)
    requires keys != {}
    ensures exists k :: IsLeast(k, keys)
    decreases keys
  {
    var x :| x in keys;
    if keys == {x} {
      BelowReflexive(x);
      assert IsLeast(x, keys);
    } else {
      LeastExists(keys - {x});
      var k :| IsLeast(k, keys - {x});
      BelowTotal(k, x);
      if Below(k, x) {
        assert IsLeast(k, keys);
      } else {
        forall j | j in keys
          ensures Below(x, j)
        {
          if j == x {
            BelowReflexive(x);
          } else {
            BelowTransitive(x, k, j);
          }
        }
        assert IsLeast(x, keys);
      }
    }
  }

  predicate NoDuplicates(s: seq<string>)
  {
    forall i, j | 0 <= i < j < |s| :: s[i] != s[j]
  }

  predicate StrictlyAscending(s: seq<string>)
  {
    forall i, j | 0 <= i < j < |s| :: Below(s[i], s[j]) && s[i] != s[j]
  }

  /** The keys of a set in ascending order: the member order of a serde_json
      object. */
  function SortedKeys(keys: set<string>): (r: seq<string>)
    ensures forall k :: k in r <==> k in keys
    ensures StrictlyAscending(r)
    ensures |r| == |keys|
    decreases keys
  {
    if keys == {} then []
    else
      LeastExists(keys);
      LeastUnique(keys);
      var k :| IsLeast(k, keys);
      var rest := SortedKeys(keys - {k});
      var r := [k] + rest;
      assert forall i | 1 <= i < |r| :: r[i] in keys && r[i] != k;
      r
  }

  /** The order in which a `HashMap` with key set `keys` yields its keys:
      first the hinted keys in hint order, then any key the hint missed in
      ascending order. Duplicate and foreign hint entries are skipped. */
  function Enumerate(keys: set<string>, hint: seq<string>): (r: seq<string>)
    ensures forall k :: k in r <==> k in keys
    ensures NoDuplicates(r)
    ensures |r| == |keys|
    decreases |hint|
  {
    if |hint| == 0 then SortedKeys(keys)
    else if hint[0] in keys then
      var rest := Enumerate(keys - {hint[0]}, hint[1..]);
      assert hint[0] !in rest;
      [hint[0]] + rest
    else Enumerate(keys, hint[1..])
  }

  /** Every iteration order is covered: a duplicate-free listing of exactly
      the keys is its own enumeration. */
  lemma {:induction false} EnumerateComplete(keys: set<string>, order: seq<string>)
    requires NoDuplicates(order)
    requires forall k :: k in order <==> k in keys
    ensures Enumerate(keys, order) == order
    decreases |order|
  {
    if |order| == 0 {
      assert keys == {};
    } else {
      var rest := order[1..];
      assert order[0] !in rest;
      assert forall k :: k in rest <==> k in keys - {order[0]};
      EnumerateComplete(keys - {order[0]}, rest);
    }
  }

  /** For each new key, the original key whose entry ends up under it when
      the entries of `m` are inserted in the order `keys` lists them, each
      under `key(k, m[k])`: of two keys with the same new key the later one
      wins. */
  function Origins<V>(m: map<string, V>, keys: seq<string>, key: (string, V) -> string): (o: map<string, string>)
    requires forall i | 0 <= i < |keys| :: keys[i] in m
    ensures forall i | 0 <= i < |keys| :: key(keys[i], m[keys[i]]) in o
    ensures forall nk | nk in o :: o[nk] in keys && key(o[nk], m[o[nk]]) == nk
    ensures |o| <= |keys|
  {
    if |keys| == 0 then map[]
    else
      var n := |keys| - 1;
      var prefix := keys[..n];
      assert forall i | 0 <= i < n :: prefix[i] == keys[i];
      Origins(m, prefix, key)[key(keys[n], m[keys[n]]) := keys[n]]
  }

  /** The map holding, under each new key, the value made from the entry it
      originates from. */
  function FromOrigins<V>(m: map<string, V>, o: map<string, string>, value: (string, V) -> V): (r: map<string, V>)
    requires forall nk | nk in o :: o[nk] in m
    ensures r.Keys == o.Keys
    ensures forall nk | nk in r :: r[nk] == value(o[nk], m[o[nk]])
  {
    map nk | nk in o :: value(o[nk], m[o[nk]])
  }

  /** A `HashMap` rebuilt by a loop over another: each entry of `m`, visited
      in the order `hint` gives, is inserted under `key(k, m[k])` with value
      `value(k, m[k])`. */
  function Rekeyed<V>(m: map<string, V>, hint: seq<string>, key: (string, V) -> string,
                      value: (string, V) -> V): map<string, V>
  {
    var keys := Enumerate(m.Keys, hint);
    assert forall k | k in m :: k in keys;
    FromOrigins(m, Origins(m, keys, key), value)
  }

  /** Every entry is re-inserted, so no more entries come out than went in,
      and every entry's new key is present with the value of some entry
      that has that new key. */
  lemma RekeyedEntries<V>(m: map<string, V>, hint: seq<string>, key: (string, V) -> string,
                          value: (string, V) -> V)
    ensures forall k | k in m :: key(k, m[k]) in Rekeyed(m, hint, key, value)
    ensures forall nk | nk in Rekeyed(m, hint, key, value) :: exists k | k in m ::
              key(k, m[k]) == nk && Rekeyed(m, hint, key, value)[nk] == value(k, m[k])
    ensures |Rekeyed(m, hint, key, value)| <= |m|
  {
    var keys := Enumerate(m.Keys, hint);
    assert forall k | k in m :: k in keys;
    var o := Origins(m, keys, key);
    var r := Rekeyed(m, hint, key, value);
    assert r == FromOrigins(m, o, value);
    forall nk | nk in r
      ensures exists k | k in m :: key(k, m[k]) == nk && r[nk] == value(k, m[k])
    {
      var k := o[nk];
      assert k in m && key(k, m[k]) == nk && r[nk] == value(k, m[k]);
    }
  }

  /** With an injective re-keying every key is its own origin. */
  lemma {:induction false} OriginsWithoutCollisions<V>(m: map<string, V>, keys: seq<string>, key: (string, V) -> string)
    requires forall i | 0 <= i < |keys| :: keys[i] in m
    requires NoDuplicates(keys)
    requires forall a, b | a in m && b in m && a != b :: key(a, m[a]) != key(b, m[b])
    ensures forall i | 0 <= i < |keys| :: Origins(m, keys, key)[key(keys[i], m[keys[i]])] == keys[i]
    ensures |Origins(m, keys, key)| == |keys|
  {
    if |keys| > 0 {
      var n := |keys| - 1;
      var prefix := keys[..n];
      assert forall i | 0 <= i < n :: prefix[i] == keys[i];
      OriginsWithoutCollisions(m, prefix, key);
      var last := keys[n];
      assert last !in prefix;
      assert key(last, m[last]) !in Origins(m, prefix, key);
    }
  }

  /** With an injective re-keying of a listing of all of `m`, every key of
      `m` is the origin of its own new key. */
  lemma OriginsCover<V>(m: map<string, V>, keys: seq<string>, key: (string, V) -> string)
    requires forall k :: k in keys <==> k in m
    requires NoDuplicates(keys)
    requires forall a, b | a in m && b in m && a != b :: key(a, m[a]) != key(b, m[b])
    ensures forall k | k in m :: key(k, m[k]) in Origins(m, keys, key) && Origins(m, keys, key)[key(k, m[k])] == k
  {
    OriginsWithoutCollisions(m, keys, key);
    forall k | k in m
      ensures Origins(m, keys, key)[key(k, m[k])] == k
    {
      var i :| 0 <= i < |keys| && keys[i] == k;
    }
  }

  /** With an injective re-keying, two listings of all of `m` give the same
      origins. */
  lemma OriginsAgree<V>(m: map<string, V>, keys: seq<string>, others: seq<string>, key: (string, V) -> string)
    requires forall k :: k in keys <==> k in m
    requires forall k :: k in others <==> k in m
    requires NoDuplicates(keys) && NoDuplicates(others)
    requires forall a, b | a in m && b in m && a != b :: key(a, m[a]) != key(b, m[b])
    ensures Origins(m, keys, key) == Origins(m, others, key)
  {
    OriginsCover(m, keys, key);
    OriginsCover(m, others, key);
    var o1 := Origins(m, keys, key);
    var o2 := Origins(m, others, key);
    forall nk | nk in o1
      ensures nk in o2 && o2[nk] == o1[nk]
    {
      var k := o1[nk];
      assert k in m && key(k, m[k]) == nk;
    }
    forall nk | nk in o2
      ensures nk in o1
    {
      var k := o2[nk];
      assert k in m && key(k, m[k]) == nk;
    }
  }

  /** With an injective re-keying every entry lands under its own new key
      and nothing is lost. */
  lemma RekeyedWithoutCollisions<V>(m: map<string, V>, hint: seq<string>,
                                    key: (string, V) -> string, value: (string, V) -> V)
    requires forall a, b | a in m && b in m && a != b :: key(a, m[a]) != key(b, m[b])
    ensures forall k | k in m :: Rekeyed(m, hint, key, value)[key(k, m[k])] == value(k, m[k])
    ensures |Rekeyed(m, hint, key, value)| == |m|
  {
    var keys := Enumerate(m.Keys, hint);
    OriginsCover(m, keys, key);
    OriginsWithoutCollisions(m, keys, key);
  }

  /** With an injective re-keying the iteration order does not matter. */
  lemma RekeyedOrderIndependent<V>(m: map<string, V>, hint: seq<string>, otherHint: seq<string>,
                                   key: (string, V) -> string, value: (string, V) -> V)
    requires forall a, b | a in m && b in m && a != b :: key(a, m[a]) != key(b, m[b])
    ensures Rekeyed(m, hint, key, value) == Rekeyed(m, otherHint, key, value)
  {
    var keys := Enumerate(m.Keys, hint);
    var others := Enumerate(m.Keys, otherHint);
    OriginsAgree(m, keys, others, key);
  }

  /** A property every re-keyed value has holds of every entry of the
      result. */
  lemma RekeyedKeeps<V>(m: map<string, V>, hint: seq<string>, key: (string, V) -> string,
                        value: (string, V) -> V, good: V -> bool)
    requires forall k | k in m :: good(value(k, m[k]))
    ensures forall nk | nk in Rekeyed(m, hint, key, value) :: good(Rekeyed(m, hint, key, value)[nk])
  {
    var keys := Enumerate(m.Keys, hint);
    assert forall k | k in m :: k in keys;
    assert Rekeyed(m, hint, key, value) == FromOrigins(m, Origins(m, keys, key), value);
  }
}
