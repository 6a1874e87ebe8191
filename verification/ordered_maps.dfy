/** Insertion-ordered maps, the behaviour of a Python `dict`: a sequence of
    (key, value) entries whose keys are distinct, iterated in insertion order.
    Assigning to an existing key keeps its position; a new key goes to the end. */
module OrderedMaps {
  import opened Errors

  type OMap<K, V> = seq<(K, V)>

  /** The keys of `m`, in iteration order. */
  function Keys<K, V>(m: OMap<K, V>): (ks: seq<K>)
    ensures |ks| == |m|
    ensures forall i :: 0 <= i < |m| ==> ks[i] == m[i].0
  {
    seq(|m|, i requires 0 <= i < |m| => m[i].0)
  }

  /** No key occurs twice: what every Python dict guarantees. */
  predicate DistinctKeys<K(==), V>(m: OMap<K, V>) {
    forall i, j :: 0 <= i < j < |m| ==> m[i].0 != m[j].0
  }

  /** `m[k]` when `k` is present: the value of the first entry with key `k`. */
  function Lookup<K(==), V>(m: OMap<K, V>, k: K): Option<V>
  {
    if m == [] then None
    else if m[0].0 == k then Some(m[0].1)
    else Lookup(m[1..], k)
  }

  /** How many entries of `s` have key `k`. */
  function CountKey<K(==), V>(s: seq<(K, V)>, k: K): nat {
    if s == [] then 0 else (if s[0].0 == k then 1 else 0) + CountKey(s[1..], k)
  }

  lemma {:induction false} CountKeyAppend<K, V>(a: seq<(K, V)>, b: seq<(K, V)>, k: K)
    ensures CountKey(a + b, k) == CountKey(a, k) + CountKey(b, k)
  {
    if a == [] {
      assert a + b == b;
    } else {
      CountKeyAppend(a[1..], b, k);
      assert (a + b)[1..] == a[1..] + b;
    }
  }

  /** `m[k] = v`: overwrite in place when `k` is present, append otherwise. */
  function Put<K(==), V>(m: OMap<K, V>, k: K, v: V): OMap<K, V>
  {
    if m == [] then [(k, v)]
    else if m[0].0 == k then [(k, v)] + m[1..]
    else [m[0]] + Put(m[1..], k, v)
  }

  /** The keys of `ks` that do not occur in `seen`, in the order of `ks`. */
  function Fresh<K(==)>(ks: seq<K>, seen: seq<K>): seq<K>
  {
    if ks == [] then []
    else (if ks[0] in seen then [] else [ks[0]]) + Fresh(ks[1..], seen)
  }

  /** `{**a, **b}`: the entries of `b` assigned one by one onto `a`. */
  function Union<K(==), V>(a: OMap<K, V>, b: OMap<K, V>): OMap<K, V>
    decreases |b|
  {
    if b == [] then a else Union(Put(a, b[0].0, b[0].1), b[1..])
  }

  lemma {:induction false} LookupFound<K, V>(m: OMap<K, V>, k: K)
    ensures Lookup(m, k).Some? <==> k in Keys(m)
  {
    if m != [] {
      LookupFound(m[1..], k);
      assert Keys(m) == [m[0].0] + Keys(m[1..]);
    }
  }

  /** With distinct keys, the lookup of an entry's key yields that entry's value. */
  lemma {:induction false} LookupAt<K, V>(m: OMap<K, V>, i: nat)
    requires DistinctKeys(m) && i < |m|
    ensures Lookup(m, m[i].0) == Some(m[i].1)
  {
    if i > 0 {
      LookupAt(m[1..], i - 1);
    }
  }

  /** Overwriting keeps the key order; a new key is appended after the others. */
  lemma {:induction false} PutKeys<K, V>(m: OMap<K, V>, k: K, v: V)
    ensures k in Keys(m) ==> Keys(Put(m, k, v)) == Keys(m)
    ensures k !in Keys(m) ==> Put(m, k, v) == m + [(k, v)]
  {
    if k in Keys(m) {
      PutPresent(m, k, v);
    } else {
      PutAbsent(m, k, v);
    }
  }

  lemma {:induction false} PutPresent<K, V>(m: OMap<K, V>, k: K, v: V)
    requires k in Keys(m)
    ensures |Put(m, k, v)| == |m|
    ensures forall i :: 0 <= i < |m| ==> Put(m, k, v)[i].0 == m[i].0
  {
    var r := Put(m, k, v);
    if m[0].0 != k {
      assert k in Keys(m[1..]) by {
        var i :| 0 <= i < |m| && Keys(m)[i] == k;
        assert Keys(m[1..])[i - 1] == k;
      }
      PutPresent(m[1..], k, v);
      assert r == [m[0]] + Put(m[1..], k, v);
    }
  }

  lemma {:induction false} PutAbsent<K, V>(m: OMap<K, V>, k: K, v: V)
    requires k !in Keys(m)
    ensures Put(m, k, v) == m + [(k, v)]
  {
    if m != [] {
      assert Keys(m)[0] == m[0].0;
      PutAbsent(m[1..], k, v);
      assert m == [m[0]] + m[1..];
      assert [m[0]] + (m[1..] + [(k, v)]) == m + [(k, v)];
    }
  }

  /** After `m[k] = v`, `m[k]` is `v` and every other key reads as before. */
  lemma {:induction false} PutLookup<K, V>(m: OMap<K, V>, k: K, v: V, k': K)
    ensures Lookup(Put(m, k, v), k') == if k' == k then Some(v) else Lookup(m, k')
  {
    if m != [] && m[0].0 != k {
      PutLookup(m[1..], k, v, k');
      assert Put(m, k, v)[1..] == Put(m[1..], k, v);
    } else if m != [] {
      assert Put(m, k, v)[1..] == m[1..];
    }
  }

  /** Assigning one entry never duplicates a key. */
  lemma {:induction false} PutDistinct<K, V>(m: OMap<K, V>, k: K, v: V)
    requires DistinctKeys(m)
    ensures DistinctKeys(Put(m, k, v))
  {
    PutKeys(m, k, v);
    var r := Put(m, k, v);
    if k in Keys(m) {
      assert forall i :: 0 <= i < |r| ==> r[i].0 == Keys(m)[i];
    }
  }

  lemma {:induction false} FreshIgnoresAbsent<K>(ks: seq<K>, seen: seq<K>, k: K)
    requires k !in ks
    ensures Fresh(ks, seen + [k]) == Fresh(ks, seen)
  {
    if ks != [] {
      FreshIgnoresAbsent(ks[1..], seen, k);
    }
  }

  /** Keys of `a` keep their positions; the keys `b` adds follow, in `b`'s order. */
  lemma {:induction false} UnionKeys<K, V>(a: OMap<K, V>, b: OMap<K, V>)
    requires DistinctKeys(b)
    ensures Keys(Union(a, b)) == Keys(a) + Fresh(Keys(b), Keys(a))
    decreases |b|
  {
    if b == [] {
      assert Keys(b) == [];
    } else {
      UnionKeys(Put(a, b[0].0, b[0].1), b[1..]);
      UnionKeysStep(a, b);
    }
  }

  lemma {:induction false} UnionKeysStep<K, V>(a: OMap<K, V>, b: OMap<K, V>)
    requires DistinctKeys(b) && b != []
    requires var a' := Put(a, b[0].0, b[0].1);
      Keys(Union(a', b[1..])) == Keys(a') + Fresh(Keys(b[1..]), Keys(a'))
    ensures Keys(Union(a, b)) == Keys(a) + Fresh(Keys(b), Keys(a))
  {
    var k := b[0].0;
    var a' := Put(a, k, b[0].1);
    var ka, kr := Keys(a), Keys(b[1..]);
    var lhs := Keys(Union(a, b));
    assert lhs == Keys(a') + Fresh(kr, Keys(a')) by {
      assert Union(a, b) == Union(a', b[1..]);
    }
    assert Keys(b) == [k] + kr && k !in kr by {
      KeysTail(b);
    }
    if k in ka {
      assert Keys(a') == ka by {
        PutKeys(a, k, b[0].1);
      }
      FreshHead(k, kr, ka);
      assert lhs == ka + Fresh(Keys(b), ka);
    } else {
      assert Keys(a') == ka + [k] by {
        PutKeys(a, k, b[0].1);
      }
      FreshHead(k, kr, ka);
      assert ka + [k] + Fresh(kr, ka + [k]) == ka + ([k] + Fresh(kr, ka + [k]));
      assert lhs == ka + Fresh(Keys(b), ka);
    }
  }

  /** The keys of a non-empty map with distinct keys: its first key, then the others. */
  lemma {:induction false} KeysTail<K, V>(b: OMap<K, V>)
    requires DistinctKeys(b) && b != []
    ensures Keys(b) == [b[0].0] + Keys(b[1..]) && b[0].0 !in Keys(b[1..])
  {
    assert Keys(b) == [b[0].0] + Keys(b[1..]);
  }

  /** One step of `Fresh` on a sequence whose head does not recur. */
  lemma {:induction false} FreshHead<K>(k: K, rest: seq<K>, seen: seq<K>)
    requires k !in rest
    ensures k in seen ==> Fresh([k] + rest, seen) == Fresh(rest, seen)
    ensures k !in seen ==> Fresh([k] + rest, seen) == [k] + Fresh(rest, seen + [k])
  {
    assert ([k] + rest)[1..] == rest;
    if k !in seen {
      FreshIgnoresAbsent(rest, seen, k);
    }
  }

  /** On a key of `b` the value of `b` wins; elsewhere the value of `a` stays. */
  lemma {:induction false} UnionLookup<K, V>(a: OMap<K, V>, b: OMap<K, V>, k: K)
    requires DistinctKeys(b)
    ensures Lookup(Union(a, b), k) == if k in Keys(b) then Lookup(b, k) else Lookup(a, k)
    decreases |b|
  {
    if b != [] {
      assert Keys(b) == [b[0].0] + Keys(b[1..]);
      assert b[0].0 !in Keys(b[1..]);
      UnionLookup(Put(a, b[0].0, b[0].1), b[1..], k);
      PutLookup(a, b[0].0, b[0].1, k);
    }
  }

  /** Assigning entries never duplicates a key. */
  lemma {:induction false} UnionDistinct<K, V>(a: OMap<K, V>, b: OMap<K, V>)
    requires DistinctKeys(a)
    ensures DistinctKeys(Union(a, b))
    decreases |b|
  {
    if b != [] {
      PutDistinct(a, b[0].0, b[0].1);
      UnionDistinct(Put(a, b[0].0, b[0].1), b[1..]);
    }
  }

  /** Every entry after `m[k] = v` is an entry of `m` or the assigned one. */
  lemma {:induction false} PutEntries<K, V>(m: OMap<K, V>, k: K, v: V)
    ensures forall e :: e in Put(m, k, v) ==> e in m || e == (k, v)
  {
    if m != [] && m[0].0 != k {
      PutEntries(m[1..], k, v);
      assert Put(m, k, v) == [m[0]] + Put(m[1..], k, v);
    } else if m != [] {
      assert Put(m, k, v) == [(k, v)] + m[1..];
    }
  }

  /** Every entry of `{**a, **b}` is an entry of `a` or of `b`. */
  lemma {:induction false} UnionEntries<K, V>(a: OMap<K, V>, b: OMap<K, V>)
    ensures forall e :: e in Union(a, b) ==> e in a || e in b
    decreases |b|
  {
    if b != [] {
      PutEntries(a, b[0].0, b[0].1);
      UnionEntries(Put(a, b[0].0, b[0].1), b[1..]);
      assert forall e :: e in b[1..] ==> e in b;
    }
  }
}
