/**
 * An ordered PHP array with string keys, as built for each result row:
 * entries in insertion order, one entry per key.
 */
module PhpArray {
  import opened Wrappers

  type Entries<V> = seq<(string, V)>

  /** The keys of an array, in insertion order. */
  function Keys<V>(a: Entries<V>): seq<string>
  {
    if a == [] then [] else [a[0].0] + Keys(a[1..])
  }

  /** A well-formed PHP array never holds the same key twice. */
  predicate DistinctKeys<V>(a: Entries<V>)
  {
    forall i, j :: 0 <= i < j < |a| ==> a[i].0 != a[j].0
  }

  /** `$a[k]`, or None when k is not a key of a. */
  function Lookup<V>(a: Entries<V>, k: string): Option<V>
  {
    if a == [] then None
    else if a[0].0 == k then Some(a[0].1)
    else Lookup(a[1..], k)
  }

  /** A value found under k is the value of an entry with key k. */
  lemma {:induction false} LookupAt<V>(a: Entries<V>, k: string, v: V)
    requires Lookup(a, k) == Some(v)
    ensures exists p :: 0 <= p < |a| && a[p] == (k, v)
    decreases |a|
  {
    if a[0].0 != k {
      LookupAt(a[1..], k, v);
      var p :| 0 <= p < |a[1..]| && a[1..][p] == (k, v);
      assert a[p + 1] == (k, v);
    }
  }

  lemma {:induction false} KeysAt<V>(a: Entries<V>, i: nat)
    requires i < |a|
    ensures |Keys(a)| == |a| && Keys(a)[i] == a[i].0
  {
    if i > 0 {
      KeysAt(a[1..], i - 1);
    } else if |a| > 1 {
      KeysAt(a[1..], 0);
    }
  }

  lemma {:induction false} InKeys<V>(a: Entries<V>, k: string)
    ensures k in Keys(a) <==> exists i :: 0 <= i < |a| && a[i].0 == k
  {
    if a != [] {
      InKeys(a[1..], k);
      assert forall i :: 0 < i < |a| ==> a[i] == a[1..][i - 1];
    }
  }

  /** A key can be looked up exactly when it is one of the array's keys. */
  lemma {:induction false} LookupIffKey<V>(a: Entries<V>, k: string)
    ensures Lookup(a, k).Some? <==> k in Keys(a)
  {
    if a != [] {
      LookupIffKey(a[1..], k);
    }
  }

  /**
   * The assignment `$a[k] = v`: an existing key keeps its position and takes
   * the new value; a new key is appended at the end.
   */
  function Put<V>(a: Entries<V>, k: string, v: V): (r: Entries<V>)
    ensures Lookup(r, k) == Some(v)
    ensures DistinctKeys(a) ==> DistinctKeys(r)
    decreases |a|, 0
  {
    if a == [] then [(k, v)]
    else if a[0].0 == k then [(k, v)] + a[1..]
    else
      var rest := Put(a[1..], k, v);
      assert DistinctKeys(a) ==> DistinctKeys([a[0]] + rest) by {
        if DistinctKeys(a) {
          PutKeys(a[1..], k, v);
          InKeys(a[1..], a[0].0);
          InKeys(rest, a[0].0);
          assert DistinctKeys(a[1..]);
        }
      }
      [a[0]] + rest
  }

  /** Assigning one key leaves the value under every other key as it was. */
  lemma {:induction false} PutLookupOther<V>(a: Entries<V>, k: string, v: V, other: string)
    requires other != k
    ensures Lookup(Put(a, k, v), other) == Lookup(a, other)
  {
    if a != [] && a[0].0 != k {
      PutLookupOther(a[1..], k, v, other);
    }
  }

  /**
   * Assigning an existing key keeps the keys and their order; assigning a
   * new key appends one entry after the existing ones.
   */
  lemma {:induction false} PutKeys<V>(a: Entries<V>, k: string, v: V)
    ensures k in Keys(a) ==> Keys(Put(a, k, v)) == Keys(a) && |Put(a, k, v)| == |a|
    ensures k !in Keys(a) ==> Put(a, k, v) == a + [(k, v)]
    decreases |a|, 1
  {
    if a != [] && a[0].0 != k {
      PutKeys(a[1..], k, v);
      assert a == [a[0]] + a[1..];
    }
  }

  /** The keys after an assignment are the keys before it plus the assigned one. */
  lemma {:induction false} PutHasKey<V>(a: Entries<V>, k: string, v: V, other: string)
    ensures other in Keys(Put(a, k, v)) <==> other in Keys(a) || other == k
  {
    if a != [] && a[0].0 != k {
      PutHasKey(a[1..], k, v, other);
    }
  }
}
