/** A Python `dict` with string keys: an insertion-ordered list of entries in
    which assigning to a present key replaces its value in place and a new key
    goes to the end. */
module Registry {

  import opened Wrappers

  type Entries<V> = seq<(string, V)>

  predicate HasKey<V>(es: Entries<V>, k: string)
  {
    exists i :: 0 <= i < |es| && es[i].0 == k
  }

  /** No key appears twice, as in every dict. */
  predicate Distinct<V>(es: Entries<V>)
  {
    forall i, j :: 0 <= i < j < |es| ==> es[i].0 != es[j].0
  }

  lemma HasKeyTail<V>(es: Entries<V>, k: string)
    requires es != []
    ensures HasKey(es[1..], k) ==> HasKey(es, k)
    ensures HasKey(es, k) && es[0].0 != k ==> HasKey(es[1..], k)
  {
    if HasKey(es[1..], k) {
      var i :| 0 <= i < |es[1..]| && es[1..][i].0 == k;
      assert es[i + 1].0 == k;
    }
    if HasKey(es, k) && es[0].0 != k {
      var i :| 0 <= i < |es| && es[i].0 == k;
      assert es[1..][i - 1].0 == k;
    }
  }

  /** `d.get(k)`. */
  function Get<V>(es: Entries<V>, k: string): (r: Option<V>)
    ensures r.Some? <==> HasKey(es, k)
    ensures r.Some? ==> exists i :: 0 <= i < |es| && es[i] == (k, r.value)
  {
    if es == [] then None
    else if es[0].0 == k then Some(es[0].1)
    else
      var r := Get(es[1..], k);
      assert r.Some? ==> exists i :: 0 <= i < |es[1..]| && es[1..][i] == (k, r.value);
      assert HasKey(es[1..], k) ==> HasKey(es, k) by {
        if HasKey(es[1..], k) {
          var i :| 0 <= i < |es[1..]| && es[1..][i].0 == k;
          assert es[i + 1].0 == k;
        }
      }
      assert HasKey(es, k) ==> HasKey(es[1..], k) by {
        if HasKey(es, k) {
          var i :| 0 <= i < |es| && es[i].0 == k;
          assert es[1..][i - 1].0 == k;
        }
      }
      r
  }

  /** `get` on joined entries: a key the second part lacks is looked up in the
      first, and a key the first part lacks in the second. */
  lemma {:induction false} GetAppend<V>(a: Entries<V>, b: Entries<V>, k: string)
    ensures !HasKey(b, k) ==> Get(a + b, k) == Get(a, k)
    ensures !HasKey(a, k) ==> Get(a + b, k) == Get(b, k)
  {
    if a != [] {
      assert (a + b)[1..] == a[1..] + b;
      GetAppend(a[1..], b, k);
      if !HasKey(a, k) {
        assert a[0].0 != k;
        HasKeyTail(a, k);
      }
    } else {
      assert a + b == b;
    }
  }

  /** `d[k] = v`. */
  function Upsert<V>(es: Entries<V>, k: string, v: V): (r: Entries<V>)
    ensures HasKey(es, k) ==> |r| == |es|
    ensures !HasKey(es, k) ==> r == es + [(k, v)]
    ensures forall i :: 0 <= i < |es| && es[i].0 != k ==> r[i] == es[i]
  {
    if es == [] then [(k, v)]
    else if es[0].0 == k then [(k, v)] + es[1..]
    else
      assert HasKey(es, k) <==> HasKey(es[1..], k) by {
        if HasKey(es, k) {
          var i :| 0 <= i < |es| && es[i].0 == k;
          assert es[1..][i - 1].0 == k;
        }
        if HasKey(es[1..], k) {
          var i :| 0 <= i < |es[1..]| && es[1..][i].0 == k;
          assert es[i + 1].0 == k;
        }
      }
      [es[0]] + Upsert(es[1..], k, v)
  }

  /** In a dict, the entry for an assigned key that was present stays where it
      was and now holds the new value; nothing else moves or changes. */
  lemma {:induction false} UpsertInPlace<V>(es: Entries<V>, k: string, v: V, i: int)
    requires Distinct(es) && 0 <= i < |es| && es[i].0 == k
    ensures Upsert(es, k, v) == es[i := (k, v)]
  {
    if es[0].0 != k {
      UpsertInPlace(es[1..], k, v, i - 1);
      assert [es[0]] + es[1..][i - 1 := (k, v)] == es[i := (k, v)];
    } else {
      assert i == 0;
    }
  }

  /** Assignment keeps the keys distinct. */
  lemma UpsertDistinct<V>(es: Entries<V>, k: string, v: V)
    requires Distinct(es)
    ensures Distinct(Upsert(es, k, v))
  {
    if HasKey(es, k) {
      var i :| 0 <= i < |es| && es[i].0 == k;
      UpsertInPlace(es, k, v, i);
    }
  }

  /** After `d[k] = v`, `d.get(k)` is v and every other key reads as before. */
  lemma {:induction false} UpsertGet<V>(es: Entries<V>, k: string, v: V, k2: string)
    ensures Get(Upsert(es, k, v), k2) == if k2 == k then Some(v) else Get(es, k2)
  {
    if es != [] && es[0].0 != k {
      UpsertGet(es[1..], k, v, k2);
    }
  }

  /** `for key, value in other.items(): d[key] = value`. */
  function UpsertAll<V>(es: Entries<V>, other: Entries<V>): (r: Entries<V>)
    decreases |other|
  {
    if other == [] then es else UpsertAll(Upsert(es, other[0].0, other[0].1), other[1..])
  }

  /** Copying entries in keeps the keys distinct, and leaves every key the
      copied entries lack reading as before: nothing is evicted. */
  lemma {:induction false} UpsertAllKeeps<V>(es: Entries<V>, other: Entries<V>, k: string)
    requires Distinct(es)
    requires !HasKey(other, k)
    ensures Distinct(UpsertAll(es, other))
    ensures Get(UpsertAll(es, other), k) == Get(es, k)
    decreases |other|
  {
    if other != [] {
      UpsertDistinct(es, other[0].0, other[0].1);
      UpsertGet(es, other[0].0, other[0].1, k);
      HasKeyTail(other, k);
      UpsertAllKeeps(Upsert(es, other[0].0, other[0].1), other[1..], k);
    }
  }

  /** Copying distinct entries in makes each of them read back. */
  lemma {:induction false} UpsertAllGet<V>(es: Entries<V>, other: Entries<V>, i: int)
    requires Distinct(other) && 0 <= i < |other|
    ensures Get(UpsertAll(es, other), other[i].0) == Some(other[i].1)
    decreases |other|
  {
    var es1 := Upsert(es, other[0].0, other[0].1);
    if i == 0 {
      UpsertGet(es, other[0].0, other[0].1, other[0].0);
      if |other| > 1 {
        forall j | 0 <= j < |other[1..]|
          ensures other[1..][j].0 != other[0].0
        {
          assert other[1..][j] == other[j + 1];
        }
        UpsertAllKeepsAny(es1, other[1..], other[0].0);
      }
    } else {
      UpsertAllGet(es1, other[1..], i - 1);
    }
  }

  lemma {:induction false} UpsertAllKeepsAny<V>(es: Entries<V>, other: Entries<V>, k: string)
    requires !HasKey(other, k)
    ensures Get(UpsertAll(es, other), k) == Get(es, k)
    decreases |other|
  {
    if other != [] {
      UpsertGet(es, other[0].0, other[0].1, k);
      HasKeyTail(other, k);
      UpsertAllKeepsAny(Upsert(es, other[0].0, other[0].1), other[1..], k);
    }
  }

  /** Assignment never moves or removes a key: the old keys keep their
      positions and at most one entry is added at the end. */
  lemma UpsertKeys<V>(es: Entries<V>, k: string, v: V)
    ensures |es| <= |Upsert(es, k, v)| <= |es| + 1
    ensures forall i :: 0 <= i < |es| ==> Upsert(es, k, v)[i].0 == es[i].0
  {
  }

  /** Copying entries in keeps the keys distinct. */
  lemma {:induction false} UpsertAllDistinct<V>(es: Entries<V>, other: Entries<V>)
    requires Distinct(es)
    ensures Distinct(UpsertAll(es, other))
    decreases |other|
  {
    if other != [] {
      UpsertDistinct(es, other[0].0, other[0].1);
      UpsertAllDistinct(Upsert(es, other[0].0, other[0].1), other[1..]);
    }
  }

  /** Copying entries in never moves or removes a key. */
  lemma {:induction false} UpsertAllKeys<V>(es: Entries<V>, other: Entries<V>)
    ensures |es| <= |UpsertAll(es, other)|
    ensures forall i :: 0 <= i < |es| ==> UpsertAll(es, other)[i].0 == es[i].0
    decreases |other|
  {
    if other != [] {
      UpsertKeys(es, other[0].0, other[0].1);
      UpsertAllKeys(Upsert(es, other[0].0, other[0].1), other[1..]);
    }
  }
}
