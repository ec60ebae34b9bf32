/**
 * Ruby hashes keep their insertion order, and the mapping engine depends on
 * that order (it walks the form attributes in the order they were posted and
 * reports missing attributes in the order they were found). A hash is modelled
 * as a list of key/value pairs; `Put` and `Remove` behave like `h[k] = v` and
 * `h.delete(k)`.
 */
module OrderedHash {
  import opened Wrappers

  /** The keys of `h`, in order. */
  function Keys<V>(h: seq<(string, V)>): (ks: seq<string>)
    ensures |ks| == |h|
    ensures forall i :: 0 <= i < |h| ==> ks[i] == h[i].0
  {
    if |h| == 0 then [] else [h[0].0] + Keys(h[1..])
  }

  lemma KeysConcat<V>(a: seq<(string, V)>, b: seq<(string, V)>)
    ensures Keys(a + b) == Keys(a) + Keys(b)
  {
    assert |Keys(a + b)| == |Keys(a) + Keys(b)|;
    forall i | 0 <= i < |a + b| ensures Keys(a + b)[i] == (Keys(a) + Keys(b))[i] {
      if i >= |a| { assert (a + b)[i] == b[i - |a|]; }
    }
  }

  /** A hash never holds the same key twice. */
  predicate DistinctKeys<V>(h: seq<(string, V)>) {
    forall i, j :: 0 <= i < j < |h| ==> h[i].0 != h[j].0
  }

  /** `h[k]`: the value stored under `k`, if any. */
  function Get<V>(h: seq<(string, V)>, k: string): (r: Option<V>)
    ensures r.None? <==> k !in Keys(h)
    ensures r.Some? ==> (k, r.value) in h
  {
    if |h| == 0 then None
    else if h[0].0 == k then Some(h[0].1)
    else Get(h[1..], k)
  }

  /** `h[k] = v`: an existing key keeps its position, a new key goes last. */
  function Put<V>(h: seq<(string, V)>, k: string, v: V): seq<(string, V)>
  {
    if |h| == 0 then [(k, v)]
    else if h[0].0 == k then [(k, v)] + h[1..]
    else [h[0]] + Put(h[1..], k, v)
  }

  /** `h[k] = v` stores `v` under `k` and leaves every other key's value as it was. */
  lemma {:induction false} PutGet<V>(h: seq<(string, V)>, k: string, v: V)
    ensures Get(Put(h, k, v), k) == Some(v)
    ensures forall k' :: k' != k ==> Get(Put(h, k, v), k') == Get(h, k')
  {
    if |h| > 0 && h[0].0 != k {
      PutGet(h[1..], k, v);
      assert Put(h, k, v)[1..] == Put(h[1..], k, v);
    }
  }

  /** `h.delete(k)`: the key disappears, everything else keeps its place. */
  function Remove<V>(h: seq<(string, V)>, k: string): seq<(string, V)>
  {
    if |h| == 0 then []
    else if h[0].0 == k then Remove(h[1..], k)
    else [h[0]] + Remove(h[1..], k)
  }

  /** After `h.delete(k)` the key is gone, and every other key is kept with its value. */
  lemma {:induction false} RemoveGet<V>(h: seq<(string, V)>, k: string)
    ensures Get(Remove(h, k), k).None?
    ensures forall k' :: k' != k ==> Get(Remove(h, k), k') == Get(h, k')
    ensures forall k' :: k' in Keys(Remove(h, k)) <==> k' in Keys(h) && k' != k
  {
    if |h| > 0 {
      RemoveGet(h[1..], k);
      assert Keys(h) == [h[0].0] + Keys(h[1..]);
      if h[0].0 != k {
        var r := Remove(h, k);
        assert r[0] == h[0] && r[1..] == Remove(h[1..], k);
        assert Keys(r) == [h[0].0] + Keys(Remove(h[1..], k));
      }
    }
  }

  /** A hash without the key is left as it is. */
  lemma {:induction false} RemoveAbsent<V>(h: seq<(string, V)>, k: string)
    requires k !in Keys(h)
    ensures Remove(h, k) == h
  {
    if |h| > 0 {
      assert Keys(h[1..]) == Keys(h)[1..];
      RemoveAbsent(h[1..], k);
    }
  }

  /** Deleting from joined hashes deletes from each part. */
  lemma {:induction false} RemoveConcat<V>(a: seq<(string, V)>, b: seq<(string, V)>, k: string)
    ensures Remove(a + b, k) == Remove(a, k) + Remove(b, k)
  {
    if |a| == 0 {
      assert a + b == b;
    } else {
      var h := a + b;
      assert h[0] == a[0] && h[1..] == a[1..] + b;
      RemoveConcat(a[1..], b, k);
      if a[0].0 == k {
        assert Remove(h, k) == Remove(a[1..] + b, k);
        assert Remove(a, k) == Remove(a[1..], k);
      } else {
        assert Remove(h, k) == [a[0]] + (Remove(a[1..], k) + Remove(b, k));
        assert Remove(a, k) == [a[0]] + Remove(a[1..], k);
      }
    }
  }

  /** Deleting the first key of a hash whose other keys differ from it leaves the rest. */
  lemma RemoveFirst<V>(k: string, v: V, b: seq<(string, V)>)
    requires k !in Keys(b)
    ensures Remove([(k, v)] + b, k) == b
  {
    assert ([(k, v)] + b)[1..] == b;
    RemoveAbsent(b, k);
  }

  /** `h.delete(k)` keeps the order of the remaining pairs: the pair goes, and the rest closes up. */
  lemma RemoveKeepsOrder<V>(a: seq<(string, V)>, k: string, v: V, b: seq<(string, V)>)
    requires k !in Keys(a) && k !in Keys(b)
    ensures Remove(a + ([(k, v)] + b), k) == a + b
  {
    RemoveFirst(k, v, b);
    RemoveAbsent(a, k);
    RemoveConcat(a, [(k, v)] + b, k);
  }

  /** Storing under a present key keeps the key order. */
  lemma {:induction false} PutPresentKeys<V>(h: seq<(string, V)>, k: string, v: V)
    requires k in Keys(h)
    ensures Keys(Put(h, k, v)) == Keys(h)
  {
    assert Keys(h) == [h[0].0] + Keys(h[1..]);
    if h[0].0 != k {
      PutPresentKeys(h[1..], k, v);
    }
  }

  /** Storing under a new key appends the pair. */
  lemma {:induction false} PutAbsentAppends<V>(h: seq<(string, V)>, k: string, v: V)
    requires k !in Keys(h)
    ensures Put(h, k, v) == h + [(k, v)]
  {
    if |h| > 0 {
      var t := h[1..];
      assert h[0].0 != k by { assert Keys(h)[0] == h[0].0; }
      assert k !in Keys(t) by {
        forall i | 0 <= i < |t| ensures Keys(t)[i] != k {
          assert Keys(t)[i] == t[i].0 == h[i + 1].0 == Keys(h)[i + 1];
        }
      }
      PutAbsentAppends(t, k, v);
      assert h == [h[0]] + t;
    }
  }

  /** Storing under a present key keeps the key order; a new key is appended. */
  lemma PutKeys<V>(h: seq<(string, V)>, k: string, v: V)
    ensures k in Keys(h) ==> Keys(Put(h, k, v)) == Keys(h)
    ensures k !in Keys(h) ==> Put(h, k, v) == h + [(k, v)]
    ensures forall k' :: k' in Keys(Put(h, k, v)) <==> k' in Keys(h) || k' == k
  {
    if k in Keys(h) {
      PutPresentKeys(h, k, v);
    } else {
      PutAbsentAppends(h, k, v);
      KeysConcat(h, [(k, v)]);
    }
  }

  lemma PutKeepsDistinct<V>(h: seq<(string, V)>, k: string, v: V)
    requires DistinctKeys(h)
    ensures DistinctKeys(Put(h, k, v))
  {
    PutKeys(h, k, v);
    var r := Put(h, k, v);
    if k in Keys(h) {
      forall i, j | 0 <= i < j < |r| ensures r[i].0 != r[j].0 {
        assert Keys(r)[i] == Keys(h)[i] && Keys(r)[j] == Keys(h)[j];
      }
    } else {
      forall i | 0 <= i < |h| ensures h[i].0 != k {
        assert Keys(h)[i] == h[i].0;
      }
    }
  }

  lemma {:induction false} RemoveKeepsDistinct<V>(h: seq<(string, V)>, k: string)
    requires DistinctKeys(h)
    ensures DistinctKeys(Remove(h, k))
  {
    if |h| > 0 {
      RemoveKeepsDistinct(h[1..], k);
      RemoveGet(h[1..], k);
      if h[0].0 != k {
        var r := Remove(h, k);
        assert r == [h[0]] + Remove(h[1..], k);
        forall j | 0 < j < |r| ensures r[j].0 != h[0].0 {
          assert r[j].0 in Keys(Remove(h[1..], k)) by { assert Keys(Remove(h[1..], k))[j - 1] == r[j].0; }
          assert h[0].0 !in Keys(h[1..]);
        }
      }
    }
  }

  /** Storing the same value twice is storing it once. */
  lemma {:induction false} PutIdempotent<V>(h: seq<(string, V)>, k: string, v: V)
    ensures Put(Put(h, k, v), k, v) == Put(h, k, v)
  {
    if |h| > 0 && h[0].0 != k {
      PutIdempotent(h[1..], k, v);
    }
  }
}
