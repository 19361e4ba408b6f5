/** Python dictionaries: a key-value map together with the insertion order
    of its keys, which is the order in which Python iterates over them. */
module PyDicts {

  datatype PyDict<K(==), V> = PyDict(keys: seq<K>, vals: map<K, V>)
  {
    /** Keys are listed once each, and exactly the mapped keys are listed. */
    ghost predicate Valid()
    {
      Distinct(keys) && (forall k :: k in vals ==> k in keys) && (forall k :: k in keys ==> k in vals)
    }

    /** `d[k] = v`: a new key goes last, an existing key keeps its place. */
    function Put(k: K, v: V): (d: PyDict<K, V>)
      ensures d.vals == vals[k := v]
      ensures k in vals ==> d.keys == keys
      ensures k !in vals ==> d.keys == keys + [k]
    {
      if k in vals then PyDict(keys, vals[k := v]) else PyDict(keys + [k], vals[k := v])
    }

    /** `del d[k]` (a missing key raises KeyError, which the callers here never do). */
    function Del(k: K): (d: PyDict<K, V>)
      requires k in vals
      ensures d.vals == vals - {k}
      ensures d.keys == Remove(keys, k)
    {
      PyDict(Remove(keys, k), vals - {k})
    }
  }

  function Empty<K(==), V>(): (d: PyDict<K, V>)
    ensures d.Valid() && |d.keys| == 0
  {
    PyDict([], map[])
  }

  predicate Distinct<T(==)>(s: seq<T>)
  {
    forall i, j :: 0 <= i < j < |s| ==> s[i] != s[j]
  }

  /** `s` without any occurrence of `k`, the rest in order. */
  function Remove<T(==)>(s: seq<T>, k: T): (r: seq<T>)
    ensures forall x :: x in r ==> x in s && x != k
    ensures forall x :: x in s && x != k ==> x in r
    ensures |r| <= |s|
  {
    if |s| == 0 then [] else (if s[0] == k then [] else [s[0]]) + Remove(s[1..], k)
  }

  /** Removing a key that occurs once in a repeat-free list shortens it by one and keeps it repeat-free. */
  lemma {:induction false} RemoveDistinct<T>(s: seq<T>, k: T)
    requires Distinct(s)
    ensures Distinct(Remove(s, k))
    ensures |Remove(s, k)| == if k in s then |s| - 1 else |s|
  {
    if |s| > 0 {
      var t := s[1..];
      assert Distinct(t) by {
        forall i, j | 0 <= i < j < |t| ensures t[i] != t[j] {
          assert t[i] == s[i + 1] && t[j] == s[j + 1];
        }
      }
      RemoveDistinct(t, k);
      assert s[0] !in t by {
        forall i | 0 <= i < |t| ensures t[i] != s[0] {
          assert t[i] == s[i + 1];
        }
      }
      assert k in s ==> k == s[0] || k in t by {
        if k in s {
          var i :| 0 <= i < |s| && s[i] == k;
          if i > 0 { assert t[i - 1] == k; }
        }
      }
      var r := Remove(s, k);
      if s[0] != k {
        assert r == [s[0]] + Remove(t, k);
        forall i, j | 0 <= i < j < |r| ensures r[i] != r[j] {
          if i == 0 {
            assert r[j] in Remove(t, k);
          } else {
            assert r[i] == Remove(t, k)[i - 1] && r[j] == Remove(t, k)[j - 1];
          }
        }
      }
    }
  }

  /** Both dictionary updates keep a dictionary well formed; a deletion shortens it by one. */
  lemma PutValid<K, V>(d: PyDict<K, V>, k: K, v: V)
    requires d.Valid()
    ensures d.Put(k, v).Valid()
    ensures |d.Put(k, v).keys| == if k in d.vals then |d.keys| else |d.keys| + 1
  {
    var e := d.Put(k, v);
    if k !in d.vals {
      forall i, j | 0 <= i < j < |e.keys| ensures e.keys[i] != e.keys[j] {
        if j == |d.keys| {
          assert e.keys[i] == d.keys[i];
        } else {
          assert e.keys[i] == d.keys[i] && e.keys[j] == d.keys[j];
        }
      }
    }
  }

  lemma DelValid<K, V>(d: PyDict<K, V>, k: K)
    requires d.Valid() && k in d.vals
    ensures d.Del(k).Valid()
    ensures |d.Del(k).keys| == |d.keys| - 1
  {
    RemoveDistinct(d.keys, k);
  }

  lemma {:induction false} RemoveAbsent<T>(s: seq<T>, k: T)
    requires k !in s
    ensures Remove(s, k) == s
  {
    if |s| > 0 {
      assert k !in s[1..];
      RemoveAbsent(s[1..], k);
      assert s == [s[0]] + s[1..];
    }
  }

  /** Deleting the first key of a repeat-free list drops just that key. */
  lemma RemoveHead<T>(s: seq<T>)
    requires Distinct(s) && |s| > 0
    ensures Remove(s, s[0]) == s[1..]
  {
    assert s[0] !in s[1..] by {
      forall t | 0 <= t < |s| - 1 ensures s[1..][t] != s[0] {
        assert s[1..][t] == s[t + 1];
      }
    }
    RemoveAbsent(s[1..], s[0]);
  }
}
