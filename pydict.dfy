/**
 * The dictionaries the trace decoder builds: entries in insertion order,
 * one per key, whose values are numbers, text or further dictionaries.
 * Assigning to a key that is already there replaces its value in place;
 * `update` assigns the entries of another dictionary one after another.
 */
module PyDict {
  import opened Wire

  datatype Value = Int(n: nat) | Str(s: string) | Nested(d: seq<Entry>)
  datatype Entry = Entry(key: string, value: Value)
  type Dict = seq<Entry>

  /** `k in d`. */
  predicate Has(d: Dict, k: string)
  {
    exists i :: 0 <= i < |d| && d[i].key == k
  }

  /** No key occurs twice: the invariant of every Python dictionary. */
  predicate UniqueKeys(d: Dict)
  {
    forall i, j :: 0 <= i < j < |d| ==> d[i].key != d[j].key
  }

  /** `d.get(k)`. */
  function Get(d: Dict, k: string): (r: Option<Value>)
    ensures r.Some? <==> Has(d, k)
    ensures forall i :: 0 <= i < |d| && d[i].key == k && UniqueKeys(d) ==> r == Some(d[i].value)
  {
    if |d| == 0 then None
    else if d[0].key == k then Some(d[0].value)
    else
      assert forall i :: 1 <= i < |d| && d[i].key == k ==> d[1..][i - 1].key == k;
      Get(d[1..], k)
  }

  /** `d[k] = v`. */
  function Put(d: Dict, k: string, v: Value): (r: Dict)
  {
    if |d| == 0 then [Entry(k, v)]
    else if d[0].key == k then [Entry(k, v)] + d[1..]
    else [d[0]] + Put(d[1..], k, v)
  }

  /** After `d[k] = v`, `k` maps to `v` and every other key keeps its value. */
  lemma {:induction false} PutGet(d: Dict, k: string, v: Value, k': string)
    ensures Get(Put(d, k, v), k') == if k' == k then Some(v) else Get(d, k')
  {
    if |d| > 0 && d[0].key != k {
      PutGet(d[1..], k, v, k');
    }
  }

  /**
   * An existing key keeps its position and the entries keep their order;
   * a new key goes to the end; no key is duplicated.
   */
  lemma {:induction false} PutKeys(d: Dict, k: string, v: Value)
    ensures Has(d, k) ==> |Put(d, k, v)| == |d|
    ensures !Has(d, k) ==> Put(d, k, v) == d + [Entry(k, v)]
    ensures forall i :: 0 <= i < |d| ==> Put(d, k, v)[i].key == d[i].key
    ensures UniqueKeys(d) ==> UniqueKeys(Put(d, k, v))
  {
    if |d| > 0 && d[0].key != k {
      PutKeys(d[1..], k, v);
      assert Has(d, k) ==> Has(d[1..], k) by {
        if Has(d, k) {
          var i :| 0 <= i < |d| && d[i].key == k;
          assert d[1..][i - 1].key == k;
        }
      }
      var r := Put(d, k, v);
      if UniqueKeys(d) {
        assert UniqueKeys(d[1..]) by {
          forall i, j | 0 <= i < j < |d| - 1
            ensures d[1..][i].key != d[1..][j].key
          {
            assert d[1..][i] == d[i + 1] && d[1..][j] == d[j + 1];
          }
        }
        forall i | 1 <= i < |r|
          ensures r[i].key != d[0].key
        {
          assert r[i] == Put(d[1..], k, v)[i - 1];
          if i - 1 < |d| - 1 {
            assert d[1..][i - 1] == d[i];
          }
        }
      }
    } else if |d| > 0 {
      assert Has(d, k);
    }
  }

  /** `d.update(e)`. */
  function Merge(d: Dict, e: Dict): Dict
    decreases |e|
  {
    if |e| == 0 then d else Merge(Put(d, e[0].key, e[0].value), e[1..])
  }

  /** After `d.update(e)`, the keys of `e` take their values from `e`; the others keep theirs. */
  lemma {:induction false} MergeGet(d: Dict, e: Dict, k: string)
    requires UniqueKeys(e)
    ensures Get(Merge(d, e), k) == if Has(e, k) then Get(e, k) else Get(d, k)
    decreases |e|
  {
    if |e| > 0 {
      var d' := Put(d, e[0].key, e[0].value);
      assert UniqueKeys(e[1..]) by {
        forall i, j | 0 <= i < j < |e| - 1
          ensures e[1..][i].key != e[1..][j].key
        {
          assert e[1..][i] == e[i + 1] && e[1..][j] == e[j + 1];
        }
      }
      MergeGet(d', e[1..], k);
      PutGet(d, e[0].key, e[0].value, k);
      assert Has(e, k) <==> k == e[0].key || Has(e[1..], k) by {
        if Has(e, k) && k != e[0].key {
          var i :| 0 <= i < |e| && e[i].key == k;
          assert e[1..][i - 1].key == k;
        }
        if Has(e[1..], k) {
          var i :| 0 <= i < |e| - 1 && e[1..][i].key == k;
          assert e[i + 1].key == k;
        }
      }
      if Has(e[1..], k) {
        var i :| 0 <= i < |e| - 1 && e[1..][i].key == k;
        assert e[i + 1].key == k;
        assert Get(e, k) == Some(e[i + 1].value);
      }
    }
  }

  /** `update` keeps the keys unique. */
  lemma {:induction false} MergeUnique(d: Dict, e: Dict)
    requires UniqueKeys(d)
    ensures UniqueKeys(Merge(d, e))
    decreases |e|
  {
    if |e| > 0 {
      PutKeys(d, e[0].key, e[0].value);
      MergeUnique(Put(d, e[0].key, e[0].value), e[1..]);
    }
  }

  /** Updating an empty dictionary copies the other one. */
  lemma {:induction false} MergeIntoEmpty(e: Dict)
    requires UniqueKeys(e)
    ensures Merge([], e) == e
  {
    MergeAppends([], e);
  }

  /** Updating with keys that are all new appends the entries in order. */
  lemma {:induction false} MergeAppends(d: Dict, e: Dict)
    requires UniqueKeys(e)
    requires forall i :: 0 <= i < |e| ==> !Has(d, e[i].key)
    ensures Merge(d, e) == d + e
    decreases |e|
  {
    if |e| > 0 {
      PutKeys(d, e[0].key, e[0].value);
      var d' := d + [e[0]];
      assert UniqueKeys(e[1..]) by {
        forall i, j | 0 <= i < j < |e| - 1
          ensures e[1..][i].key != e[1..][j].key
        {
          assert e[1..][i] == e[i + 1] && e[1..][j] == e[j + 1];
        }
      }
      forall i | 0 <= i < |e| - 1
        ensures !Has(d', e[1..][i].key)
      {
        assert e[1..][i] == e[i + 1];
        assert !Has(d, e[i + 1].key);
      }
      MergeAppends(d', e[1..]);
      assert d' + e[1..] == d + e;
    }
  }

  /** `set(d.keys())`. */
  function Keys(d: Dict): set<string>
  {
    set i | 0 <= i < |d| :: d[i].key
  }

  /** `k in d` is `k in d.keys()`. */
  lemma HasKeys(d: Dict, k: string)
    ensures Has(d, k) <==> k in Keys(d)
  {
    if k in Keys(d) {
      var i :| 0 <= i < |d| && d[i].key == k;
    }
  }

  lemma KeysConcat(a: Dict, b: Dict)
    ensures Keys(a + b) == Keys(a) + Keys(b)
  {
    var c := a + b;
    forall k | k in Keys(c)
      ensures k in Keys(a) + Keys(b)
    {
      var i :| 0 <= i < |c| && c[i].key == k;
      if i < |a| {
        assert c[i] == a[i];
      } else {
        assert c[i] == b[i - |a|];
      }
    }
    forall k | k in Keys(a) + Keys(b)
      ensures k in Keys(c)
    {
      if k in Keys(a) {
        var i :| 0 <= i < |a| && a[i].key == k;
        assert c[i] == a[i];
      } else {
        var i :| 0 <= i < |b| && b[i].key == k;
        assert c[|a| + i] == b[i];
      }
    }
  }

  lemma KeysOne(e: Entry)
    ensures Keys([e]) == {e.key}
  {
    assert [e][0] == e;
  }

  /** After `d[k] = v` the keys are the old ones and `k`. */
  lemma {:induction false} PutKeySet(d: Dict, k: string, v: Value)
    ensures Keys(Put(d, k, v)) == Keys(d) + {k}
  {
    if |d| == 0 {
      KeysOne(Entry(k, v));
    } else {
      assert d == [d[0]] + d[1..];
      KeysConcat([d[0]], d[1..]);
      KeysOne(d[0]);
      if d[0].key == k {
        KeysConcat([Entry(k, v)], d[1..]);
        KeysOne(Entry(k, v));
      } else {
        PutKeySet(d[1..], k, v);
        KeysConcat([d[0]], Put(d[1..], k, v));
      }
    }
  }

  /** After `d.update(e)` the keys are those of `d` and those of `e`. */
  lemma {:induction false} MergeKeySet(d: Dict, e: Dict)
    ensures Keys(Merge(d, e)) == Keys(d) + Keys(e)
    decreases |e|
  {
    if |e| > 0 {
      PutKeySet(d, e[0].key, e[0].value);
      MergeKeySet(Put(d, e[0].key, e[0].value), e[1..]);
      assert e == [e[0]] + e[1..];
      KeysConcat([e[0]], e[1..]);
      KeysOne(e[0]);
    }
  }
}
