/** A Python dict as the list of its entries in insertion order. */
module Dicts {
  import opened Lists
  import opened Text

  datatype Entry<K, V> = Entry(key: K, value: V)

  /** d[k] = v: in place for a known key, at the end for a new one. */
  function Put<K(==), V>(d: seq<Entry<K, V>>, k: K, v: V): seq<Entry<K, V>> {
    if d == [] then [Entry(k, v)]
    else if d[0].key == k then [Entry(k, v)] + d[1..]
    else [d[0]] + Put(d[1..], k, v)
  }

  /** The dict that assigning the items in order builds. */
  function FromItems<K(==), V>(items: seq<Entry<K, V>>): seq<Entry<K, V>> {
    if items == [] then []
    else Put(FromItems(items[..|items| - 1]), items[|items| - 1].key, items[|items| - 1].value)
  }

  function Keys<K, V>(d: seq<Entry<K, V>>): (ks: seq<K>)
    ensures |ks| == |d| && forall i :: 0 <= i < |d| ==> ks[i] == d[i].key
  {
    seq(|d|, i requires 0 <= i < |d| => d[i].key)
  }

  function Get<K(==), V>(d: seq<Entry<K, V>>, k: K): Option<V> {
    if d == [] then None else if d[0].key == k then Some(d[0].value) else Get(d[1..], k)
  }

  /** The value of the last item with key `k`. */
  function LastValue<K(==), V>(items: seq<Entry<K, V>>, k: K): Option<V> {
    if items == [] then None
    else if items[|items| - 1].key == k then Some(items[|items| - 1].value)
    else LastValue(items[..|items| - 1], k)
  }

  lemma {:induction false} PutTwice<K, V>(d: seq<Entry<K, V>>, k: K, a: V, b: V)
    ensures Put(Put(d, k, a), k, b) == Put(d, k, b)
    decreases |d|
  {
    if d != [] {
      if d[0].key != k {
        assert Put(d, k, a)[1..] == Put(d[1..], k, a);
        PutTwice(d[1..], k, a, b);
      } else {
        assert Put(d, k, a)[1..] == d[1..];
      }
    }
  }

  lemma KeysCons<K, V>(e: Entry<K, V>, d: seq<Entry<K, V>>)
    ensures Keys([e] + d) == [e.key] + Keys(d)
  {
  }

  lemma FirstAndRest<T>(s: seq<T>)
    requires s != []
    ensures [s[0]] + s[1..] == s
  {
  }

  lemma {:induction false} PutKnown<K, V>(d: seq<Entry<K, V>>, k: K, v: V)
    requires k in Keys(d)
    ensures Keys(Put(d, k, v)) == Keys(d)
    decreases |d|
  {
    FirstAndRest(d);
    KeysCons(d[0], d[1..]);
    if d[0].key == k {
      KeysCons(Entry(k, v), d[1..]);
    } else {
      PutKnown(d[1..], k, v);
      KeysCons(d[0], Put(d[1..], k, v));
    }
  }

  lemma {:induction false} PutNew<K, V>(d: seq<Entry<K, V>>, k: K, v: V)
    requires k !in Keys(d)
    ensures Put(d, k, v) == d + [Entry(k, v)]
    decreases |d|
  {
    if d != [] {
      FirstAndRest(d);
      KeysCons(d[0], d[1..]);
      assert d[0].key in Keys(d);
      PutNew(d[1..], k, v);
      assert d + [Entry(k, v)] == [d[0]] + (d[1..] + [Entry(k, v)]);
    }
  }

  lemma {:induction false} GetPut<K, V>(d: seq<Entry<K, V>>, k: K, v: V, j: K)
    ensures Get(Put(d, k, v), j) == if j == k then Some(v) else Get(d, j)
    decreases |d|
  {
    if d != [] && d[0].key != k {
      assert Put(d, k, v)[1..] == Put(d[1..], k, v);
      GetPut(d[1..], k, v, j);
    }
  }

  lemma FromItemsSnoc<K, V>(items: seq<Entry<K, V>>, e: Entry<K, V>)
    ensures FromItems(items + [e]) == Put(FromItems(items), e.key, e.value)
  {
    assert (items + [e])[..|items|] == items;
  }

  /** The last assignment to a key wins. */
  lemma {:induction false} LastItemWins<K, V>(items: seq<Entry<K, V>>, k: K)
    ensures Get(FromItems(items), k) == LastValue(items, k)
    decreases |items|
  {
    if items != [] {
      var n := |items| - 1;
      LastItemWins(items[..n], k);
      GetPut(FromItems(items[..n]), items[n].key, items[n].value, k);
    }
  }

  lemma KeysOfPut<K, V>(d: seq<Entry<K, V>>, k: K, v: V, j: K)
    ensures j in Keys(Put(d, k, v)) <==> j in Keys(d) || j == k
  {
    if k in Keys(d) {
      PutKnown(d, k, v);
    } else {
      PutNew(d, k, v);
      KeysSnoc(Put(d, k, v), |d|);
    }
  }

  lemma {:induction false} FromItemsHas<K, V>(items: seq<Entry<K, V>>, k: K)
    ensures k in Keys(FromItems(items)) <==> k in Keys(items)
    decreases |items|
  {
    if items != [] {
      var n := |items| - 1;
      FromItemsHas(items[..n], k);
      KeysOfPut(FromItems(items[..n]), items[n].key, items[n].value, k);
      KeysSnoc(items, n);
    }
  }

  lemma KeysSnoc<K, V>(items: seq<Entry<K, V>>, n: nat)
    requires n < |items|
    ensures items[..n + 1] == items[..n] + [items[n]] && Keys(items[..n + 1]) == Keys(items[..n]) + [items[n].key]
    ensures n + 1 == |items| ==> items[..n + 1] == items
  {
  }

  /** Items with distinct keys are the dict; otherwise some assignment overwrites another. */
  lemma {:induction false} SizeIffDistinct<K, V>(items: seq<Entry<K, V>>)
    ensures NoRepeats(Keys(items)) ==> FromItems(items) == items
    ensures !NoRepeats(Keys(items)) ==> |FromItems(items)| < |items|
    decreases |items|
  {
    if items != [] {
      var n := |items| - 1;
      var prior, e := items[..n], items[n];
      SizeIffDistinct(prior);
      FromItemsHas(prior, e.key);
      KeysSnoc(items, n);
      DistinctSnoc(Keys(prior), e.key);
      PutSize(FromItems(prior), e.key, e.value);
    }
  }

  lemma PutSize<K, V>(d: seq<Entry<K, V>>, k: K, v: V)
    ensures |Put(d, k, v)| == |d| + if k in Keys(d) then 0 else 1
    ensures k !in Keys(d) ==> Put(d, k, v) == d + [Entry(k, v)]
  {
    if k in Keys(d) {
      PutKnown(d, k, v);
      assert |Keys(Put(d, k, v))| == |Put(d, k, v)|;
    } else {
      PutNew(d, k, v);
    }
  }

  lemma DistinctSnoc<K>(ks: seq<K>, k: K)
    ensures NoRepeats(ks + [k]) <==> NoRepeats(ks) && k !in ks
  {
    var more := ks + [k];
    assert forall i :: 0 <= i < |ks| ==> more[i] == ks[i];
    assert more[|ks|] == k;
    if NoRepeats(more) {
      assert forall i, j :: 0 <= i < j < |ks| ==> more[i] != more[j];
      assert forall i :: 0 <= i < |ks| ==> more[i] != more[|ks|];
    }
  }

  /** An entry of the dict is one of the items. */
  lemma {:induction false} FromItemsEntry<K, V>(items: seq<Entry<K, V>>, e: Entry<K, V>)
    requires e in FromItems(items)
    ensures e in items
    decreases |items|
  {
    var n := |items| - 1;
    PutEntry(FromItems(items[..n]), items[n].key, items[n].value, e);
    if e in FromItems(items[..n]) { FromItemsEntry(items[..n], e); }
  }

  lemma {:induction false} PutEntry<K, V>(d: seq<Entry<K, V>>, k: K, v: V, e: Entry<K, V>)
    requires e in Put(d, k, v)
    ensures e == Entry(k, v) || e in d
    decreases |d|
  {
    if d != [] && d[0].key != k && e in Put(d[1..], k, v) { PutEntry(d[1..], k, v, e); }
  }
}
