/**
 * The `TreeMap<String, String>` that maps original attachment filenames to
 * normalized ones, kept as its entry sequence in ascending key order: iterating
 * over `entrySet()` is walking this sequence from the front. `ToMap` is the
 * mapping such a sequence stands for.
 */
module SortedMap {

  import opened Wrappers
  import opened Text

  datatype Entry = Entry(key: string, value: string)

  /** Keys strictly ascending: sorted and free of duplicates. */
  predicate Sorted(es: seq<Entry>) {
    forall i, j :: 0 <= i < j < |es| ==> Lt(es[i].key, es[j].key)
  }

  function Keys(es: seq<Entry>): set<string> {
    set e | e in es :: e.key
  }

  /** The mapping an entry sequence stands for; the first entry for a key wins. */
  function ToMap(es: seq<Entry>): map<string, string> {
    if es == [] then map[] else ToMap(es[1..])[es[0].key := es[0].value]
  }

  /**
   * `put(k, v)`: a new key is inserted before the first greater key, an
   * existing key has its value replaced.
   */
  function Put(es: seq<Entry>, k: string, v: string): seq<Entry>
  {
    if es == [] then [Entry(k, v)]
    else if es[0].key == k then [Entry(k, v)] + es[1..]
    else if Lt(k, es[0].key) then [Entry(k, v)] + es
    else [es[0]] + Put(es[1..], k, v)
  }

  /** After `put(k, v)` the map's keys are its old keys and `k`. */
  lemma {:induction false} PutKeys(es: seq<Entry>, k: string, v: string)
    ensures Keys(Put(es, k, v)) == Keys(es) + {k}
  {
    if es == [] {
    } else if es[0].key == k {
      assert Keys(es) == {k} + Keys(es[1..]);
      assert Keys(Put(es, k, v)) == {k} + Keys(es[1..]);
    } else if Lt(k, es[0].key) {
      assert Keys(Put(es, k, v)) == {k} + Keys(es);
    } else {
      PutKeys(es[1..], k, v);
      assert Keys(es) == {es[0].key} + Keys(es[1..]);
      assert Keys(Put(es, k, v)) == {es[0].key} + Keys(Put(es[1..], k, v));
    }
  }

  /** `put(k, v)` maps `k` to `v` and leaves every other key as it was. */
  lemma {:induction false} PutToMap(es: seq<Entry>, k: string, v: string)
    ensures ToMap(Put(es, k, v)) == ToMap(es)[k := v]
  {
    if es != [] && es[0].key != k && !Lt(k, es[0].key) {
      PutToMap(es[1..], k, v);
    }
  }

  lemma {:induction false} ToMapKeys(es: seq<Entry>)
    ensures ToMap(es).Keys == Keys(es)
  {
    if es != [] {
      ToMapKeys(es[1..]);
      assert Keys(es) == {es[0].key} + Keys(es[1..]);
    }
  }

  /**
   * A mapping has exactly one sorted entry sequence: two strictly ascending
   * sequences standing for the same mapping are equal.
   */
  lemma {:induction false} SortedUnique(a: seq<Entry>, b: seq<Entry>)
    requires Sorted(a) && Sorted(b) && ToMap(a) == ToMap(b)
    ensures a == b
    decreases |a|
  {
    ToMapKeys(a);
    ToMapKeys(b);
    KeysEmpty(a);
    KeysEmpty(b);
    if a != [] && b != [] {
      SortedHeadsAgree(a, b);
      SortedDropHead(a);
      SortedDropHead(b);
      SortedUnique(a[1..], b[1..]);
      assert a == [a[0]] + a[1..] && b == [b[0]] + b[1..];
    }
  }

  lemma KeysEmpty(es: seq<Entry>)
    ensures Keys(es) == {} <==> es == []
  {
    if es != [] {
      assert es[0].key in Keys(es);
    }
  }

  /** The first entry of a sorted sequence holds its least key. */
  lemma SortedHeadsAgree(a: seq<Entry>, b: seq<Entry>)
    requires Sorted(a) && Sorted(b) && a != [] && b != [] && Keys(a) == Keys(b)
    ensures a[0].key == b[0].key
  {
    var x, y := a[0].key, b[0].key;
    if x != y {
      assert x in Keys(b);
      var i :| 0 <= i < |b| && b[i].key == x;
      assert y in Keys(a);
      var m :| 0 <= m < |a| && a[m].key == y;
      assert Lt(y, x) && Lt(x, y);
      LtAsymmetric(y, x);
    }
  }

  /** Dropping the first entry of a sorted sequence drops its key from the mapping. */
  lemma SortedDropHead(a: seq<Entry>)
    requires Sorted(a) && a != []
    ensures Sorted(a[1..])
    ensures ToMap(a[1..]) == ToMap(a) - {a[0].key}
    ensures ToMap(a)[a[0].key] == a[0].value
  {
    var k := a[0].key;
    var tail := ToMap(a[1..]);
    SortedHeadNotInTail(a);
    ToMapKeys(a[1..]);
    assert k !in tail;
    assert ToMap(a) == tail[k := a[0].value];
    assert tail[k := a[0].value] - {k} == tail;
    forall i, j | 0 <= i < j < |a[1..]| ensures Lt(a[1..][i].key, a[1..][j].key) {
      assert a[1..][i] == a[i + 1] && a[1..][j] == a[j + 1];
    }
  }

  /** Every mapping is stood for by some sorted entry sequence. */
  lemma SortedEntriesExist(m: map<string, string>)
    ensures exists es :: Sorted(es) && ToMap(es) == m
    decreases |m|
  {
    if m == map[] {
      assert Sorted([]) && ToMap([]) == m;
    } else {
      var k :| k in m;
      var rest := m - {k};
      assert |rest| < |m|;
      SortedEntriesExist(rest);
      var es :| Sorted(es) && ToMap(es) == rest;
      PutSorted(es, k, m[k]);
      PutToMap(es, k, m[k]);
      assert rest[k := m[k]] == m;
      assert Sorted(Put(es, k, m[k])) && ToMap(Put(es, k, m[k])) == m;
    }
  }

  /** The entries of a mapping in ascending key order: what iterating a TreeMap visits. */
  ghost function SortedEntries(m: map<string, string>): (es: seq<Entry>)
    ensures Sorted(es) && ToMap(es) == m
  {
    SortedEntriesExist(m);
    var es :| Sorted(es) && ToMap(es) == m; es
  }

  /** Inserting keeps the keys strictly ascending, and adds an entry only for a new key. */
  lemma {:induction false} PutSorted(es: seq<Entry>, k: string, v: string)
    requires Sorted(es)
    ensures Sorted(Put(es, k, v))
    ensures |Put(es, k, v)| == if k in Keys(es) then |es| else |es| + 1
  {
    if es == [] {
    } else if es[0].key == k {
      SortedHeadNotInTail(es);
      assert Keys(es) == {k} + Keys(es[1..]);
      var r := Put(es, k, v);
      assert forall j :: 0 <= j < |r| ==> r[j].key == es[j].key;
    } else if Lt(k, es[0].key) {
      SortedAbove(es, k);
      var r := Put(es, k, v);
      assert forall j :: 1 <= j < |r| ==> r[j] == es[j - 1];
    } else {
      LtTotal(k, es[0].key);
      PutSorted(es[1..], k, v);
      PutSortedCons(es, k, v);
    }
  }

  /** The step of `PutSorted` where the new key goes after the first entry. */
  lemma PutSortedCons(es: seq<Entry>, k: string, v: string)
    requires Sorted(es) && es != [] && Lt(es[0].key, k)
    requires Sorted(Put(es[1..], k, v))
    requires |Put(es[1..], k, v)| == if k in Keys(es[1..]) then |es| - 1 else |es|
    ensures Sorted(Put(es, k, v))
    ensures |Put(es, k, v)| == if k in Keys(es) then |es| else |es| + 1
  {
    assert Keys(es) == {es[0].key} + Keys(es[1..]);
    LtIrreflexive(k);
    LtAsymmetric(es[0].key, k);
    var tail := Put(es[1..], k, v);
    PutKeys(es[1..], k, v);
    assert Put(es, k, v) == [es[0]] + tail;
    SortedTailAbove(es);
    assert Keys(tail) == Keys(es[1..]) + {k};
    assert Above(es[0].key, tail);
    SortedCons(es[0], tail);
  }

  /** Every key of `es` is above `h`. */
  predicate Above(h: string, es: seq<Entry>) {
    forall x :: x in Keys(es) ==> Lt(h, x)
  }

  lemma SortedTailAbove(es: seq<Entry>)
    requires Sorted(es) && es != []
    ensures Above(es[0].key, es[1..])
  {
    forall x | x in Keys(es[1..]) ensures Lt(es[0].key, x) {
      var m :| 0 <= m < |es[1..]| && es[1..][m].key == x;
      assert es[m + 1].key == x;
    }
  }

  lemma SortedCons(e: Entry, tail: seq<Entry>)
    requires Sorted(tail) && Above(e.key, tail)
    ensures Sorted([e] + tail)
  {
    var r := [e] + tail;
    forall i, j | 0 <= i < j < |r| ensures Lt(r[i].key, r[j].key) {
      assert r[j] == tail[j - 1];
      if i > 0 {
        assert r[i] == tail[i - 1];
      } else {
        assert tail[j - 1].key in Keys(tail);
      }
    }
  }

  lemma SortedHeadNotInTail(es: seq<Entry>)
    requires Sorted(es) && es != []
    ensures es[0].key !in Keys(es[1..])
  {
    if es[0].key in Keys(es[1..]) {
      var m :| 0 <= m < |es[1..]| && es[1..][m].key == es[0].key;
      assert Lt(es[0].key, es[m + 1].key);
      LtIrreflexive(es[0].key);
    }
  }

  /** A key below the first key of a sorted sequence is below every key. */
  lemma SortedAbove(es: seq<Entry>, k: string)
    requires Sorted(es) && es != [] && Lt(k, es[0].key)
    ensures forall j :: 0 <= j < |es| ==> Lt(k, es[j].key)
    ensures k !in Keys(es)
  {
    forall j | 1 <= j < |es| ensures Lt(k, es[j].key) {
      LtTransitive(k, es[0].key, es[j].key);
    }
    if k in Keys(es) {
      var m :| 0 <= m < |es| && es[m].key == k;
      LtIrreflexive(k);
    }
  }

  /** A sorted entry sequence has one entry per key, so its length is the map's size. */
  lemma {:induction false} SortedSize(es: seq<Entry>)
    requires Sorted(es)
    ensures |Keys(es)| == |es|
  {
    if es != [] {
      SortedHeadNotInTail(es);
      assert Keys(es) == {es[0].key} + Keys(es[1..]);
      SortedSize(es[1..]);
    }
  }
}
