/**
 * A java.util.TreeMap<Integer, V> as the sequence of its entries in ascending
 * key order. Only the operations the span index uses are modelled: put,
 * floorEntry, lowerEntry and subMap(from, to).values().
 */
module TreeMap {
  import opened Wrappers
  import opened SeqFacts

  datatype Entry<V> = Entry(key: int, value: V)

  /** subMap(from, to) throws IllegalArgumentException when from > to. */
  datatype MapError = FromKeyGreaterThanToKey

  /** Keys strictly ascending: the iteration order of a TreeMap. */
  predicate Sorted<V>(es: seq<Entry<V>>) {
    forall i, j :: 0 <= i < j < |es| ==> es[i].key < es[j].key
  }

  /** The map a sorted entry sequence stands for. */
  function AsMap<V>(es: seq<Entry<V>>): map<int, V> {
    if es == [] then map[] else AsMap(es[1..])[es[0].key := es[0].value]
  }

  /** `put(k, v)`: replaces the value at k, or inserts k at its place in key order. */
  function Put<V>(es: seq<Entry<V>>, k: int, v: V): (r: seq<Entry<V>>)
    ensures |es| <= |r| <= |es| + 1
  {
    if es == [] || k < es[0].key then
      [Entry(k, v)] + es
    else if k == es[0].key then
      [Entry(k, v)] + es[1..]
    else
      [es[0]] + Put(es[1..], k, v)
  }

  /** After a put every entry is the new one or one that was there before. */
  lemma {:induction false} PutElements<V>(es: seq<Entry<V>>, k: int, v: V)
    ensures Entry(k, v) in Put(es, k, v)
    ensures forall i :: 0 <= i < |Put(es, k, v)| ==> Put(es, k, v)[i] == Entry(k, v) || Put(es, k, v)[i] in es
  {
    if es != [] && k > es[0].key {
      PutElements(es[1..], k, v);
    }
  }

  /** put keeps the keys in ascending order. */
  lemma {:induction false} PutSorted<V>(es: seq<Entry<V>>, k: int, v: V)
    requires Sorted(es)
    ensures Sorted(Put(es, k, v))
  {
    if es != [] && k > es[0].key {
      PutSorted(es[1..], k, v);
      PutElements(es[1..], k, v);
      var r := Put(es, k, v);
      TailIndex(es);
      forall i, j | 0 <= i < j < |r|
        ensures r[i].key < r[j].key
      {
        if i == 0 {
          assert r[j] == Put(es[1..], k, v)[j - 1];
          assert r[j] in es[1..] ==> es[0].key < r[j].key;
        }
      }
    }
  }

  /** put updates the represented map at k and nowhere else. */
  lemma {:induction false} PutAsMap<V>(es: seq<Entry<V>>, k: int, v: V)
    requires Sorted(es)
    ensures AsMap(Put(es, k, v)) == AsMap(es)[k := v]
    decreases |es|
  {
    var r := Put(es, k, v);
    if es == [] || k < es[0].key {
      assert r[1..] == es;
    } else if k == es[0].key {
      assert r[1..] == es[1..];
      var m := AsMap(es[1..]);
      assert AsMap(r) == m[k := v];
      assert AsMap(es) == m[k := es[0].value];
      assert m[k := es[0].value][k := v] == m[k := v];
    } else {
      PutAsMap(es[1..], k, v);
      var p := Put(es[1..], k, v);
      assert r[1..] == p;
      calc {
        AsMap(r);
        AsMap(p)[es[0].key := es[0].value];
        AsMap(es[1..])[k := v][es[0].key := es[0].value];
        { UpdatesCommute(AsMap(es[1..]), k, v, es[0].key, es[0].value); }
        AsMap(es[1..])[es[0].key := es[0].value][k := v];
      }
    }
  }

  lemma UpdatesCommute<V>(m: map<int, V>, a: int, x: V, b: int, y: V)
    requires a != b
    ensures m[a := x][b := y] == m[b := y][a := x]
  {
  }

  /** `floorEntry(x)`: the entry with the greatest key <= x, or null. */
  function FloorEntry<V>(es: seq<Entry<V>>, x: int): (r: Option<Entry<V>>)
    requires Sorted(es)
    ensures r.Some? ==> r.value.key <= x
    ensures r.None? <==> es == [] || x < es[0].key
  {
    if es == [] || x < es[0].key then
      None
    else
      match FloorEntry(es[1..], x)
      case Some(e) => Some(e)
      case None => Some(es[0])
  }

  /** `lowerEntry(x)`: the entry with the greatest key < x, or null. */
  function LowerEntry<V>(es: seq<Entry<V>>, x: int): (r: Option<Entry<V>>)
    requires Sorted(es)
    ensures r.Some? ==> r.value.key < x
    ensures r.None? <==> es == [] || x <= es[0].key
  {
    if es == [] || x <= es[0].key then
      None
    else
      match LowerEntry(es[1..], x)
      case Some(e) => Some(e)
      case None => Some(es[0])
  }

  /** floorEntry(x) is null exactly when every key is above x; otherwise it is an entry of the map and no key <= x exceeds its key. */
  lemma {:induction false} FloorEntryIsFloor<V>(es: seq<Entry<V>>, x: int)
    requires Sorted(es)
    ensures FloorEntry(es, x).Some? ==> FloorEntry(es, x).value in es
    ensures FloorEntry(es, x).Some? ==> forall e :: e in es && e.key <= x ==> e.key <= FloorEntry(es, x).value.key
    ensures FloorEntry(es, x).None? <==> forall e :: e in es ==> x < e.key
    decreases |es|
  {
    if es != [] {
      TailIndex(es);
      InTail(es);
      if x >= es[0].key {
        FloorEntryIsFloor(es[1..], x);
      }
    }
  }

  /** lowerEntry(x) is null exactly when no key is below x; otherwise it is an entry of the map and no key < x exceeds its key. */
  lemma {:induction false} LowerEntryIsLower<V>(es: seq<Entry<V>>, x: int)
    requires Sorted(es)
    ensures LowerEntry(es, x).Some? ==> LowerEntry(es, x).value in es
    ensures LowerEntry(es, x).Some? ==> forall e :: e in es && e.key < x ==> e.key <= LowerEntry(es, x).value.key
    ensures LowerEntry(es, x).None? <==> forall e :: e in es ==> x <= e.key
    decreases |es|
  {
    if es != [] {
      TailIndex(es);
      InTail(es);
      if x > es[0].key {
        LowerEntryIsLower(es[1..], x);
      }
    }
  }

  /** Every entry of a sorted map other than the first lies in its tail, above the first key. */
  lemma InTail<V>(es: seq<Entry<V>>)
    requires Sorted(es) && es != []
    ensures forall e :: e in es ==> e == es[0] || (e in es[1..] && es[0].key < e.key)
    ensures forall e :: e in es[1..] ==> e in es
  {
    forall e | e in es
      ensures e == es[0] || (e in es[1..] && es[0].key < e.key)
    {
      var i :| 0 <= i < |es| && es[i] == e;
      if i > 0 {
        assert es[1..][i - 1] == e;
      }
    }
  }

  /** The values of the entries whose key lies in [lo, hi), in key order. */
  function ValuesBetween<V>(es: seq<Entry<V>>, lo: int, hi: int): (r: seq<V>)
  {
    if es == [] then []
    else (if lo <= es[0].key < hi then [es[0].value] else []) + ValuesBetween(es[1..], lo, hi)
  }

  /** `subMap(lo, hi).values()`: half-open key range, IllegalArgumentException when lo > hi. */
  function SubMapValues<V>(es: seq<Entry<V>>, lo: int, hi: int): (r: Result<seq<V>, MapError>)
    ensures r.Ok? <==> lo <= hi
    ensures r.Ok? ==> r.value == ValuesBetween(es, lo, hi)
  {
    if lo > hi then Err(FromKeyGreaterThanToKey) else Ok(ValuesBetween(es, lo, hi))
  }

  /** Each of vs is the value of an entry of es whose key lies in [lo, hi). */
  ghost predicate ValuesIn<V>(vs: seq<V>, es: seq<Entry<V>>, lo: int, hi: int) {
    forall x :: 0 <= x < |vs| ==> exists i :: 0 <= i < |es| && vs[x] == es[i].value && lo <= es[i].key < hi
  }

  /** Every value of subMap(lo, hi) is the value of an entry whose key lies in [lo, hi). */
  lemma {:induction false} ValuesBetweenFrom<V>(es: seq<Entry<V>>, lo: int, hi: int)
    ensures ValuesIn(ValuesBetween(es, lo, hi), es, lo, hi)
  {
    if es != [] {
      ValuesBetweenFrom(es[1..], lo, hi);
      var head := if lo <= es[0].key < hi then [es[0].value] else [];
      var tail := ValuesBetween(es[1..], lo, hi);
      assert ValuesIn(tail, es[1..], lo, hi);
      assert ValuesBetween(es, lo, hi) == head + tail;
      forall x | 0 <= x < |head + tail|
        ensures exists i :: 0 <= i < |es| && (head + tail)[x] == es[i].value && lo <= es[i].key < hi
      {
        if x < |head| {
          assert (head + tail)[x] == es[0].value;
        } else {
          var y := x - |head|;
          assert 0 <= y < |tail| && tail[y] == (head + tail)[x];
          var i :| 0 <= i < |es[1..]| && tail[y] == es[1..][i].value && lo <= es[1..][i].key < hi;
          assert (head + tail)[x] == es[i + 1].value;
        }
      }
    }
  }

  /** The number of entries with a key below x: in a sorted map they come first. */
  function CountBelow<V>(es: seq<Entry<V>>, x: int): (n: nat)
    requires Sorted(es)
    ensures n <= |es|
    ensures forall i :: 0 <= i < n ==> es[i].key < x
    ensures forall i :: n <= i < |es| ==> x <= es[i].key
  {
    if es == [] || x <= es[0].key then 0 else 1 + CountBelow(es[1..], x)
  }

  /** subMap(lo, hi).values() is the slice from the first key >= lo to the first key >= hi. */
  lemma SubMapSlice<V>(es: seq<Entry<V>>, lo: int, hi: int)
    requires Sorted(es) && lo <= hi
    ensures CountBelow(es, lo) <= CountBelow(es, hi)
    ensures ValuesBetween(es, lo, hi) == Values(es[CountBelow(es, lo)..CountBelow(es, hi)])
  {
    var a, b := CountBelow(es, lo), CountBelow(es, hi);
    assert b < |es| ==> lo <= es[b].key;
    ValuesBetweenSlice(es, lo, hi, a, b);
  }

  /** The values of a slice of entries, in order. */
  function Values<V>(es: seq<Entry<V>>): (r: seq<V>)
    ensures |r| == |es| && forall i :: 0 <= i < |es| ==> r[i] == es[i].value
  {
    if es == [] then [] else [es[0].value] + Values(es[1..])
  }

  /** The entries whose keys lie in [lo, hi) of a sorted map are one contiguous slice. */
  lemma {:induction false} ValuesBetweenSlice<V>(es: seq<Entry<V>>, lo: int, hi: int, a: nat, b: nat)
    requires a <= b <= |es|
    requires forall i :: 0 <= i < a ==> es[i].key < lo
    requires forall i :: a <= i < b ==> lo <= es[i].key < hi
    requires forall i :: b <= i < |es| ==> hi <= es[i].key
    ensures ValuesBetween(es, lo, hi) == Values(es[a..b])
    decreases |es|
  {
    if es != [] {
      TailIndex(es);
      if a == 0 {
        if b == 0 {
          ValuesBetweenSlice(es[1..], lo, hi, 0, 0);
        } else {
          ValuesBetweenSlice(es[1..], lo, hi, 0, b - 1);
          SliceFromHead(es, b);
        }
      } else {
        ValuesBetweenSlice(es[1..], lo, hi, a - 1, b - 1);
        SliceOfTail(es, a, b);
      }
    }
  }

  /** Putting a key above every present key appends the entry. */
  lemma {:induction false} PutAbove<V>(es: seq<Entry<V>>, k: int, v: V)
    requires Sorted(es) && forall e :: e in es ==> e.key < k
    ensures Put(es, k, v) == es + [Entry(k, v)]
    decreases |es|
  {
    if es != [] {
      PutAbove(es[1..], k, v);
      assert es == [es[0]] + es[1..];
    }
  }

  /** Putting at the greatest present key replaces the last entry. */
  lemma {:induction false} PutAtLast<V>(es: seq<Entry<V>>, k: int, v: V)
    requires Sorted(es) && es != [] && es[|es| - 1].key == k
    ensures Put(es, k, v) == es[..|es| - 1] + [Entry(k, v)]
    decreases |es|
  {
    if |es| > 1 {
      PutAtLast(es[1..], k, v);
      DropLastOfCons(es);
    }
  }

  /** A second put at the same key overwrites the first one completely. */
  lemma {:induction false} PutPut<V>(es: seq<Entry<V>>, k: int, v: V, w: V)
    requires Sorted(es)
    ensures Put(Put(es, k, v), k, w) == Put(es, k, w)
    decreases |es|
  {
    if es != [] && k > es[0].key {
      PutPut(es[1..], k, v, w);
    }
  }
}
