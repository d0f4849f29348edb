/**
 * A java.util.LinkedHashSet seen through its iteration order: a sequence
 * without duplicates, where `add` appends an element only when it is new.
 */
module LinkedHashSet {
  import opened SeqFacts

  /** No element occurs twice. */
  predicate NoDuplicates<T(==)>(s: seq<T>) {
    forall i, j :: 0 <= i < j < |s| ==> s[i] != s[j]
  }

  /** `set.add(x)`: appended at the end unless already present. */
  function Add<T(==)>(acc: seq<T>, x: T): (r: seq<T>)
    ensures x in r
    ensures NoDuplicates(acc) ==> NoDuplicates(r)
    ensures |acc| <= |r| && r[..|acc|] == acc
  {
    if x in acc then acc else acc + [x]
  }

  /** `set.addAll(xs)`: the elements of xs in order, each one added as by `Add`. */
  function AddAll<T(==)>(acc: seq<T>, xs: seq<T>): (r: seq<T>)
    ensures |acc| <= |r| <= |acc| + |xs|
    decreases |xs|
  {
    if xs == [] then acc else AddAll(Add(acc, xs[0]), xs[1..])
  }

  /** The iteration order of a fresh LinkedHashSet filled from s. */
  function Dedup<T(==)>(s: seq<T>): seq<T> {
    AddAll([], s)
  }

  /** addAll keeps exactly the elements of both sides. */
  lemma {:induction false} AddAllElements<T>(acc: seq<T>, xs: seq<T>)
    ensures forall y :: y in AddAll(acc, xs) <==> y in acc || y in xs
    decreases |xs|
  {
    if xs != [] {
      AddAllElements(Add(acc, xs[0]), xs[1..]);
      assert xs == [xs[0]] + xs[1..];
    }
  }

  /** addAll never introduces a duplicate. */
  lemma {:induction false} AddAllNoDuplicates<T>(acc: seq<T>, xs: seq<T>)
    requires NoDuplicates(acc)
    ensures NoDuplicates(AddAll(acc, xs))
    decreases |xs|
  {
    if xs != [] {
      AddAllNoDuplicates(Add(acc, xs[0]), xs[1..]);
    }
  }

  /** Elements already in the set keep their positions: first discovery wins. */
  lemma {:induction false} AddAllKeepsPrefix<T>(acc: seq<T>, xs: seq<T>)
    ensures |acc| <= |AddAll(acc, xs)| && AddAll(acc, xs)[..|acc|] == acc
    decreases |xs|
  {
    if xs != [] {
      var a := Add(acc, xs[0]);
      AddAllKeepsPrefix(a, xs[1..]);
      assert AddAll(acc, xs)[..|acc|] == AddAll(a, xs[1..])[..|a|][..|acc|];
    }
  }

  /** Two addAll calls in a row are one addAll of the concatenation. */
  lemma {:induction false} AddAllConcat<T>(acc: seq<T>, a: seq<T>, b: seq<T>)
    ensures AddAll(AddAll(acc, a), b) == AddAll(acc, a + b)
    decreases |a|
  {
    if a != [] {
      assert (a + b)[0] == a[0] && (a + b)[1..] == a[1..] + b;
      AddAllConcat(Add(acc, a[0]), a[1..], b);
    } else {
      assert a + b == b;
    }
  }

  /** Adding an element that is already present changes nothing. */
  lemma SkipPresent<T>(z: seq<T>, s: seq<T>)
    requires s != [] && s[0] in z
    ensures AddAll(z, s) == AddAll(z, s[1..])
  {
  }

  /** Adding the elements of an already deduplicated collection is the same as adding the raw ones. */
  lemma {:induction false} AddAllAbsorbs<T>(acc: seq<T>, d: seq<T>, s: seq<T>)
    ensures AddAll(acc, AddAll(d, s)) == AddAll(acc, d + s)
    decreases |s|
  {
    if s == [] {
      assert d + s == d;
    } else if s[0] in d {
      AbsorbsPresent(acc, d, s);
    } else {
      AddAllAbsorbs(acc, d + [s[0]], s[1..]);
      MoveHead(d, s);
    }
  }

  lemma {:induction false} AbsorbsPresent<T>(acc: seq<T>, d: seq<T>, s: seq<T>)
    requires s != [] && s[0] in d
    ensures AddAll(acc, AddAll(d, s)) == AddAll(acc, d + s)
    decreases |s|, 0
  {
    var z := AddAll(acc, d);
    SkipPresent(d, s);
    assert AddAll(d, s) == AddAll(d, s[1..]);
    AddAllAbsorbs(acc, d, s[1..]);
    assert AddAll(acc, AddAll(d, s)) == AddAll(acc, d + s[1..]);
    AddAllConcat(acc, d, s[1..]);
    assert AddAll(acc, AddAll(d, s)) == AddAll(z, s[1..]);
    AddAllElements(acc, d);
    assert s[0] in z;
    SkipPresent(z, s);
    AddAllConcat(acc, d, s);
  }

  /** Merging a deduplicated partial result equals merging the raw sequence it came from. */
  lemma AddAllDedup<T>(acc: seq<T>, s: seq<T>)
    ensures AddAll(acc, Dedup(s)) == AddAll(acc, s)
  {
    AddAllAbsorbs(acc, [], s);
    assert [] + s == s;
  }

  /** A deduplicated sequence has the same elements and no duplicates. */
  lemma DedupSpec<T>(s: seq<T>)
    ensures NoDuplicates(Dedup(s))
    ensures forall y :: y in Dedup(s) <==> y in s
  {
    AddAllNoDuplicates([], s);
    AddAllElements([], s);
  }
}
