/** Identities of sequence concatenation, proved once where no other facts are in scope. */
module SeqFacts {
  lemma TailOfConcat<T>(a: seq<T>, b: seq<T>)
    requires a != []
    ensures (a + b)[0] == a[0] && (a + b)[1..] == a[1..] + b
  {
  }

  lemma ConcatAssoc<T>(x: seq<T>, y: seq<T>, z: seq<T>)
    ensures x + (y + z) == (x + y) + z
  {
  }

  lemma InConcat3<T>(a: seq<T>, b: seq<T>, c: seq<T>, x: T)
    ensures x in a + b + c <==> x in a || x in b || x in c
  {
  }

  lemma MoveHead<T>(d: seq<T>, s: seq<T>)
    requires s != []
    ensures d + s == (d + [s[0]]) + s[1..]
  {
  }

  lemma PrefixSnoc<T>(s: seq<T>, i: nat)
    requires i < |s|
    ensures s[..i + 1] == s[..i] + [s[i]]
  {
  }

  lemma PartsInConcat<T>(a: seq<T>, b: seq<T>)
    ensures forall i :: 0 <= i < |a| ==> a[i] in a + b
    ensures forall i :: 0 <= i < |b| ==> b[i] in a + b
  {
    assert forall i :: 0 <= i < |a| ==> (a + b)[i] == a[i];
    assert forall i :: 0 <= i < |b| ==> (a + b)[|a| + i] == b[i];
  }

  lemma ConcatIndex<T>(a: seq<T>, b: seq<T>)
    ensures forall i :: 0 <= i < |a + b| ==> (a + b)[i] == if i < |a| then a[i] else b[i - |a|]
  {
  }

  lemma TailIndex<T>(s: seq<T>)
    requires s != []
    ensures forall i :: 0 <= i < |s| - 1 ==> s[1..][i] == s[i + 1]
  {
  }

  lemma SliceFromHead<T>(s: seq<T>, b: nat)
    requires 0 < b <= |s|
    ensures s[0..b] == [s[0]] + s[1..][0..b - 1]
  {
  }

  lemma SliceOfTail<T>(s: seq<T>, a: nat, b: nat)
    requires 0 < a <= b <= |s|
    ensures s[a..b] == s[1..][a - 1..b - 1]
  {
    assert forall i :: 0 <= i < b - a ==> s[a..b][i] == s[1..][a - 1..b - 1][i];
  }

  lemma SliceTail<T>(s: seq<T>, a: nat, b: nat)
    requires a < b <= |s|
    ensures s[a..b][1..] == s[a + 1..b]
  {
  }

  lemma DropLastOfCons<T>(s: seq<T>)
    requires |s| > 1
    ensures s[..|s| - 1] == [s[0]] + s[1..][..|s| - 2]
  {
  }
}
