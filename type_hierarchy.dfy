/**
 * The part of the compiler's type bindings that override resolution reads:
 * for each type its qualified and binary names, whether it is an interface,
 * its superclass, its interfaces in declaration order and its directly
 * declared methods in declaration order. Types and methods are named by
 * their index (their binding identity).
 */
module TypeHierarchy {
  import opened Wrappers
  import opened LinkedHashSet
  import opened SeqFacts

  type TypeId = nat
  type MethodId = nat

  const ObjectName: string := "java.lang.Object"

  datatype TypeBinding = TypeBinding(
    qualifiedName: string,
    binaryName: string,
    isInterface: bool,
    superclass: Option<TypeId>,
    interfaces: seq<TypeId>,
    declaredMethods: seq<MethodId>)

  /**
   * All types of one analysis, the type that resolves as java.lang.Object,
   * and a rank per type that every supertype edge strictly decreases (the
   * hierarchy is acyclic).
   */
  datatype Hierarchy = Hierarchy(types: seq<TypeBinding>, objectType: TypeId, rank: seq<nat>)

  /** The supertype the override search visits first: Object for an interface, the superclass for a class other than Object. */
  function FirstParent(h: Hierarchy, t: TypeId): seq<TypeId>
    requires t < |h.types|
  {
    var ty := h.types[t];
    if ty.isInterface then [h.objectType]
    else if ty.qualifiedName != ObjectName then
      (match ty.superclass case Some(s) => [s] case None => [])
    else []
  }

  /** The supertypes the override search visits from t, in visiting order. */
  function Parents(h: Hierarchy, t: TypeId): seq<TypeId>
    requires t < |h.types|
  {
    FirstParent(h, t) + h.types[t].interfaces
  }

  /** Conditions on one type: a class other than Object has a superclass, and supertypes rank lower. */
  predicate TypeOk(h: Hierarchy, t: TypeId)
    requires t < |h.types| && |h.rank| == |h.types|
  {
    && (!h.types[t].isInterface && h.types[t].qualifiedName != ObjectName ==> h.types[t].superclass.Some?)
    && forall p :: p in Parents(h, t) ==> p < |h.types| && h.rank[p] < h.rank[t]
  }

  predicate WellFormed(h: Hierarchy) {
    && |h.rank| == |h.types|
    && h.objectType < |h.types|
    && h.types[h.objectType].qualifiedName == ObjectName
    && forall t :: 0 <= t < |h.types| ==> TypeOk(h, t)
  }

  predicate AllIn(h: Hierarchy, ts: seq<TypeId>) {
    forall i :: 0 <= i < |ts| ==> ts[i] < |h.types|
  }

  /** One more than the highest rank in ts (0 for none): the termination measure of the walk. */
  function RankBound(h: Hierarchy, ts: seq<TypeId>): (r: nat)
    requires WellFormed(h) && AllIn(h, ts)
    ensures forall i :: 0 <= i < |ts| ==> h.rank[ts[i]] < r
    ensures r == 0 || exists i :: 0 <= i < |ts| && r == h.rank[ts[i]] + 1
  {
    if ts == [] then 0
    else
      var rest := RankBound(h, ts[1..]);
      if h.rank[ts[0]] + 1 < rest then rest else h.rank[ts[0]] + 1
  }

  /** Parents of a type, the first one and the interfaces alike, are in range and their bound is at most its rank. */
  lemma ParentsBound(h: Hierarchy, t: TypeId)
    requires WellFormed(h) && t < |h.types|
    ensures AllIn(h, Parents(h, t)) && RankBound(h, Parents(h, t)) <= h.rank[t]
    ensures AllIn(h, FirstParent(h, t)) && RankBound(h, FirstParent(h, t)) <= h.rank[t]
    ensures AllIn(h, h.types[t].interfaces) && RankBound(h, h.types[t].interfaces) <= h.rank[t]
  {
    assert TypeOk(h, t);
    var ps := Parents(h, t);
    assert forall i :: 0 <= i < |ps| ==> ps[i] in ps;
    var first, ifaces := FirstParent(h, t), h.types[t].interfaces;
    PartsInConcat(first, ifaces);
    RankBoundWithin(h, first, ps);
    RankBoundWithin(h, ifaces, ps);
  }

  /** A list whose types all occur in another has no higher bound. */
  lemma RankBoundWithin(h: Hierarchy, xs: seq<TypeId>, ys: seq<TypeId>)
    requires WellFormed(h) && AllIn(h, ys) && forall i :: 0 <= i < |xs| ==> xs[i] in ys
    ensures AllIn(h, xs) && RankBound(h, xs) <= RankBound(h, ys)
  {
    assert AllIn(h, xs);
    if RankBound(h, xs) != 0 {
      var i :| 0 <= i < |xs| && RankBound(h, xs) == h.rank[xs[i]] + 1;
      var j :| 0 <= j < |ys| && ys[j] == xs[i];
    }
  }

  /**
   * `Stream.of(getDeclaredMethods()).filter(overrides).findFirst()`: the first
   * method in declaration order that satisfies the predicate.
   */
  function FirstMatch(ms: seq<MethodId>, overrides: MethodId -> bool): (r: Option<MethodId>)
    ensures r.None? <==> forall i :: 0 <= i < |ms| ==> !overrides(ms[i])
    ensures r.Some? ==> exists i :: 0 <= i < |ms| && ms[i] == r.value && overrides(ms[i])
                          && forall j :: 0 <= j < i ==> !overrides(ms[j])
  {
    if ms == [] then None
    else if overrides(ms[0]) then Some(ms[0])
    else
      var r := FirstMatch(ms[1..], overrides);
      assert r.Some? ==> exists i :: 1 <= i < |ms| && ms[i] == r.value && overrides(ms[i])
                           && forall j :: 0 <= j < i ==> !overrides(ms[j]) by {
        if r.Some? {
          var i :| 0 <= i < |ms| - 1 && ms[1..][i] == r.value && overrides(ms[1..][i])
                   && forall j :: 0 <= j < i ==> !overrides(ms[1..][j]);
          assert forall j :: 1 <= j < i + 1 ==> !overrides(ms[j]) by {
            forall j | 1 <= j < i + 1 ensures !overrides(ms[j]) { assert ms[j] == ms[1..][j - 1]; }
          }
        }
      }
      r
  }

  /** The method a visited type contributes, as a zero- or one-element sequence. */
  function MatchAt(h: Hierarchy, overrides: MethodId -> bool, t: TypeId): seq<MethodId>
    requires t < |h.types|
  {
    match FirstMatch(h.types[t].declaredMethods, overrides)
    case Some(m) => [m]
    case None => []
  }

  /**
   * The matches met by the walk above t in visiting order, before any
   * duplicate is dropped: for each supertype, its own match and then
   * everything above it.
   */
  function Walk(h: Hierarchy, overrides: MethodId -> bool, t: TypeId): (r: seq<MethodId>)
    requires WellFormed(h) && t < |h.types|
    ensures forall i :: 0 <= i < |r| ==> overrides(r[i])
    decreases h.rank[t] + 1, 0, 0
  {
    ParentsBound(h, t);
    WalkTypes(h, overrides, Parents(h, t))
  }

  function WalkTypes(h: Hierarchy, overrides: MethodId -> bool, ts: seq<TypeId>): (r: seq<MethodId>)
    requires WellFormed(h) && AllIn(h, ts)
    ensures forall i :: 0 <= i < |r| ==> overrides(r[i])
    decreases RankBound(h, ts), 1, |ts|
  {
    if ts == [] then []
    else
      var m, w, rest := MatchAt(h, overrides, ts[0]), Walk(h, overrides, ts[0]), WalkTypes(h, overrides, ts[1..]);
      assert forall i :: 0 <= i < |m| ==> overrides(m[i]);
      assert forall i :: 0 <= i < |m + w + rest| ==> overrides((m + w + rest)[i]) by {
        forall i | 0 <= i < |m + w + rest| ensures overrides((m + w + rest)[i]) {
          if i < |m| { assert (m + w + rest)[i] == m[i]; }
          else if i < |m| + |w| { assert (m + w + rest)[i] == w[i - |m|]; }
          else { assert (m + w + rest)[i] == rest[i - |m| - |w|]; }
        }
      }
      m + w + rest
  }

  /** Every type reachable from t through its supertype edges (t itself excluded). */
  function Ancestors(h: Hierarchy, t: TypeId): (r: set<TypeId>)
    requires WellFormed(h) && t < |h.types|
    ensures forall p :: p in r ==> p < |h.types| && h.rank[p] < h.rank[t]
    decreases h.rank[t] + 1, 0, 0
  {
    ParentsBound(h, t);
    AncestorsOf(h, Parents(h, t))
  }

  function AncestorsOf(h: Hierarchy, ts: seq<TypeId>): (r: set<TypeId>)
    requires WellFormed(h) && AllIn(h, ts)
    ensures forall p :: p in r ==> p < |h.types| && h.rank[p] < RankBound(h, ts)
    decreases RankBound(h, ts), 1, |ts|
  {
    if ts == [] then {}
    else {ts[0]} + Ancestors(h, ts[0]) + AncestorsOf(h, ts[1..])
  }

  /** The walk over a concatenation of type lists is the concatenation of the walks. */
  lemma {:induction false} WalkTypesConcat(h: Hierarchy, overrides: MethodId -> bool, a: seq<TypeId>, b: seq<TypeId>)
    requires WellFormed(h) && AllIn(h, a) && AllIn(h, b)
    ensures AllIn(h, a + b)
    ensures WalkTypes(h, overrides, a + b) == WalkTypes(h, overrides, a) + WalkTypes(h, overrides, b)
    decreases |a|
  {
    forall i | 0 <= i < |a + b| ensures (a + b)[i] < |h.types| {
      if i < |a| { assert (a + b)[i] == a[i]; } else { assert (a + b)[i] == b[i - |a|]; }
    }
    if a == [] {
      assert a + b == b;
    } else {
      assert AllIn(h, a[1..]);
      WalkTypesConcat(h, overrides, a[1..], b);
      TailOfConcat(a, b);
      var head := MatchAt(h, overrides, a[0]) + Walk(h, overrides, a[0]);
      assert WalkTypes(h, overrides, a) == head + WalkTypes(h, overrides, a[1..]);
      assert WalkTypes(h, overrides, a + b) == head + WalkTypes(h, overrides, a[1..] + b);
      ConcatAssoc(head, WalkTypes(h, overrides, a[1..]), WalkTypes(h, overrides, b));
    }
  }

  /** The methods met by the walk are exactly the first matches of the ancestors. */
  lemma {:induction false} WalkElements(h: Hierarchy, overrides: MethodId -> bool, t: TypeId, x: MethodId)
    requires WellFormed(h) && t < |h.types|
    ensures x in Walk(h, overrides, t) <==>
              exists p :: p in Ancestors(h, t) && FirstMatch(h.types[p].declaredMethods, overrides) == Some(x)
    decreases h.rank[t] + 1, 0, 0
  {
    ParentsBound(h, t);
    WalkTypesElements(h, overrides, Parents(h, t), x);
  }

  lemma {:induction false} WalkTypesElements(h: Hierarchy, overrides: MethodId -> bool, ts: seq<TypeId>, x: MethodId)
    requires WellFormed(h) && AllIn(h, ts)
    ensures x in WalkTypes(h, overrides, ts) <==>
              exists p :: p in AncestorsOf(h, ts) && FirstMatch(h.types[p].declaredMethods, overrides) == Some(x)
    decreases RankBound(h, ts), 1, |ts|
  {
    if ts != [] {
      var t := ts[0];
      WalkElements(h, overrides, t, x);
      WalkTypesElements(h, overrides, ts[1..], x);
      var m, w, rest := MatchAt(h, overrides, t), Walk(h, overrides, t), WalkTypes(h, overrides, ts[1..]);
      assert WalkTypes(h, overrides, ts) == m + w + rest;
      InConcat3(m, w, rest, x);
      MatchAtElements(h, overrides, t, x);
      var all := AncestorsOf(h, ts);
      AncestorsOfCons(h, ts);
      if x in m {
        assert t in all;
      } else if x in w {
        var p :| p in Ancestors(h, t) && FirstMatch(h.types[p].declaredMethods, overrides) == Some(x);
        assert p in all;
      } else if x in rest {
        var p :| p in AncestorsOf(h, ts[1..]) && FirstMatch(h.types[p].declaredMethods, overrides) == Some(x);
        assert p in all;
      } else {
        forall p | p in all ensures FirstMatch(h.types[p].declaredMethods, overrides) != Some(x) {
          assert p == t || p in Ancestors(h, t) || p in AncestorsOf(h, ts[1..]);
        }
      }
    }
  }

  lemma AncestorsOfCons(h: Hierarchy, ts: seq<TypeId>)
    requires WellFormed(h) && AllIn(h, ts) && ts != []
    ensures AncestorsOf(h, ts) == {ts[0]} + Ancestors(h, ts[0]) + AncestorsOf(h, ts[1..])
  {
  }

  lemma MatchAtElements(h: Hierarchy, overrides: MethodId -> bool, t: TypeId, x: MethodId)
    requires t < |h.types|
    ensures x in MatchAt(h, overrides, t) <==> FirstMatch(h.types[t].declaredMethods, overrides) == Some(x)
  {
  }

  /** The supertypes visited first are ancestors. */
  lemma ParentsAreAncestors(h: Hierarchy, t: TypeId)
    requires WellFormed(h) && t < |h.types|
    ensures forall p :: p in Parents(h, t) ==> p in Ancestors(h, t)
  {
    ParentsBound(h, t);
    forall p | p in Parents(h, t) ensures p in Ancestors(h, t) {
      InAncestorsOf(h, Parents(h, t), p);
    }
  }

  lemma {:induction false} InAncestorsOf(h: Hierarchy, ts: seq<TypeId>, p: TypeId)
    requires WellFormed(h) && AllIn(h, ts) && p in ts
    ensures p in AncestorsOf(h, ts)
    decreases |ts|
  {
    if ts[0] != p {
      InAncestorsOf(h, ts[1..], p);
    }
  }

  /** An ancestor of an ancestor is an ancestor: the search reaches any number of levels up. */
  lemma {:induction false} AncestorsTransitive(h: Hierarchy, t: TypeId, p: TypeId, q: TypeId)
    requires WellFormed(h) && t < |h.types| && p in Ancestors(h, t)
    requires q in Ancestors(h, p)
    ensures q in Ancestors(h, t)
    decreases h.rank[t] + 1, 0, 0
  {
    ParentsBound(h, t);
    AncestorsOfTransitive(h, Parents(h, t), p, q);
  }

  lemma {:induction false} AncestorsOfTransitive(h: Hierarchy, ts: seq<TypeId>, p: TypeId, q: TypeId)
    requires WellFormed(h) && AllIn(h, ts) && p in AncestorsOf(h, ts)
    requires p < |h.types| && q in Ancestors(h, p)
    ensures q in AncestorsOf(h, ts)
    decreases RankBound(h, ts), 1, |ts|
  {
    var t := ts[0];
    if p == t {
    } else if p in Ancestors(h, t) {
      AncestorsTransitive(h, t, p, q);
    } else {
      AncestorsOfTransitive(h, ts[1..], p, q);
    }
  }

  /** The walk never comes back to its starting type. */
  lemma NotOwnAncestor(h: Hierarchy, t: TypeId)
    requires WellFormed(h) && t < |h.types|
    ensures t !in Ancestors(h, t)
  {
  }
}
