/**
 * A method symbol over a compiler method binding: derived facts computed on
 * first request and cached, the overridden methods found by walking the
 * declaring type's supertypes, and the signature fixed at construction.
 */
module MethodSymbols {
  import opened Wrappers
  import opened LinkedHashSet
  import opened SeqFacts
  import opened TypeHierarchy

  /** A raw type handle of the binding (parameter, return or thrown type). */
  type RawType = nat

  /** The analyzer's own view of a type, identified by its fully qualified name. */
  datatype SemanticType = SemanticType(fullyQualifiedName: string)

  /**
   * The semantic model of one compilation unit: the type bindings, and the
   * conversions `sema.type` and `sema.typeSymbol` from raw handles.
   */
  datatype Sema = Sema(hierarchy: Hierarchy, typeOf: RawType -> SemanticType, typeSymbolOf: RawType -> SemanticType)

  /**
   * What the method binding exposes: declaring class, name, the erased
   * signature of its generic declaration, raw parameter, return and thrown
   * types, and the binding's `overrides` test against another method.
   */
  datatype MethodBinding = MethodBinding(
    declaringClass: TypeId,
    name: string,
    erasedSignature: string,
    parameterTypes: seq<RawType>,
    returnType: RawType,
    exceptionTypes: seq<RawType>,
    overrides: MethodId -> bool)

  /** `sema.types(handles)`: each handle converted, order kept. */
  function Types(typeOf: RawType -> SemanticType, raws: seq<RawType>): (r: seq<SemanticType>)
    ensures |r| == |raws| && forall i :: 0 <= i < |raws| ==> r[i] == typeOf(raws[i])
  {
    seq(|raws|, i requires 0 <= i < |raws| => typeOf(raws[i]))
  }

  /** Declaring class binary name, '#', method name, erased declaration signature. */
  function MethodSignature(h: Hierarchy, b: MethodBinding): string
    requires b.declaringClass < |h.types|
  {
    h.types[b.declaringClass].binaryName + "#" + b.name + b.erasedSignature
  }

  /** The overridden methods of b: the walk from its declaring class, each method kept at its first discovery. */
  function OverriddenSymbolsOf(h: Hierarchy, b: MethodBinding): seq<MethodId>
    requires WellFormed(h) && b.declaringClass < |h.types|
  {
    Dedup(Walk(h, b.overrides, b.declaringClass))
  }

  /**
   * findOverridesInParentTypes: Object first for an interface, the superclass
   * first for a class other than java.lang.Object, then the interfaces; each
   * partial result merged into an insertion-ordered set.
   */
  method FindOverridesInParentTypes(h: Hierarchy, overrides: MethodId -> bool, t: TypeId)
    returns (bindings: seq<MethodId>)
    requires WellFormed(h) && t < |h.types|
    ensures bindings == Dedup(Walk(h, overrides, t))
    decreases h.rank[t] + 1, 0, 0
  {
    ParentsBound(h, t);
    assert TypeOk(h, t);
    var ty := h.types[t];
    bindings := [];
    ghost var first: seq<TypeId> := [];
    if ty.isInterface {
      // an interface searches java.lang.Object first
      assert h.objectType in Parents(h, t);
      var found := FindOverridesInTypes(h, overrides, [h.objectType]);
      first := [h.objectType];
      AddAllDedup([], WalkTypes(h, overrides, first));
      bindings := AddAll(bindings, found);
    } else if ty.qualifiedName != ObjectName {
      assert ty.superclass.value in Parents(h, t);
      var found := FindOverridesInTypes(h, overrides, [ty.superclass.value]);
      first := [ty.superclass.value];
      AddAllDedup([], WalkTypes(h, overrides, first));
      bindings := AddAll(bindings, found);
    }
    assert first == FirstParent(h, t);
    assert bindings == AddAll([], WalkTypes(h, overrides, first));
    var found := FindOverridesInTypes(h, overrides, ty.interfaces);
    AddAllDedup(bindings, WalkTypes(h, overrides, ty.interfaces));
    bindings := AddAll(bindings, found);
    AddAllConcat([], WalkTypes(h, overrides, first), WalkTypes(h, overrides, ty.interfaces));
    WalkTypesConcat(h, overrides, first, ty.interfaces);
  }

  /**
   * findOverridesInTypes: for each type in order, the first directly declared
   * method that satisfies the predicate, then everything found above it.
   */
  method FindOverridesInTypes(h: Hierarchy, overrides: MethodId -> bool, ts: seq<TypeId>)
    returns (found: seq<MethodId>)
    requires WellFormed(h) && AllIn(h, ts)
    ensures found == Dedup(WalkTypes(h, overrides, ts))
    decreases RankBound(h, ts), 1, |ts|
  {
    found := [];
    for i := 0 to |ts|
      invariant found == Dedup(WalkTypes(h, overrides, ts[..i]))
    {
      var t := ts[i];
      ghost var before := found;
      // the first declared method of this type that matches
      var m := FirstMatch(h.types[t].declaredMethods, overrides);
      if m.Some? {
        found := Add(found, m.value);
      }
      assert found == AddAll(before, MatchAt(h, overrides, t));
      // then the types above it
      ghost var mid := found;
      var above := FindOverridesInParentTypes(h, overrides, t);
      found := AddAll(found, above);
      StepFound(h, overrides, ts, i, before, mid, above, found);
    }
    assert ts[..|ts|] == ts;
  }

  lemma StepFound(h: Hierarchy, overrides: MethodId -> bool, ts: seq<TypeId>, i: nat, before: seq<MethodId>, mid: seq<MethodId>, above: seq<MethodId>, found: seq<MethodId>)
    requires WellFormed(h) && AllIn(h, ts) && i < |ts|
    requires before == Dedup(WalkTypes(h, overrides, ts[..i]))
    requires mid == AddAll(before, MatchAt(h, overrides, ts[i]))
    requires above == Dedup(Walk(h, overrides, ts[i]))
    requires found == AddAll(mid, above)
    ensures AllIn(h, ts[..i + 1]) && found == Dedup(WalkTypes(h, overrides, ts[..i + 1]))
  {
    WalkTypesStep(h, overrides, ts, i);
  }

  /** One iteration of the loop in FindOverridesInTypes keeps it equal to the deduplicated walk. */
  lemma WalkTypesStep(h: Hierarchy, overrides: MethodId -> bool, ts: seq<TypeId>, i: nat)
    requires WellFormed(h) && AllIn(h, ts) && i < |ts|
    ensures AddAll(AddAll(Dedup(WalkTypes(h, overrides, ts[..i])), MatchAt(h, overrides, ts[i])),
                   Dedup(Walk(h, overrides, ts[i])))
         == Dedup(WalkTypes(h, overrides, ts[..i + 1]))
  {
    var t := ts[i];
    var prefix := WalkTypes(h, overrides, ts[..i]);
    var here := MatchAt(h, overrides, t);
    var w := Walk(h, overrides, t);
    var before := Dedup(prefix);
    AddAllDedup(AddAll(before, here), w);
    AddAllConcat(before, here, w);
    AddAllConcat([], prefix, here + w);
    PrefixSnoc(ts, i);
    WalkTypesConcat(h, overrides, ts[..i], [t]);
    assert WalkTypes(h, overrides, [t]) == here + w by {
      assert [t][1..] == [];
    }
  }

  /**
   * The overridden methods have no duplicate, and are exactly the first
   * matching methods of the types the walk reaches.
   */
  lemma OverriddenSymbolsCharacterised(h: Hierarchy, b: MethodBinding)
    requires WellFormed(h) && b.declaringClass < |h.types|
    ensures NoDuplicates(OverriddenSymbolsOf(h, b))
    ensures forall x :: x in OverriddenSymbolsOf(h, b) <==>
              exists p :: p in Ancestors(h, b.declaringClass)
                          && FirstMatch(h.types[p].declaredMethods, b.overrides) == Some(x)
  {
    var w := Walk(h, b.overrides, b.declaringClass);
    DedupSpec(w);
    forall x: MethodId
      ensures x in w <==> exists p :: p in Ancestors(h, b.declaringClass)
                                      && FirstMatch(h.types[p].declaredMethods, b.overrides) == Some(x)
    {
      WalkElements(h, b.overrides, b.declaringClass, x);
    }
  }

  /** Every overridden method satisfies the binding's test and is declared on a supertype reached by the walk. */
  lemma OverriddenSymbolsSound(h: Hierarchy, b: MethodBinding, x: MethodId)
    requires WellFormed(h) && b.declaringClass < |h.types|
    requires x in OverriddenSymbolsOf(h, b)
    ensures b.overrides(x)
    ensures exists p :: p in Ancestors(h, b.declaringClass) && x in h.types[p].declaredMethods
  {
    OverriddenSymbolsCharacterised(h, b);
    var p :| p in Ancestors(h, b.declaringClass) && FirstMatch(h.types[p].declaredMethods, b.overrides) == Some(x);
  }

  /**
   * Any type reached in any number of steps contributes its first matching
   * method: with C extends B extends A, a method of C overriding one declared
   * only in A finds A's method.
   */
  lemma IndirectOverride(h: Hierarchy, b: MethodBinding, p: TypeId, q: TypeId, m: MethodId)
    requires WellFormed(h) && b.declaringClass < |h.types|
    requires p in Ancestors(h, b.declaringClass) && q in Ancestors(h, p)
    requires FirstMatch(h.types[q].declaredMethods, b.overrides) == Some(m)
    ensures m in OverriddenSymbolsOf(h, b)
  {
    AncestorsTransitive(h, b.declaringClass, p, q);
    OverriddenSymbolsCharacterised(h, b);
  }

  /** A method of an interface that matches a method of java.lang.Object overrides it. */
  lemma InterfaceOverridesObject(h: Hierarchy, b: MethodBinding, m: MethodId)
    requires WellFormed(h) && b.declaringClass < |h.types|
    requires h.types[b.declaringClass].isInterface
    requires FirstMatch(h.types[h.objectType].declaredMethods, b.overrides) == Some(m)
    ensures m in OverriddenSymbolsOf(h, b)
  {
    ParentsAreAncestors(h, b.declaringClass);
    assert h.objectType in Parents(h, b.declaringClass);
    OverriddenSymbolsCharacterised(h, b);
  }

  /** A class other than java.lang.Object searches its superclass. */
  lemma ClassOverridesSuperclass(h: Hierarchy, b: MethodBinding, s: TypeId, m: MethodId)
    requires WellFormed(h) && b.declaringClass < |h.types|
    requires !h.types[b.declaringClass].isInterface && h.types[b.declaringClass].qualifiedName != ObjectName
    requires h.types[b.declaringClass].superclass == Some(s) && s < |h.types|
    requires FirstMatch(h.types[s].declaredMethods, b.overrides) == Some(m)
    ensures m in OverriddenSymbolsOf(h, b)
  {
    ParentsAreAncestors(h, b.declaringClass);
    assert s in Parents(h, b.declaringClass);
    OverriddenSymbolsCharacterised(h, b);
  }

  /** Parts of a signature as the compiler produces them: no '#' in names, no '(' in a method name, erasure opens with '('. */
  predicate SignatureParts(owner: string, name: string, erasure: string) {
    '#' !in owner && '#' !in name && '(' !in name && |erasure| > 0 && erasure[0] == '('
  }

  lemma ConcatAt(a: string, r: string, i: nat)
    requires i < |a| + |r|
    ensures (a + r)[i] == if i < |a| then a[i] else r[i - |a|]
  {
  }

  /** The first occurrence of c in s starts right after a prefix that does not contain c. */
  lemma FirstOccurrence(a1: string, r1: string, a2: string, r2: string, c: char)
    requires c !in a1 && c !in a2 && |r1| > 0 && |r2| > 0 && r1[0] == c && r2[0] == c
    requires a1 + r1 == a2 + r2
    ensures a1 == a2 && r1 == r2
  {
    if |a1| < |a2| {
      ConcatAt(a1, r1, |a1|);
      assert false;
    } else if |a2| < |a1| {
      ConcatAt(a1, r1, |a2|);
      assert false;
    }
    assert a1 == (a1 + r1)[..|a1|] && a2 == (a2 + r2)[..|a2|];
    assert r1 == (a1 + r1)[|a1|..] && r2 == (a2 + r2)[|a2|..];
  }

  /** The signature key determines the owner's binary name, the method name and the erasure. */
  lemma SignatureDeterminesParts(h: Hierarchy, b1: MethodBinding, b2: MethodBinding)
    requires b1.declaringClass < |h.types| && b2.declaringClass < |h.types|
    requires SignatureParts(h.types[b1.declaringClass].binaryName, b1.name, b1.erasedSignature)
    requires SignatureParts(h.types[b2.declaringClass].binaryName, b2.name, b2.erasedSignature)
    requires MethodSignature(h, b1) == MethodSignature(h, b2)
    ensures h.types[b1.declaringClass].binaryName == h.types[b2.declaringClass].binaryName
    ensures b1.name == b2.name && b1.erasedSignature == b2.erasedSignature
  {
    var o1, o2 := h.types[b1.declaringClass].binaryName, h.types[b2.declaringClass].binaryName;
    assert MethodSignature(h, b1) == o1 + ("#" + b1.name + b1.erasedSignature);
    assert MethodSignature(h, b2) == o2 + ("#" + b2.name + b2.erasedSignature);
    FirstOccurrence(o1, "#" + b1.name + b1.erasedSignature, o2, "#" + b2.name + b2.erasedSignature, '#');
    assert ("#" + b1.name + b1.erasedSignature)[1..] == b1.name + b1.erasedSignature;
    assert ("#" + b2.name + b2.erasedSignature)[1..] == b2.name + b2.erasedSignature;
    FirstOccurrence(b1.name, b1.erasedSignature, b2.name, b2.erasedSignature, '(');
  }

  /**
   * JMethodSymbol. The four derived facts start out absent (null) and are
   * filled on first request; a ghost counter per fact records how often it
   * has been computed. The signature is fixed by the constructor.
   */
  class MethodSymbol {
    const sema: Sema
    const binding: MethodBinding
    const signature: string

    var parameterTypes: Option<seq<SemanticType>>
    var returnType: Option<SemanticType>
    var thrownTypes: Option<seq<SemanticType>>
    var overriddenSymbols: Option<seq<MethodId>>
    var firstOverriddenSymbol: Option<MethodId>

    ghost var parameterTypesComputations: nat
    ghost var returnTypeComputations: nat
    ghost var thrownTypesComputations: nat
    ghost var overrideSearches: nat

    /** Every filled cache holds the value its computation gives, and was computed exactly once. */
    ghost predicate Valid()
      reads this
    {
      && WellFormed(sema.hierarchy)
      && binding.declaringClass < |sema.hierarchy.types|
      && signature == MethodSignature(sema.hierarchy, binding)
      && parameterTypesComputations == (if parameterTypes.Some? then 1 else 0)
      && returnTypeComputations == (if returnType.Some? then 1 else 0)
      && thrownTypesComputations == (if thrownTypes.Some? then 1 else 0)
      && overrideSearches == (if overriddenSymbols.Some? then 1 else 0)
      && (parameterTypes.Some? ==> parameterTypes.value == Types(sema.typeOf, binding.parameterTypes))
      && (returnType.Some? ==> returnType.value == sema.typeSymbolOf(binding.returnType))
      && (thrownTypes.Some? ==> thrownTypes.value == Types(sema.typeOf, binding.exceptionTypes))
      && (overriddenSymbols.Some? ==> overriddenSymbols.value == OverriddenSymbolsOf(sema.hierarchy, binding))
      && firstOverriddenSymbol ==
           (if overriddenSymbols.Some? && overriddenSymbols.value != [] then Some(overriddenSymbols.value[0]) else None)
    }

    constructor (sema: Sema, binding: MethodBinding)
      requires WellFormed(sema.hierarchy) && binding.declaringClass < |sema.hierarchy.types|
      ensures Valid()
      ensures this.sema == sema && this.binding == binding
      ensures signature == MethodSignature(sema.hierarchy, binding)
      ensures parameterTypes.None? && returnType.None? && thrownTypes.None?
      ensures overriddenSymbols.None? && firstOverriddenSymbol.None?
    {
      this.sema := sema;
      this.binding := binding;
      this.signature := sema.hierarchy.types[binding.declaringClass].binaryName + "#" + binding.name + binding.erasedSignature;
      parameterTypes, returnType, thrownTypes := None, None, None;
      overriddenSymbols, firstOverriddenSymbol := None, None;
      parameterTypesComputations, returnTypeComputations, thrownTypesComputations, overrideSearches := 0, 0, 0, 0;
    }

    method ParameterTypes() returns (r: seq<SemanticType>)
      requires Valid()
      modifies this
      ensures Valid()
      ensures r == Types(sema.typeOf, binding.parameterTypes) && parameterTypes == Some(r)
      ensures old(parameterTypes).Some? ==> r == old(parameterTypes).value
      ensures parameterTypesComputations == 1
      ensures returnType == old(returnType) && thrownTypes == old(thrownTypes)
      ensures overriddenSymbols == old(overriddenSymbols) && firstOverriddenSymbol == old(firstOverriddenSymbol)
      ensures returnTypeComputations == old(returnTypeComputations)
      ensures thrownTypesComputations == old(thrownTypesComputations)
      ensures overrideSearches == old(overrideSearches)
    {
      if parameterTypes.None? {
        parameterTypes := Some(Types(sema.typeOf, binding.parameterTypes));
        parameterTypesComputations := parameterTypesComputations + 1;
      }
      r := parameterTypes.value;
    }

    /** Since 6.0 a constructor's return type is the void type rather than null; the conversion decides. */
    method ReturnType() returns (r: SemanticType)
      requires Valid()
      modifies this
      ensures Valid()
      ensures r == sema.typeSymbolOf(binding.returnType) && returnType == Some(r)
      ensures old(returnType).Some? ==> r == old(returnType).value
      ensures returnTypeComputations == 1
      ensures parameterTypes == old(parameterTypes) && thrownTypes == old(thrownTypes)
      ensures overriddenSymbols == old(overriddenSymbols) && firstOverriddenSymbol == old(firstOverriddenSymbol)
      ensures parameterTypesComputations == old(parameterTypesComputations)
      ensures thrownTypesComputations == old(thrownTypesComputations)
      ensures overrideSearches == old(overrideSearches)
    {
      if returnType.None? {
        returnType := Some(sema.typeSymbolOf(binding.returnType));
        returnTypeComputations := returnTypeComputations + 1;
      }
      r := returnType.value;
    }

    method ThrownTypes() returns (r: seq<SemanticType>)
      requires Valid()
      modifies this
      ensures Valid()
      ensures r == Types(sema.typeOf, binding.exceptionTypes) && thrownTypes == Some(r)
      ensures old(thrownTypes).Some? ==> r == old(thrownTypes).value
      ensures thrownTypesComputations == 1
      ensures parameterTypes == old(parameterTypes) && returnType == old(returnType)
      ensures overriddenSymbols == old(overriddenSymbols) && firstOverriddenSymbol == old(firstOverriddenSymbol)
      ensures parameterTypesComputations == old(parameterTypesComputations)
      ensures returnTypeComputations == old(returnTypeComputations)
      ensures overrideSearches == old(overrideSearches)
    {
      if thrownTypes.None? {
        thrownTypes := Some(Types(sema.typeOf, binding.exceptionTypes));
        thrownTypesComputations := thrownTypesComputations + 1;
      }
      r := thrownTypes.value;
    }

    /** convertOverriddenSymbols: the search from the declaring class, each binding mapped to its symbol. */
    method ConvertOverriddenSymbols() returns (r: seq<MethodId>)
      requires Valid()
      ensures r == OverriddenSymbolsOf(sema.hierarchy, binding)
    {
      r := FindOverridesInParentTypes(sema.hierarchy, binding.overrides, binding.declaringClass);
    }

    method OverriddenSymbols() returns (r: seq<MethodId>)
      requires Valid()
      modifies this
      ensures Valid()
      ensures r == OverriddenSymbolsOf(sema.hierarchy, binding) && overriddenSymbols == Some(r)
      ensures old(overriddenSymbols).Some? ==> r == old(overriddenSymbols).value
      ensures overrideSearches == 1
      ensures old(overriddenSymbols).Some? ==> overrideSearches == old(overrideSearches)
      ensures parameterTypes == old(parameterTypes) && returnType == old(returnType) && thrownTypes == old(thrownTypes)
      ensures parameterTypesComputations == old(parameterTypesComputations)
      ensures returnTypeComputations == old(returnTypeComputations)
      ensures thrownTypesComputations == old(thrownTypesComputations)
    {
      if overriddenSymbols.None? {
        var found := ConvertOverriddenSymbols();
        overriddenSymbols := Some(found);
        overrideSearches := overrideSearches + 1;
        if found != [] {
          firstOverriddenSymbol := Some(found[0]);
        }
      }
      r := overriddenSymbols.value;
    }

    /** The first overridden method, or null; computed through the same single search. */
    method OverriddenSymbol() returns (r: Option<MethodId>)
      requires Valid()
      modifies this
      ensures Valid()
      ensures overriddenSymbols == Some(OverriddenSymbolsOf(sema.hierarchy, binding))
      ensures r == if overriddenSymbols.value == [] then None else Some(overriddenSymbols.value[0])
      ensures overrideSearches == 1
      ensures old(overriddenSymbols).Some? ==> overrideSearches == old(overrideSearches)
      ensures old(overriddenSymbols).Some? ==> overriddenSymbols == old(overriddenSymbols)
      ensures parameterTypes == old(parameterTypes) && returnType == old(returnType) && thrownTypes == old(thrownTypes)
      ensures parameterTypesComputations == old(parameterTypesComputations)
      ensures returnTypeComputations == old(returnTypeComputations)
      ensures thrownTypesComputations == old(thrownTypesComputations)
    {
      if overriddenSymbols.None? {
        // the search runs on the first request only
        var _ := OverriddenSymbols();
      }
      r := firstOverriddenSymbol;
    }

    /** The signature needs no cache and no search. */
    method Signature() returns (r: string)
      requires Valid()
      ensures r == MethodSignature(sema.hierarchy, binding)
    {
      r := signature;
    }
  }

  /** Two requests for the overridden methods give the same list and search the hierarchy once. */
  method OverriddenSymbolsTwice(m: MethodSymbol) returns (first: seq<MethodId>, second: seq<MethodId>)
    requires m.Valid()
    modifies m
    ensures first == second && m.overrideSearches == 1
  {
    first := m.OverriddenSymbols();
    second := m.OverriddenSymbols();
  }
}
