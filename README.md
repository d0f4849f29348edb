# Regex source spans and method symbols of sonar-java, in Dafny

This project models two classes of the sonar-java analyzer front end and
proves properties of the models.

**JavaAnalyzerRegexSource.** A regular expression written in Java source as
one or more string literals or text blocks (`"a" + "b"`, or a `"""` block)
becomes one regex text: the String constants of the literals, one after the
other. While building it, a `TextSpanTracker` records for every literal (for a
text block, for every line) the offset of the regex text at which it starts
and the source span it occupies. `textSpansFor` uses that sorted map to turn an
offset range of the regex text back into source spans, one per literal or line
the range touches. The model has these parts:
- `TreeMap` (tree_map.dfy): the `NavigableMap<Integer, TextSpan>` the tracker
  uses, as a strictly sorted sequence of entries. It covers `put`,
  `floorEntry`, `lowerEntry` and `subMap(lo, hi).values()`.
- `RegexSpans` (regex_spans.dfy): the pure specification. It defines the
  regex text, the line split of a text block, the pieces each literal adds,
  the index built from all literals, and the query with its two failure modes.
- `RegexSpanProperties` (regex_span_properties.dfy): the theorems about the
  specification.
- `RegexSource` (regex_source.dfy): the classes `TextSpanTracker` and
  `JavaAnalyzerRegexSource`. Their methods update the map and the cursor in
  place and are proved equal to the specification.

`TextSpanEntry` (the key and value of one map entry) is `TreeMap.Entry<TextSpan>`.

**JMethodSymbol.** A method symbol computes its parameter, return and thrown
types, and its overridden methods, on first request and caches them. Its
signature is fixed at construction. The overridden methods come from a walk
of the declaring type's supertypes, merged into insertion-ordered sets. The
model has these parts:
- `LinkedHashSet` (linked_hash_set.dfy): the insertion-ordered set, as a
  sequence without duplicates.
- `TypeHierarchy` (type_hierarchy.dfy): the type bindings. It defines the
  walk that visits Object first for an interface, the superclass first for a
  class other than `java.lang.Object`, and then the interfaces. It also defines
  the set of ancestors the walk reaches.
- `MethodSymbols` (method_symbol.dfy): `findOverridesInParentTypes` and
  `findOverridesInTypes` as mutually recursive methods with the source's loop,
  and the class `MethodSymbol` with its caches. Ghost counters in the class
  record how often each cache was computed.

`Wrappers` (wrappers.dfy) holds `Option` and `Result`. `SeqFacts`
(seq_facts.dfy) holds sequence identities the proofs share.

Exceptions of the source are `Err` values:
- `IllegalArgumentException("Only string literals allowed")` is
  `OnlyStringLiteralsAllowed`.
- The `NullPointerException` of a query without a start or end entry is
  `NullEntry`.
- `subMap`'s `IllegalArgumentException` is `IllegalRange` (and
  `FromKeyGreaterThanToKey` in `TreeMap`).

Paths below are relative to the repository root. `JARS` stands for
java-frontend/src/main/java/org/sonar/java/regex/JavaAnalyzerRegexSource.java
and `JMS` for java-frontend/src/main/java/org/sonar/java/model/JMethodSymbol.java.
The table's source column writes both out in full.

## Model

| member | source | states |
|---|---|---|
| RegexSpans.GetString | java-frontend/src/main/java/org/sonar/java/regex/JavaAnalyzerRegexSource.java:86-90 | The literal's String constant when it has one, and the "only string literals" error exactly when it has none. |
| RegexSource.LiteralsToString | java-frontend/src/main/java/org/sonar/java/regex/JavaAnalyzerRegexSource.java:51-58 | Succeeds exactly when every literal has a String constant; the text is then those constants concatenated in order. |
| RegexSpans.SplitAfterNewlines | java-frontend/src/main/java/org/sonar/java/regex/JavaAnalyzerRegexSource.java:113 | The pieces join back to the input, and none of them is empty. |
| RegexSpans.SplitLines | java-frontend/src/main/java/org/sonar/java/regex/JavaAnalyzerRegexSource.java:113 | The split gives at least one line (`""` splits into `[""]`), and the lines join back to the value. |
| RegexSpans.SplitLinesShape | java-frontend/src/main/java/org/sonar/java/regex/JavaAnalyzerRegexSource.java:113 | Each line but the last ends with `\n`. No line holds a `\n` before its end. A non-empty value has no empty line, so there is no trailing empty line. |
| RegexSpans.TextBlockPieces | java-frontend/src/main/java/org/sonar/java/regex/JavaAnalyzerRegexSource.java:113-119 | A text block gives one piece per split line. Each piece is a single source line exactly as wide as its share of the value, and the shares add up to the value's length, so the loop leaves the cursor at the block's end. |
| RegexSpanProperties.LiteralLength | java-frontend/src/main/java/org/sonar/java/regex/JavaAnalyzerRegexSource.java:96-119 | Whatever the literal's kind, adding it advances the cursor by the length of its String value. |
| RegexSpanProperties.AllPiecesLength | java-frontend/src/main/java/org/sonar/java/regex/JavaAnalyzerRegexSource.java:43-49 | After every literal is added, the cursor equals the length of the regex text. |
| TreeMap.Put | java-frontend/src/main/java/org/sonar/java/regex/JavaAnalyzerRegexSource.java:107 | A put adds at most one entry: it replaces the value of a present key or inserts a new one (see PutAsMap for which). |
| TreeMap.PutSorted | java-frontend/src/main/java/org/sonar/java/regex/JavaAnalyzerRegexSource.java:93 | `put` keeps the keys strictly ascending. |
| TreeMap.PutAsMap | java-frontend/src/main/java/org/sonar/java/regex/JavaAnalyzerRegexSource.java:107 | On a sorted map, `put(k, v)` changes the represented map at k and nowhere else. |
| TreeMap.PutPut | java-frontend/src/main/java/org/sonar/java/regex/JavaAnalyzerRegexSource.java:107-108 | A second put at the same key, after an empty literal left the cursor unchanged, replaces the first one completely. |
| RegexSpans.PutPiecesSorted | java-frontend/src/main/java/org/sonar/java/regex/JavaAnalyzerRegexSource.java:114-119 | Any run of puts at a moving cursor keeps the map sorted. |
| RegexSpans.BuildIndex | java-frontend/src/main/java/org/sonar/java/regex/JavaAnalyzerRegexSource.java:43-49 | The index the constructor builds is a sorted map. |
| RegexSpanProperties.BuildIndexSnoc | java-frontend/src/main/java/org/sonar/java/regex/JavaAnalyzerRegexSource.java:45-48 | The index of the first i + 1 literals is the index of the first i with literal i's pieces put from the length of their text; that text grows by literal i's constant. |
| RegexSpanProperties.IndexStartsAtZero | java-frontend/src/main/java/org/sonar/java/regex/JavaAnalyzerRegexSource.java:62-65 | The index of a non-empty list of literals has an entry at offset 0, so a query always has a start entry. |
| RegexSpanProperties.BuildIndexContiguous | java-frontend/src/main/java/org/sonar/java/regex/JavaAnalyzerRegexSource.java:43-49 | Without escape sequences, each entry's span is exactly as wide as the distance to the next key. The last entry reaches the end of the text, so the entries tile the regex text. |
| RegexSpanProperties.BuildIndexSingleLine | java-frontend/src/main/java/org/sonar/java/regex/JavaAnalyzerRegexSource.java:75 | When every string literal lies on one source line, every span in the index is single-line. This is the assumption the source's comment states. |
| RegexSpanProperties.QuerySingleLine | java-frontend/src/main/java/org/sonar/java/regex/JavaAnalyzerRegexSource.java:74-82 | On an index of single-line spans, every span a successful query yields is single-line. |
| TreeMap.FloorEntry | java-frontend/src/main/java/org/sonar/java/regex/JavaAnalyzerRegexSource.java:124 | The entry found starts at or before x, and it is null exactly when the smallest key is above x. |
| TreeMap.LowerEntry | java-frontend/src/main/java/org/sonar/java/regex/JavaAnalyzerRegexSource.java:129 | The entry found starts strictly before x, and it is null exactly when the smallest key is at or above x. |
| TreeMap.FloorEntryIsFloor | java-frontend/src/main/java/org/sonar/java/regex/JavaAnalyzerRegexSource.java:122-125 | `floorEntry(x)` is null exactly when every key is above x. Otherwise it is an entry of the map, and no key <= x exceeds its key. |
| TreeMap.LowerEntryIsLower | java-frontend/src/main/java/org/sonar/java/regex/JavaAnalyzerRegexSource.java:127-130 | `lowerEntry(x)` is null exactly when no key is below x. Otherwise it is an entry of the map, and no key < x exceeds its key. |
| TreeMap.SubMapValues | java-frontend/src/main/java/org/sonar/java/regex/JavaAnalyzerRegexSource.java:140-142 | `subMap(lo, hi)` throws exactly when lo > hi; otherwise it gives the values of the keys in [lo, hi). |
| TreeMap.SubMapSlice | java-frontend/src/main/java/org/sonar/java/regex/JavaAnalyzerRegexSource.java:140-142 | Those values are one contiguous slice of the map, in key order: from the first key >= lo to the first key >= hi. |
| TreeMap.ValuesBetweenFrom | java-frontend/src/main/java/org/sonar/java/regex/JavaAnalyzerRegexSource.java:140-142 | Every value of the sub-map is stored at a key in [lo, hi). |
| RegexSpanProperties.FloorHolds | java-frontend/src/main/java/org/sonar/java/regex/JavaAnalyzerRegexSource.java:62-65 | In a tiled index, every offset of the text is covered by exactly one entry, and that entry is the offset's floor entry. |
| RegexSpanProperties.LowerHolds | java-frontend/src/main/java/org/sonar/java/regex/JavaAnalyzerRegexSource.java:67-70 | In a tiled index, the lower entry of an end offset in (0, total] is the entry that covers the offset just below it. |
| RegexSpans.Query | java-frontend/src/main/java/org/sonar/java/regex/JavaAnalyzerRegexSource.java:60-84 | The query throws the null-entry error exactly when the map is empty, its first key lies above the (clamped) beginning, or a positive end is at or below the first key. A successful query yields at least one span. |
| RegexSpans.Assemble | java-frontend/src/main/java/org/sonar/java/regex/JavaAnalyzerRegexSource.java:74-82 | subMap throws exactly when the two entries differ and the middle would start above the end entry's key. Otherwise the first span starts at begin's column in the start span, and across entries the last span ends at end's column in the end span. |
| RegexSpans.SpansFor | java-frontend/src/main/java/org/sonar/java/regex/JavaAnalyzerRegexSource.java:60-84 | `textSpansFor` as written throws from subMap exactly when the entries differ and the start entry's key plus its span's width passes the end entry's key. |
| RegexSpans.SpansForCorrected | java-frontend/src/main/java/org/sonar/java/regex/JavaAnalyzerRegexSource.java:79-80 | The corrected query throws from subMap exactly when the end entry lies strictly before the start entry. |
| RegexSpanProperties.NonPositiveEnd | java-frontend/src/main/java/org/sonar/java/regex/JavaAnalyzerRegexSource.java:63-70 | With an end <= 0 (and any begin, negative ones included), the query stays in the start entry and yields one span. |
| RegexSpanProperties.TilingWidth | java-frontend/src/main/java/org/sonar/java/regex/JavaAnalyzerRegexSource.java:74-82 | In a tiled index, the spans assembled between the entries covering begin and end - 1 are exactly end - begin columns wide. |
| RegexSpanProperties.SpansForTiles | java-frontend/src/main/java/org/sonar/java/regex/JavaAnalyzerRegexSource.java:60-84 | On a tiled index, the query as written succeeds for every range inside the text. It yields the tiling between the covering entries, and that tiling is as wide as the range. |
| RegexSpanProperties.CrossedEntries | java-frontend/src/main/java/org/sonar/java/regex/JavaAnalyzerRegexSource.java:79-80 | In a tiled index, both ways of choosing where the middle starts lie above the key of any earlier entry. |
| RegexSpanProperties.CorrectedTiles | java-frontend/src/main/java/org/sonar/java/regex/JavaAnalyzerRegexSource.java:60-84 | On any index starting at offset 0, the corrected query succeeds for every non-empty range, escapes or not. It yields the tiling between its start and end entries. |
| RegexSpanProperties.CorrectedAgrees | java-frontend/src/main/java/org/sonar/java/regex/JavaAnalyzerRegexSource.java:79 | On a tiled index (no escapes), the corrected query gives exactly what the source's query gives, for every range. |
| RegexSpanProperties.AbcDefIndex | java-frontend/src/main/java/org/sonar/java/regex/JavaAnalyzerRegexSource.java:104-109 | `"abc" + "def"` gives the entries 0 -> columns 11-14 and 3 -> columns 19-22. |
| RegexSpanProperties.AbcDefAcross | java-frontend/src/main/java/org/sonar/java/regex/JavaAnalyzerRegexSource.java:77-82 | On that index, offsets [2, 4) map to column 13 of the first literal and column 19 of the second. |
| RegexSpanProperties.AbcDefSecond | java-frontend/src/main/java/org/sonar/java/regex/JavaAnalyzerRegexSource.java:62-76 | On that index, offsets [3, 6) map to the whole second literal without its quotes. |
| RegexSpanProperties.EmptyRangeAtBoundary | java-frontend/src/main/java/org/sonar/java/regex/JavaAnalyzerRegexSource.java:67-80 | An empty range [k, k) at an offset k > 0 where an entry starts makes subMap throw in both queries: its end entry is an earlier entry than its start entry. |
| RegexSpanProperties.AbcDefEmptyAtBoundary | java-frontend/src/main/java/org/sonar/java/regex/JavaAnalyzerRegexSource.java:67-80 | On the index of `"abc" + "def"`, the empty range [3, 3) throws under both queries. |
| RegexSpanProperties.AbCdLines | java-frontend/src/main/java/org/sonar/java/regex/JavaAnalyzerRegexSource.java:113 | The text-block value `ab\ncd` splits into `ab\n` and `cd`: the terminator stays with the first line. |
| RegexSpanProperties.AbCdIndex | java-frontend/src/main/java/org/sonar/java/regex/JavaAnalyzerRegexSource.java:113-119 | A text block on token line 5 with indent 4 and value `ab\ncd` gives two entries. Offset 0 maps to columns 4-7 of line 6, because the terminator takes a column. Offset 3 maps to columns 4-6 of line 7. |
| RegexSpanProperties.AbCdAcross | java-frontend/src/main/java/org/sonar/java/regex/JavaAnalyzerRegexSource.java:77-82 | On that index, offsets [1, 4) map to columns 5-7 of line 6 and column 4 of line 7. The corrected query gives the same. |
| RegexSpanProperties.EscapedIndex | java-frontend/src/main/java/org/sonar/java/regex/JavaAnalyzerRegexSource.java:104-109 | For `"\t\t" + "ab"`, the first entry is 4 columns wide but stands for 2 characters. |
| RegexSpanProperties.EscapedLiteralBreaksQuery | java-frontend/src/main/java/org/sonar/java/regex/JavaAnalyzerRegexSource.java:79-80 | On that index, the source's query for [1, 3) throws from subMap, while the corrected query yields two spans, one in each literal. |
| RegexSource.TextSpanTracker.constructor | java-frontend/src/main/java/org/sonar/java/regex/JavaAnalyzerRegexSource.java:92-94 | An empty map and a cursor at 0. |
| RegexSource.TextSpanTracker.AddLiteral | java-frontend/src/main/java/org/sonar/java/regex/JavaAnalyzerRegexSource.java:96-102 | A text block is added line by line; any other literal is added as one span. For a String literal whose length is passed, the new state is its pieces put at the old cursor. |
| RegexSource.TextSpanTracker.AddStringLiteral | java-frontend/src/main/java/org/sonar/java/regex/JavaAnalyzerRegexSource.java:104-109 | The span without its quotes is put at the old cursor, and the cursor moves by the given length. The map stays sorted. |
| RegexSource.TextSpanTracker.AddTextBlock | java-frontend/src/main/java/org/sonar/java/regex/JavaAnalyzerRegexSource.java:111-120 | The loop leaves the map equal to the block's pieces put from the old cursor, and the cursor moved by the value's length. The map stays sorted. |
| RegexSource.TextSpanTracker.EntryAtIndex | java-frontend/src/main/java/org/sonar/java/regex/JavaAnalyzerRegexSource.java:122-125 | The entry it returns starts at or before the offset. |
| RegexSource.TextSpanTracker.EntryBeforeIndex | java-frontend/src/main/java/org/sonar/java/regex/JavaAnalyzerRegexSource.java:127-130 | The entry it returns starts strictly before the offset. |
| RegexSource.TextSpanTracker.TextSpansBetween | java-frontend/src/main/java/org/sonar/java/regex/JavaAnalyzerRegexSource.java:140-142 | Succeeds exactly when startIndex <= endIndex, with the spans stored at keys in that half-open range. |
| RegexSource.TextSpanTracker.TextSpansBetweenSlice | java-frontend/src/main/java/org/sonar/java/regex/JavaAnalyzerRegexSource.java:140-142 | Those spans are one slice of the tracker's entries, in offset order: `TreeMap.SubMapSlice` stated for the tracker's map. |
| RegexSource.TextSpanTracker.TextSpansBetweenFrom | java-frontend/src/main/java/org/sonar/java/regex/JavaAnalyzerRegexSource.java:140-142 | Each of those spans is stored at an offset in the range: `TreeMap.ValuesBetweenFrom` stated for the tracker's map. |
| RegexSource.JavaAnalyzerRegexSource.constructor | java-frontend/src/main/java/org/sonar/java/regex/JavaAnalyzerRegexSource.java:43-49 | The text is the literals' text. The tracker's map is the index of the literals, and its cursor is the text's length. |
| RegexSource.Create | java-frontend/src/main/java/org/sonar/java/regex/JavaAnalyzerRegexSource.java:43-49 | Construction fails with "only string literals" exactly when some literal is not a String; otherwise it gives a fresh, valid source over those literals. |
| RegexSource.JavaAnalyzerRegexSource.TextSpansFor | java-frontend/src/main/java/org/sonar/java/regex/JavaAnalyzerRegexSource.java:60-84 | On any tracker whose keys ascend, the method gives exactly the corrected query's answer on the tracker's map, errors included. |
| RegexSource.JavaAnalyzerRegexSource.TextSpansForGuarantees | java-frontend/src/main/java/org/sonar/java/regex/JavaAnalyzerRegexSource.java:60-84 | Every non-empty range gets spans from a non-empty source. Without escapes the answer is the as-written query's, and for a range inside the text its spans are exactly as wide as the range. |
| LinkedHashSet.Add | java-frontend/src/main/java/org/sonar/java/model/JMethodSymbol.java:148 | The element is present afterwards. The previous contents stay, in their order, as a prefix. No duplicate is introduced. |
| LinkedHashSet.AddAll | java-frontend/src/main/java/org/sonar/java/model/JMethodSymbol.java:132-136 | `addAll` grows the set by at most the number of elements added, and never shrinks it. |
| LinkedHashSet.AddAllElements | java-frontend/src/main/java/org/sonar/java/model/JMethodSymbol.java:132-136 | `addAll` gives exactly the union of the two element sets. |
| LinkedHashSet.AddAllNoDuplicates | java-frontend/src/main/java/org/sonar/java/model/JMethodSymbol.java:129-137 | `addAll` into a set without duplicates keeps it without duplicates. |
| LinkedHashSet.AddAllKeepsPrefix | java-frontend/src/main/java/org/sonar/java/model/JMethodSymbol.java:132-136 | `addAll` keeps the earlier elements first, in their order. |
| LinkedHashSet.AddAllConcat | java-frontend/src/main/java/org/sonar/java/model/JMethodSymbol.java:132-136 | Two `addAll` calls in a row are one `addAll` of the concatenation. |
| LinkedHashSet.AddAllAbsorbs | java-frontend/src/main/java/org/sonar/java/model/JMethodSymbol.java:150 | Merging a set that was itself built by `addAll` equals merging its raw sequence directly. |
| LinkedHashSet.AddAllDedup | java-frontend/src/main/java/org/sonar/java/model/JMethodSymbol.java:141-152 | Merging the deduplication of a sequence equals merging the sequence. This is why nested sets give the same order as one set. |
| LinkedHashSet.DedupSpec | java-frontend/src/main/java/org/sonar/java/model/JMethodSymbol.java:129 | Deduplication leaves no duplicate and keeps exactly the elements. |
| TypeHierarchy.FirstMatch | java-frontend/src/main/java/org/sonar/java/model/JMethodSymbol.java:145-147 | `findFirst` of the filtered declared methods: none exactly when no method satisfies the test. Otherwise it is the earliest method that does. |
| TypeHierarchy.Ancestors | java-frontend/src/main/java/org/sonar/java/model/JMethodSymbol.java:128-153 | Every type the walk reaches is a known type of strictly lower rank, so the walk terminates. |
| TypeHierarchy.Walk | java-frontend/src/main/java/org/sonar/java/model/JMethodSymbol.java:128-153 | Every method the search meets from a type, in visiting order, satisfies the binding's `overrides` test. |
| TypeHierarchy.WalkTypesConcat | java-frontend/src/main/java/org/sonar/java/model/JMethodSymbol.java:143-151 | Walking a concatenation of type lists gives the walk of the first list followed by the walk of the second. |
| TypeHierarchy.WalkElements | java-frontend/src/main/java/org/sonar/java/model/JMethodSymbol.java:128-153 | A method is met by the walk exactly when it is the first match of some ancestor. |
| TypeHierarchy.ParentsAreAncestors | java-frontend/src/main/java/org/sonar/java/model/JMethodSymbol.java:130-136 | Object (for an interface), the superclass (for a class other than Object) and the interfaces are all searched. |
| TypeHierarchy.AncestorsTransitive | java-frontend/src/main/java/org/sonar/java/model/JMethodSymbol.java:150 | An ancestor of an ancestor is searched too: the walk recurses through every inheritance level. |
| TypeHierarchy.NotOwnAncestor | java-frontend/src/main/java/org/sonar/java/model/JMethodSymbol.java:128-153 | The walk never comes back to the type it started from. |
| MethodSymbols.Types | java-frontend/src/main/java/org/sonar/java/model/JMethodSymbol.java:75 | `sema.types` converts every handle, keeping the order and the count. |
| MethodSymbols.FindOverridesInParentTypes | java-frontend/src/main/java/org/sonar/java/model/JMethodSymbol.java:128-138 | The method returns the deduplicated walk from the type: Object or the superclass first, then the interfaces. |
| MethodSymbols.FindOverridesInTypes | java-frontend/src/main/java/org/sonar/java/model/JMethodSymbol.java:140-153 | The loop returns the deduplicated walk of the given types, in order. |
| MethodSymbols.WalkTypesStep | java-frontend/src/main/java/org/sonar/java/model/JMethodSymbol.java:143-151 | One iteration adds the type's own match and then everything above it. The result is the deduplicated walk of the types so far. |
| MethodSymbols.OverriddenSymbolsCharacterised | java-frontend/src/main/java/org/sonar/java/model/JMethodSymbol.java:109-126 | The overridden methods have no duplicate, and are exactly the first matching methods of the types the walk reaches. |
| MethodSymbols.OverriddenSymbolsSound | java-frontend/src/main/java/org/sonar/java/model/JMethodSymbol.java:120-126 | Every overridden method passes the binding's `overrides` test and is declared on a type the walk reaches. |
| MethodSymbols.IndirectOverride | java-frontend/src/main/java/org/sonar/java/model/JMethodSymbol.java:149-150 | A method matched on any ancestor, however far up, is found. |
| MethodSymbols.InterfaceOverridesObject | java-frontend/src/main/java/org/sonar/java/model/JMethodSymbol.java:130-132 | An interface's method that matches a method of java.lang.Object overrides it. |
| MethodSymbols.ClassOverridesSuperclass | java-frontend/src/main/java/org/sonar/java/model/JMethodSymbol.java:133-134 | A class other than java.lang.Object finds its superclass's matching method. |
| MethodSymbols.SignatureDeterminesParts | java-frontend/src/main/java/org/sonar/java/model/JMethodSymbol.java:63-65 | The signature determines the owner's binary name, the method name and the erasure, given names without `#`, method names without `(`, and an erasure that opens with `(`. |
| MethodSymbols.MethodSymbol.constructor | java-frontend/src/main/java/org/sonar/java/model/JMethodSymbol.java:61-66 | The signature is binary name + "#" + name + erased signature, and every cache is empty. |
| MethodSymbols.MethodSymbol.ParameterTypes | java-frontend/src/main/java/org/sonar/java/model/JMethodSymbol.java:72-78 | Gives the converted parameter types, computes them at most once, keeps a cached value, and touches no other cache. |
| MethodSymbols.MethodSymbol.ReturnType | java-frontend/src/main/java/org/sonar/java/model/JMethodSymbol.java:83-89 | Gives the converted return type, computes it at most once, keeps a cached value, and touches no other cache. |
| MethodSymbols.MethodSymbol.ThrownTypes | java-frontend/src/main/java/org/sonar/java/model/JMethodSymbol.java:91-97 | Gives the converted exception types, computes them at most once, keeps a cached value, and touches no other cache. |
| MethodSymbols.MethodSymbol.ConvertOverriddenSymbols | java-frontend/src/main/java/org/sonar/java/model/JMethodSymbol.java:120-126 | The search from the declaring class gives the overridden methods. |
| MethodSymbols.MethodSymbol.OverriddenSymbols | java-frontend/src/main/java/org/sonar/java/model/JMethodSymbol.java:109-118 | Gives the overridden methods and searches exactly once over the object's life. The first of them, if any, is recorded. |
| MethodSymbols.MethodSymbol.OverriddenSymbol | java-frontend/src/main/java/org/sonar/java/model/JMethodSymbol.java:99-107 | Gives the first overridden method, or null when there is none, through the same single search. |
| MethodSymbols.MethodSymbol.Signature | java-frontend/src/main/java/org/sonar/java/model/JMethodSymbol.java:155-158 | The signature fixed at construction. |
| MethodSymbols.OverriddenSymbolsTwice | java-frontend/src/main/java/org/sonar/java/model/JMethodSymbol.java:109-118 | Two requests give the same list, and the hierarchy is searched once. |

## Left out

- Compiler and tree services are inputs, not code:
  - a literal's source span (`AnalyzerMessage.textSpanFor`);
  - its String constant (`asConstant`);
  - the line of its token;
  - a text block's indentation (`LiteralUtils.indentationOfTextBlock`, JARS:112);
  - the type and method bindings;
  - `ASTUtils.signature` (an erased-signature string);
  - `sema.resolveType("java.lang.Object")` (`Hierarchy.objectType`);
  - the conversions `sema.type` and `sema.typeSymbol`.
- The `JavaRegexSource` superclass, which holds the text and parses the regex, is not part of this model; only the text passed to it is.
- Java's 32-bit `int` is unbounded `int` here. Offsets and columns beyond 2^31 do not occur in source files, so wrap-around is not modelled.
- The tracker's `entry` helper (JARS:132-138) has no member of its own: its null check is the `Option` that `floorEntry` and `lowerEntry` return.
- RegexSource.JavaAnalyzerRegexSource.TextSpansFor: the source tests `startSpan == endSpan` by reference. Every put stores a span object of its own, so the model compares the entries' keys instead.
- RegexSource.JavaAnalyzerRegexSource.TextSpansFor: it implements the corrected middle start of JARS:79 (see Findings). The as-written query is `RegexSpans.SpansFor`, and `TextSpansForGuarantees` proves the two agree on unescaped literals.
- RegexSource.JavaAnalyzerRegexSource.constructor: requires every literal to be a String. `RegexSource.Create` models the source's IllegalArgumentException for the other case.
- RegexSource.TextSpanTracker.AddTextBlock: requires a String constant. The getString exception at JARS:113 cannot happen, because the constructor has already called `literalsToString` on the same literals.
- RegexSource.TextSpanTracker.EntryAtIndex: its contract only bounds the key. `TreeMap.FloorEntryIsFloor` proves it is the greatest such entry, or null exactly when there is none; that lemma is kept separate because the quantifiers made every caller's proof expensive.
- RegexSource.TextSpanTracker.EntryBeforeIndex: the same, with `TreeMap.LowerEntryIsLower`.
- TreeMap.FloorEntry: its contract bounds the key and says when it is null; that the entry is in the map and the greatest such is `TreeMap.FloorEntryIsFloor`.
- TreeMap.LowerEntry: the same, with `TreeMap.LowerEntryIsLower`.
- TreeMap.Put: its contract only bounds the size; its effect on the map is `TreeMap.PutAsMap` and on the order `TreeMap.PutSorted`.
- LinkedHashSet.AddAll: its contract only bounds the size; the elements, the order and the absence of duplicates are `AddAllElements`, `AddAllKeepsPrefix` and `AddAllNoDuplicates`.
- String lengths: a Dafny `string` is a sequence of Unicode scalar values, while Java's `String.length()` (JARS:47, 108, 116) counts UTF-16 code units. The model's strings stand for UTF-16 code units; a character outside the Basic Multilingual Plane, which Java counts twice, is not modelled as two units.
- Escaped literals, columns: inside a string literal with escape sequences the code adds offsets into the decoded value to source columns (JARS:76, 78, 81), so the columns it reports there are off even once subMap no longer throws. Both queries of the model do the same; no member states columns for escaped literals.
- Text-block lines: the code takes a line's length with its terminator as both the cursor advance and the span width (JARS:116-118), and the model does the same.
- Negative beginnings: the code picks the floor entry of 0 but subtracts its key from the original beginning (JARS:63-66), so a negative begin gives a span starting left of the entry; the model does the same.
- MethodSymbols.MethodSymbol.ConvertOverriddenSymbols: `sema.methodSymbol` (JMS:124) maps a binding to its symbol one to one, so a method is named by its binding's identity and the mapping is the identity.
- The casts `methodBinding()` (JMS:68-70) and `declaration()` (JMS:160-164) go through the superclass `JSymbol`, which is not part of this model; the binding is a field here.
- TypeHierarchy.WellFormed: requires every class other than java.lang.Object to have a superclass. Otherwise the source would pass a null type to `findOverridesInTypes` and throw a NullPointerException. The compiler never gives such a binding, so that path is not modelled.
- The caches' nulls are `Option`s, and the lists the Java methods hand out (mutable in Java) are values.
- Concurrency: the caches are filled without synchronisation. Only single-threaded use is modelled.

## Findings

| source | as written | input that shows it | evidently intended | confidence | as-written member | corrected member |
|---|---|---|---|---|---|---|
| java-frontend/src/main/java/org/sonar/java/regex/JavaAnalyzerRegexSource.java:79-80 | The spans in between start at the start entry's key plus its span's width in columns. A string literal with escape sequences is wider in the source than its value is long, so that offset overshoots. Inner entries are skipped, or it passes the end entry and `subMap` throws IllegalArgumentException. | `"\t\t" + "ab"` on one line (query offsets [1, 3)): the index is {0: columns 11-15, 2: columns 20-22}, and `subMap(4, 2)` throws. | The spans of the entries strictly after the start entry and before the end entry (`subMap(startIndex + 1, endIndex)`). Without escapes both are the same. The fix does not cover an empty range at a literal boundary: with [3, 3) on `"abc" + "def"` the end entry lies before the start entry, and both versions throw (`RegexSpanProperties.EmptyRangeAtBoundary`, `RegexSpanProperties.AbcDefEmptyAtBoundary`). | not executed | RegexSpans.SpansFor, RegexSpanProperties.EscapedLiteralBreaksQuery | RegexSpans.SpansForCorrected, RegexSpanProperties.CorrectedTiles, RegexSpanProperties.CorrectedAgrees, RegexSource.JavaAnalyzerRegexSource.TextSpansFor |
