/**
 * What the span index promises: the cursor ends at the length of the regex
 * text, an index built from literals whose quoted width matches their value
 * tiles the text without gaps, and on such an index every query inside the
 * text yields spans covering exactly the queried characters.
 */
module RegexSpanProperties {
  import opened Wrappers
  import opened TreeMap
  import opened RegexSpans
  import opened SeqFacts

  // ---------------------------------------------------------------- lengths

  lemma {:induction false} TotalLengthConcat(a: seq<Piece>, b: seq<Piece>)
    ensures TotalLength(a + b) == TotalLength(a) + TotalLength(b)
  {
    if a != [] {
      TailOfConcat(a, b);
      TotalLengthConcat(a[1..], b);
    } else {
      assert a + b == b;
    }
  }

  lemma {:induction false} PutPiecesConcat(es: seq<Entry<TextSpan>>, c: int, a: seq<Piece>, b: seq<Piece>)
    ensures PutPieces(es, c, a + b) == PutPieces(PutPieces(es, c, a), c + TotalLength(a), b)
    decreases |a|
  {
    if a == [] {
      assert a + b == b;
    } else {
      TailOfConcat(a, b);
      PutPiecesConcat(Put(es, c, a[0].span), c + a[0].length, a[1..], b);
    }
  }

  /** Putting one more piece after a prefix of pieces. */
  lemma PutPiecesSnoc(es: seq<Entry<TextSpan>>, c: int, ps: seq<Piece>, i: nat)
    requires i < |ps|
    ensures PutPieces(es, c, ps[..i + 1]) == Put(PutPieces(es, c, ps[..i]), c + TotalLength(ps[..i]), ps[i].span)
    ensures TotalLength(ps[..i + 1]) == TotalLength(ps[..i]) + ps[i].length
  {
    PrefixSnoc(ps, i);
    PutPiecesConcat(es, c, ps[..i], [ps[i]]);
    TotalLengthConcat(ps[..i], [ps[i]]);
    var before := PutPieces(es, c, ps[..i]);
    var at := c + TotalLength(ps[..i]);
    assert PutPieces(before, at, [ps[i]]) == PutPieces(Put(before, at, ps[i].span), at + ps[i].length, []);
    assert TotalLength([ps[i]]) == ps[i].length + TotalLength([]);
  }

  lemma {:induction false} AllPiecesConcat(a: seq<Literal>, b: seq<Literal>)
    requires AllStrings(a) && AllStrings(b)
    ensures AllStrings(a + b)
    ensures AllPieces(a + b) == AllPieces(a) + AllPieces(b)
    ensures SourceText(a + b) == SourceText(a) + SourceText(b)
  {
    ConcatIndex(a, b);
    if a == [] {
      assert a + b == b;
    } else {
      assert AllStrings(a[1..]) by { TailIndex(a); }
      TailOfConcat(a, b);
      AllPiecesConcat(a[1..], b);
      var head := LiteralPieces(a[0]);
      assert AllPieces(a + b) == head + (AllPieces(a[1..]) + AllPieces(b));
      ConcatAssoc(head, AllPieces(a[1..]), AllPieces(b));
      var text := a[0].constant.value;
      assert SourceText(a + b) == text + (SourceText(a[1..]) + SourceText(b));
      ConcatAssoc(text, SourceText(a[1..]), SourceText(b));
    }
  }

  /** The cursor advances by the length of the literal's String value, whatever its kind. */
  lemma LiteralLength(lit: Literal)
    requires lit.constant.Some?
    ensures TotalLength(LiteralPieces(lit)) == |lit.constant.value|
  {
    if !lit.isTextBlock {
      assert TotalLength(LiteralPieces(lit)) == |lit.constant.value| + TotalLength([]);
    }
  }

  /** After all literals are added the cursor is the length of the regex text. */
  lemma {:induction false} AllPiecesLength(lits: seq<Literal>)
    requires AllStrings(lits)
    ensures TotalLength(AllPieces(lits)) == |SourceText(lits)|
  {
    if lits != [] {
      assert AllStrings(lits[1..]) by {
        TailIndex(lits);
      }
      LiteralLength(lits[0]);
      AllPiecesLength(lits[1..]);
      TotalLengthConcat(LiteralPieces(lits[0]), AllPieces(lits[1..]));
    }
  }

  // ------------------------------------------------------------ contiguity

  /**
   * The index tiles [0, total): the first key is 0, and each entry's span is
   * exactly as wide as the gap to the next key (the last one: to total).
   */
  predicate Contiguous(es: seq<Entry<TextSpan>>, total: int) {
    Sorted(es) && |es| > 0 && es[0].key == 0 && es[|es| - 1].key <= total &&
    (forall i {:trigger Width(es[i].value)} :: 0 <= i < |es| - 1 ==> Width(es[i].value) == es[i + 1].key - es[i].key) &&
    Width(es[|es| - 1].value) == total - es[|es| - 1].key
  }

  /** Contiguous, or still empty before anything was added. */
  predicate ContiguousUpTo(es: seq<Entry<TextSpan>>, total: int) {
    (es == [] && total == 0) || Contiguous(es, total)
  }

  /** A string literal whose quoted span is as wide as its value, that is, one without escape sequences. */
  predicate Unescaped(lit: Literal)
    requires lit.constant.Some?
  {
    lit.isTextBlock || Width(StrippedSpan(lit.span)) == |lit.constant.value|
  }

  /** A put at the cursor of a piece as wide as its length keeps the tiling. */
  lemma PutKeepsContiguous(es: seq<Entry<TextSpan>>, c: int, p: Piece)
    requires ContiguousUpTo(es, c) && Width(p.span) == p.length
    ensures Contiguous(Put(es, c, p.span), c + p.length)
  {
    if es == [] {
      assert Put(es, c, p.span) == [Entry(c, p.span)];
      assert Contiguous([Entry(c, p.span)], c + p.length);
    } else if es[|es| - 1].key < c {
      PutAbove(es, c, p.span);
      ContiguousAppend(es, c, p.span);
    } else {
      PutAtLast(es, c, p.span);
      ContiguousReplaceLast(es, c, p.span);
    }
  }

  /** A span appended at the end of a tiled index extends the tiling. */
  lemma ContiguousAppend(es: seq<Entry<TextSpan>>, c: int, t: TextSpan)
    requires Contiguous(es, c) && es[|es| - 1].key < c && 0 <= Width(t)
    ensures Contiguous(es + [Entry(c, t)], c + Width(t))
  {
    var n := |es|;
    var r := es + [Entry(c, t)];
    assert forall i :: 0 <= i < n ==> r[i] == es[i];
    assert r[n] == Entry(c, t);
    forall i, j | 0 <= i < j < |r|
      ensures r[i].key < r[j].key
    {
      if j == n {
        assert es[i].key <= es[n - 1].key;
      }
    }
    forall i | 0 <= i < |r| - 1
      ensures Width(r[i].value) == r[i + 1].key - r[i].key
    {
      assert Width(es[i].value) == (if i + 1 < n then es[i + 1].key else c) - es[i].key;
    }
  }

  /** A span replacing the empty last entry of a tiled index extends the tiling. */
  lemma ContiguousReplaceLast(es: seq<Entry<TextSpan>>, c: int, t: TextSpan)
    requires Contiguous(es, c) && es[|es| - 1].key == c && 0 <= Width(t)
    ensures Contiguous(es[..|es| - 1] + [Entry(c, t)], c + Width(t))
  {
    var n := |es|;
    var r := es[..n - 1] + [Entry(c, t)];
    assert forall i :: 0 <= i < n - 1 ==> r[i] == es[i];
    assert r[n - 1] == Entry(c, t);
    forall i, j | 0 <= i < j < |r|
      ensures r[i].key < r[j].key
    {
      assert es[i].key < es[j].key;
    }
    forall i | 0 <= i < |r| - 1
      ensures Width(r[i].value) == r[i + 1].key - r[i].key
    {
      assert Width(es[i].value) == es[i + 1].key - es[i].key;
    }
  }

  lemma {:induction false} PutPiecesContiguous(es: seq<Entry<TextSpan>>, c: int, ps: seq<Piece>)
    requires Contiguous(es, c)
    requires Faithful(ps)
    ensures Contiguous(PutPieces(es, c, ps), c + TotalLength(ps))
    decreases |ps|
  {
    if ps != [] {
      FaithfulTail(ps);
      PutKeepsContiguous(es, c, ps[0]);
      var es', c' := Put(es, c, ps[0].span), c + ps[0].length;
      PutPiecesContiguous(es', c', ps[1..]);
      PutPiecesStep(es, c, ps);
      ContiguousSame(PutPieces(es', c', ps[1..]), c' + TotalLength(ps[1..]), PutPieces(es, c, ps), c + TotalLength(ps));
    } else {
      ContiguousSame(es, c, PutPieces(es, c, ps), c + TotalLength(ps));
    }
  }

  lemma ContiguousSame(a: seq<Entry<TextSpan>>, t: int, b: seq<Entry<TextSpan>>, u: int)
    requires Contiguous(a, t) && a == b && t == u
    ensures Contiguous(b, u)
  {
  }

  lemma FaithfulTail(ps: seq<Piece>)
    requires ps != [] && Faithful(ps)
    ensures Width(ps[0].span) == ps[0].length && Faithful(ps[1..])
  {
    TailIndex(ps);
  }

  /** Putting a non-empty run of pieces is putting its first piece and then the rest. */
  lemma PutPiecesStep(es: seq<Entry<TextSpan>>, c: int, ps: seq<Piece>)
    requires ps != []
    ensures PutPieces(es, c, ps) == PutPieces(Put(es, c, ps[0].span), c + ps[0].length, ps[1..])
    ensures c + TotalLength(ps) == c + ps[0].length + TotalLength(ps[1..])
  {
  }

  /** Every piece's span is as wide as the text it stands for. */
  predicate Faithful(ps: seq<Piece>) {
    forall i :: 0 <= i < |ps| ==> Width(ps[i].span) == ps[i].length
  }

  lemma LiteralPiecesFaithful(lit: Literal)
    requires lit.constant.Some? && Unescaped(lit)
    ensures Faithful(LiteralPieces(lit))
  {
  }

  lemma FaithfulConcat(a: seq<Piece>, b: seq<Piece>)
    requires Faithful(a) && Faithful(b)
    ensures Faithful(a + b)
  {
    ConcatIndex(a, b);
  }

  lemma {:induction false} AllPiecesFaithful(lits: seq<Literal>)
    requires AllStrings(lits) && forall i :: 0 <= i < |lits| ==> Unescaped(lits[i])
    ensures Faithful(AllPieces(lits))
  {
    if lits != [] {
      TailIndex(lits);
      LiteralPiecesFaithful(lits[0]);
      AllPiecesFaithful(lits[1..]);
      FaithfulConcat(LiteralPieces(lits[0]), AllPieces(lits[1..]));
    }
  }

  /** Without escape sequences the built index tiles the whole regex text. */
  lemma BuildIndexContiguous(lits: seq<Literal>)
    requires AllStrings(lits) && forall i :: 0 <= i < |lits| ==> Unescaped(lits[i])
    ensures ContiguousUpTo(BuildIndex(lits), |SourceText(lits)|)
  {
    AllPiecesFaithful(lits);
    AllPiecesLength(lits);
    var ps := AllPieces(lits);
    if ps != [] {
      FaithfulTail(ps);
      PutKeepsContiguous([], 0, ps[0]);
      var es', c' := Put([], 0, ps[0].span), ps[0].length;
      PutPiecesContiguous(es', c', ps[1..]);
      PutPiecesStep([], 0, ps);
      ContiguousSame(PutPieces(es', c', ps[1..]), c' + TotalLength(ps[1..]), BuildIndex(lits), |SourceText(lits)|);
    }
  }

  // --------------------------------------------------------------- queries

  /** The entries a query starts and ends in are entries of the index. */
  lemma EntriesIn(es: seq<Entry<TextSpan>>, begin: int, end: int)
    requires Sorted(es)
    ensures StartEntry(es, begin).Some? ==> StartEntry(es, begin).value in es
    ensures EndEntry(es, begin, end).Some? ==> EndEntry(es, begin, end).value in es
  {
    FloorEntryIsFloor(es, if begin < 0 then 0 else begin);
    LowerEntryIsLower(es, end);
  }

  /** The offsets an entry stands for: [key, key + width of its span). */
  predicate Holds(e: Entry<TextSpan>, x: int) {
    e.key <= x < e.key + Width(e.value)
  }

  /** In a tiled index every offset of the text is held by exactly one entry, and that is its floor entry. */
  lemma FloorHolds(es: seq<Entry<TextSpan>>, total: int, x: int) returns (i: nat)
    requires Contiguous(es, total) && 0 <= x < total
    ensures i < |es| && Holds(es[i], x) && FloorEntry(es, x) == Some(es[i])
    ensures forall j :: 0 <= j < |es| && Holds(es[j], x) ==> j == i
  {
    assert es[0] in es;
    FloorEntryIsFloor(es, x);
    var e := FloorEntry(es, x).value;
    i :| 0 <= i < |es| && es[i] == e;
    if i < |es| - 1 {
      assert es[i + 1] in es;
    }
    forall j | 0 <= j < i
      ensures !Holds(es[j], x)
    {
      assert es[j + 1].key <= es[i].key;
    }
    forall j | i < j < |es|
      ensures !Holds(es[j], x)
    {
      assert es[j] in es;
    }
  }

  /** In a tiled index the entry before an end offset in (0, total] is the one holding the offset just below it. */
  lemma LowerHolds(es: seq<Entry<TextSpan>>, total: int, y: int) returns (j: nat)
    requires Contiguous(es, total) && 0 < y <= total
    ensures j < |es| && Holds(es[j], y - 1) && LowerEntry(es, y) == Some(es[j])
  {
    assert es[0] in es;
    LowerEntryIsLower(es, y);
    var e := LowerEntry(es, y).value;
    j :| 0 <= j < |es| && es[j] == e;
    if j < |es| - 1 {
      assert es[j + 1] in es;
    }
  }

  /** The total width of some spans. */
  function TotalWidth(spans: seq<TextSpan>): int {
    if spans == [] then 0 else Width(spans[0]) + TotalWidth(spans[1..])
  }

  lemma {:induction false} TotalWidthConcat(a: seq<TextSpan>, b: seq<TextSpan>)
    ensures TotalWidth(a + b) == TotalWidth(a) + TotalWidth(b)
  {
    if a == [] {
      assert a + b == b;
    } else {
      TailOfConcat(a, b);
      TotalWidthConcat(a[1..], b);
    }
  }

  /** The spans of the entries a..b-1 of a tiled index are as wide as the keys are apart. */
  lemma {:induction false} WidthsTelescope(es: seq<Entry<TextSpan>>, total: int, a: nat, b: nat)
    requires Contiguous(es, total) && a <= b < |es|
    ensures TotalWidth(Values(es[a..b])) == es[b].key - es[a].key
    decreases b - a
  {
    if a < b {
      WidthsTelescope(es, total, a + 1, b);
      SliceTail(es, a, b);
    }
  }

  /**
   * The spans a query from offset begin, held by entry i, to offset end,
   * whose last character is held by entry j, consists of: the rest of entry
   * i from begin on, the whole spans of the entries strictly between i and
   * j, and entry j's span up to end. Within one entry it is a single span.
   */
  function Tiling(es: seq<Entry<TextSpan>>, i: nat, j: nat, begin: int, end: int): seq<TextSpan>
    requires i <= j < |es|
  {
    var s, e := es[i], es[j];
    if i == j then
      [TextSpan(s.value.startLine, s.value.startCharacter + begin - s.key, s.value.endLine, s.value.startCharacter + end - s.key)]
    else
      [TextSpan(s.value.startLine, s.value.startCharacter + begin - s.key, s.value.endLine, s.value.endCharacter)]
      + Values(es[i + 1..j])
      + [TextSpan(e.value.startLine, e.value.startCharacter, e.value.endLine, e.value.startCharacter + end - e.key)]
  }

  /** The tiling between the entries holding begin and end - 1 is exactly as wide as [begin, end). */
  lemma TilingWidth(es: seq<Entry<TextSpan>>, total: int, i: nat, j: nat, begin: int, end: int)
    requires Contiguous(es, total) && i <= j < |es| && Holds(es[i], begin) && Holds(es[j], end - 1)
    ensures TotalWidth(Tiling(es, i, j, begin, end)) == end - begin
  {
    if i == j {
      TilingSame(es, i, begin, end);
    } else {
      WidthsTelescope(es, total, i + 1, j);
      assert Width(es[i].value) == es[i + 1].key - es[i].key;
      TilingApart(es, i, j, begin, end);
    }
  }

  /** A tiling within one entry is one span, from begin to end. */
  lemma TilingSame(es: seq<Entry<TextSpan>>, i: nat, begin: int, end: int)
    requires i < |es|
    ensures TotalWidth(Tiling(es, i, i, begin, end)) == end - begin
  {
    var s := es[i];
    var only := TextSpan(s.value.startLine, s.value.startCharacter + begin - s.key, s.value.endLine, s.value.startCharacter + end - s.key);
    assert Tiling(es, i, i, begin, end) == [only];
    OneWidth(only);
  }

  /** A tiling across entries i < j: the rest of entry i, the entries between, and entry j up to end. */
  lemma TilingApart(es: seq<Entry<TextSpan>>, i: nat, j: nat, begin: int, end: int)
    requires i < j < |es|
    ensures TotalWidth(Tiling(es, i, j, begin, end)) ==
      (Width(es[i].value) - (begin - es[i].key)) + TotalWidth(Values(es[i + 1..j])) + (end - es[j].key)
  {
    var s, e := es[i], es[j];
    var first := TextSpan(s.value.startLine, s.value.startCharacter + begin - s.key, s.value.endLine, s.value.endCharacter);
    var last := TextSpan(e.value.startLine, e.value.startCharacter, e.value.endLine, e.value.startCharacter + end - e.key);
    var middle := Values(es[i + 1..j]);
    assert Tiling(es, i, j, begin, end) == [first] + middle + [last];
    ThreeWidths(first, middle, last);
  }

  lemma OneWidth(t: TextSpan)
    ensures TotalWidth([t]) == Width(t)
  {
    assert TotalWidth([t]) == Width(t) + TotalWidth([]);
  }

  /** The width of a first span, some middle spans and a last span. */
  lemma ThreeWidths(first: TextSpan, middle: seq<TextSpan>, last: TextSpan)
    ensures TotalWidth([first] + middle + [last]) == Width(first) + TotalWidth(middle) + Width(last)
  {
    TotalWidthConcat([first], middle);
    TotalWidthConcat([first] + middle, [last]);
    OneWidth(first);
    OneWidth(last);
  }

  /** The entries with keys from lo, above entry i's and up to entry i + 1's, up to that of entry j are the slice between i and j. */
  lemma MiddleSlice(es: seq<Entry<TextSpan>>, i: nat, j: nat, lo: int)
    requires Sorted(es) && i < j < |es| && es[i].key < lo <= es[i + 1].key
    ensures ValuesBetween(es, lo, es[j].key) == Values(es[i + 1..j])
  {
    ValuesBetweenSlice(es, lo, es[j].key, i + 1, j);
  }

  /** In a sorted index a key no greater than another comes no later. */
  lemma KeyOrder(es: seq<Entry<TextSpan>>, i: nat, j: nat)
    requires Sorted(es) && i < |es| && j < |es| && es[i].key <= es[j].key
    ensures i <= j
  {
  }

  /** A query fails on a missing entry and otherwise assembles its spans from the two entries. */
  lemma QueryFrom(es: seq<Entry<TextSpan>>, begin: int, end: int, m: MiddleStart)
    requires Sorted(es)
    ensures StartEntry(es, begin).None? || EndEntry(es, begin, end).None? ==> Query(es, begin, end, m) == Err(NullEntry)
    ensures StartEntry(es, begin).Some? && EndEntry(es, begin, end).Some? ==>
      Query(es, begin, end, m) == Assemble(es, StartEntry(es, begin).value, EndEntry(es, begin, end).value, begin, end, m)
  {
  }

  /** A query whose start and end entries are the same entry. */
  lemma SpansWithin(es: seq<Entry<TextSpan>>, i: nat, begin: int, end: int, m: MiddleStart)
    requires Sorted(es) && i < |es|
    requires StartEntry(es, begin) == Some(es[i]) && EndEntry(es, begin, end) == Some(es[i])
    ensures Query(es, begin, end, m) == Ok(Tiling(es, i, i, begin, end))
  {
    assert Query(es, begin, end, m) == Assemble(es, es[i], es[i], begin, end, m);
  }

  /** A query whose start and end entries differ, where the middle starts after the start entry and no later than the next one. */
  lemma SpansApart(es: seq<Entry<TextSpan>>, i: nat, j: nat, begin: int, end: int, m: MiddleStart)
    requires Sorted(es) && i < j < |es|
    requires StartEntry(es, begin) == Some(es[i]) && EndEntry(es, begin, end) == Some(es[j])
    requires es[i].key < MiddleFrom(es[i], m) <= es[i + 1].key
    ensures Query(es, begin, end, m) == Ok(Tiling(es, i, j, begin, end))
  {
    MiddleSlice(es, i, j, MiddleFrom(es[i], m));
    AssembleApart(es, es[i], es[j], begin, end, m, Values(es[i + 1..j]));
    assert Query(es, begin, end, m) == Assemble(es, es[i], es[j], begin, end, m);
  }

  lemma AssembleSame(es: seq<Entry<TextSpan>>, s: Entry<TextSpan>, e: Entry<TextSpan>, begin: int, end: int, m: MiddleStart)
    requires s.key == e.key
    ensures Assemble(es, s, e, begin, end, m) ==
      Ok([TextSpan(s.value.startLine, s.value.startCharacter + begin - s.key, s.value.endLine, s.value.startCharacter + end - e.key)])
  {
  }

  lemma AssembleCrossed(es: seq<Entry<TextSpan>>, s: Entry<TextSpan>, e: Entry<TextSpan>, begin: int, end: int, m: MiddleStart)
    requires s.key != e.key && MiddleFrom(s, m) > e.key
    ensures Assemble(es, s, e, begin, end, m) == Err(IllegalRange)
  {
  }

  lemma AssembleApart(es: seq<Entry<TextSpan>>, s: Entry<TextSpan>, e: Entry<TextSpan>, begin: int, end: int, m: MiddleStart, between: seq<TextSpan>)
    requires s.key != e.key && MiddleFrom(s, m) <= e.key && ValuesBetween(es, MiddleFrom(s, m), e.key) == between
    ensures Assemble(es, s, e, begin, end, m) ==
      Ok([TextSpan(s.value.startLine, s.value.startCharacter + begin - s.key, s.value.endLine, s.value.endCharacter)]
         + between
         + [TextSpan(e.value.startLine, e.value.startCharacter, e.value.endLine, e.value.startCharacter + end - e.key)])
  {
  }

  /** The corrected query when one of its two entries is missing. */
  lemma CorrectedNull(es: seq<Entry<TextSpan>>, begin: int, end: int)
    requires Sorted(es) && (StartEntry(es, begin).None? || EndEntry(es, begin, end).None?)
    ensures SpansForCorrected(es, begin, end) == Err(NullEntry)
  {
  }

  /** The corrected query when it starts and ends in entry s. */
  lemma CorrectedSame(es: seq<Entry<TextSpan>>, begin: int, end: int, s: Entry<TextSpan>, e: Entry<TextSpan>)
    requires Sorted(es) && StartEntry(es, begin) == Some(s) && EndEntry(es, begin, end) == Some(e) && s.key == e.key
    ensures SpansForCorrected(es, begin, end) ==
      Ok([TextSpan(s.value.startLine, s.value.startCharacter + (begin - s.key), s.value.endLine, s.value.startCharacter + (end - e.key))])
  {
    QueryFrom(es, begin, end, StartPlusOne);
    AssembleSame(es, s, e, begin, end, StartPlusOne);
  }

  /** The corrected query when its end entry lies below the entry after its start entry. */
  lemma CorrectedCrossed(es: seq<Entry<TextSpan>>, begin: int, end: int, s: Entry<TextSpan>, e: Entry<TextSpan>)
    requires Sorted(es) && StartEntry(es, begin) == Some(s) && EndEntry(es, begin, end) == Some(e)
    requires s.key != e.key && s.key + 1 > e.key
    ensures SpansForCorrected(es, begin, end) == Err(IllegalRange)
  {
    QueryFrom(es, begin, end, StartPlusOne);
    AssembleCrossed(es, s, e, begin, end, StartPlusOne);
  }

  /** The corrected query across distinct entries s and e, with the spans in between. */
  lemma CorrectedApart(es: seq<Entry<TextSpan>>, begin: int, end: int, s: Entry<TextSpan>, e: Entry<TextSpan>, between: seq<TextSpan>)
    requires Sorted(es) && StartEntry(es, begin) == Some(s) && EndEntry(es, begin, end) == Some(e)
    requires s.key != e.key && s.key + 1 <= e.key && ValuesBetween(es, s.key + 1, e.key) == between
    ensures SpansForCorrected(es, begin, end) ==
      Ok([TextSpan(s.value.startLine, s.value.startCharacter + (begin - s.key), s.value.endLine, s.value.endCharacter)]
         + between
         + [TextSpan(e.value.startLine, e.value.startCharacter, e.value.endLine, e.value.startCharacter + (end - e.key))])
  {
    QueryFrom(es, begin, end, StartPlusOne);
    AssembleApart(es, s, e, begin, end, StartPlusOne, between);
  }

  /**
   * On a tiled index every query inside the text succeeds: it yields the
   * tiling between the entries holding its first and its last character, and
   * the spans are exactly as wide as the queried range.
   */
  lemma SpansForTiles(es: seq<Entry<TextSpan>>, total: int, begin: int, end: int) returns (i: nat, j: nat)
    requires Contiguous(es, total) && 0 <= begin < end <= total
    ensures i <= j < |es| && Holds(es[i], begin) && Holds(es[j], end - 1)
    ensures SpansFor(es, begin, end) == Ok(Tiling(es, i, j, begin, end))
    ensures TotalWidth(Tiling(es, i, j, begin, end)) == end - begin
  {
    i := FloorHolds(es, total, begin);
    j := LowerHolds(es, total, end);
    assert es[i] in es;
    KeyOrder(es, i, j);
    assert StartEntry(es, begin) == Some(es[i]) && EndEntry(es, begin, end) == Some(es[j]);
    if i < j {
      assert Width(es[i].value) == es[i + 1].key - es[i].key;
      SpansApart(es, i, j, begin, end, StartPlusWidth);
    } else {
      SpansWithin(es, i, begin, end, StartPlusWidth);
    }
    TilingWidth(es, total, i, j, begin, end);
  }

  /** The first entry of an index starting at key 0 holds every beginning, and an end <= 0 stays in it. */
  lemma NonPositiveEnd(es: seq<Entry<TextSpan>>, begin: int, end: int) returns (i: nat)
    requires Sorted(es) && es != [] && es[0].key == 0 && end <= 0
    ensures i < |es| && StartEntry(es, begin) == Some(es[i])
    ensures es[i].key <= (if begin < 0 then 0 else begin)
    ensures SpansFor(es, begin, end) == Ok(Tiling(es, i, i, begin, end))
  {
    assert es[0] in es;
    EntriesIn(es, begin, end);
    var e := StartEntry(es, begin).value;
    i :| 0 <= i < |es| && es[i] == e;
    SpansWithin(es, i, begin, end, StartPlusWidth);
  }

  /**
   * The corrected query never throws on an index starting at key 0: for any
   * begin < end it yields the tiling between its start and end entries, the
   * spans in between being exactly those of the entries strictly between.
   */
  lemma CorrectedTiles(es: seq<Entry<TextSpan>>, begin: int, end: int) returns (i: nat, j: nat)
    requires Sorted(es) && es != [] && es[0].key == 0 && begin < end
    ensures i <= j < |es| && StartEntry(es, begin) == Some(es[i]) && EndEntry(es, begin, end) == Some(es[j])
    ensures SpansForCorrected(es, begin, end) == Ok(Tiling(es, i, j, begin, end))
  {
    assert es[0] in es;
    FloorEntryIsFloor(es, if begin < 0 then 0 else begin);
    LowerEntryIsLower(es, end);
    var s := StartEntry(es, begin).value;
    i :| 0 <= i < |es| && es[i] == s;
    if end <= 0 {
      j := i;
    } else {
      var e := LowerEntry(es, end).value;
      j :| 0 <= j < |es| && es[j] == e;
      assert es[i] in es;
      KeyOrder(es, i, j);
    }
    if i < j {
      SpansApart(es, i, j, begin, end, StartPlusOne);
    } else {
      SpansWithin(es, i, begin, end, StartPlusOne);
    }
  }

  /** On an index that tiles the text the corrected query answers every query as the source does. */
  lemma CorrectedAgrees(es: seq<Entry<TextSpan>>, total: int, begin: int, end: int)
    requires Contiguous(es, total)
    ensures SpansForCorrected(es, begin, end) == SpansFor(es, begin, end)
  {
    var startEntry, endEntry := StartEntry(es, begin), EndEntry(es, begin, end);
    EntriesIn(es, begin, end);
    if startEntry.Some? && endEntry.Some? {
      var s, e := startEntry.value, endEntry.value;
      var i :| 0 <= i < |es| && es[i] == s;
      var j :| 0 <= j < |es| && es[j] == e;
      assert SpansFor(es, begin, end) == Assemble(es, s, e, begin, end, StartPlusWidth);
      assert SpansForCorrected(es, begin, end) == Assemble(es, s, e, begin, end, StartPlusOne);
      if i < j {
        assert Width(es[i].value) == es[i + 1].key - es[i].key;
        SpansApart(es, i, j, begin, end, StartPlusWidth);
        SpansApart(es, i, j, begin, end, StartPlusOne);
      } else if j < i {
        CrossedEntries(es, total, i, j);
      }
    }
  }

  /** When the end entry comes before the start entry both middles start above the end key. */
  lemma CrossedEntries(es: seq<Entry<TextSpan>>, total: int, i: nat, j: nat)
    requires Contiguous(es, total) && j < i < |es|
    ensures MiddleFrom(es[i], StartPlusWidth) > es[j].key && MiddleFrom(es[i], StartPlusOne) > es[j].key
  {
    if i < |es| - 1 {
      assert Width(es[i].value) == es[i + 1].key - es[i].key;
    }
  }

  // ----------------------------------------------------------- single line

  predicate SingleLine(t: TextSpan) {
    t.startLine == t.endLine
  }

  predicate EntriesSingleLine(es: seq<Entry<TextSpan>>) {
    forall i :: 0 <= i < |es| ==> SingleLine(es[i].value)
  }

  predicate PiecesSingleLine(ps: seq<Piece>) {
    forall i :: 0 <= i < |ps| ==> SingleLine(ps[i].span)
  }

  lemma {:induction false} PutPiecesSingleLine(es: seq<Entry<TextSpan>>, c: int, ps: seq<Piece>)
    requires EntriesSingleLine(es) && PiecesSingleLine(ps)
    ensures EntriesSingleLine(PutPieces(es, c, ps))
    decreases |ps|
  {
    if ps != [] {
      var es' := Put(es, c, ps[0].span);
      PutSingleLine(es, c, ps[0].span);
      assert PiecesSingleLine(ps[1..]) by {
        TailIndex(ps);
      }
      PutPiecesSingleLine(es', c + ps[0].length, ps[1..]);
      PutPiecesStep(es, c, ps);
    }
  }

  lemma PutSingleLine(es: seq<Entry<TextSpan>>, c: int, t: TextSpan)
    requires EntriesSingleLine(es) && SingleLine(t)
    ensures EntriesSingleLine(Put(es, c, t))
  {
    PutElements(es, c, t);
    forall i | 0 <= i < |Put(es, c, t)|
      ensures SingleLine(Put(es, c, t)[i].value)
    {
      if Put(es, c, t)[i] != Entry(c, t) {
        var k :| 0 <= k < |es| && es[k] == Put(es, c, t)[i];
      }
    }
  }

  lemma SingleLineConcat(a: seq<Piece>, b: seq<Piece>)
    requires PiecesSingleLine(a) && PiecesSingleLine(b)
    ensures PiecesSingleLine(a + b)
  {
    ConcatIndex(a, b);
  }

  lemma {:induction false} AllPiecesSingleLine(lits: seq<Literal>)
    requires AllStrings(lits) && forall i :: 0 <= i < |lits| ==> lits[i].isTextBlock || SingleLine(lits[i].span)
    ensures PiecesSingleLine(AllPieces(lits))
  {
    if lits != [] {
      TailIndex(lits);
      var head := LiteralPieces(lits[0]);
      assert PiecesSingleLine(head);
      AllPiecesSingleLine(lits[1..]);
      SingleLineConcat(head, AllPieces(lits[1..]));
    }
  }

  /** Text-block lines are single source lines; so, when every string literal sits on one line, is every entry. */
  lemma BuildIndexSingleLine(lits: seq<Literal>)
    requires AllStrings(lits) && forall i :: 0 <= i < |lits| ==> lits[i].isTextBlock || SingleLine(lits[i].span)
    ensures EntriesSingleLine(BuildIndex(lits))
  {
    AllPiecesSingleLine(lits);
    PutPiecesSingleLine([], 0, AllPieces(lits));
  }

  /** On an index of single-line entries every span a query yields is single-line. */
  lemma QuerySingleLine(es: seq<Entry<TextSpan>>, begin: int, end: int, m: MiddleStart)
    requires Sorted(es) && EntriesSingleLine(es) && Query(es, begin, end, m).Ok?
    ensures forall k :: 0 <= k < |Query(es, begin, end, m).value| ==> SingleLine(Query(es, begin, end, m).value[k])
  {
    var s, e := StartEntry(es, begin).value, EndEntry(es, begin, end).value;
    EntriesIn(es, begin, end);
    var i :| 0 <= i < |es| && es[i] == s;
    var j :| 0 <= j < |es| && es[j] == e;
    assert Query(es, begin, end, m) == Assemble(es, s, e, begin, end, m);
    AssembleSingleLine(es, s, e, begin, end, m);
  }

  lemma AssembleSingleLine(es: seq<Entry<TextSpan>>, s: Entry<TextSpan>, e: Entry<TextSpan>, begin: int, end: int, m: MiddleStart)
    requires EntriesSingleLine(es) && SingleLine(s.value) && SingleLine(e.value) && Assemble(es, s, e, begin, end, m).Ok?
    ensures forall k :: 0 <= k < |Assemble(es, s, e, begin, end, m).value| ==> SingleLine(Assemble(es, s, e, begin, end, m).value[k])
  {
    if s.key != e.key {
      var between := ValuesBetween(es, MiddleFrom(s, m), e.key);
      ValuesBetweenFrom(es, MiddleFrom(s, m), e.key);
      assert forall k :: 0 <= k < |between| ==> SingleLine(between[k]);
      var first := TextSpan(s.value.startLine, s.value.startCharacter + begin - s.key, s.value.endLine, s.value.endCharacter);
      var last := TextSpan(e.value.startLine, e.value.startCharacter, e.value.endLine, e.value.startCharacter + end - e.key);
      AssembleApart(es, s, e, begin, end, m, between);
      var r := [first] + between + [last];
      assert forall k :: 0 <= k < |r| ==> r[k] == (if k == 0 then first else if k <= |between| then between[k - 1] else last);
    }
  }

  // ---------------------------------------------------------- construction

  /** Adding literal i to the index of the literals before it gives the index of the first i + 1. */
  lemma BuildIndexSnoc(lits: seq<Literal>, i: nat)
    requires AllStrings(lits) && i < |lits|
    ensures AllStrings(lits[..i]) && AllStrings(lits[..i + 1])
    ensures SourceText(lits[..i + 1]) == SourceText(lits[..i]) + lits[i].constant.value
    ensures BuildIndex(lits[..i + 1]) == PutPieces(BuildIndex(lits[..i]), |SourceText(lits[..i])|, LiteralPieces(lits[i]))
  {
    PrefixSnoc(lits, i);
    assert AllStrings(lits[..i]) by {
      assert forall k :: 0 <= k < i ==> lits[..i][k] == lits[k];
    }
    BuildIndexAppend(lits[..i], lits[i]);
  }

  /** Adding a String literal to the index of some literals gives the index of all of them. */
  lemma BuildIndexAppend(lits: seq<Literal>, lit: Literal)
    requires AllStrings(lits) && lit.constant.Some?
    ensures AllStrings(lits + [lit])
    ensures SourceText(lits + [lit]) == SourceText(lits) + lit.constant.value
    ensures BuildIndex(lits + [lit]) == PutPieces(BuildIndex(lits), |SourceText(lits)|, LiteralPieces(lit))
  {
    SingleLiteral(lit);
    AllPiecesConcat(lits, [lit]);
    var ps, qs := AllPieces(lits), LiteralPieces(lit);
    AllPiecesLength(lits);
    IndexOfPieces(lits + [lit], ps + qs);
    IndexOfPieces(lits, ps);
    PiecesAppend(ps, qs, |SourceText(lits)|);
  }

  lemma IndexOfPieces(lits: seq<Literal>, ps: seq<Piece>)
    requires AllStrings(lits) && AllPieces(lits) == ps
    ensures BuildIndex(lits) == PutPieces([], 0, ps)
  {
  }

  lemma PiecesAppend(ps: seq<Piece>, qs: seq<Piece>, n: int)
    requires TotalLength(ps) == n
    ensures PutPieces([], 0, ps + qs) == PutPieces(PutPieces([], 0, ps), n, qs)
  {
    PutPiecesConcat([], 0, ps, qs);
  }

  lemma SingleLiteral(lit: Literal)
    requires lit.constant.Some?
    ensures AllStrings([lit]) && AllPieces([lit]) == LiteralPieces(lit) && SourceText([lit]) == lit.constant.value
  {
    assert [lit][1..] == [];
    assert AllPieces([lit]) == LiteralPieces(lit) + [];
    assert SourceText([lit]) == lit.constant.value + "";
  }

  /** Appending a String literal appends its constant to the text. */
  lemma SourceTextSnoc(lits: seq<Literal>, lit: Literal)
    requires AllStrings(lits) && lit.constant.Some?
    ensures AllStrings(lits + [lit]) && SourceText(lits + [lit]) == SourceText(lits) + lit.constant.value
  {
    SingleLiteral(lit);
    AllPiecesConcat(lits, [lit]);
  }

  /** Puts at non-negative cursors never displace an entry at key 0. */
  lemma {:induction false} PutPiecesKeepsZero(es: seq<Entry<TextSpan>>, c: int, ps: seq<Piece>)
    requires es != [] && es[0].key == 0 && c >= 0
    ensures PutPieces(es, c, ps) != [] && PutPieces(es, c, ps)[0].key == 0
    decreases |ps|
  {
    if ps != [] {
      var es' := Put(es, c, ps[0].span);
      assert es' != [] && es'[0].key == 0;
      PutPiecesKeepsZero(es', c + ps[0].length, ps[1..]);
    }
  }

  /** Every literal adds at least one entry, so the index of some literals starts at offset 0. */
  lemma IndexStartsAtZero(lits: seq<Literal>)
    requires AllStrings(lits) && lits != []
    ensures BuildIndex(lits) != [] && BuildIndex(lits)[0].key == 0
  {
    var ps := AllPieces(lits);
    assert |LiteralPieces(lits[0])| > 0;
    assert ps != [] && ps[0] == LiteralPieces(lits[0])[0];
    assert BuildIndex(lits) == PutPieces(Put([], 0, ps[0].span), ps[0].length, ps[1..]);
    PutPiecesKeepsZero(Put([], 0, ps[0].span), ps[0].length, ps[1..]);
  }

  // -------------------------------------------------------------- examples

  /** `"abc" + "def"` on one line, the quotes of the literals at columns 10, 14, 18 and 22. */
  function AbcDef(): seq<Literal> {
    [Literal(false, TextSpan(1, 10, 1, 15), Some("abc"), 1, 0),
     Literal(false, TextSpan(1, 18, 1, 23), Some("def"), 1, 0)]
  }

  lemma AbcDefText()
    ensures AllStrings(AbcDef()) && SourceText(AbcDef()) == "abcdef"
    ensures AllPieces(AbcDef()) == [Piece(3, TextSpan(1, 11, 1, 14)), Piece(3, TextSpan(1, 19, 1, 22))]
  {
    var lits := AbcDef();
    assert lits[1..][1..] == [];
    assert SourceText(lits) == "abc" + ("def" + "");
  }

  lemma AbcDefIndex()
    ensures AllStrings(AbcDef())
    ensures BuildIndex(AbcDef()) == [Entry(0, TextSpan(1, 11, 1, 14)), Entry(3, TextSpan(1, 19, 1, 22))]
  {
    AbcDefText();
    var ps := AllPieces(AbcDef());
    var es0 := Put([], 0, TextSpan(1, 11, 1, 14));
    assert es0 == [Entry(0, TextSpan(1, 11, 1, 14))];
    PutAbove(es0, 3, TextSpan(1, 19, 1, 22));
    assert ps[1..][1..] == [];
  }

  /** The index of `"abc" + "def"`. */
  predicate IsAbcDefIndex(es: seq<Entry<TextSpan>>) {
    es == [Entry(0, TextSpan(1, 11, 1, 14)), Entry(3, TextSpan(1, 19, 1, 22))]
  }

  lemma AcrossOn(es: seq<Entry<TextSpan>>)
    requires IsAbcDefIndex(es)
    ensures Sorted(es) && SpansFor(es, 2, 4) == Ok([TextSpan(1, 13, 1, 14), TextSpan(1, 19, 1, 20)])
  {
    assert Contiguous(es, 6);
    var i := FloorHolds(es, 6, 2);
    assert Holds(es[0], 2);
    var j := LowerHolds(es, 6, 4);
    assert !Holds(es[0], 3);
    SpansApart(es, 0, 1, 2, 4, StartPlusWidth);
    assert Values(es[1..1]) == [];
    assert Tiling(es, 0, 1, 2, 4) == [TextSpan(1, 13, 1, 14), TextSpan(1, 19, 1, 20)];
  }

  /** On the index of `"abc" + "def"` the characters "cd" are column 13 of the first literal and column 19 of the second. */
  lemma AbcDefAcross()
    ensures AllStrings(AbcDef())
    ensures SpansFor(BuildIndex(AbcDef()), 2, 4) == Ok([TextSpan(1, 13, 1, 14), TextSpan(1, 19, 1, 20)])
  {
    AbcDefIndex();
    AcrossOn(BuildIndex(AbcDef()));
  }

  /** On the index of `"abc" + "def"` the characters "def" are the second literal without its quotes. */
  lemma AbcDefSecond()
    ensures AllStrings(AbcDef())
    ensures SpansFor(BuildIndex(AbcDef()), 3, 6) == Ok([TextSpan(1, 19, 1, 22)])
  {
    AbcDefIndex();
    var es := BuildIndex(AbcDef());
    assert Contiguous(es, 6);
    var i, j := SpansForTiles(es, 6, 3, 6);
    assert i == 1 && j == 1;
  }

  /**
   * A text block whose opening delimiter is on line 5 and whose value is
   * "ab\ncd": its two lines are source lines 6 and 7, both indented by 4.
   */
  function AbCd(): seq<Literal> {
    [Literal(true, TextSpan(5, 15, 7, 9), Some("ab\ncd"), 5, 4)]
  }

  /** The value splits after its terminator, which stays with the first line. */
  lemma AbCdLines()
    ensures SplitLines("ab\ncd") == ["ab\n", "cd"]
  {
    var s := "ab\ncd";
    assert FirstLineLength(s) == 3;
    assert s[..3] == "ab\n" && s[3..] == "cd";
    assert FirstLineLength("cd") == 2;
    assert "cd"[..2] == "cd" && "cd"[2..] == [];
  }

  /**
   * The block gives one entry per line: offset 0 at columns 4-7 of line 6
   * (the terminator takes a column), and offset 3 at columns 4-6 of line 7.
   */
  lemma AbCdIndex()
    ensures AllStrings(AbCd()) && SourceText(AbCd()) == "ab\ncd"
    ensures BuildIndex(AbCd()) == [Entry(0, TextSpan(6, 4, 6, 7)), Entry(3, TextSpan(7, 4, 7, 6))]
  {
    var lits := AbCd();
    AbCdLines();
    assert lits[1..] == [];
    assert SourceText(lits) == "ab\ncd" + "";
    var ps := AllPieces(lits);
    assert ps == LiteralPieces(lits[0]) + [];
    assert ps == [Piece(3, TextSpan(6, 4, 6, 7)), Piece(2, TextSpan(7, 4, 7, 6))];
    var es0 := Put([], 0, TextSpan(6, 4, 6, 7));
    assert es0 == [Entry(0, TextSpan(6, 4, 6, 7))];
    PutAbove(es0, 3, TextSpan(7, 4, 7, 6));
    assert ps[1..][1..] == [];
  }

  /** The index of the text block "ab\ncd". */
  predicate IsAbCdIndex(es: seq<Entry<TextSpan>>) {
    es == [Entry(0, TextSpan(6, 4, 6, 7)), Entry(3, TextSpan(7, 4, 7, 6))]
  }

  lemma AbCdAcrossOn(es: seq<Entry<TextSpan>>)
    requires IsAbCdIndex(es)
    ensures Sorted(es)
    ensures SpansFor(es, 1, 4) == Ok([TextSpan(6, 5, 6, 7), TextSpan(7, 4, 7, 5)])
    ensures SpansForCorrected(es, 1, 4) == SpansFor(es, 1, 4)
  {
    assert Contiguous(es, 5);
    var i, j := SpansForTiles(es, 5, 1, 4);
    assert Holds(es[0], 1) && !Holds(es[0], 3);
    assert i == 0 && j == 1;
    assert Values(es[1..1]) == [];
    assert Tiling(es, 0, 1, 1, 4) == [TextSpan(6, 5, 6, 7), TextSpan(7, 4, 7, 5)];
    CorrectedAgrees(es, 5, 1, 4);
  }

  /** The characters "b\nc" of the block are the end of line 6 and the first column of line 7, under either query. */
  lemma AbCdAcross()
    ensures AllStrings(AbCd())
    ensures SpansFor(BuildIndex(AbCd()), 1, 4) == Ok([TextSpan(6, 5, 6, 7), TextSpan(7, 4, 7, 5)])
    ensures SpansForCorrected(BuildIndex(AbCd()), 1, 4) == SpansFor(BuildIndex(AbCd()), 1, 4)
  {
    AbCdIndex();
    AbCdAcrossOn(BuildIndex(AbCd()));
  }

  // --------------------------------------------------------------- finding

  /**
   * `"\t\t" + "ab"` on one line: the first literal is six columns wide
   * (10 to 16) but its value is two characters long.
   */
  function Escaped(): seq<Literal> {
    [Literal(false, TextSpan(1, 10, 1, 16), Some("\t\t"), 1, 0),
     Literal(false, TextSpan(1, 19, 1, 23), Some("ab"), 1, 0)]
  }

  lemma EscapedIndex()
    ensures AllStrings(Escaped()) && !Unescaped(Escaped()[0])
    ensures BuildIndex(Escaped()) == [Entry(0, TextSpan(1, 11, 1, 15)), Entry(2, TextSpan(1, 20, 1, 22))]
  {
    var lits := Escaped();
    assert lits[1..][1..] == [];
    var ps := AllPieces(lits);
    assert ps == [Piece(2, TextSpan(1, 11, 1, 15)), Piece(2, TextSpan(1, 20, 1, 22))];
    var es0 := Put([], 0, TextSpan(1, 11, 1, 15));
    assert es0 == [Entry(0, TextSpan(1, 11, 1, 15))];
    PutAbove(es0, 2, TextSpan(1, 20, 1, 22));
    assert ps[1..][1..] == [];
  }

  lemma EscapedOn(es: seq<Entry<TextSpan>>)
    requires es == [Entry(0, TextSpan(1, 11, 1, 15)), Entry(2, TextSpan(1, 20, 1, 22))]
    ensures Sorted(es)
    ensures SpansFor(es, 1, 3) == Err(IllegalRange)
    ensures SpansForCorrected(es, 1, 3) == Ok([TextSpan(1, 12, 1, 15), TextSpan(1, 20, 1, 21)])
  {
    assert es[1..][1..] == [];
    assert FloorEntry(es, 1) == Some(es[0]);
    assert LowerEntry(es[1..], 3) == Some(es[1]);
    assert LowerEntry(es, 3) == Some(es[1]);
    assert SpansFor(es, 1, 3) == Assemble(es, es[0], es[1], 1, 3, StartPlusWidth);
    assert SpansForCorrected(es, 1, 3) == Assemble(es, es[0], es[1], 1, 3, StartPlusOne);
    ValuesBetweenSlice(es, 1, 2, 1, 1);
    assert Values(es[1..1]) == [];
    AssembleApart(es, es[0], es[1], 1, 3, StartPlusOne, []);
    assert [TextSpan(1, 12, 1, 15)] + [] + [TextSpan(1, 20, 1, 21)] == [TextSpan(1, 12, 1, 15), TextSpan(1, 20, 1, 21)];
  }

  /**
   * The text `\t\t` + `ab`, query [1, 3) (the second tab and the "a"): the
   * source computes the start of the middle spans as 0 + 4 from the quoted
   * width, which is past the next key 2, and subMap(4, 2) throws
   * IllegalArgumentException; the corrected query yields the two spans.
   */
  lemma EscapedLiteralBreaksQuery()
    ensures AllStrings(Escaped())
    ensures SpansFor(BuildIndex(Escaped()), 1, 3) == Err(IllegalRange)
    ensures SpansForCorrected(BuildIndex(Escaped()), 1, 3) == Ok([TextSpan(1, 12, 1, 15), TextSpan(1, 20, 1, 21)])
  {
    EscapedIndex();
    EscapedOn(BuildIndex(Escaped()));
  }

  /**
   * An empty range [k, k) at the offset k > 0 where an entry starts: the
   * start entry is that entry and the end entry an earlier one, so subMap
   * throws in the query as written and in the corrected one alike.
   */
  lemma EmptyRangeAtBoundary(es: seq<Entry<TextSpan>>, i: nat)
    requires Sorted(es) && 0 < i < |es| && 0 < es[i].key
    requires forall j :: 0 <= j < |es| ==> 0 <= Width(es[j].value)
    ensures SpansFor(es, es[i].key, es[i].key) == Err(IllegalRange)
    ensures SpansForCorrected(es, es[i].key, es[i].key) == Err(IllegalRange)
  {
    var k := es[i].key;
    FloorEntryIsFloor(es, k);
    LowerEntryIsLower(es, k);
    assert es[0].key < k;
    var s := FloorEntry(es, k).value;
    var e := LowerEntry(es, k).value;
    assert s.key == k;
    var j :| 0 <= j < |es| && es[j] == s;
    assert 0 <= Width(s.value);
  }

  /** On the index of `"abc" + "def"` the empty range at offset 3, where "def" starts, throws under both queries. */
  lemma AbcDefEmptyAtBoundary()
    ensures AllStrings(AbcDef())
    ensures SpansFor(BuildIndex(AbcDef()), 3, 3) == Err(IllegalRange)
    ensures SpansForCorrected(BuildIndex(AbcDef()), 3, 3) == Err(IllegalRange)
  {
    AbcDefIndex();
    var es := BuildIndex(AbcDef());
    assert es[1].key == 3;
    EmptyRangeAtBoundary(es, 1);
  }
}
