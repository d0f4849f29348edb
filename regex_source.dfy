/**
 * The regex source built from the string literals and text blocks of a
 * regular expression: the text the regex parser reads, and a tracker that
 * maps offsets of that text back to spans of the Java source. The tracker
 * updates its map and cursor in place; the functions of RegexSpans say what
 * the state becomes.
 */
module RegexSource {
  import opened Wrappers
  import opened TreeMap
  import opened RegexSpans
  import opened RegexSpanProperties
  import opened SeqFacts

  /** `literalsToString`: the constants of the literals in order, or the exception of the first one that is not a String. */
  method LiteralsToString(stringLiterals: seq<Literal>) returns (r: Result<string, LiteralError>)
    ensures r.Ok? <==> AllStrings(stringLiterals)
    ensures r.Ok? ==> r.value == SourceText(stringLiterals)
  {
    var sb := "";
    for i := 0 to |stringLiterals|
      invariant AllStrings(stringLiterals[..i])
      invariant sb == SourceText(stringLiterals[..i])
    {
      var text := GetString(stringLiterals[i]);
      if text.Err? {
        assert stringLiterals[i].constant.None?;
        return Err(text.error);
      }
      assert stringLiterals[..i + 1] == stringLiterals[..i] + [stringLiterals[i]];
      SourceTextSnoc(stringLiterals[..i], stringLiterals[i]);
      sb := sb + text.value;
    }
    assert stringLiterals[..|stringLiterals|] == stringLiterals;
    return Ok(sb);
  }

  /** The map from regex offsets to the spans that start there, and the offset the next literal starts at. */
  class TextSpanTracker {
    var indexToTextSpan: seq<Entry<TextSpan>>
    var index: int

    ghost predicate Valid()
      reads this
    {
      Sorted(indexToTextSpan)
    }

    constructor ()
      ensures Valid() && indexToTextSpan == [] && index == 0
    {
      indexToTextSpan := [];
      index := 0;
    }

    /** `addLiteral`: a text block adds one span per line, any other literal one span. */
    method AddLiteral(literal: Literal, length: nat)
      requires Valid()
      requires literal.isTextBlock ==> literal.constant.Some?
      modifies this
      ensures Valid()
      ensures literal.isTextBlock ==>
        indexToTextSpan == PutPieces(old(indexToTextSpan), old(index), TextBlockPieces(literal.tokenLine, literal.indent, literal.constant.value)) &&
        index == old(index) + |literal.constant.value|
      ensures !literal.isTextBlock ==>
        indexToTextSpan == Put(old(indexToTextSpan), old(index), StrippedSpan(literal.span)) && index == old(index) + length
      ensures literal.constant.Some? && length == |literal.constant.value| ==>
        indexToTextSpan == PutPieces(old(indexToTextSpan), old(index), LiteralPieces(literal)) && index == old(index) + length
    {
      if literal.isTextBlock {
        AddTextBlock(literal);
      } else {
        AddStringLiteral(literal, length);
        assert PutPieces(old(indexToTextSpan), old(index), [Piece(length, StrippedSpan(literal.span))]) == Put(old(indexToTextSpan), old(index), StrippedSpan(literal.span));
      }
    }

    /** `addStringLiteral`: the literal's span without its quotes, at the cursor; the cursor moves by the value's length. */
    method AddStringLiteral(literal: Literal, length: nat)
      requires Valid()
      modifies this
      ensures Valid()
      ensures indexToTextSpan == Put(old(indexToTextSpan), old(index), StrippedSpan(literal.span))
      ensures index == old(index) + length
    {
      var literalSpan := literal.span;
      PutSorted(indexToTextSpan, index, StrippedSpan(literalSpan));
      indexToTextSpan := Put(indexToTextSpan, index, TextSpan(literalSpan.startLine, literalSpan.startCharacter + 1, literalSpan.endLine, literalSpan.endCharacter - 1));
      index := index + length;
    }

    /** `addTextBlock`: one span per line of the value, each at the cursor of the line's first character. */
    method AddTextBlock(literal: Literal)
      requires Valid() && literal.constant.Some?
      modifies this
      ensures Valid()
      ensures indexToTextSpan == PutPieces(old(indexToTextSpan), old(index), TextBlockPieces(literal.tokenLine, literal.indent, literal.constant.value))
      ensures index == old(index) + |literal.constant.value|
    {
      var indent := literal.indent;
      var text := GetString(literal);
      var lines := SplitLines(text.value);
      ghost var pieces := TextBlockPieces(literal.tokenLine, indent, text.value);
      assert |pieces| == |lines|;
      for i := 0 to |lines|
        invariant Valid()
        invariant indexToTextSpan == PutPieces(old(indexToTextSpan), old(index), pieces[..i])
        invariant index == old(index) + TotalLength(pieces[..i])
      {
        var line := literal.tokenLine + i + 1;
        var lineLength := |lines[i]|;
        assert pieces[i] == Piece(lineLength, TextSpan(line, indent, line, indent + lineLength));
        PutPiecesSnoc(old(indexToTextSpan), old(index), pieces, i);
        PutSorted(indexToTextSpan, index, pieces[i].span);
        indexToTextSpan := Put(indexToTextSpan, index, TextSpan(line, indent, line, indent + lineLength));
        index := index + lineLength;
      }
      assert pieces[..|lines|] == pieces;
    }

    /** `entryAtIndex`: the entry with the greatest start offset <= i, or null. */
    function EntryAtIndex(i: int): (r: Option<Entry<TextSpan>>)
      reads this
      requires Valid()
      ensures r.Some? ==> r.value.key <= i
    {
      FloorEntry(indexToTextSpan, i)
    }

    /** `entryBeforeIndex`: the entry with the greatest start offset < i, or null. */
    function EntryBeforeIndex(i: int): (r: Option<Entry<TextSpan>>)
      reads this
      requires Valid()
      ensures r.Some? ==> r.value.key < i
    {
      LowerEntry(indexToTextSpan, i)
    }

    /**
     * `textSpansBetween`: the spans of the entries whose start offsets lie
     * in [startIndex, endIndex), in key order; subMap's
     * IllegalArgumentException when startIndex > endIndex.
     */
    function TextSpansBetween(startIndex: int, endIndex: int): (r: Result<seq<TextSpan>, MapError>)
      reads this
      requires Valid()
      ensures r.Ok? <==> startIndex <= endIndex
      ensures r.Ok? ==> r.value == ValuesBetween(indexToTextSpan, startIndex, endIndex)
    {
      SubMapValues(indexToTextSpan, startIndex, endIndex)
    }

    /**
     * The spans between two offsets are those of one slice of the entries:
     * from the first at or after startIndex to the first at or after endIndex.
     * This is `TreeMap.SubMapSlice` stated for the tracker's map.
     */
    lemma TextSpansBetweenSlice(startIndex: int, endIndex: int)
      requires Valid() && startIndex <= endIndex
      ensures CountBelow(indexToTextSpan, startIndex) <= CountBelow(indexToTextSpan, endIndex)
      ensures TextSpansBetween(startIndex, endIndex) ==
        Ok(Values(indexToTextSpan[CountBelow(indexToTextSpan, startIndex)..CountBelow(indexToTextSpan, endIndex)]))
    {
      SubMapSlice(indexToTextSpan, startIndex, endIndex);
    }

    /** Every span between two offsets is stored at an offset in that range: `TreeMap.ValuesBetweenFrom` stated for the tracker's map. */
    lemma TextSpansBetweenFrom(startIndex: int, endIndex: int)
      requires Valid() && startIndex <= endIndex
      ensures ValuesIn(TextSpansBetween(startIndex, endIndex).value, indexToTextSpan, startIndex, endIndex)
    {
      ValuesBetweenFrom(indexToTextSpan, startIndex, endIndex);
    }
  }

  /** Every quoted literal is as wide as its value: no escape sequences. */
  ghost predicate AllUnescaped(lits: seq<Literal>)
    requires AllStrings(lits)
  {
    forall i :: 0 <= i < |lits| ==> Unescaped(lits[i])
  }

  /** The regex source of a list of literals: its text, and the tracker filled from the literals in order. */
  class JavaAnalyzerRegexSource {
    const sourceText: string
    const indexToTextSpan: TextSpanTracker
    ghost const stringLiterals: seq<Literal>

    ghost predicate Valid()
      reads this, indexToTextSpan
    {
      AllStrings(stringLiterals) &&
      sourceText == SourceText(stringLiterals) &&
      indexToTextSpan.Valid() &&
      indexToTextSpan.indexToTextSpan == BuildIndex(stringLiterals) &&
      indexToTextSpan.index == |sourceText|
    }

    /** The constructor on literals that are all Strings; Create models the exception otherwise. */
    constructor (stringLiterals: seq<Literal>)
      requires AllStrings(stringLiterals)
      ensures Valid() && this.stringLiterals == stringLiterals && fresh(indexToTextSpan)
    {
      var text := LiteralsToString(stringLiterals);
      sourceText := text.value;
      this.stringLiterals := stringLiterals;
      var tracker := new TextSpanTracker();
      for i := 0 to |stringLiterals|
        invariant fresh(tracker) && tracker.Valid()
        invariant AllStrings(stringLiterals[..i])
        invariant tracker.indexToTextSpan == BuildIndex(stringLiterals[..i])
        invariant tracker.index == |SourceText(stringLiterals[..i])|
      {
        var literal := stringLiterals[i];
        var text := GetString(literal);
        BuildIndexSnoc(stringLiterals, i);
        tracker.AddLiteral(literal, |text.value|);
      }
      assert stringLiterals[..|stringLiterals|] == stringLiterals;
      indexToTextSpan := tracker;
    }

    /**
     * `textSpansFor(range)`: the source spans of the offsets [beginningOffset,
     * endingOffset) of the regex, with the spans in between read from the
     * entry after the start entry on (see the corrected query). It needs
     * no more of the object than a tracker whose keys ascend.
     */
    method TextSpansFor(beginningOffset: int, endingOffset: int) returns (r: Result<seq<TextSpan>, QueryError>)
      requires indexToTextSpan.Valid()
      ensures r == SpansForCorrected(indexToTextSpan.indexToTextSpan, beginningOffset, endingOffset)
    {
      var tracker := indexToTextSpan;
      var startEntry := tracker.EntryAtIndex(beginningOffset);
      if beginningOffset < 0 {
        startEntry := tracker.EntryAtIndex(0);
      }
      var endEntry := tracker.EntryBeforeIndex(endingOffset);
      if endingOffset <= 0 {
        endEntry := startEntry;
      }
      ghost var es := tracker.indexToTextSpan;
      assert startEntry == StartEntry(es, beginningOffset);
      assert endEntry == EndEntry(es, beginningOffset, endingOffset);
      if startEntry.None? || endEntry.None? {
        CorrectedNull(es, beginningOffset, endingOffset);
        return Err(NullEntry);
      }
      var startOffset := beginningOffset - startEntry.value.key;
      var endOffset := endingOffset - endEntry.value.key;
      var startSpan, endSpan := startEntry.value.value, endEntry.value.value;
      var result: seq<TextSpan>;
      if startEntry.value.key == endEntry.value.key {
        result := [TextSpan(startSpan.startLine, startSpan.startCharacter + startOffset, startSpan.endLine, startSpan.startCharacter + endOffset)];
        CorrectedSame(es, beginningOffset, endingOffset, startEntry.value, endEntry.value);
      } else {
        result := [TextSpan(startSpan.startLine, startSpan.startCharacter + startOffset, startSpan.endLine, startSpan.endCharacter)];
        var indexAfterStartSpan := startEntry.value.key + 1;
        var between := tracker.TextSpansBetween(indexAfterStartSpan, endEntry.value.key);
        if between.Err? {
          CorrectedCrossed(es, beginningOffset, endingOffset, startEntry.value, endEntry.value);
          return Err(IllegalRange);
        }
        result := result + between.value;
        result := result + [TextSpan(endSpan.startLine, endSpan.startCharacter, endSpan.endLine, endSpan.startCharacter + endOffset)];
        CorrectedApart(es, beginningOffset, endingOffset, startEntry.value, endEntry.value, between.value);
      }
      return Ok(result);
    }

    /**
     * What a query on the index of the literals yields: spans for every
     * non-empty range; on literals without escape sequences the same as the
     * query as written, and for a range inside the text spans exactly as
     * wide as the range.
     */
    lemma TextSpansForGuarantees(beginningOffset: int, endingOffset: int)
      requires Valid()
      ensures stringLiterals != [] && beginningOffset < endingOffset ==>
        SpansForCorrected(indexToTextSpan.indexToTextSpan, beginningOffset, endingOffset).Ok?
      ensures AllUnescaped(stringLiterals) ==>
        SpansForCorrected(indexToTextSpan.indexToTextSpan, beginningOffset, endingOffset) == SpansFor(indexToTextSpan.indexToTextSpan, beginningOffset, endingOffset)
      ensures AllUnescaped(stringLiterals) && 0 <= beginningOffset < endingOffset <= |sourceText| ==>
        SpansFor(indexToTextSpan.indexToTextSpan, beginningOffset, endingOffset).Ok? &&
        TotalWidth(SpansFor(indexToTextSpan.indexToTextSpan, beginningOffset, endingOffset).value) == endingOffset - beginningOffset
    {
      var es := indexToTextSpan.indexToTextSpan;
      if stringLiterals != [] && beginningOffset < endingOffset {
        IndexStartsAtZero(stringLiterals);
        var i, j := CorrectedTiles(es, beginningOffset, endingOffset);
      }
      if AllUnescaped(stringLiterals) {
        BuildIndexContiguous(stringLiterals);
        if es != [] {
          CorrectedAgrees(es, |sourceText|, beginningOffset, endingOffset);
          if 0 <= beginningOffset < endingOffset <= |sourceText| {
            var i, j := SpansForTiles(es, |sourceText|, beginningOffset, endingOffset);
          }
        }
      }
    }
  }

  /** The constructor, with its IllegalArgumentException when a literal is not a String. */
  method Create(stringLiterals: seq<Literal>) returns (r: Result<JavaAnalyzerRegexSource, LiteralError>)
    ensures r.Ok? <==> AllStrings(stringLiterals)
    ensures r.Ok? ==> fresh(r.value) && fresh(r.value.indexToTextSpan) && r.value.Valid() && r.value.stringLiterals == stringLiterals
  {
    if !AllStrings(stringLiterals) {
      return Err(OnlyStringLiteralsAllowed);
    }
    var source := new JavaAnalyzerRegexSource(stringLiterals);
    return Ok(source);
  }
}
