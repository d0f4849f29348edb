/**
 * The offset index behind a regular expression written as one or more
 * string literals or text blocks: the flat source text, the index from
 * offsets of that text to single-line source spans, and the query that maps
 * an offset range back to spans. Everything here is a value; the classes in
 * module RegexSource update their state step by step to match it.
 */
module RegexSpans {
  import opened Wrappers
  import opened TreeMap

  /** Source coordinates: lines, and columns with an exclusive end. */
  datatype TextSpan = TextSpan(startLine: int, startCharacter: int, endLine: int, endCharacter: int)

  /**
   * A literal of the tree: whether it is a text block, its span as written
   * (quotes included), its String constant value if it has one (escapes
   * decoded), the line of its opening token, and the indentation of a text
   * block as the tree utilities compute it.
   */
  datatype Literal = Literal(isTextBlock: bool, span: TextSpan, constant: Option<string>, tokenLine: int, indent: int)

  /** IllegalArgumentException("Only string literals allowed"). */
  datatype LiteralError = OnlyStringLiteralsAllowed

  /** What a query can throw: a NullPointerException on a missing entry, or subMap's IllegalArgumentException. */
  datatype QueryError = NullEntry | IllegalRange

  /** `getString`: the String constant of the literal, or the exception. */
  function GetString(lit: Literal): (r: Result<string, LiteralError>)
    ensures r.Ok? <==> lit.constant.Some?
    ensures r.Ok? ==> r.value == lit.constant.value
  {
    match lit.constant
    case Some(s) => Ok(s)
    case None => Err(OnlyStringLiteralsAllowed)
  }

  predicate AllStrings(lits: seq<Literal>) {
    forall i :: 0 <= i < |lits| ==> lits[i].constant.Some?
  }

  /** The regex text: the constants of the literals, one after the other. */
  function SourceText(lits: seq<Literal>): string
    requires AllStrings(lits)
  {
    if lits == [] then "" else lits[0].constant.value + SourceText(lits[1..])
  }

  function Concat(lines: seq<string>): string {
    if lines == [] then "" else lines[0] + Concat(lines[1..])
  }

  /** Length of the first line of s, its line terminator included. */
  function FirstLineLength(s: string): (n: nat)
    requires s != []
    ensures 0 < n <= |s|
    ensures forall k :: 0 <= k < n - 1 ==> s[k] != '\n'
    ensures n < |s| ==> s[n - 1] == '\n'
  {
    if s[0] == '\n' || |s| == 1 then 1 else 1 + FirstLineLength(s[1..])
  }

  /** s cut right after every '\n'; each piece keeps its terminator ("\r\n" stays whole). */
  function SplitAfterNewlines(s: string): (lines: seq<string>)
    ensures Concat(lines) == s
    ensures forall i :: 0 <= i < |lines| ==> |lines[i]| > 0
    decreases |s|
  {
    if s == [] then []
    else
      var n := FirstLineLength(s);
      var rest := SplitAfterNewlines(s[n..]);
      assert s == s[..n] + s[n..];
      [s[..n]] + rest
  }

  /** Each line but the last ends with '\n', and no line holds a '\n' before its end. */
  predicate Lines(lines: seq<string>) {
    (forall i :: 0 <= i < |lines| - 1 ==> |lines[i]| > 0 && lines[i][|lines[i]| - 1] == '\n') &&
    (forall i, k :: 0 <= i < |lines| && 0 <= k < |lines[i]| - 1 ==> lines[i][k] != '\n')
  }

  /** A first line that holds '\n' only at its end, and ends with one when more lines follow, keeps Lines. */
  lemma LinesCons(first: string, rest: seq<string>)
    requires |first| > 0 && forall k :: 0 <= k < |first| - 1 ==> first[k] != '\n'
    requires rest != [] ==> first[|first| - 1] == '\n'
    requires Lines(rest)
    ensures Lines([first] + rest)
  {
    var lines := [first] + rest;
    assert forall i :: 1 <= i < |lines| ==> lines[i] == rest[i - 1];
  }

  lemma {:induction false} SplitAfterNewlinesLines(s: string)
    ensures Lines(SplitAfterNewlines(s))
    decreases |s|
  {
    if s != [] {
      var n := FirstLineLength(s);
      SplitAfterNewlinesLines(s[n..]);
      var rest := SplitAfterNewlines(s[n..]);
      if rest != [] {
        assert s[n..] != [];
      }
      LinesCons(s[..n], rest);
    }
  }

  /**
   * `s.split("(?<=\r?\n)")`: a split after every line terminator; Java drops
   * the empty piece after a final terminator, and splitting "" gives [""].
   */
  function SplitLines(s: string): (lines: seq<string>)
    ensures |lines| > 0 && Concat(lines) == s
  {
    if s == [] then [""] else SplitAfterNewlines(s)
  }

  /**
   * The lines of a text block's value join back to it; each but the last
   * ends with its terminator and none holds one before its end; for a
   * non-empty value no line is empty, so there is no trailing empty line.
   */
  lemma SplitLinesShape(s: string)
    ensures var lines := SplitLines(s);
      Concat(lines) == s && Lines(lines) && (s != [] ==> forall i :: 0 <= i < |lines| ==> |lines[i]| > 0)
  {
    if s != [] {
      SplitAfterNewlinesLines(s);
    }
  }

  /** What one put into the index adds: the length the cursor advances by, and the span stored at the cursor. */
  datatype Piece = Piece(length: nat, span: TextSpan)

  /** The span of a string literal with both quotes left out. */
  function StrippedSpan(span: TextSpan): TextSpan {
    TextSpan(span.startLine, span.startCharacter + 1, span.endLine, span.endCharacter - 1)
  }

  /**
   * One piece per split line i: source line tokenLine + i + 1, columns
   * [indent, indent + line length). Every piece is one source line as wide as
   * its share of the value, and the shares add up to the whole value.
   */
  function TextBlockPieces(tokenLine: int, indent: int, value: string): (ps: seq<Piece>)
    ensures |ps| == |SplitLines(value)|
    ensures forall i :: 0 <= i < |ps| ==> ps[i].span.startLine == ps[i].span.endLine && Width(ps[i].span) == ps[i].length
    ensures TotalLength(ps) == |value|
  {
    var lines := SplitLines(value);
    var ps := seq(|lines|, i requires 0 <= i < |lines| =>
      Piece(|lines[i]|, TextSpan(tokenLine + i + 1, indent, tokenLine + i + 1, indent + |lines[i]|)));
    PiecesOfLines(ps, lines);
    ps
  }

  /** Pieces with the lengths of some lines advance the cursor by the length of the joined lines. */
  lemma {:induction false} PiecesOfLines(ps: seq<Piece>, lines: seq<string>)
    requires |ps| == |lines| && forall i :: 0 <= i < |ps| ==> ps[i].length == |lines[i]|
    ensures TotalLength(ps) == |Concat(lines)|
  {
    if ps != [] {
      PiecesOfLines(ps[1..], lines[1..]);
    }
  }

  function LiteralPieces(lit: Literal): seq<Piece>
    requires lit.constant.Some?
  {
    if lit.isTextBlock then TextBlockPieces(lit.tokenLine, lit.indent, lit.constant.value)
    else [Piece(|lit.constant.value|, StrippedSpan(lit.span))]
  }

  function AllPieces(lits: seq<Literal>): seq<Piece>
    requires AllStrings(lits)
  {
    if lits == [] then [] else LiteralPieces(lits[0]) + AllPieces(lits[1..])
  }

  function TotalLength(ps: seq<Piece>): int {
    if ps == [] then 0 else ps[0].length + TotalLength(ps[1..])
  }

  /** The index after putting each piece at the running cursor, starting from cursor c. */
  function PutPieces(es: seq<Entry<TextSpan>>, c: int, ps: seq<Piece>): seq<Entry<TextSpan>>
    decreases |ps|
  {
    if ps == [] then es else PutPieces(Put(es, c, ps[0].span), c + ps[0].length, ps[1..])
  }

  /** Putting pieces keeps the keys in ascending order. */
  lemma {:induction false} PutPiecesSorted(es: seq<Entry<TextSpan>>, c: int, ps: seq<Piece>)
    requires Sorted(es)
    ensures Sorted(PutPieces(es, c, ps))
    decreases |ps|
  {
    if ps != [] {
      PutSorted(es, c, ps[0].span);
      PutPiecesSorted(Put(es, c, ps[0].span), c + ps[0].length, ps[1..]);
    }
  }

  /** The index the constructor builds from the literals. */
  function BuildIndex(lits: seq<Literal>): (r: seq<Entry<TextSpan>>)
    requires AllStrings(lits)
    ensures Sorted(r)
  {
    PutPiecesSorted([], 0, AllPieces(lits));
    PutPieces([], 0, AllPieces(lits))
  }

  function Width(span: TextSpan): int {
    span.endCharacter - span.startCharacter
  }

  /**
   * Where the spans between the first and the last one start: the source
   * takes the start entry's key plus the width of its span; the corrected
   * query takes the first key after the start entry's.
   */
  datatype MiddleStart = StartPlusWidth | StartPlusOne

  function MiddleFrom(s: Entry<TextSpan>, m: MiddleStart): int {
    match m
    case StartPlusWidth => s.key + s.value.endCharacter - s.value.startCharacter
    case StartPlusOne => s.key + 1
  }

  /** The entry a query starts in: the floor entry of its beginning, or of 0 for a negative beginning. */
  function StartEntry(es: seq<Entry<TextSpan>>, begin: int): Option<Entry<TextSpan>>
    requires Sorted(es)
  {
    if begin < 0 then FloorEntry(es, 0) else FloorEntry(es, begin)
  }

  /** The entry a query ends in: the last one starting before its end, or the start entry for an end <= 0. */
  function EndEntry(es: seq<Entry<TextSpan>>, begin: int, end: int): Option<Entry<TextSpan>>
    requires Sorted(es)
  {
    if end <= 0 then StartEntry(es, begin) else LowerEntry(es, end)
  }

  /**
   * The spans for the offsets [begin, end), exceptions included. The source
   * compares the two spans by identity; every put stores a span of its own,
   * so that is the same as comparing the keys.
   */
  function Query(es: seq<Entry<TextSpan>>, begin: int, end: int, m: MiddleStart): (r: Result<seq<TextSpan>, QueryError>)
    requires Sorted(es)
    ensures r == Err(NullEntry) <==> es == [] || (if begin < 0 then 0 else begin) < es[0].key || 0 < end <= es[0].key
    ensures r.Ok? ==> |r.value| >= 1
  {
    var startEntry, endEntry := StartEntry(es, begin), EndEntry(es, begin, end);
    if startEntry.None? || endEntry.None? then Err(NullEntry)
    else Assemble(es, startEntry.value, endEntry.value, begin, end, m)
  }

  /** The spans from offset begin in entry s to offset end in entry e. */
  function Assemble(es: seq<Entry<TextSpan>>, s: Entry<TextSpan>, e: Entry<TextSpan>, begin: int, end: int, m: MiddleStart): (r: Result<seq<TextSpan>, QueryError>)
    ensures r.Err? <==> s.key != e.key && MiddleFrom(s, m) > e.key
    ensures r.Err? ==> r.error == IllegalRange
    ensures r.Ok? ==> |r.value| >= 1 && r.value[0].startLine == s.value.startLine
                      && r.value[0].startCharacter == s.value.startCharacter + (begin - s.key)
    ensures r.Ok? && s.key != e.key ==>
      r.value[|r.value| - 1] == TextSpan(e.value.startLine, e.value.startCharacter, e.value.endLine, e.value.startCharacter + (end - e.key))
  {
    var startOffset, endOffset := begin - s.key, end - e.key;
    if s.key == e.key then
      Ok([TextSpan(s.value.startLine, s.value.startCharacter + startOffset, s.value.endLine, s.value.startCharacter + endOffset)])
    else
      match SubMapValues(es, MiddleFrom(s, m), e.key)
      case Err(_) => Err(IllegalRange)
      case Ok(between) =>
        Ok([TextSpan(s.value.startLine, s.value.startCharacter + startOffset, s.value.endLine, s.value.endCharacter)]
           + between
           + [TextSpan(e.value.startLine, e.value.startCharacter, e.value.endLine, e.value.startCharacter + endOffset)])
  }

  /** `textSpansFor(range)` as written. */
  function SpansFor(es: seq<Entry<TextSpan>>, begin: int, end: int): (r: Result<seq<TextSpan>, QueryError>)
    requires Sorted(es)
    ensures r == Err(IllegalRange) <==>
      StartEntry(es, begin).Some? && EndEntry(es, begin, end).Some? &&
      StartEntry(es, begin).value.key != EndEntry(es, begin, end).value.key &&
      StartEntry(es, begin).value.key + Width(StartEntry(es, begin).value.value) > EndEntry(es, begin, end).value.key
  {
    Query(es, begin, end, StartPlusWidth)
  }

  /** `textSpansFor(range)` with the spans in between taken from the entries after the start entry. */
  function SpansForCorrected(es: seq<Entry<TextSpan>>, begin: int, end: int): (r: Result<seq<TextSpan>, QueryError>)
    requires Sorted(es)
    ensures r == Err(IllegalRange) <==>
      StartEntry(es, begin).Some? && EndEntry(es, begin, end).Some? &&
      EndEntry(es, begin, end).value.key < StartEntry(es, begin).value.key
  {
    Query(es, begin, end, StartPlusOne)
  }
}
