/** Records shared by every stage of the outline extractor: glyph and text-run
    records delivered by the text-extraction layer, positioned lines, outline
    entries, the output document, heading levels and the fixed thresholds. */
module Records {

  datatype Option<+T> = None | Some(value: T)

  /** One rendered glyph: its vertical position, its size in points and
      whether the name of its font contains "bold". */
  datatype Glyph = Glyph(y: real, fontSize: real, bold: bool)

  /** One text run as the extraction layer reports it, with the page the
      extractor was on when it reported the run. */
  datatype TextRun = TextRun(text: string, positions: seq<Glyph>, page: int)

  /** A positioned line (LineInfo in the source). */
  datatype LineInfo = LineInfo(text: string, fontSize: real, isBold: bool, page: int, y: real)

  datatype OutlineEntry = OutlineEntry(level: string, text: string, page: int)

  /** The document's result: an absent title is `None`. */
  datatype OutlineDocument = OutlineDocument(title: Option<string>, outline: seq<OutlineEntry>)

  /** A heading level, as its index into LevelNames: 0 is "Title", 5 is "H5". */
  type Level = i: int | 0 <= i <= 5

  const LevelNames: seq<string> := ["Title", "H1", "H2", "H3", "H4", "H5"]
  const TitleLevel: Level := 0
  const DeepestLevel: Level := 5

  // Fixed heuristics of the extractor.
  const TopMargin: real := 50.0          // runs starting above this y are dropped
  const BottomMargin: real := 750.0      // runs starting below this y are dropped
  const ParagraphLength: nat := 100      // a line longer than this is body text
  const EarlyPages: int := 4             // pages counted by the repeated-line filter and searched for a title
  const RepeatThreshold: nat := 3        // occurrences that make a text a running header/footer
  const SizeTolerance: real := 1.0       // font sizes closer than this are "the same size"
  const LineGap: real := 40.0            // vertical distance below which lines are joined

  function Abs(x: real): (r: real)
    ensures r >= 0.0 && (r == x || r == -x)
  {
    if x < 0.0 then -x else x
  }

  /** `a` and `b` differ by less than `tol`. */
  predicate Within(a: real, b: real, tol: real)
  {
    Abs(a - b) < tol
  }

  function RealMax(a: real, b: real): (r: real)
    ensures r >= a && r >= b && (r == a || r == b)
  {
    if a >= b then a else b
  }
}
