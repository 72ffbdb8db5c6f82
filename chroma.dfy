/**
 * The chroma values the renderer passes around without looking inside:
 * line ranges, HTML formatter options, styles and lexers.
 */
module Chroma {

  /** A closed range of lines [lo, hi] to emphasise; chroma takes it as a [2]int. */
  datatype Range = Range(lo: int, hi: int)

  /** An option of chroma's HTML formatter (chromahtml.Option). */
  datatype FormatOption =
    | UserOption(id: nat)                // an option the user supplied, e.g. WithClasses()
    | HighlightLines(ranges: seq<Range>) // chromahtml.HighlightLines
    | PreventSurroundingPre              // chromahtml.PreventSurroundingPre()

  /** A style of chroma's style registry. */
  datatype Style = Style(id: nat)

  /** A lexer of chroma's lexer registry. */
  datatype Lexer = Lexer(id: nat)
}
