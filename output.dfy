/**
 * The renderer's output as a trace of writes: literal markup, text that goes
 * through goldmark's escaping writer, calls of the wrapper hook and the work
 * handed to chroma's formatter.
 */
module Output {
  import opened Wrappers
  import opened Bytes
  import opened Chroma
  import opened Attributes

  /** A WrapperRenderer supplied by the user; what it writes is its own affair. */
  datatype Hook = Hook(id: nat)

  datatype Event =
    | Markup(text: seq<Byte>)   // w.WriteString / w.WriteByte
    | Escaped(text: seq<Byte>)  // r.Writer.Write: goldmark's escaping of a value
    | Raw(text: seq<Byte>)      // r.Writer.RawWrite: a source line
    | WrapperCall(hook: Hook, language: Option<seq<Byte>>, attrs: Option<Attributes>, entering: bool)
    | Formatted(options: seq<FormatOption>, style: Style, lexer: Lexer, text: seq<Byte>)
    | CssRules(options: seq<FormatOption>, style: Style)

  /** A util.BufWriter or io.Writer, seen through the sequence of writes it has received. */
  class Writer {
    var events: seq<Event>

    constructor ()
      ensures events == []
    {
      events := [];
    }

    method Write(e: Event)
      modifies this
      ensures events == old(events) + [e]
    {
      events := events + [e];
    }
  }

  /** Writes that put plain bytes on the output: markup, escaped text and raw lines. */
  predicate IsText(e: Event) {
    e.Markup? || e.Escaped? || e.Raw?
  }

  /** The bytes one write puts on the output: markup as is, escaped text and raw lines through their writers; nothing for other writes. */
  function Piece(e: Event, escape: seq<Byte> -> seq<Byte>, raw: seq<Byte> -> seq<Byte>): seq<Byte>
  {
    if e.Markup? then e.text else if e.Escaped? then escape(e.text) else if e.Raw? then raw(e.text) else []
  }

  /** The bytes a run of writes produces, given goldmark's two escaping functions. */
  function Flatten(events: seq<Event>, escape: seq<Byte> -> seq<Byte>, raw: seq<Byte> -> seq<Byte>): seq<Byte>
  {
    if events == [] then [] else Piece(events[0], escape, raw) + Flatten(events[1..], escape, raw)
  }

  lemma {:induction false} FlattenAppend(xs: seq<Event>, ys: seq<Event>,
                                         escape: seq<Byte> -> seq<Byte>, raw: seq<Byte> -> seq<Byte>)
    ensures Flatten(xs + ys, escape, raw) == Flatten(xs, escape, raw) + Flatten(ys, escape, raw)
  {
    if xs == [] {
      assert xs + ys == ys;
    } else {
      assert (xs + ys)[1..] == xs[1..] + ys;
      FlattenAppend(xs[1..], ys, escape, raw);
    }
  }

  /** A source line written raw, one Raw write per line. */
  function RawLines(lines: seq<seq<Byte>>): (r: seq<Event>)
    ensures |r| == |lines|
    ensures forall i :: 0 <= i < |lines| ==> r[i] == Raw(lines[i])
  {
    if lines == [] then [] else RawLines(lines[..|lines| - 1]) + [Raw(lines[|lines| - 1])]
  }

  /** The bytes of the lines, each through the raw writer. */
  function RawBytes(lines: seq<seq<Byte>>, raw: seq<Byte> -> seq<Byte>): seq<Byte>
  {
    if lines == [] then [] else RawBytes(lines[..|lines| - 1], raw) + raw(lines[|lines| - 1])
  }

  /** Writing the lines raw puts exactly their raw bytes on the output, in order. */
  lemma {:induction false} FlattenRawLines(lines: seq<seq<Byte>>,
                                           escape: seq<Byte> -> seq<Byte>, raw: seq<Byte> -> seq<Byte>)
    ensures forall i :: 0 <= i < |RawLines(lines)| ==> IsText(RawLines(lines)[i])
    ensures Flatten(RawLines(lines), escape, raw) == RawBytes(lines, raw)
  {
    if lines != [] {
      var init := lines[..|lines| - 1];
      var last := [Raw(lines[|lines| - 1])];
      FlattenRawLines(init, escape, raw);
      FlattenAppend(RawLines(init), last, escape, raw);
      assert Flatten(last, escape, raw) == raw(lines[|lines| - 1]) by {
        assert last[1..] == [];
      }
    }
  }

  /** With identity escaping, the raw bytes of the lines are their concatenation. */
  lemma {:induction false} RawBytesIdentity(lines: seq<seq<Byte>>)
    ensures RawBytes(lines, x => x) == Concat(lines)
  {
    if lines != [] {
      RawBytesIdentity(lines[..|lines| - 1]);
    }
  }
}
