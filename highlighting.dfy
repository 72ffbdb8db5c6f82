/**
 * The renderer of fenced code blocks: for one block it resolves attributes,
 * line ranges, style and the nohl opt-out, then either hands the text to
 * chroma (with the wrapper hook around it and the CSS written afterwards) or
 * writes the plain <pre><code> fallback.
 */
module Highlighting {
  import opened Wrappers
  import opened Bytes
  import opened Chroma
  import opened Attributes
  import opened LineRanges
  import opened Output
  import opened Configuration

  const HlLinesName: seq<Byte> := Ascii("hl_lines")
  const HlStyleName: seq<Byte> := Ascii("hl_style")
  const NohlName: seq<Byte> := Ascii("nohl")

  /** One fenced code block, as the host hands it over. */
  datatype FencedCodeBlock = FencedCodeBlock(
    language: Option<seq<Byte>>,     // n.Language(source): None when the block has no info string
    lines: seq<seq<Byte>>,           // the bytes of each of n.Lines()
    attributes: Option<Attributes>)  // n.Attributes(): None when the node has none

  /** The collaborators the renderer consults but does not implement. */
  datatype Collaborators = Collaborators(
    lexers: map<seq<Byte>, Lexer>,                     // lexers.Get: the lexer registered under a name
    tokenises: (Lexer, seq<Byte>) -> bool,             // whether lexer.Tokenise succeeds on a text
    styles: map<seq<Byte>, Style>,                     // styles.Get: the style registered under a name
    fallback: Style,                                   // styles.Fallback
    parseAttributes: seq<Byte> -> Option<Attributes>)  // parser.ParseAttributes on a brace block

  /** What renderFencedCodeBlock returns: (ast.WalkContinue, nil), or a run-time panic. */
  datatype Status = WalkContinue | Panic

  /** The per-block configuration: formatter options so far, the style (None: not found) and nohl. */
  datatype BlockSettings = BlockSettings(options: seq<FormatOption>, style: Option<Style>, nohl: bool)

  /** What rendering one block writes: to the output writer and to the CSS writer; or a panic. */
  datatype Outcome = Panicked | Rendered(out: seq<Event>, css: seq<Event>)

  function LookupStyle(styles: map<seq<Byte>, Style>, name: seq<Byte>): Option<Style>
  {
    if name in styles then Some(styles[name]) else None
  }

  predicate HasAttr(attrs: Option<Attributes>, name: seq<Byte>)
  {
    attrs.Some? && Find(attrs.value, name).Some?
  }

  /** The HighlightLines option the hl_lines attribute adds: none unless it is a list; None when its loop panics. */
  function LinesOptions(attrs: Attributes): Option<seq<FormatOption>>
  {
    var linesAttr := Find(attrs, HlLinesName);
    if linesAttr.None? || !linesAttr.value.Arr? then Some([])
    else
      var hlRanges := Ranges(linesAttr.value.items);
      if hlRanges.None? then None else Some([HighlightLines(hlRanges.value)])
  }

  /** Options, style and nohl after the block's attributes are consulted; None when hl_lines or hl_style panics. */
  function BlockConfig(s: Settings, attrs: Option<Attributes>, env: Collaborators): (r: Option<BlockSettings>)
    ensures attrs.None? ==> r == Some(BlockSettings(s.formatOptions, LookupStyle(env.styles, s.style), false))
    ensures r.Some? ==> s.formatOptions <= r.value.options && |r.value.options| <= |s.formatOptions| + 1
    ensures r.Some? ==> (r.value.nohl <==> HasAttr(attrs, NohlName))
  {
    var style := LookupStyle(env.styles, s.style);
    if attrs.None? then Some(BlockSettings(s.formatOptions, style, false))
    else
      var a := attrs.value;
      var extra := LinesOptions(a);
      var styleAttr := Find(a, HlStyleName);
      if extra.None? then None
      else if styleAttr.Some? && !styleAttr.value.Str? then None
      else
        var style' := if styleAttr.Some? then LookupStyle(env.styles, styleAttr.value.bytes) else style;
        Some(BlockSettings(s.formatOptions + extra.value, style', Find(a, NohlName).Some?))
  }

  /** The lexer that highlights the block, if nohl is absent, a language is given, a lexer is found and it tokenises the text. */
  function ChosenLexer(b: BlockSettings, language: Option<seq<Byte>>, text: seq<Byte>, env: Collaborators): Option<Lexer>
  {
    if !b.nohl && language.Some? && language.value in env.lexers && env.tokenises(env.lexers[language.value], text)
    then Some(env.lexers[language.value])
    else None
  }

  function WrapperEvents(s: Settings, language: Option<seq<Byte>>, attrs: Option<Attributes>, entering: bool): seq<Event>
  {
    if s.wrapper.Some? then [WrapperCall(s.wrapper.value, language, attrs, entering)] else []
  }

  /** The opening of the fallback: the hook, or <pre><code> annotated with the node's own language. */
  function FallbackOpen(s: Settings, nodeLanguage: Option<seq<Byte>>, language: Option<seq<Byte>>,
                        attrs: Option<Attributes>): seq<Event>
  {
    if s.wrapper.Some? then WrapperEvents(s, language, attrs, true)
    else
      [Markup(Ascii("<pre><code"))]
      + (if nodeLanguage.Some?
         then [Markup(Ascii(" class=\"language-")), Escaped(nodeLanguage.value), Markup(Ascii("\""))]
         else [])
      + [Markup(Ascii(">"))]
  }

  function FallbackClose(s: Settings, language: Option<seq<Byte>>, attrs: Option<Attributes>): seq<Event>
  {
    if s.wrapper.Some? then WrapperEvents(s, language, attrs, false) else [Markup(Ascii("</code></pre>\n"))]
  }

  /** Everything renderFencedCodeBlock writes for one block, given the renderer's configuration. */
  function Plan(s: Settings, node: FencedCodeBlock, entering: bool, env: Collaborators): (r: Outcome)
    ensures !entering ==> r == Rendered([], [])
    ensures r.Panicked? ==> entering && ResolveAttributes(node.attributes, node.language, env.parseAttributes).0.Some?
    ensures r.Rendered? ==> |r.css| <= 1 && (r.css != [] ==> s.cssWriter != null)
  {
    if !entering then Rendered([], [])
    else
      var resolved := ResolveAttributes(node.attributes, node.language, env.parseAttributes);
      var attrs := resolved.0;
      var language := resolved.1;
      var b := BlockConfig(s, attrs, env);
      if b.None? then Panicked else Resolved(s, node, language, attrs, b.value, env)
  }

  /** What one block writes once its attributes and settings are resolved: highlighted or the fallback. */
  function Resolved(s: Settings, node: FencedCodeBlock, language: Option<seq<Byte>>, attrs: Option<Attributes>,
                    b: BlockSettings, env: Collaborators): (r: Outcome)
    ensures r.Rendered? && |r.css| <= 1 && (r.css != [] ==> s.cssWriter != null)
    ensures b.nohl ==> r == Rendered(Fallback(s, node, language, attrs), [])
  {
    var text := Concat(node.lines);
    var lexer := ChosenLexer(b, language, text, env);
    if lexer.Some? then Highlighted(s, b.options, b.style.GetOr(env.fallback), language, attrs, lexer.value, text)
    else Rendered(Fallback(s, node, language, attrs), [])
  }

  /** The highlight path: the hook around the formatter's output, then the CSS. */
  function Highlighted(s: Settings, options: seq<FormatOption>, style: Style, language: Option<seq<Byte>>,
                       attrs: Option<Attributes>, lexer: Lexer, text: seq<Byte>): Outcome
  {
    var opts := options + (if s.wrapper.Some? then [PreventSurroundingPre] else []);
    Rendered(WrapperEvents(s, language, attrs, true) + [Formatted(opts, style, lexer, text)]
             + WrapperEvents(s, language, attrs, false),
             if s.cssWriter != null then [CssRules(opts, style)] else [])
  }

  /** The fallback path: opening, the raw lines, closing. */
  function Fallback(s: Settings, node: FencedCodeBlock, language: Option<seq<Byte>>, attrs: Option<Attributes>): seq<Event>
  {
    FallbackOpen(s, node.language, language, attrs) + RawLines(node.lines) + FallbackClose(s, language, attrs)
  }

  /** The extension's HTMLRenderer, holding its Config. */
  class HTMLRenderer {
    const config: Config

    /** NewHTMLRenderer: a default Config with the options applied in order. */
    constructor (opts: seq<HighlightingOption>)
      ensures fresh(config)
      ensures config.Snapshot() == ApplyAll(Defaults, opts)
    {
      var c := new Config();
      for i := 0 to |opts|
        invariant c.Snapshot() == ApplyAll(Defaults, opts[..i])
      {
        assert opts[..i + 1][..i] == opts[..i];
        c.SetHighlightingOption(opts[i]);
      }
      assert opts[..|opts|] == opts;
      config := c;
    }

    /** The style, line-range, hl_style and nohl resolution at the start of renderFencedCodeBlock. */
    method ResolveBlock(attrs: Option<Attributes>, env: Collaborators) returns (b: Option<BlockSettings>)
      ensures b == BlockConfig(config.Snapshot(), attrs, env)
      ensures b.Some? ==> b.value.options[..|config.formatOptions|] == config.formatOptions
      ensures b.Some? && b.value.nohl ==> HasAttr(attrs, NohlName)
    {
      var chromaFormatterOptions := config.formatOptions;
      var style := LookupStyle(env.styles, config.style);
      var nohl := false;
      if attrs.Some? {
        var linesAttr := Find(attrs.value, HlLinesName);
        if linesAttr.Some? {
          if linesAttr.value.Arr? {
            var hlRanges := ExtractRanges(linesAttr.value.items);
            if hlRanges.None? {
              return None;
            }
            chromaFormatterOptions := chromaFormatterOptions + [HighlightLines(hlRanges.value)];
          }
        }
        var styleAttr := Find(attrs.value, HlStyleName);
        if styleAttr.Some? {
          if !styleAttr.value.Str? {
            return None;
          }
          style := LookupStyle(env.styles, styleAttr.value.bytes);
        }
        if Find(attrs.value, NohlName).Some? {
          nohl := true;
        }
        assert chromaFormatterOptions == config.formatOptions + LinesOptions(attrs.value).value;
      }
      return Some(BlockSettings(chromaFormatterOptions, style, nohl));
    }

    /** The bytes.Buffer filled with the block's lines. */
    static method BlockText(lines: seq<seq<Byte>>) returns (buffer: seq<Byte>)
      ensures buffer == Concat(lines)
    {
      buffer := [];
      for i := 0 to |lines|
        invariant buffer == Concat(lines[..i])
      {
        assert lines[..i + 1][..i] == lines[..i];
        buffer := buffer + lines[i];
      }
      assert lines[..|lines|] == lines;
    }

    /** The raw-write loop of the fallback. */
    static method WriteLines(w: Writer, lines: seq<seq<Byte>>)
      modifies w
      ensures w.events == old(w.events) + RawLines(lines)
    {
      for i := 0 to |lines|
        invariant w.events == old(w.events) + RawLines(lines[..i])
      {
        assert lines[..i + 1][..i] == lines[..i];
        w.Write(Raw(lines[i]));
      }
      assert lines[..|lines|] == lines;
    }

    /** The highlight path of renderFencedCodeBlock, given the options so far and the style after the fallback. */
    method WriteHighlighted(w: Writer, options: seq<FormatOption>, style: Style, language: Option<seq<Byte>>,
                            attrs: Option<Attributes>, lexer: Lexer, buffer: seq<Byte>)
      modifies w, config.cssWriter
      ensures var p := Highlighted(config.Snapshot(), options, style, language, attrs, lexer, buffer);
              var c := config.cssWriter;
              && (c == w ==> w.events == old(w.events) + p.out + p.css)
              && (c != w ==> w.events == old(w.events) + p.out && (c != null ==> c.events == old(c.events) + p.css))
    {
      ghost var p := Highlighted(config.Snapshot(), options, style, language, attrs, lexer, buffer);
      var chromaFormatterOptions := options;
      if config.wrapperRenderer.Some? {
        chromaFormatterOptions := chromaFormatterOptions + [PreventSurroundingPre];
      } else {
        assert chromaFormatterOptions + [] == chromaFormatterOptions;
      }
      WriteFormatted(w, language, attrs, Formatted(chromaFormatterOptions, style, lexer, buffer));
      assert w.events == old(w.events) + p.out;
      if config.cssWriter != null {
        config.cssWriter.Write(CssRules(chromaFormatterOptions, style));
      }
    }

    /** The formatter's output between the two calls of the hook. */
    method WriteFormatted(w: Writer, language: Option<seq<Byte>>, attrs: Option<Attributes>, formatted: Event)
      modifies w
      ensures w.events == old(w.events) + WrapperEvents(config.Snapshot(), language, attrs, true) + [formatted]
                          + WrapperEvents(config.Snapshot(), language, attrs, false)
    {
      if config.wrapperRenderer.Some? {
        w.Write(WrapperCall(config.wrapperRenderer.value, language, attrs, true));
      }
      w.Write(formatted);
      if config.wrapperRenderer.Some? {
        w.Write(WrapperCall(config.wrapperRenderer.value, language, attrs, false));
      }
    }

    /** The fallback path of renderFencedCodeBlock. */
    method WriteFallback(w: Writer, node: FencedCodeBlock, language: Option<seq<Byte>>, attrs: Option<Attributes>)
      modifies w
      ensures w.events == old(w.events) + Fallback(config.Snapshot(), node, language, attrs)
    {
      WriteFallbackOpen(w, node.language, language, attrs);
      ghost var afterOpen := w.events;
      WriteLines(w, node.lines);
      assert w.events == afterOpen + RawLines(node.lines);
      ghost var written := w.events;
      if config.wrapperRenderer.Some? {
        w.Write(WrapperCall(config.wrapperRenderer.value, language, attrs, false));
      } else {
        w.Write(Markup(Ascii("</code></pre>\n")));
      }
      assert w.events == written + FallbackClose(config.Snapshot(), language, attrs);
    }

    method WriteFallbackOpen(w: Writer, nodeLanguage: Option<seq<Byte>>, language: Option<seq<Byte>>,
                             attrs: Option<Attributes>)
      modifies w
      ensures w.events == old(w.events) + FallbackOpen(config.Snapshot(), nodeLanguage, language, attrs)
    {
      if config.wrapperRenderer.Some? {
        w.Write(WrapperCall(config.wrapperRenderer.value, language, attrs, true));
      } else {
        w.Write(Markup(Ascii("<pre><code")));
        if nodeLanguage.Some? {
          w.Write(Markup(Ascii(" class=\"language-")));
          w.Write(Escaped(nodeLanguage.value));
          w.Write(Markup(Ascii("\"")));
        }
        w.Write(Markup(Ascii(">")));
      }
    }

    /** renderFencedCodeBlock: writes Plan's output to `w` and its CSS to the configured CSS writer, which may be `w` itself. */
    method RenderFencedCodeBlock(w: Writer, node: FencedCodeBlock, entering: bool, env: Collaborators)
      returns (status: Status)
      modifies w, config.cssWriter
      ensures var p := Plan(config.Snapshot(), node, entering, env);
              var c := config.cssWriter;
              && (status == Panic <==> p.Panicked?)
              && (p.Panicked? ==> w.events == old(w.events) && (c != null ==> c.events == old(c.events)))
              && (p.Rendered? && c == w ==> w.events == old(w.events) + p.out + p.css)
              && (p.Rendered? && c != w ==> w.events == old(w.events) + p.out &&
                                            (c != null ==> c.events == old(c.events) + p.css))
    {
      if !entering {
        return WalkContinue;
      }
      var language := node.language;
      var attrs;
      attrs, language := GetAttributes(node.attributes, language, env.parseAttributes);
      var b := ResolveBlock(attrs, env);
      if b.None? {
        return Panic;
      }
      status := RenderResolved(w, node, language, attrs, b.value, env);
    }

    /** The rest of renderFencedCodeBlock once the attributes and settings are resolved. */
    method RenderResolved(w: Writer, node: FencedCodeBlock, language: Option<seq<Byte>>, attrs: Option<Attributes>,
                          b: BlockSettings, env: Collaborators)
      returns (status: Status)
      modifies w, config.cssWriter
      ensures status == WalkContinue
      ensures var p := Resolved(config.Snapshot(), node, language, attrs, b, env);
              var c := config.cssWriter;
              && p.Rendered?
              && (c == w ==> w.events == old(w.events) + p.out + p.css)
              && (c != w ==> w.events == old(w.events) + p.out && (c != null ==> c.events == old(c.events) + p.css))
    {
      var chromaFormatterOptions := b.options;
      var style := b.style;
      var nohl := b.nohl;

      var lexer: Option<Lexer> := None;
      if language.Some? && language.value in env.lexers {
        lexer := Some(env.lexers[language.value]);
      }
      if !nohl && lexer.Some? {
        if style.None? {
          style := Some(env.fallback);
        }
        assert style.value == b.style.GetOr(env.fallback);
        var buffer := BlockText(node.lines);
        if env.tokenises(lexer.value, buffer) {
          WriteHighlighted(w, chromaFormatterOptions, style.value, language, attrs, lexer.value, buffer);
          return WalkContinue;
        }
      }
      WriteFallback(w, node, language, attrs);
      return WalkContinue;
    }
  }
}
