/**
 * What renderFencedCodeBlock promises about one block, stated over Plan: when
 * it highlights, what it hands the formatter, how it calls the wrapper hook,
 * the exact fallback markup, when the CSS is written and when it panics.
 */
module RenderProperties {
  import opened Wrappers
  import opened Bytes
  import opened Chroma
  import opened Attributes
  import opened LineRanges
  import opened Output
  import opened Configuration
  import opened Highlighting

  /** The output holds formatter output. */
  predicate HasFormatted(events: seq<Event>) {
    exists i :: 0 <= i < |events| && events[i].Formatted?
  }

  /** The calls of the wrapper hook among the writes, in order. */
  function WrapperCalls(events: seq<Event>): seq<Event>
  {
    if events == [] then []
    else WrapperCalls(events[..|events| - 1])
         + (if events[|events| - 1].WrapperCall? then [events[|events| - 1]] else [])
  }

  lemma {:induction false} WrapperCallsAppend(xs: seq<Event>, ys: seq<Event>)
    ensures WrapperCalls(xs + ys) == WrapperCalls(xs) + WrapperCalls(ys)
    decreases |ys|
  {
    if ys == [] {
      assert xs + ys == xs;
    } else {
      var ys' := ys[..|ys| - 1];
      assert (xs + ys)[..|xs + ys| - 1] == xs + ys';
      WrapperCallsAppend(xs, ys');
    }
  }

  /** No wrapper call among events that are not wrapper calls. */
  lemma {:induction false} WrapperCallsNone(events: seq<Event>)
    requires forall i :: 0 <= i < |events| ==> !events[i].WrapperCall?
    ensures WrapperCalls(events) == []
  {
    if events != [] {
      WrapperCallsNone(events[..|events| - 1]);
    }
  }

  /** The attributes and language the block resolves to. */
  function ResolvedAttrs(node: FencedCodeBlock, env: Collaborators): Option<Attributes>
  {
    ResolveAttributes(node.attributes, node.language, env.parseAttributes).0
  }

  function ResolvedLanguage(node: FencedCodeBlock, env: Collaborators): Option<seq<Byte>>
  {
    ResolveAttributes(node.attributes, node.language, env.parseAttributes).1
  }

  /** The conditions under which the source takes the highlight path, in the source's own terms. */
  predicate HighlightConditions(node: FencedCodeBlock, env: Collaborators)
  {
    var attrs := ResolvedAttrs(node, env);
    var language := ResolvedLanguage(node, env);
    && !HasAttr(attrs, NohlName)
    && language.Some?
    && language.value in env.lexers
    && env.tokenises(env.lexers[language.value], Concat(node.lines))
  }

  /** The style name in force: hl_style when given, else the renderer's. */
  function StyleName(s: Settings, attrs: Option<Attributes>): seq<Byte>
  {
    if attrs.Some? && Find(attrs.value, HlStyleName).Some? && Find(attrs.value, HlStyleName).value.Str?
    then Find(attrs.value, HlStyleName).value.bytes
    else s.style
  }

  lemma BlockConfigShape(s: Settings, attrs: Option<Attributes>, env: Collaborators)
    requires BlockConfig(s, attrs, env).Some?
    ensures BlockConfig(s, attrs, env).value.nohl <==> HasAttr(attrs, NohlName)
    ensures BlockConfig(s, attrs, env).value.style == LookupStyle(env.styles, StyleName(s, attrs))
    ensures BlockConfig(s, attrs, env).value.options ==
            s.formatOptions + (if attrs.Some? then LinesOptions(attrs.value).value else [])
  {
    if attrs.None? {
      assert s.formatOptions + [] == s.formatOptions;
    }
  }

  lemma FallbackHasNoFormatted(s: Settings, node: FencedCodeBlock, language: Option<seq<Byte>>,
                               attrs: Option<Attributes>)
    ensures !HasFormatted(Fallback(s, node, language, attrs))
  {
    var open := FallbackOpen(s, node.language, language, attrs);
    var out := Fallback(s, node, language, attrs);
    forall i | 0 <= i < |out| ensures !out[i].Formatted? {
      if i >= |open| + |node.lines| {
        assert out[i] in FallbackClose(s, language, attrs);
      } else if i >= |open| {
        assert out[i] == RawLines(node.lines)[i - |open|];
      } else {
        assert out[i] in open;
      }
    }
  }

  /**
   * The highlight path is taken exactly when nohl is absent, a language is
   * given, a lexer is found for it and tokenising succeeds.
   */
  lemma HighlightPathIff(s: Settings, node: FencedCodeBlock, env: Collaborators)
    requires Plan(s, node, true, env).Rendered?
    ensures HasFormatted(Plan(s, node, true, env).out) <==> HighlightConditions(node, env)
  {
    var attrs := ResolvedAttrs(node, env);
    var language := ResolvedLanguage(node, env);
    var b := BlockConfig(s, attrs, env).value;
    BlockConfigShape(s, attrs, env);
    var lexer := ChosenLexer(b, language, Concat(node.lines), env);
    var p := Plan(s, node, true, env);
    if lexer.Some? {
      var k := |WrapperEvents(s, language, attrs, true)|;
      assert p.out[k].Formatted?;
    } else {
      FallbackHasNoFormatted(s, node, language, attrs);
    }
  }

  /** nohl forces the fallback, whatever the language. */
  lemma NohlForcesFallback(s: Settings, node: FencedCodeBlock, env: Collaborators)
    requires Plan(s, node, true, env).Rendered?
    requires HasAttr(ResolvedAttrs(node, env), NohlName)
    ensures Plan(s, node, true, env).out ==
            Fallback(s, node, ResolvedLanguage(node, env), ResolvedAttrs(node, env))
    ensures Plan(s, node, true, env).css == []
  {
    BlockConfigShape(s, ResolvedAttrs(node, env), env);
  }

  /** Whenever the highlight conditions fail, the output is the fallback and no CSS is written. */
  lemma OtherwiseFallback(s: Settings, node: FencedCodeBlock, env: Collaborators)
    requires Plan(s, node, true, env).Rendered?
    requires !HighlightConditions(node, env)
    ensures Plan(s, node, true, env).out ==
            Fallback(s, node, ResolvedLanguage(node, env), ResolvedAttrs(node, env))
    ensures Plan(s, node, true, env).css == []
  {
    BlockConfigShape(s, ResolvedAttrs(node, env), env);
  }

  lemma FlattenSingle(e: Event, escape: seq<Byte> -> seq<Byte>, raw: seq<Byte> -> seq<Byte>)
    ensures Flatten([e], escape, raw) == Piece(e, escape, raw)
  {
    assert [e][1..] == [];
  }

  /** The bytes of the class annotation of the fallback. */
  lemma FlattenClass(language: Option<seq<Byte>>, escape: seq<Byte> -> seq<Byte>, raw: seq<Byte> -> seq<Byte>)
    ensures var cls := if language.Some?
                       then [Markup(Ascii(" class=\"language-")), Escaped(language.value), Markup(Ascii("\""))]
                       else [];
            && (forall i :: 0 <= i < |cls| ==> IsText(cls[i]))
            && Flatten(cls, escape, raw) ==
               (if language.Some? then Ascii(" class=\"language-") + escape(language.value) + Ascii("\"") else [])
  {
    if language.Some? {
      var a, b, c := Markup(Ascii(" class=\"language-")), Escaped(language.value), Markup(Ascii("\""));
      FlattenSingle(a, escape, raw);
      FlattenSingle(b, escape, raw);
      FlattenSingle(c, escape, raw);
      FlattenAppend([a], [b], escape, raw);
      FlattenAppend([a] + [b], [c], escape, raw);
      assert [a, b, c] == [a] + [b] + [c];
    }
  }

  /**
   * Without a wrapper the fallback writes exactly <pre><code, a class
   * attribute with the escaped language of the node (not the one stripped of
   * attributes) when it has one, >, each line raw, and </code></pre> and a newline.
   */
  lemma FallbackMarkup(s: Settings, node: FencedCodeBlock, env: Collaborators,
                       escape: seq<Byte> -> seq<Byte>, raw: seq<Byte> -> seq<Byte>)
    requires Plan(s, node, true, env).Rendered?
    requires s.wrapper.None?
    requires !HighlightConditions(node, env)
    ensures forall i :: 0 <= i < |Plan(s, node, true, env).out| ==> IsText(Plan(s, node, true, env).out[i])
    ensures Flatten(Plan(s, node, true, env).out, escape, raw) ==
            Ascii("<pre><code")
            + (if node.language.Some? then Ascii(" class=\"language-") + escape(node.language.value) + Ascii("\"") else [])
            + Ascii(">")
            + RawBytes(node.lines, raw)
            + Ascii("</code></pre>\n")
  {
    OtherwiseFallback(s, node, env);
    var language := ResolvedLanguage(node, env);
    var attrs := ResolvedAttrs(node, env);
    var open := FallbackOpen(s, node.language, language, attrs);
    var lines := RawLines(node.lines);
    var close := FallbackClose(s, language, attrs);
    FallbackOpenBytes(s, node.language, language, attrs, escape, raw);
    FlattenRawLines(node.lines, escape, raw);
    assert close == [Markup(Ascii("</code></pre>\n"))];
    FlattenSingle(close[0], escape, raw);
    FlattenAppend(open, lines, escape, raw);
    FlattenAppend(open + lines, close, escape, raw);
  }

  /** The bytes of the fallback's opening tags when no wrapper is set. */
  lemma FallbackOpenBytes(s: Settings, nodeLanguage: Option<seq<Byte>>, language: Option<seq<Byte>>,
                          attrs: Option<Attributes>, escape: seq<Byte> -> seq<Byte>, raw: seq<Byte> -> seq<Byte>)
    requires s.wrapper.None?
    ensures var open := FallbackOpen(s, nodeLanguage, language, attrs);
            && (forall i :: 0 <= i < |open| ==> IsText(open[i]))
            && Flatten(open, escape, raw) ==
               Ascii("<pre><code")
               + (if nodeLanguage.Some? then Ascii(" class=\"language-") + escape(nodeLanguage.value) + Ascii("\"") else [])
               + Ascii(">")
  {
    var head := [Markup(Ascii("<pre><code"))];
    var cls := if nodeLanguage.Some?
               then [Markup(Ascii(" class=\"language-")), Escaped(nodeLanguage.value), Markup(Ascii("\""))]
               else [];
    var gt := [Markup(Ascii(">"))];
    assert FallbackOpen(s, nodeLanguage, language, attrs) == head + cls + gt;
    FlattenSingle(head[0], escape, raw);
    FlattenSingle(gt[0], escape, raw);
    FlattenClass(nodeLanguage, escape, raw);
    FlattenAppend(head, cls, escape, raw);
    FlattenAppend(head + cls, gt, escape, raw);
  }

  /**
   * Read with writers that copy their input, the fallback output is the
   * block's own text, unchanged, between the opening tags and </code></pre>.
   */
  lemma FallbackCarriesText(s: Settings, node: FencedCodeBlock, env: Collaborators)
    requires Plan(s, node, true, env).Rendered?
    requires s.wrapper.None?
    requires !HighlightConditions(node, env)
    ensures Flatten(Plan(s, node, true, env).out, x => x, x => x) ==
            Ascii("<pre><code")
            + (if node.language.Some? then Ascii(" class=\"language-") + node.language.value + Ascii("\"") else [])
            + Ascii(">")
            + Concat(node.lines)
            + Ascii("</code></pre>\n")
  {
    FallbackMarkup(s, node, env, x => x, x => x);
    RawBytesIdentity(node.lines);
  }

  /** A single write is a wrapper call exactly when it is kept by WrapperCalls. */
  lemma WrapperCallsSingle(e: Event)
    ensures WrapperCalls([e]) == if e.WrapperCall? then [e] else []
  {
    assert [e][..0] == [];
  }

  /** Writes bracketed by one entering and one leaving call hold exactly those two calls. */
  lemma Bracketed(enter: Event, middle: seq<Event>, leave: Event)
    requires enter.WrapperCall? && leave.WrapperCall?
    requires forall i :: 0 <= i < |middle| ==> !middle[i].WrapperCall?
    ensures WrapperCalls([enter] + middle + [leave]) == [enter, leave]
  {
    var front := [enter] + middle;
    BracketFront(enter, middle);
    WrapperCallsSingle(leave);
    WrapperCallsAppend(front, [leave]);
    assert WrapperCalls(front + [leave]) == [enter] + [leave];
  }

  lemma BracketFront(enter: Event, middle: seq<Event>)
    requires enter.WrapperCall?
    requires forall i :: 0 <= i < |middle| ==> !middle[i].WrapperCall?
    ensures WrapperCalls([enter] + middle) == [enter]
  {
    WrapperCallsNone(middle);
    WrapperCallsSingle(enter);
    WrapperCallsAppend([enter], middle);
    assert [enter] + [] == [enter];
  }

  /** Writes without wrapper calls around the lines hold none. */
  lemma Unbracketed(open: seq<Event>, middle: seq<Event>, close: seq<Event>)
    requires forall i :: 0 <= i < |open| ==> !open[i].WrapperCall?
    requires forall i :: 0 <= i < |middle| ==> !middle[i].WrapperCall?
    requires forall i :: 0 <= i < |close| ==> !close[i].WrapperCall?
    ensures WrapperCalls(open + middle + close) == []
  {
    WrapperCallsNone(open);
    WrapperCallsNone(middle);
    WrapperCallsNone(close);
    WrapperCallsAppend(open, middle);
    WrapperCallsAppend(open + middle, close);
  }

  /**
   * When a wrapper is set it is called exactly twice, on either path: first
   * entering and last leaving, with the stripped language and the resolved
   * attributes; without one it is never called.
   */
  lemma WrapperProtocol(s: Settings, node: FencedCodeBlock, env: Collaborators)
    requires Plan(s, node, true, env).Rendered?
    ensures s.wrapper.Some? ==>
            var out := Plan(s, node, true, env).out;
            var enter := WrapperCall(s.wrapper.value, ResolvedLanguage(node, env), ResolvedAttrs(node, env), true);
            var leave := WrapperCall(s.wrapper.value, ResolvedLanguage(node, env), ResolvedAttrs(node, env), false);
            |out| >= 2 && out[0] == enter && out[|out| - 1] == leave && WrapperCalls(out) == [enter, leave]
    ensures s.wrapper.None? ==> WrapperCalls(Plan(s, node, true, env).out) == []
  {
    var language := ResolvedLanguage(node, env);
    var attrs := ResolvedAttrs(node, env);
    var b := BlockConfig(s, attrs, env);
    assert Plan(s, node, true, env) == Resolved(s, node, language, attrs, b.value, env);
    ResolvedWrapperCalls(s, node, language, attrs, b.value, env);
  }

  /** The wrapper protocol of one block once its settings are resolved. */
  lemma ResolvedWrapperCalls(s: Settings, node: FencedCodeBlock, language: Option<seq<Byte>>,
                             attrs: Option<Attributes>, b: BlockSettings, env: Collaborators)
    ensures var out := Resolved(s, node, language, attrs, b, env).out;
            && (s.wrapper.Some? ==>
                var enter := WrapperCall(s.wrapper.value, language, attrs, true);
                var leave := WrapperCall(s.wrapper.value, language, attrs, false);
                |out| >= 2 && out[0] == enter && out[|out| - 1] == leave && WrapperCalls(out) == [enter, leave])
            && (s.wrapper.None? ==> WrapperCalls(out) == [])
  {
    var text := Concat(node.lines);
    var lexer := ChosenLexer(b, language, text, env);
    var out := Resolved(s, node, language, attrs, b, env).out;
    if lexer.Some? {
      var opts := b.options + (if s.wrapper.Some? then [PreventSurroundingPre] else []);
      var middle := [Formatted(opts, b.style.GetOr(env.fallback), lexer.value, text)];
      assert out == WrapperEvents(s, language, attrs, true) + middle + WrapperEvents(s, language, attrs, false);
      WrapperTail(s, language, attrs, middle);
    } else {
      assert out == Fallback(s, node, language, attrs);
      var middle := RawLines(node.lines);
      if s.wrapper.Some? {
        WrapperTail(s, language, attrs, middle);
      } else {
        Unbracketed(FallbackOpen(s, node.language, language, attrs), middle, FallbackClose(s, language, attrs));
      }
    }
  }

  lemma WrapperTail(s: Settings, language: Option<seq<Byte>>, attrs: Option<Attributes>, middle: seq<Event>)
    requires forall i :: 0 <= i < |middle| ==> !middle[i].WrapperCall?
    ensures var out := WrapperEvents(s, language, attrs, true) + middle + WrapperEvents(s, language, attrs, false);
            && (s.wrapper.Some? ==>
                var enter := WrapperCall(s.wrapper.value, language, attrs, true);
                var leave := WrapperCall(s.wrapper.value, language, attrs, false);
                |out| >= 2 && out[0] == enter && out[|out| - 1] == leave && WrapperCalls(out) == [enter, leave])
            && (s.wrapper.None? ==> WrapperCalls(out) == [])
  {
    if s.wrapper.Some? {
      Bracketed(WrapperCall(s.wrapper.value, language, attrs, true), middle,
                WrapperCall(s.wrapper.value, language, attrs, false));
    } else {
      Unbracketed([], middle, []);
    }
  }

  /**
   * On the highlight path the formatter gets the renderer's options, then the
   * HighlightLines option when hl_lines is a list, then PreventSurroundingPre
   * when a wrapper is set; the style of hl_style or of the renderer, or the
   * fallback style when that is not found; the found lexer and the block's
   * text. The CSS, when a CSS writer is set, is written once with the same
   * options and style.
   */
  lemma FormatterInputs(s: Settings, node: FencedCodeBlock, env: Collaborators, i: nat)
    requires Plan(s, node, true, env).Rendered?
    requires i < |Plan(s, node, true, env).out| && Plan(s, node, true, env).out[i].Formatted?
    ensures var f := Plan(s, node, true, env).out[i];
            var attrs := ResolvedAttrs(node, env);
            var name := StyleName(s, attrs);
            && HighlightConditions(node, env)
            && (attrs.Some? ==> LinesOptions(attrs.value).Some?)
            && f.options == s.formatOptions
                            + (if attrs.Some? then LinesOptions(attrs.value).value else [])
                            + (if s.wrapper.Some? then [PreventSurroundingPre] else [])
            && f.style == (if name in env.styles then env.styles[name] else env.fallback)
            && f.lexer == env.lexers[ResolvedLanguage(node, env).value]
            && f.text == Concat(node.lines)
            && Plan(s, node, true, env).css == (if s.cssWriter != null then [CssRules(f.options, f.style)] else [])
  {
    var language := ResolvedLanguage(node, env);
    var attrs := ResolvedAttrs(node, env);
    BlockConfigShape(s, attrs, env);
    HighlightPathIff(s, node, env);
    var b := BlockConfig(s, attrs, env).value;
    var out := Plan(s, node, true, env).out;
    assert ChosenLexer(b, language, Concat(node.lines), env).Some?;
    var opening := WrapperEvents(s, language, attrs, true);
    assert i == |opening| by {
      if s.wrapper.Some? {
        assert out[0].WrapperCall? && out[|out| - 1].WrapperCall?;
        assert |out| == 3;
      }
    }
  }

  /** CSS is written only on the highlight path and only with a CSS writer, and then once. */
  lemma CssOnlyWhenHighlighted(s: Settings, node: FencedCodeBlock, env: Collaborators)
    requires Plan(s, node, true, env).Rendered?
    ensures |Plan(s, node, true, env).css| <= 1
    ensures Plan(s, node, true, env).css != [] <==> HighlightConditions(node, env) && s.cssWriter != null
  {
    HighlightPathIff(s, node, env);
    if !HighlightConditions(node, env) {
      OtherwiseFallback(s, node, env);
    } else {
      var language := ResolvedLanguage(node, env);
      var attrs := ResolvedAttrs(node, env);
      BlockConfigShape(s, attrs, env);
    }
  }

  /**
   * The renderer panics exactly when the block has attributes and either an
   * hl_lines list holds an entry whose index panics, or hl_style is not a string.
   */
  lemma PanicsExactly(s: Settings, node: FencedCodeBlock, env: Collaborators)
    ensures var attrs := ResolvedAttrs(node, env);
            Plan(s, node, true, env).Panicked? <==>
              attrs.Some? &&
              (|| (Find(attrs.value, HlLinesName).Some? && Find(attrs.value, HlLinesName).value.Arr? &&
                   exists i :: 0 <= i < |Find(attrs.value, HlLinesName).value.items| &&
                               ParseEntry(Find(attrs.value, HlLinesName).value.items[i]).Crash?)
               || (Find(attrs.value, HlStyleName).Some? && !Find(attrs.value, HlStyleName).value.Str?))
  {
    var attrs := ResolvedAttrs(node, env);
    if attrs.Some? {
      var linesAttr := Find(attrs.value, HlLinesName);
      if linesAttr.Some? && linesAttr.value.Arr? {
        RangesPanic(linesAttr.value.items);
      }
    }
  }

  /** Attributes on the node win: the info string's brace block is then never parsed. */
  lemma NodeAttributesWin(s: Settings, node: FencedCodeBlock, entering: bool, env: Collaborators,
                          parse: seq<Byte> -> Option<Attributes>)
    requires node.attributes.Some?
    ensures Plan(s, node, entering, env) == Plan(s, node, entering, env.(parseAttributes := parse))
    ensures ResolvedAttrs(node, env) == node.attributes && ResolvedLanguage(node, env) == node.language
  {
  }

  /**
   * hl_lines adds exactly one HighlightLines option when it is a list that
   * does not panic, even when no entry yields a range, and none otherwise.
   */
  lemma LinesOptionWhenList(attrs: Attributes)
    ensures var linesAttr := Find(attrs, HlLinesName);
            && (linesAttr.Some? && linesAttr.value.Arr? &&
                (forall i :: 0 <= i < |linesAttr.value.items| ==> !ParseEntry(linesAttr.value.items[i]).Crash?)
                ==> Ranges(linesAttr.value.items).Some? &&
                    LinesOptions(attrs) == Some([HighlightLines(Ranges(linesAttr.value.items).value)]))
            && (linesAttr.None? || !linesAttr.value.Arr? ==> LinesOptions(attrs) == Some([]))
  {
    var linesAttr := Find(attrs, HlLinesName);
    if linesAttr.Some? && linesAttr.value.Arr? {
      RangesPanic(linesAttr.value.items);
    }
  }

  /** A list of entries that are all skipped still adds HighlightLines, with no ranges. */
  lemma SkippedEntriesStillAddOption(attrs: Attributes, items: seq<Value>)
    requires Find(attrs, HlLinesName) == Some(Arr(items))
    requires forall i :: 0 <= i < |items| ==> ParseEntry(items[i]).Skip?
    ensures LinesOptions(attrs) == Some([HighlightLines([])])
  {
    AllSkipped(items);
  }

  lemma {:induction false} AllSkipped(items: seq<Value>)
    requires forall i :: 0 <= i < |items| ==> ParseEntry(items[i]).Skip?
    ensures Ranges(items) == Some([])
  {
    if items != [] {
      AllSkipped(items[..|items| - 1]);
    }
  }

  /** Leaving the node writes nothing. */
  lemma LeavingWritesNothing(s: Settings, node: FencedCodeBlock, env: Collaborators)
    ensures Plan(s, node, false, env) == Rendered([], [])
  {
  }

  /** An unknown style never stops highlighting: the fallback style is used. */
  lemma UnknownStyleFallsBack(s: Settings, node: FencedCodeBlock, env: Collaborators)
    requires Plan(s, node, true, env).Rendered?
    requires HighlightConditions(node, env)
    requires StyleName(s, ResolvedAttrs(node, env)) !in env.styles
    ensures HasFormatted(Plan(s, node, true, env).out)
    ensures forall i :: 0 <= i < |Plan(s, node, true, env).out| && Plan(s, node, true, env).out[i].Formatted? ==>
              Plan(s, node, true, env).out[i].style == env.fallback
  {
    HighlightPathIff(s, node, env);
    forall i | 0 <= i < |Plan(s, node, true, env).out| && Plan(s, node, true, env).out[i].Formatted?
      ensures Plan(s, node, true, env).out[i].style == env.fallback
    {
      FormatterInputs(s, node, env, i);
    }
  }
}
