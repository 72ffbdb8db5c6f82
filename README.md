# goldmark-highlighting: the fenced-code-block renderer, modelled in Dafny

goldmark-highlighting is an extension of the goldmark Markdown renderer. It
renders fenced code blocks through the chroma syntax highlighter. This
project models the per-block decision in `highlighting.go` and the
configuration that feeds it:

- **Attributes.** It resolves a block's attributes (`getAttributes`). The
  node's own attributes win. Otherwise a `{…}` block after a non-empty
  language prefix of the info string is parsed.
- **Line ranges.** It turns the `hl_lines` list into ranges. A number `n` is
  `[n, n]`. A string is split on `-` and both sides go through `strconv.Atoi`.
- **Style and nohl.** The style is the renderer's, `hl_style`'s, or chroma's
  fallback. `nohl` is presence-only.
- **Formatter options.** They are assembled in a fixed order: the renderer's,
  then `HighlightLines`, then `PreventSurroundingPre`.
- **Path.** It chooses between the highlight path and the plain
  `<pre><code>` fallback. An optional wrapper hook is called around the
  content on either path. The CSS goes to an optional CSS writer.
- **Configuration.** `NewConfig` gives the defaults. `Config.SetOption`
  dispatches on option names. `NewHTMLRenderer` applies the functional
  options `WithStyle`, `WithFormatOptions`, `WithCSSWriter` and
  `WithWrapperRenderer` in order.

The modules are:

- `Wrappers` holds `Option`.
- `Bytes` holds bytes, `strings.Split`/`Join` on one byte, `strconv.Atoi` and
  `Itoa`.
- `Chroma` holds the opaque formatter options, styles and lexers.
- `Attributes` holds goldmark attribute values, `Attributes.Find` and
  `getAttributes`.
- `LineRanges` is the `hl_lines` loop.
- `Output` holds the writers of the renderer, seen as traces of writes.
- `Configuration` holds `Config` and its options.
- `Highlighting` holds `HTMLRenderer` and the specification function `Plan`
  of one block.
- `RenderProperties` holds what `Plan` promises.

The source's state changes stay imperative:
- `Config` and `HTMLRenderer` are classes.
- `getAttributes`, the `hl_lines` loop, the line buffer and the raw-write loop
  are methods with loops.
- The output and CSS writers are `Writer` objects that record every write.

Each method is proved against a function:
- `GetAttributes` against `ResolveAttributes`;
- `ExtractRanges` against `Ranges`;
- `SetOption` against `SetOptionResult`;
- `SetHighlightingOption` and the renderer's constructor against `Apply` and
  `ApplyAll`;
- `RenderFencedCodeBlock` against `Plan`.

The properties themselves are proved as lemmas about those functions.

The outside world is passed in as parameters, in the `Collaborators` value:
- chroma's lexer registry (a map from names to lexers);
- whether `Tokenise` succeeds (a predicate);
- chroma's style registry (a partial map) and `styles.Fallback`;
- goldmark's `ParseAttributes` (a function to `Option<Attributes>`).

The formatter's output is one opaque `Formatted(options, style, lexer, text)`
write, and `WriteCSS` is one `CssRules(options, style)` write. goldmark's two
escaping writers appear as `Escaped` and `Raw` writes. `Flatten` turns those
writes into bytes for any given pair of escaping functions.

A Go run-time panic is an explicit outcome:
- `Panicked` in `Plan`;
- `Panic` from `RenderFencedCodeBlock`;
- `None` from `SetOptionResult` and `panicked` from `SetOption`.

### Where the code and its tests disagree

The test table at `highlighting_test.go:210` expects `hl_lines=["2"]` to
highlight line 2. The code as written does something else:
- it splits `"2"` on `-` into the single field `"2"`;
- `Atoi` accepts that field;
- it then indexes `slices[1]` (`highlighting.go:272`), which is out of range
  and panics.

The model follows the code:
- `LineRanges.ParseEntry` yields `Crash` for such an entry.
- `LineRanges.StringCrash` states exactly which strings do this.
- `LineRanges.DecimalAlonePanics` shows that `"2"` is one of them.
- `RenderProperties.PanicsExactly` shows that the whole block then panics
  before anything is written.

## Model

| member | source | states |
|---|---|---|
| Bytes.FirstIndex | highlighting.go:227-234 | the index of the first `{`: the byte there is `{` and none before it; -1 exactly when there is none |
| Bytes.FirstIndexUnique | highlighting.go:227-234 | a position holding `{` with no `{` before it is the first index |
| Bytes.Split | highlighting.go:267 | `strings.Split` always gives at least one field, so `slices[0]` is in range |
| Bytes.JoinSplit | highlighting.go:267 | joining the fields of `strings.Split(s, "-")` with `-` gives back `s`: no byte is lost or added |
| Bytes.SplitPrefix | highlighting.go:267 | a field without `-` followed by `-` is split off as the first field, the rest split on its own |
| Bytes.SplitJoin | highlighting.go:267 | splitting a join of separator-free fields gives back exactly those fields |
| Bytes.SplitFieldsFree | highlighting.go:267 | no field of a split holds the separator |
| Bytes.SplitHasSecond | highlighting.go:267-272 | a split has a second field (so `slices[1]` is in range) exactly when the text holds `-` |
| Bytes.SplitWhole | highlighting.go:267 | a text without `-` splits into one field, the text itself |
| Bytes.Atoi | highlighting.go:268-272 | a parse result is a 64-bit value; only text whose bytes after the first are all digits parses |
| Bytes.AtoiDecimal | highlighting.go:268-272 | `strconv.Atoi` reads back the decimal form of every non-negative int64 |
| Bytes.AtoiNoMinus | highlighting.go:268-272 | text without `-` never parses as a negative number |
| Bytes.AtoiRejects | highlighting.go:268-274 | Atoi fails on a non-digit byte that is not a leading sign, and on a lone sign |
| Attributes.Find | highlighting.go:259 | `Attributes.Find` gives the value of the first attribute with the name, and None exactly when no attribute has it |
| Attributes.ResolveAttributes | highlighting.go:217-244 | the language is absent exactly when the info string is; when no attributes come back the info string is returned as it was |
| Attributes.LanguageBeforeBrace | highlighting.go:236-240 | the returned language is a prefix of the info string; parsed attributes come with a non-empty, brace-free language followed in the info string by `{` |
| Attributes.CopyAttributes | highlighting.go:219-222 | the copy loop yields the node's attributes unchanged, in order |
| Attributes.FirstBrace | highlighting.go:227-234 | the search loop stops at the first `{`, and gives -1 when there is none |
| Attributes.FirstBraceOnly | highlighting.go:227-234 | no other position of the text is a first `{` |
| Attributes.GetAttributes | highlighting.go:217-244 | node attributes are copied and win, with the info string unchanged; a nil info string gives nil, nil; with no `{` no attributes and the info string unchanged; at the first `{`, index > 0 and a successful parse give the parsed attributes and the prefix, otherwise no attributes and the unchanged info string |
| LineRanges.ExtractRanges | highlighting.go:261-278 | the loop over the list computes `Ranges`: the entries' ranges in input order, or the panic |
| LineRanges.ParseEntry | highlighting.go:263-277 | a number is `[n, n]`; other kinds are skipped; a string that panics holds no `-`; a string that gives a range holds one |
| LineRanges.Ranges | highlighting.go:262-278 | the loop keeps at most one range per entry |
| LineRanges.RangesAppend | highlighting.go:262-278 | the ranges of a concatenated list are those of the first part followed by those of the second; a panic in either part is a panic |
| LineRanges.RangesPanic | highlighting.go:262-278 | the loop panics exactly when one of the entries does |
| LineRanges.EntryIndependent | highlighting.go:268-275 | each entry contributes on its own, in order; a skipped entry leaves its neighbours' ranges as they would be without it |
| LineRanges.NumberEntry | highlighting.go:263-265 | a number `n` is the range `[n, n]` |
| LineRanges.StringRange | highlighting.go:266-276 | `"a-b"` is `[Atoi(a), Atoi(b)]` when both sides parse, with no check that lo <= hi, and is skipped when either does not |
| LineRanges.StringExtraFields | highlighting.go:267-276 | fields after the second are ignored: `"a-b-c"` is read as `"a-b"` |
| LineRanges.SplitThree | highlighting.go:267 | a text with two `-` splits into its first two parts followed by the split of the rest |
| LineRanges.StringCrash | highlighting.go:267-272 | a string entry panics exactly when it holds no `-` and its whole text parses |
| LineRanges.StringBoundsNonNegative | highlighting.go:267-276 | a range read from a string never has a negative bound |
| LineRanges.DecimalRange | highlighting.go:266-276 | the string `"x-y"` written from two int64 values is the range `[x, y]` |
| LineRanges.DecimalAlonePanics | highlighting.go:267-272 | a bare number written as a string, such as `"2"`, makes the loop panic |
| LineRanges.ParseEntryIntended | highlighting.go:263-277 | the evidently intended entry rule never panics; a number is `[n, n]`; a string without `-` whose text parses is the single line it names; other kinds are skipped |
| LineRanges.IntendedAgrees | highlighting.go:263-277 | the intended rule agrees with the code on every entry that does not panic, and gives `[n, n]` for the ones that do |
| LineRanges.IntendedSingleLine | highlighting.go:267-272 | under the intended rule `"n"` is the single line `[n, n]`, as the test table expects |
| LineRanges.RangesIntended | highlighting.go:262-278 | the loop under the intended rule gives at most one range per entry |
| LineRanges.RangesIntendedAgrees | highlighting.go:262-278 | wherever the loop of the code finishes, the intended loop gives the same ranges |
| LineRanges.MixedListExample | highlighting.go:261-278 | `["2-3", 5]` gives `[2, 3]` then `[5, 5]` |
| Output.RawLines | highlighting.go:337-341 | one raw write per line, in order, of exactly that line |
| Output.FlattenRawLines | highlighting.go:337-341 | writing the lines raw puts the raw bytes of each line on the output, in order |
| Output.RawBytesIdentity | highlighting.go:299-304 | with identity escaping, the raw lines are the text the highlighter is given |
| Configuration.Config.constructor | highlighting.go:51-59 | `NewConfig`: style "github", no format options, no CSS writer, no wrapper |
| Configuration.Config.SetOption | highlighting.go:62-77 | each of the four names sets its field; a nil format-options value is ignored; other names go to the html config; a value of the wrong type panics and leaves the fields as they were |
| Configuration.SetOptionResult | highlighting.go:62-77 | each of the four names sets its own field to the given value (the format options: a list replaces them, nil keeps them) and changes nothing else; another name is appended to the html options and changes nothing else |
| Configuration.SetOptionPanics | highlighting.go:62-77 | for the extension's four names, SetOption panics exactly when the value does not have the type its name asserts; a forwarded name never panics in the model |
| Configuration.SetFormatOptions | highlighting.go:66-69 | `SetOption(optFormatOptions, nil)` leaves the config unchanged; a list value replaces the options, where `WithFormatOptions` appends |
| Configuration.Config.SetHighlightingOption | highlighting.go:118-189 | withStyle, withCSSWriter and withWrapperRenderer replace their field; withFormatOptions appends to the format options |
| Configuration.Apply | highlighting.go:126-189 | each option changes only its own field: format options only grow, and the html config is never touched |
| Configuration.ApplyAll | highlighting.go:206-208 | applying the options in order only extends the format options and never touches the html config |
| Configuration.ApplyAllConcat | highlighting.go:206-208 | applying a list of options is applying its first part, then its second |
| Configuration.NoStyleKeepsStyle | highlighting.go:126-128 | options that set no style leave the style alone |
| Configuration.LastStyleWins | highlighting.go:126-128 | of several `WithStyle` options the last one wins |
| Configuration.FormatOptionsAccumulate | highlighting.go:187-189 | the format options end up as the initial ones followed by every `WithFormatOptions` list in order |
| Configuration.OtherOptionsKeepWriterAndHook | highlighting.go:145-166 | without a `WithCSSWriter` (or `WithWrapperRenderer`) the writer (or hook) keeps its value; the functional options never touch the html config |
| Configuration.LastCSSWriterWins | highlighting.go:145-147 | of several `WithCSSWriter` options the last one wins |
| Configuration.LastWrapperWins | highlighting.go:164-166 | of several `WithWrapperRenderer` options the last one wins |
| Highlighting.HTMLRenderer.constructor | highlighting.go:202-210 | `NewHTMLRenderer`: a fresh default config with the options applied in order |
| Highlighting.BlockConfig | highlighting.go:253-289 | without attributes the renderer's options and style and no nohl; otherwise the renderer's options followed by at most one more, and nohl exactly when `nohl` is present |
| Highlighting.Resolved | highlighting.go:291-347 | once the block settings are known the block never panics, writes CSS at most once and only with a CSS writer, and with nohl writes the fallback |
| Highlighting.Plan | highlighting.go:246-348 | leaving writes nothing; a panic needs parsed attributes; CSS is written at most once and only to a CSS writer |
| Highlighting.HTMLRenderer.ResolveBlock | highlighting.go:253-289 | the options, style and nohl after the attributes are consulted; the renderer's options come first; nohl is set only when `nohl` is present; a panicking hl_lines or a non-string hl_style is the panic |
| Highlighting.HTMLRenderer.BlockText | highlighting.go:299-304 | the buffer holds the block's lines concatenated in order |
| Highlighting.HTMLRenderer.WriteLines | highlighting.go:337-341 | exactly one raw write per line, in order, and nothing else |
| Highlighting.HTMLRenderer.WriteFormatted | highlighting.go:311-317 | the hook entering, the formatter output, the hook leaving, in that order and only with a hook |
| Highlighting.HTMLRenderer.WriteHighlighted | highlighting.go:307-321 | the highlight path: the writes of `Plan`'s highlight case to the output and its CSS to the CSS writer, including when the CSS writer is the output writer |
| Highlighting.HTMLRenderer.WriteFallbackOpen | highlighting.go:325-336 | the hook entering, or `<pre><code`, the class annotation with the node's language, and `>` |
| Highlighting.HTMLRenderer.WriteFallback | highlighting.go:325-346 | the fallback: opening, raw lines, then the hook leaving or `</code></pre>\n` |
| Highlighting.HTMLRenderer.RenderResolved | highlighting.go:291-347 | after the block settings are resolved the block continues the walk and writes `Resolved`'s writes and CSS |
| Highlighting.HTMLRenderer.RenderFencedCodeBlock | highlighting.go:246-348 | the status is Panic exactly when `Plan` panics, and then nothing is written; otherwise the output writer receives `Plan`'s writes and the CSS writer its CSS, appended after them when the two writers are one |
| RenderProperties.HighlightPathIff | highlighting.go:291-323 | the formatter is used exactly when nohl is absent, a language is present, a lexer is found for it and tokenising succeeds |
| RenderProperties.NohlForcesFallback | highlighting.go:286-295 | with `nohl` the output is the fallback and no CSS is written, whatever the language |
| RenderProperties.OtherwiseFallback | highlighting.go:291-347 | whenever the highlight conditions fail the output is the fallback and no CSS is written |
| RenderProperties.FallbackMarkup | highlighting.go:328-345 | without a wrapper the fallback bytes are `<pre><code`, ` class="language-` + escaped node language + `"` when the node has a language, `>`, every line raw in order, `</code></pre>\n` |
| RenderProperties.FallbackOpenBytes | highlighting.go:328-336 | the bytes of the fallback's opening tag, with the class annotation only when the node has a language |
| RenderProperties.FallbackCarriesText | highlighting.go:325-346 | without a wrapper and with writers that copy their input, the fallback output is `<pre><code`, the class annotation, `>`, the block's text unchanged, `</code></pre>\n` |
| RenderProperties.WrapperProtocol | highlighting.go:311-343 | with a hook it is called exactly twice, first entering and last leaving, with the stripped language and the resolved attributes; without one it is never called |
| RenderProperties.FormatterInputs | highlighting.go:253-319 | the formatter gets the renderer's options, then HighlightLines when hl_lines is a list, then PreventSurroundingPre when a hook is set; the hl_style or renderer style, or the fallback when not found; the found lexer; the block's text; the CSS is written with the same options and style exactly when a CSS writer is set |
| RenderProperties.CssOnlyWhenHighlighted | highlighting.go:318-320 | CSS is written at most once, and exactly when the highlight path is taken with a CSS writer |
| RenderProperties.PanicsExactly | highlighting.go:259-285 | the block panics exactly when it has attributes and an hl_lines list has a panicking entry or hl_style is not a string |
| RenderProperties.NodeAttributesWin | highlighting.go:218-224 | with node attributes the info string is never parsed and the language is the info string unchanged |
| RenderProperties.LeavingWritesNothing | highlighting.go:248-250 | leaving the node writes nothing |
| RenderProperties.UnknownStyleFallsBack | highlighting.go:296-298 | an unknown style never stops highlighting: the fallback style is used |
| RenderProperties.LinesOptionWhenList | highlighting.go:259-280 | hl_lines adds exactly one HighlightLines option when it is a list that does not panic, and none when it is absent or not a list |
| RenderProperties.SkippedEntriesStillAddOption | highlighting.go:259-280 | a list whose entries are all skipped still adds HighlightLines, with no ranges |

## Findings

| source | as written | input that shows it | evidently intended | confidence | as-written member | corrected member |
|---|---|---|---|---|---|---|
| highlighting.go:272 | a string entry with no `-` whose text parses indexes `slices[1]` and panics | `hl_lines=["2"]` | the single line `[2, 2]`, as `highlighting_test.go:210` expects | not executed | LineRanges.DecimalAlonePanics | LineRanges.IntendedSingleLine |

The renderer model (`Plan`, `RenderFencedCodeBlock`) keeps the rule as written, so what it proves is what the code does. `LineRanges.ParseEntryIntended` and `LineRanges.RangesIntended` are the corrected rule. `LineRanges.IntendedAgrees` and `LineRanges.RangesIntendedAgrees` show that the correction changes nothing except the panicking entries.

## Left out

- chroma is not modelled. The lexer registry (`lexers.Get`, which in chroma also matches aliases and file names) is a map from names to lexers. `Tokenise` is a success predicate. The formatter's HTML and `WriteCSS`'s text are opaque writes of the options and style they get. Theme contents are not modelled.
- `styles.Get` is a partial map. In chroma it may itself return the fallback style for unknown names. The model keeps the renderer's own nil check, which then never fires.
- goldmark's side is not modelled either. `parser.ParseAttributes` is a function to `Option<Attributes>`. `n.Language(source)` and `n.Lines()` are fields of the block. The escaping of `r.Writer.Write`/`RawWrite` is a pair of functions given to `Flatten`.
- LineRanges.NumberEntry: numbers are integers. The float64 form of goldmark's numbers and the truncating `int(ln)` conversion are not modelled: fractions and values outside the int range cannot be written.
- Go's `append` aliasing is not modelled. `chromaFormatterOptions := r.FormatOptions` followed by `append` may write into the config's backing array; the model treats option lists as values.
- Write errors are not modelled, because the source discards them with `_ =`. Both writers are infallible traces of writes.
- The embedded `html.Config` is not modelled. `SetOption`'s default branch records the forwarded name and value in order, without interpreting them. Option names other than the extension's four are one `OtherName` case.
- Configuration.SetOptionPanics: a panic inside the forwarded `html.Config.SetOption` (its own type assertions, such as a non-bool hard-wraps value) is not modelled, because that method is not part of this model; an `OtherName` never panics.
- `withHTMLOptions` (highlighting.go:86-109) is not modelled. It only forwards into goldmark's html config.
- The map-based `SetConfig` methods (highlighting.go:122-185) are host plumbing and are not modelled. That includes `withFormatOptions.SetConfig`, which stores under the style key.
- `RegisterFuncs`, `Extend` and the `highlighting` extender (highlighting.go:212-215, 350-371) are not modelled. They are registration with goldmark and have no logic of their own.
- `WrapperRenderer`'s own output is not modelled. The hook is a value, and each call is one write of its arguments.
- `highlighting_test.go` is not part of this model. Its wrapper signature differs from the source, and its expected HTML depends on chroma's output.
