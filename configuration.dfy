/**
 * The extension's Config: its defaults, SetOption dispatch on option names
 * and the functional options (WithStyle, WithFormatOptions, WithCSSWriter,
 * WithWrapperRenderer) applied in order.
 */
module Configuration {
  import opened Wrappers
  import opened Bytes
  import opened Chroma
  import opened Output

  /**
   * A renderer.OptionName: the extension's four names ("HighlightingStyle",
   * "HighlightingFormatOptions", "HighlightingCSSWriter",
   * "HighlightingWrapperRenderer"), or any other name.
   */
  datatype OptionName =
    | OptStyle
    | OptFormatOptions
    | OptCSSWriter
    | OptWrapperRenderer
    | OtherName(name: seq<Byte>)

  /** The dynamic value handed to SetOption as an interface{}. */
  datatype OptionValue =
    | NilValue                              // an untyped nil
    | StringValue(s: seq<Byte>)             // a string
    | FormatOptionsValue(opts: seq<FormatOption>) // a []chromahtml.Option
    | WriterValue(w: Writer)                // an io.Writer
    | WrapperValue(hook: Option<Hook>)      // a WrapperRenderer (None: a nil one)
    | OtherValue(id: nat)                   // anything else

  /** The fields of a Config at one moment; `html` lists, in order, the options forwarded to goldmark's html.Config. */
  datatype Settings = Settings(style: seq<Byte>, formatOptions: seq<FormatOption>, cssWriter: Writer?,
                               wrapper: Option<Hook>, html: seq<(OptionName, OptionValue)>)

  /** What NewConfig returns. */
  const Defaults: Settings := Settings(Ascii("github"), [], null, None, [])

  /**
   * Config.SetOption on a snapshot. None is the panic of a failed type
   * assertion; a nil value for the format options is ignored; names the
   * extension does not know go to the embedded html.Config.
   */
  function SetOptionResult(s: Settings, name: OptionName, value: OptionValue): (r: Option<Settings>)
    ensures name.OtherName? ==> r.Some? && r.value.html == s.html + [(name, value)] && r.value.(html := s.html) == s
    ensures r.Some? && name == OptStyle ==> r.value == s.(style := r.value.style)
    ensures r.Some? && name == OptFormatOptions ==> r.value == s.(formatOptions := r.value.formatOptions)
    ensures r.Some? && name == OptCSSWriter ==> r.value == s.(cssWriter := r.value.cssWriter)
    ensures r.Some? && name == OptWrapperRenderer ==> r.value == s.(wrapper := r.value.wrapper)
    ensures r.Some? && name == OptStyle ==> value.StringValue? && r.value.style == value.s
    ensures r.Some? && name == OptFormatOptions ==>
      || (value.NilValue? && r.value == s)
      || (value.FormatOptionsValue? && r.value.formatOptions == value.opts)
    ensures r.Some? && name == OptCSSWriter ==> value.WriterValue? && r.value.cssWriter == value.w
    ensures r.Some? && name == OptWrapperRenderer ==> value.WrapperValue? && r.value.wrapper == value.hook
  {
    if name == OptStyle then
      if value.StringValue? then Some(s.(style := value.s)) else None
    else if name == OptFormatOptions then
      if value.NilValue? then Some(s)
      else if value.FormatOptionsValue? then Some(s.(formatOptions := value.opts))
      else None
    else if name == OptCSSWriter then
      if value.WriterValue? then Some(s.(cssWriter := value.w)) else None
    else if name == OptWrapperRenderer then
      if value.WrapperValue? then Some(s.(wrapper := value.hook)) else None
    else Some(s.(html := s.html + [(name, value)]))
  }

  /** The four functional options of the extension. */
  datatype HighlightingOption =
    | WithStyle(style: seq<Byte>)
    | WithFormatOptions(opts: seq<FormatOption>)
    | WithCSSWriter(w: Writer?)
    | WithWrapperRenderer(hook: Option<Hook>)

  /** SetHighlightingOption of one option: a style, writer or hook replaces; format options are appended. */
  function Apply(s: Settings, o: HighlightingOption): (r: Settings)
    ensures !o.WithStyle? ==> r.style == s.style
    ensures s.formatOptions <= r.formatOptions
    ensures !o.WithCSSWriter? ==> r.cssWriter == s.cssWriter
    ensures !o.WithWrapperRenderer? ==> r.wrapper == s.wrapper
    ensures r.html == s.html
  {
    match o
    case WithStyle(x) => s.(style := x)
    case WithFormatOptions(x) => s.(formatOptions := s.formatOptions + x)
    case WithCSSWriter(w) => s.(cssWriter := w)
    case WithWrapperRenderer(h) => s.(wrapper := h)
  }

  /** The options applied one after the other, first to last. */
  function ApplyAll(s: Settings, opts: seq<HighlightingOption>): (r: Settings)
    ensures s.formatOptions <= r.formatOptions
    ensures r.html == s.html
  {
    if opts == [] then s else Apply(ApplyAll(s, opts[..|opts| - 1]), opts[|opts| - 1])
  }

  /** All format options of a list of options, in order (a reference definition read front to back). */
  function AllFormatOptions(opts: seq<HighlightingOption>): seq<FormatOption>
  {
    if opts == [] then []
    else (if opts[0].WithFormatOptions? then opts[0].opts else []) + AllFormatOptions(opts[1..])
  }

  /** Applying a + b is applying a, then b. */
  lemma {:induction false} ApplyAllConcat(s: Settings, a: seq<HighlightingOption>, b: seq<HighlightingOption>)
    ensures ApplyAll(s, a + b) == ApplyAll(ApplyAll(s, a), b)
    decreases |b|
  {
    if b == [] {
      assert a + b == a;
    } else {
      assert (a + b)[..|a + b| - 1] == a + b[..|b| - 1];
      ApplyAllConcat(s, a, b[..|b| - 1]);
    }
  }

  /** Options that set no style keep the style. */
  lemma {:induction false} NoStyleKeepsStyle(s: Settings, b: seq<HighlightingOption>)
    requires forall i :: 0 <= i < |b| ==> !b[i].WithStyle?
    ensures ApplyAll(s, b).style == s.style
  {
    if b != [] {
      NoStyleKeepsStyle(s, b[..|b| - 1]);
    }
  }

  /** The last WithStyle wins. */
  lemma LastStyleWins(s: Settings, a: seq<HighlightingOption>, x: seq<Byte>, b: seq<HighlightingOption>)
    requires forall i :: 0 <= i < |b| ==> !b[i].WithStyle?
    ensures ApplyAll(s, a + [WithStyle(x)] + b).style == x
  {
    ApplyAllConcat(s, a + [WithStyle(x)], b);
    ApplyAllConcat(s, a, [WithStyle(x)]);
    NoStyleKeepsStyle(ApplyAll(s, a + [WithStyle(x)]), b);
  }

  lemma {:induction false} AllFormatOptionsSnoc(opts: seq<HighlightingOption>, o: HighlightingOption)
    ensures AllFormatOptions(opts + [o]) == AllFormatOptions(opts) + AllFormatOptions([o])
    decreases |opts|
  {
    if opts == [] {
      assert opts + [o] == [o];
    } else {
      var head := if opts[0].WithFormatOptions? then opts[0].opts else [];
      assert (opts + [o])[0] == opts[0];
      assert (opts + [o])[1..] == opts[1..] + [o];
      assert AllFormatOptions(opts + [o]) == head + AllFormatOptions(opts[1..] + [o]);
      AllFormatOptionsSnoc(opts[1..], o);
      assert AllFormatOptions(opts) == head + AllFormatOptions(opts[1..]);
    }
  }

  /** WithFormatOptions appends: the format options end up as the initial ones followed by every option's, in order. */
  lemma {:induction false} FormatOptionsAccumulate(s: Settings, opts: seq<HighlightingOption>)
    ensures ApplyAll(s, opts).formatOptions == s.formatOptions + AllFormatOptions(opts)
  {
    if opts != [] {
      var init := opts[..|opts| - 1];
      var o := opts[|opts| - 1];
      FormatOptionsAccumulate(s, init);
      AllFormatOptionsSnoc(init, o);
      assert init + [o] == opts;
      assert AllFormatOptions([o]) == if o.WithFormatOptions? then o.opts else [] by {
        assert [o][1..] == [];
      }
    }
  }

  /** Options other than WithCSSWriter keep the CSS writer, options other than WithWrapperRenderer keep the hook. */
  lemma {:induction false} OtherOptionsKeepWriterAndHook(s: Settings, opts: seq<HighlightingOption>)
    ensures (forall i :: 0 <= i < |opts| ==> !opts[i].WithCSSWriter?) ==> ApplyAll(s, opts).cssWriter == s.cssWriter
    ensures (forall i :: 0 <= i < |opts| ==> !opts[i].WithWrapperRenderer?) ==> ApplyAll(s, opts).wrapper == s.wrapper
    ensures ApplyAll(s, opts).html == s.html
  {
    if opts != [] {
      OtherOptionsKeepWriterAndHook(s, opts[..|opts| - 1]);
    }
  }

  /** The last WithCSSWriter wins. */
  lemma LastCSSWriterWins(s: Settings, a: seq<HighlightingOption>, w: Writer?, b: seq<HighlightingOption>)
    requires forall i :: 0 <= i < |b| ==> !b[i].WithCSSWriter?
    ensures ApplyAll(s, a + [WithCSSWriter(w)] + b).cssWriter == w
  {
    ApplyAllConcat(s, a + [WithCSSWriter(w)], b);
    ApplyAllConcat(s, a, [WithCSSWriter(w)]);
    OtherOptionsKeepWriterAndHook(ApplyAll(s, a + [WithCSSWriter(w)]), b);
  }

  /** The last WithWrapperRenderer wins. */
  lemma LastWrapperWins(s: Settings, a: seq<HighlightingOption>, h: Option<Hook>, b: seq<HighlightingOption>)
    requires forall i :: 0 <= i < |b| ==> !b[i].WithWrapperRenderer?
    ensures ApplyAll(s, a + [WithWrapperRenderer(h)] + b).wrapper == h
  {
    ApplyAllConcat(s, a + [WithWrapperRenderer(h)], b);
    ApplyAllConcat(s, a, [WithWrapperRenderer(h)]);
    OtherOptionsKeepWriterAndHook(ApplyAll(s, a + [WithWrapperRenderer(h)]), b);
  }

  /** SetOption replaces the format options where WithFormatOptions appends, and ignores a nil value. */
  lemma SetFormatOptions(s: Settings, x: seq<FormatOption>)
    ensures SetOptionResult(s, OptFormatOptions, NilValue) == Some(s)
    ensures SetOptionResult(s, OptFormatOptions, FormatOptionsValue(x)).value.formatOptions == x
    ensures Apply(s, WithFormatOptions(x)).formatOptions == s.formatOptions + x
  {
  }

  /** For the extension's four names, SetOption panics exactly when the value does not have the type the name needs; forwarded names never panic here. */
  lemma SetOptionPanics(s: Settings, name: OptionName, value: OptionValue)
    ensures SetOptionResult(s, name, value).None? <==>
      || (name == OptStyle && !value.StringValue?)
      || (name == OptFormatOptions && !value.NilValue? && !value.FormatOptionsValue?)
      || (name == OptCSSWriter && !value.WriterValue?)
      || (name == OptWrapperRenderer && !value.WrapperValue?)
  {
  }

  /** The extension's Config (its embedded html.Config is reduced to the forwarded options). */
  class Config {
    var style: seq<Byte>
    var formatOptions: seq<FormatOption>
    var cssWriter: Writer?
    var wrapperRenderer: Option<Hook>
    var html: seq<(OptionName, OptionValue)>

    function Snapshot(): Settings
      reads this
    {
      Settings(style, formatOptions, cssWriter, wrapperRenderer, html)
    }

    /** NewConfig: style "github", no format options, no CSS writer, no wrapper. */
    constructor ()
      ensures Snapshot() == Defaults
      ensures style == Ascii("github") && formatOptions == [] && cssWriter == null && wrapperRenderer == None
    {
      style := Ascii("github");
      formatOptions := [];
      cssWriter := null;
      wrapperRenderer := None;
      html := [];
    }

    /** SetOption: `panicked` is a failed type assertion, which leaves the fields as they were. */
    method SetOption(name: OptionName, value: OptionValue) returns (panicked: bool)
      modifies this
      ensures panicked <==> SetOptionResult(old(Snapshot()), name, value).None?
      ensures Snapshot() == SetOptionResult(old(Snapshot()), name, value).GetOr(old(Snapshot()))
    {
      panicked := false;
      if name == OptStyle {
        if !value.StringValue? { return true; }
        style := value.s;
      } else if name == OptFormatOptions {
        if value != NilValue {
          if !value.FormatOptionsValue? { return true; }
          formatOptions := value.opts;
        }
      } else if name == OptCSSWriter {
        if !value.WriterValue? { return true; }
        cssWriter := value.w;
      } else if name == OptWrapperRenderer {
        if !value.WrapperValue? { return true; }
        wrapperRenderer := value.hook;
      } else {
        html := html + [(name, value)];
      }
    }

    /** SetHighlightingOption of withStyle, withFormatOptions, withCSSWriter and withWrapperRenderer. */
    method SetHighlightingOption(o: HighlightingOption)
      modifies this
      ensures Snapshot() == Apply(old(Snapshot()), o)
    {
      match o
      case WithStyle(x) => style := x;
      case WithFormatOptions(x) => formatOptions := formatOptions + x;
      case WithCSSWriter(w) => cssWriter := w;
      case WithWrapperRenderer(h) => wrapperRenderer := h;
    }
  }
}
