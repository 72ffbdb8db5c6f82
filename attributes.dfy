/**
 * Attribute lists of goldmark (parser.Attributes) and the renderer's
 * getAttributes, which picks the attributes of a fenced code block either from
 * the node or from a brace block embedded in the info string.
 */
module Attributes {
  import opened Wrappers
  import opened Bytes

  /** The values goldmark's attribute parser produces: nil, bool, float64, []byte and []interface{}. */
  datatype Value =
    | Null
    | Bool(b: bool)
    | Num(whole: int)
    | Str(bytes: seq<Byte>)
    | Arr(items: seq<Value>)

  datatype Attribute = Attribute(name: seq<Byte>, value: Value)

  type Attributes = seq<Attribute>

  /** Attributes.Find: the value of the first attribute with the given name. */
  function Find(attrs: Attributes, name: seq<Byte>): (r: Option<Value>)
    ensures r.None? <==> forall i :: 0 <= i < |attrs| ==> attrs[i].name != name
    ensures r.Some? ==> exists i :: 0 <= i < |attrs| && attrs[i] == Attribute(name, r.value) &&
                                    forall j :: 0 <= j < i ==> attrs[j].name != name
  {
    if attrs == [] then None
    else if attrs[0].name == name then Some(attrs[0].value)
    else
      var r := Find(attrs[1..], name);
      assert forall i :: 1 <= i < |attrs| ==> attrs[i] == attrs[1..][i - 1];
      r
  }

  /**
   * The result of getAttributes as a function of the node's own attributes,
   * the info string (nil is None) and goldmark's ParseAttributes.
   */
  function ResolveAttributes(nodeAttrs: Option<Attributes>, info: Option<seq<Byte>>,
                             parse: seq<Byte> -> Option<Attributes>): (r: (Option<Attributes>, Option<seq<Byte>>))
    ensures r.1.Some? <==> info.Some?
    ensures r.0.None? ==> r.1 == info
  {
    if nodeAttrs.Some? then (nodeAttrs, info)
    else if info.None? then (None, None)
    else
      var s := info.value;
      var k := FirstIndex(s, OpenBrace);
      if k > 0 && parse(s[k..]).Some? then (parse(s[k..]), Some(s[..k])) else (None, info)
  }

  /** The language is the info string, or, when attributes were parsed from it, the non-empty text before its first '{'. */
  lemma LanguageBeforeBrace(nodeAttrs: Option<Attributes>, info: Option<seq<Byte>>,
                            parse: seq<Byte> -> Option<Attributes>)
    ensures var r := ResolveAttributes(nodeAttrs, info, parse);
            && (r.1.Some? ==> r.1.value <= info.value)
            && (nodeAttrs.None? && r.0.Some? ==>
                  r.1.Some? && |r.1.value| > 0 && OpenBrace !in r.1.value && r.1.value + [OpenBrace] <= info.value)
  {
    if nodeAttrs.None? && info.Some? {
      var s := info.value;
      var k := FirstIndex(s, OpenBrace);
      if k > 0 && parse(s[k..]).Some? {
        assert s[..k] + [OpenBrace] == s[..k + 1];
      }
    }
  }

  /**
   * getAttributes: the node's attributes, copied, win and the info string is
   * kept; otherwise a brace block after a non-empty prefix of the info string is
   * parsed, and on success the prefix becomes the language.
   */
  method GetAttributes(nodeAttrs: Option<Attributes>, info: Option<seq<Byte>>,
                       parse: seq<Byte> -> Option<Attributes>)
    returns (attrs: Option<Attributes>, language: Option<seq<Byte>>)
    ensures (attrs, language) == ResolveAttributes(nodeAttrs, info, parse)
    ensures nodeAttrs.Some? ==> attrs == nodeAttrs && language == info
    ensures nodeAttrs.None? && info.None? ==> attrs.None? && language.None?
    ensures nodeAttrs.None? && info.Some? && OpenBrace !in info.value ==> attrs.None? && language == info
    ensures nodeAttrs.None? && info.Some? ==>
      forall k :: 0 <= k < |info.value| && info.value[k] == OpenBrace && OpenBrace !in info.value[..k] ==>
        if k > 0 && parse(info.value[k..]).Some?
        then attrs == parse(info.value[k..]) && language == Some(info.value[..k])
        else attrs.None? && language == info
  {
    if nodeAttrs.Some? {
      var r := CopyAttributes(nodeAttrs.value);
      return Some(r), info;
    }

    if info.Some? {
      var s := info.value;
      var attrStartIdx := FirstBrace(s);
      FirstBraceOnly(s);
      if attrStartIdx > 0 {
        var attrStr := s[attrStartIdx..];
        var parsed := parse(attrStr);
        if parsed.Some? {
          return parsed, Some(s[..attrStartIdx]);
        }
      }
    }
    return None, info;
  }

  /** The copy loop of getAttributes: the same attributes, in the same order. */
  method CopyAttributes(a: Attributes) returns (r: Attributes)
    ensures r == a
  {
    r := [];
    for i := 0 to |a|
      invariant r == a[..i]
    {
      r := r + [Attribute(a[i].name, a[i].value)];
    }
  }

  /** The scan of getAttributes for the first '{', stopping there; -1 when there is none. */
  method FirstBrace(s: seq<Byte>) returns (attrStartIdx: int)
    ensures attrStartIdx == FirstIndex(s, OpenBrace)
  {
    attrStartIdx := -1;
    var idx := 0;
    while idx < |s|
      invariant 0 <= idx <= |s|
      invariant OpenBrace !in s[..idx]
    {
      if s[idx] == OpenBrace {
        attrStartIdx := idx;
        FirstIndexUnique(s, OpenBrace, idx);
        return;
      }
      assert s[..idx + 1] == s[..idx] + [s[idx]];
      idx := idx + 1;
    }
    assert s[..idx] == s;
  }

  /** Every '{' with none before it is the one FirstIndex finds. */
  lemma FirstBraceOnly(s: seq<Byte>)
    ensures forall k :: 0 <= k < |s| && s[k] == OpenBrace && OpenBrace !in s[..k] ==> k == FirstIndex(s, OpenBrace)
  {
    forall k | 0 <= k < |s| && s[k] == OpenBrace && OpenBrace !in s[..k]
      ensures k == FirstIndex(s, OpenBrace)
    {
      FirstIndexUnique(s, OpenBrace, k);
    }
  }
}
