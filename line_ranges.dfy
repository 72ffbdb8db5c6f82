/**
 * The hl_lines attribute: a list whose numbers are single lines and whose
 * "lo-hi" strings are ranges, turned into the ranges chroma emphasises.
 */
module LineRanges {
  import opened Wrappers
  import opened Bytes
  import opened Chroma
  import opened Attributes

  /** What one entry of the list contributes. */
  datatype EntryResult =
    | Use(range: Range) // appended to the ranges
    | Skip              // ignored: not a number or a string, or a side that Atoi rejects
    | Crash             // a string with no '-' whose text parses: slices[1] is out of range

  /**
   * One entry, as the loop body of the renderer treats it: a number n is [n, n];
   * a string is split on '-', its first field must parse, then a second field
   * must exist (else the index panics) and parse.
   */
  function ParseEntry(v: Value): (r: EntryResult)
    ensures v.Num? ==> r == Use(Range(v.whole, v.whole))
    ensures !v.Num? && !v.Str? ==> r == Skip
    ensures r.Crash? ==> v.Str? && Minus !in v.bytes
    ensures r.Use? && v.Str? ==> Minus in v.bytes
  {
    match v
    case Num(n) => Use(Range(n, n))
    case Str(s) =>
      SplitHasSecond(s, Minus);
      var slices := Split(s, Minus);
      var lhs := Atoi(slices[0]);
      if lhs.None? then Skip
      else if |slices| < 2 then Crash
      else
        var rhs := Atoi(slices[1]);
        if rhs.None? then Skip else Use(Range(lhs.value, rhs.value))
    case _ => Skip
  }

  /** The ranges of a whole list, in input order, or None when an entry makes the loop panic. */
  function Ranges(entries: seq<Value>): (r: Option<seq<Range>>)
    ensures r.Some? ==> |r.value| <= |entries|
  {
    if entries == [] then Some([])
    else
      var prev := Ranges(entries[..|entries| - 1]);
      match ParseEntry(entries[|entries| - 1])
      case Crash => None
      case Skip => prev
      case Use(r) => if prev.None? then None else Some(prev.value + [r])
  }

  /** The contribution of one entry as a list of ranges (None for a panic). */
  function EntryRanges(v: Value): Option<seq<Range>>
  {
    match ParseEntry(v)
    case Use(r) => Some([r])
    case Skip => Some([])
    case Crash => None
  }

  /** The loop over the hl_lines list, as the renderer writes it; None is the panic. */
  method ExtractRanges(lines: seq<Value>) returns (hlRanges: Option<seq<Range>>)
    ensures hlRanges == Ranges(lines)
  {
    var acc: seq<Range> := [];
    for i := 0 to |lines|
      invariant Ranges(lines[..i]) == Some(acc)
    {
      RangesStep(lines, i);
      var l := lines[i];
      if l.Num? {
        acc := acc + [Range(l.whole, l.whole)];
      }
      if l.Str? {
        var slices := Split(l.bytes, Minus);
        var lhs := Atoi(slices[0]);
        if lhs.None? {
          continue;
        }
        if |slices| < 2 {
          PrefixPanics(lines, i + 1);
          return None;
        }
        var rhs := Atoi(slices[1]);
        if rhs.None? {
          continue;
        }
        acc := acc + [Range(lhs.value, rhs.value)];
      }
    }
    assert lines[..|lines|] == lines;
    return Some(acc);
  }

  lemma RangesStep(lines: seq<Value>, i: nat)
    requires i < |lines|
    ensures Ranges(lines[..i + 1]) ==
      match ParseEntry(lines[i])
      case Crash => None
      case Skip => Ranges(lines[..i])
      case Use(r) => Combine(Ranges(lines[..i]), Some([r]))
  {
    assert lines[..i + 1][..i] == lines[..i];
  }

  lemma PrefixPanics(lines: seq<Value>, n: nat)
    requires n <= |lines| && Ranges(lines[..n]).None?
    ensures Ranges(lines).None?
  {
    RangesAppend(lines[..n], lines[n..]);
    assert lines[..n] + lines[n..] == lines;
  }

  /** The ranges of a concatenation are the ranges of the parts, and a panic in either part is a panic. */
  lemma {:induction false} RangesAppend(xs: seq<Value>, ys: seq<Value>)
    ensures Ranges(xs + ys) == Combine(Ranges(xs), Ranges(ys))
    decreases |ys|
  {
    if ys == [] {
      assert xs + ys == xs;
      if Ranges(xs).Some? {
        assert Ranges(xs).value + [] == Ranges(xs).value;
      }
    } else {
      var ys' := ys[..|ys| - 1];
      var last := ys[|ys| - 1];
      assert (xs + ys)[..|xs + ys| - 1] == xs + ys';
      assert (xs + ys)[|xs + ys| - 1] == last;
      RangesAppend(xs, ys');
      if Ranges(xs).Some? && Ranges(ys').Some? && ParseEntry(last).Use? {
        assert Ranges(xs).value + (Ranges(ys').value + [ParseEntry(last).range]) ==
               Ranges(xs).value + Ranges(ys').value + [ParseEntry(last).range];
      }
    }
  }

  /** A non-empty list panics exactly when its last entry does or the rest of the list does. */
  lemma RangesLast(entries: seq<Value>)
    requires entries != []
    ensures Ranges(entries).None? <==>
      ParseEntry(entries[|entries| - 1]).Crash? || Ranges(entries[..|entries| - 1]).None?
  {
  }

  /** A list panics exactly when one of its entries does. */
  lemma {:induction false} RangesPanic(entries: seq<Value>)
    ensures Ranges(entries).None? <==> exists i :: 0 <= i < |entries| && ParseEntry(entries[i]).Crash?
  {
    if entries != [] {
      var last := |entries| - 1;
      var init := entries[..last];
      RangesPanic(init);
      RangesLast(entries);
      assert forall i :: 0 <= i < |init| ==> init[i] == entries[i];
      if i :| 0 <= i < |entries| && ParseEntry(entries[i]).Crash? {
        assert i == last || ParseEntry(init[i]).Crash?;
      }
    }
  }

  /** Two partial results put one after the other; a panic in either is a panic. */
  function Combine(a: Option<seq<Range>>, b: Option<seq<Range>>): Option<seq<Range>>
  {
    if a.None? || b.None? then None else Some(a.value + b.value)
  }

  lemma RangesSingle(v: Value)
    ensures Ranges([v]) == EntryRanges(v)
  {
    var e := [v];
    assert e[..|e| - 1] == [];
    assert Ranges([]) == Some([]);
    if ParseEntry(v).Use? {
      assert [] + [ParseEntry(v).range] == [ParseEntry(v).range];
    }
  }

  /** Each entry contributes independently, in input order: skipping an entry leaves its neighbours' ranges alone. */
  lemma EntryIndependent(xs: seq<Value>, v: Value, ys: seq<Value>)
    ensures Ranges(xs + [v] + ys) == Combine(Combine(Ranges(xs), EntryRanges(v)), Ranges(ys))
    ensures ParseEntry(v).Skip? ==> Ranges(xs + [v] + ys) == Ranges(xs + ys)
  {
    RangesSingle(v);
    RangesAppend(xs, [v]);
    RangesAppend(xs + [v], ys);
    RangesAppend(xs, ys);
    if ParseEntry(v).Skip? && Ranges(xs).Some? {
      assert Ranges(xs).value + [] == Ranges(xs).value;
    }
  }

  /** A number n is the single-line range [n, n]. */
  lemma NumberEntry(n: int)
    ensures Ranges([Num(n)]) == Some([Range(n, n)])
  {
    RangesSingle(Num(n));
  }

  /** A string "a-b" (no '-' in a or b) is [Atoi(a), Atoi(b)] when both sides parse, with no check that lo <= hi, and is skipped otherwise. */
  lemma StringRange(a: seq<Byte>, b: seq<Byte>)
    requires Minus !in a && Minus !in b
    ensures ParseEntry(Str(a + [Minus] + b)) ==
      if Atoi(a).Some? && Atoi(b).Some? then Use(Range(Atoi(a).value, Atoi(b).value)) else Skip
  {
    JoinCons(a, [b], Minus);
    SplitJoin([a, b], Minus);
  }

  /** Fields after the second are ignored: "a-b-c" reads as "a-b". */
  lemma StringExtraFields(a: seq<Byte>, b: seq<Byte>, c: seq<Byte>)
    requires Minus !in a && Minus !in b
    ensures ParseEntry(Str(a + [Minus] + b + [Minus] + c)) == ParseEntry(Str(a + [Minus] + b))
  {
    SplitThree(a, b, c);
    JoinCons(a, [b], Minus);
    SplitJoin([a, b], Minus);
    var long := Split(a + [Minus] + b + [Minus] + c, Minus);
    var short := Split(a + [Minus] + b, Minus);
    assert long[0] == short[0] && long[1] == short[1] && |long| >= 2 && |short| >= 2;
  }

  /** The fields of "a-b-c", where a and b hold no '-', are a, b, then those of c. */
  lemma SplitThree(a: seq<Byte>, b: seq<Byte>, c: seq<Byte>)
    requires Minus !in a && Minus !in b
    ensures Split(a + [Minus] + b + [Minus] + c, Minus) == [a, b] + Split(c, Minus)
  {
    var rest := b + [Minus] + c;
    assert a + [Minus] + b + [Minus] + c == a + [Minus] + rest;
    SplitPrefix(b, c, Minus);
    SplitPrefix(a, rest, Minus);
    assert [a] + ([b] + Split(c, Minus)) == [a, b] + Split(c, Minus);
  }

  /** The index panic happens exactly for a string with no '-' whose whole text parses. */
  lemma StringCrash(s: seq<Byte>)
    ensures ParseEntry(Str(s)).Crash? <==> Minus !in s && Atoi(s).Some?
  {
    SplitHasSecond(s, Minus);
    JoinSplit(s, Minus);
  }

  /** A range read from a string never has a negative bound: its fields hold no '-'. */
  lemma StringBoundsNonNegative(s: seq<Byte>)
    requires ParseEntry(Str(s)).Use?
    ensures ParseEntry(Str(s)).range.lo >= 0 && ParseEntry(Str(s)).range.hi >= 0
  {
    var slices := Split(s, Minus);
    SplitFieldsFree(s, Minus);
    AtoiNoMinus(slices[0]);
    AtoiNoMinus(slices[1]);
  }

  lemma DecimalNoMinus(n: nat)
    ensures Minus !in Decimal(n)
  {
  }

  /** The written form "x-y" of two non-negative int64 values is the range [x, y]. */
  lemma DecimalRange(x: nat, y: nat)
    requires x <= MaxInt64 && y <= MaxInt64
    ensures ParseEntry(Str(Decimal(x) + [Minus] + Decimal(y))) == Use(Range(x, y))
  {
    DecimalNoMinus(x);
    DecimalNoMinus(y);
    AtoiDecimal(x);
    AtoiDecimal(y);
    StringRange(Decimal(x), Decimal(y));
  }

  /** A bare number written as a string, such as "2", makes the loop panic. */
  lemma DecimalAlonePanics(n: nat)
    requires n <= MaxInt64
    ensures ParseEntry(Str(Decimal(n))).Crash?
    ensures Ranges([Str(Decimal(n))]).None?
  {
    DecimalNoMinus(n);
    AtoiDecimal(n);
    StringCrash(Decimal(n));
    RangesSingle(Str(Decimal(n)));
  }

  /**
   * The entry rule the test table of the repository expects: a string with
   * no '-' names one line, as a number does. The renderer does not follow it
   * (see DecimalAlonePanics); this is the rule the panic evidently stands for.
   */
  function ParseEntryIntended(v: Value): (r: EntryResult)
    ensures !r.Crash?
    ensures v.Num? ==> r == Use(Range(v.whole, v.whole))
    ensures !v.Num? && !v.Str? ==> r == Skip
    ensures v.Str? && Minus !in v.bytes && Atoi(v.bytes).Some? ==>
      r == Use(Range(Atoi(v.bytes).value, Atoi(v.bytes).value))
  {
    match v
    case Num(n) => Use(Range(n, n))
    case Str(s) =>
      SplitHasSecond(s, Minus);
      JoinSplit(s, Minus);
      var slices := Split(s, Minus);
      var lhs := Atoi(slices[0]);
      if lhs.None? then Skip
      else if |slices| < 2 then Use(Range(lhs.value, lhs.value))
      else
        var rhs := Atoi(slices[1]);
        if rhs.None? then Skip else Use(Range(lhs.value, rhs.value))
    case _ => Skip
  }

  /** The intended rule changes only the entries on which the renderer panics. */
  lemma IntendedAgrees(v: Value)
    ensures !ParseEntry(v).Crash? ==> ParseEntryIntended(v) == ParseEntry(v)
    ensures ParseEntry(v).Crash? ==>
      && v.Str? && Atoi(v.bytes).Some?
      && ParseEntryIntended(v) == Use(Range(Atoi(v.bytes).value, Atoi(v.bytes).value))
  {
    if v.Str? {
      StringCrash(v.bytes);
      if Minus !in v.bytes {
        SplitWhole(v.bytes, Minus);
      }
    }
  }

  /** Under the intended rule the string "n" is the single line [n, n]. */
  lemma IntendedSingleLine(n: nat)
    requires n <= MaxInt64
    ensures ParseEntryIntended(Str(Decimal(n))) == Use(Range(n, n))
    ensures RangesIntended([Str(Decimal(n))]) == [Range(n, n)]
  {
    DecimalAlonePanics(n);
    IntendedAgrees(Str(Decimal(n)));
    AtoiDecimal(n);
  }

  /** The ranges of a list under the intended entry rule: the loop never panics. */
  function RangesIntended(entries: seq<Value>): (r: seq<Range>)
    ensures |r| <= |entries|
  {
    if entries == [] then []
    else
      var prev := RangesIntended(entries[..|entries| - 1]);
      match ParseEntryIntended(entries[|entries| - 1])
      case Use(r) => prev + [r]
      case _ => prev
  }

  /** Wherever the renderer's loop finishes, the intended rule gives the same ranges. */
  lemma {:induction false} RangesIntendedAgrees(entries: seq<Value>)
    ensures Ranges(entries).Some? ==> RangesIntended(entries) == Ranges(entries).value
  {
    if entries != [] {
      var init := entries[..|entries| - 1];
      RangesIntendedAgrees(init);
      IntendedAgrees(entries[|entries| - 1]);
    }
  }

  /** The list ["2-3", 5] gives [2, 3] then [5, 5]. */
  lemma MixedListExample()
    ensures Ranges([Str(Decimal(2) + [Minus] + Decimal(3)), Num(5)]) == Some([Range(2, 3), Range(5, 5)])
  {
    var e := Str(Decimal(2) + [Minus] + Decimal(3));
    DecimalRange(2, 3);
    RangesSingle(e);
    RangesSingle(Num(5));
    RangesAppend([e], [Num(5)]);
    assert [e] + [Num(5)] == [e, Num(5)];
    assert EntryRanges(e) == Some([Range(2, 3)]);
    assert [Range(2, 3)] + [Range(5, 5)] == [Range(2, 3), Range(5, 5)];
  }
}
