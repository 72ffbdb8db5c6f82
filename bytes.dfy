/**
 * The parts of Go's standard library the renderer relies on, at byte level:
 * bytes.Buffer concatenation, strings.Split with a one-byte separator and
 * strconv.Atoi on a 64-bit platform.
 */
module Bytes {
  import opened Wrappers

  type Byte = b: int | 0 <= b < 256

  const Minus: Byte := 45      // '-'
  const Plus: Byte := 43       // '+'
  const Zero: Byte := 48       // '0'
  const OpenBrace: Byte := 123 // '{'

  const MinInt64: int := -0x8000_0000_0000_0000
  const MaxInt64: int := 0x7fff_ffff_ffff_ffff

  /** The bytes of an ASCII literal (every character of the literals used here is below 128). */
  function Ascii(s: string): (r: seq<Byte>)
    ensures |r| == |s|
  {
    seq(|s|, i requires 0 <= i < |s| => (s[i] as int) % 256)
  }

  /** The bytes written into a bytes.Buffer by writing each part in turn. */
  function Concat(parts: seq<seq<Byte>>): seq<Byte>
  {
    if parts == [] then [] else Concat(parts[..|parts| - 1]) + parts[|parts| - 1]
  }

  /** Index of the first occurrence of `b` in `s`, or -1 when there is none. */
  function FirstIndex(s: seq<Byte>, b: Byte): (k: int)
    ensures -1 <= k < |s|
    ensures k == -1 <==> b !in s
    ensures k >= 0 ==> s[k] == b && b !in s[..k]
  {
    if s == [] then -1
    else if s[0] == b then 0
    else
      var k := FirstIndex(s[1..], b);
      assert k >= 0 ==> s[..k + 1] == [s[0]] + s[1..][..k];
      assert s == [s[0]] + s[1..];
      if k == -1 then -1 else k + 1
  }

  /** An occurrence with none before it is the first one. */
  lemma FirstIndexUnique(s: seq<Byte>, b: Byte, k: int)
    requires 0 <= k < |s| && s[k] == b && b !in s[..k]
    ensures FirstIndex(s, b) == k
  {
  }

  /** strings.Split(s, sep) for a one-byte separator: the separator-free fields, in order. */
  function Split(s: seq<Byte>, sep: Byte): (fields: seq<seq<Byte>>)
    ensures |fields| >= 1
  {
    if s == [] then [[]]
    else
      var rest := Split(s[1..], sep);
      if s[0] == sep then [[]] + rest else [[s[0]] + rest[0]] + rest[1..]
  }

  /** strings.Join(fields, sep): the inverse of Split. */
  function Join(fields: seq<seq<Byte>>, sep: Byte): seq<Byte>
    requires |fields| >= 1
  {
    if |fields| == 1 then fields[0] else fields[0] + [sep] + Join(fields[1..], sep)
  }

  lemma JoinCons(f: seq<Byte>, rest: seq<seq<Byte>>, sep: Byte)
    requires |rest| >= 1
    ensures Join([f] + rest, sep) == f + [sep] + Join(rest, sep)
  {
    assert ([f] + rest)[1..] == rest;
  }

  lemma JoinPrepend(b: Byte, rest: seq<seq<Byte>>, sep: Byte)
    requires |rest| >= 1
    ensures Join([[b] + rest[0]] + rest[1..], sep) == [b] + Join(rest, sep)
  {
    var fields := [[b] + rest[0]] + rest[1..];
    if |rest| > 1 {
      assert fields[1..] == rest[1..];
    }
  }

  /** Joining the fields of a split gives back the original text. */
  lemma {:induction false} JoinSplit(s: seq<Byte>, sep: Byte)
    ensures Join(Split(s, sep), sep) == s
  {
    if s != [] {
      var rest := Split(s[1..], sep);
      JoinSplit(s[1..], sep);
      if s[0] == sep {
        JoinCons([], rest, sep);
      } else {
        JoinPrepend(s[0], rest, sep);
      }
      assert s == [s[0]] + s[1..];
    }
  }

  /** No field of a split holds the separator. */
  lemma {:induction false} SplitFieldsFree(s: seq<Byte>, sep: Byte)
    ensures forall i :: 0 <= i < |Split(s, sep)| ==> sep !in Split(s, sep)[i]
  {
    if s != [] {
      SplitFieldsFree(s[1..], sep);
    }
  }

  /** A split has a second field exactly when the text holds the separator. */
  lemma {:induction false} SplitHasSecond(s: seq<Byte>, sep: Byte)
    ensures |Split(s, sep)| >= 2 <==> sep in s
  {
    if s != [] {
      SplitHasSecond(s[1..], sep);
      assert s == [s[0]] + s[1..];
    }
  }

  /** A text without the separator is its own single field. */
  lemma SplitWhole(s: seq<Byte>, sep: Byte)
    requires sep !in s
    ensures Split(s, sep) == [s]
  {
    SplitHasSecond(s, sep);
    JoinSplit(s, sep);
  }

  /** A separator-free field followed by the separator is split off as the first field. */
  lemma {:induction false} SplitPrefix(a: seq<Byte>, rest: seq<Byte>, sep: Byte)
    requires sep !in a
    ensures Split(a + [sep] + rest, sep) == [a] + Split(rest, sep)
  {
    var s := a + [sep] + rest;
    if a == [] {
      assert s[1..] == rest;
    } else {
      assert s[1..] == a[1..] + [sep] + rest;
      SplitPrefix(a[1..], rest, sep);
      assert a == [a[0]] + a[1..];
    }
  }

  /** Splitting a join of separator-free fields gives back those fields. */
  lemma {:induction false} SplitJoin(fields: seq<seq<Byte>>, sep: Byte)
    requires |fields| >= 1
    requires forall i :: 0 <= i < |fields| ==> sep !in fields[i]
    ensures Split(Join(fields, sep), sep) == fields
    decreases |fields|
  {
    if |fields| == 1 {
      SplitWhole(fields[0], sep);
    } else {
      SplitPrefix(fields[0], Join(fields[1..], sep), sep);
      assert forall i :: 0 <= i < |fields[1..]| ==> sep !in fields[1..][i] by {
        forall i | 0 <= i < |fields[1..]| ensures sep !in fields[1..][i] {
          assert fields[1..][i] == fields[i + 1];
        }
      }
      SplitJoin(fields[1..], sep);
      assert fields == [fields[0]] + fields[1..];
    }
  }

  predicate IsDigit(b: Byte) {
    Zero <= b <= Zero + 9
  }

  predicate AllDigits(s: seq<Byte>) {
    forall i :: 0 <= i < |s| ==> IsDigit(s[i])
  }

  /** The value of a run of decimal digits, most significant first. */
  function DigitsValue(ds: seq<Byte>): nat
    requires AllDigits(ds)
  {
    if ds == [] then 0 else DigitsValue(ds[..|ds| - 1]) * 10 + (ds[|ds| - 1] - Zero)
  }

  /**
   * strconv.Atoi on a 64-bit platform: an optional '+' or '-', then at least one
   * decimal digit and nothing else; the value must fit in int64. None is the error.
   */
  function Atoi(s: seq<Byte>): (r: Option<int>)
    ensures r.Some? ==> MinInt64 <= r.value <= MaxInt64
    ensures r.Some? ==> |s| >= 1 && IsDigit(s[|s| - 1]) && forall i :: 0 < i < |s| ==> IsDigit(s[i])
  {
    if |s| == 0 then None
    else
      var digits := if s[0] == Minus || s[0] == Plus then s[1..] else s;
      if |digits| == 0 || !AllDigits(digits) then None
      else
        var v: int := if s[0] == Minus then -(DigitsValue(digits) as int) else DigitsValue(digits);
        if MinInt64 <= v <= MaxInt64 then Some(v) else None
  }

  /** strconv.Itoa for a non-negative number: its shortest decimal form. */
  function Decimal(n: nat): (ds: seq<Byte>)
    ensures |ds| >= 1 && AllDigits(ds)
  {
    if n < 10 then [Zero + n] else Decimal(n / 10) + [Zero + n % 10]
  }

  lemma {:induction false} DecimalValue(n: nat)
    ensures DigitsValue(Decimal(n)) == n
  {
    if n >= 10 {
      DecimalValue(n / 10);
      var ds := Decimal(n);
      assert ds[..|ds| - 1] == Decimal(n / 10);
    }
  }

  /** Atoi reads back what Itoa writes, for every non-negative int64. */
  lemma AtoiDecimal(n: nat)
    requires n <= MaxInt64
    ensures Atoi(Decimal(n)) == Some(n)
  {
    DecimalValue(n);
    var ds := Decimal(n);
    assert IsDigit(ds[0]);
  }

  /** Text with no minus sign never parses as a negative number. */
  lemma AtoiNoMinus(s: seq<Byte>)
    requires Minus !in s
    ensures Atoi(s).Some? ==> Atoi(s).value >= 0
  {
    if |s| > 0 {
      assert s[0] != Minus;
    }
  }

  /** Atoi fails on a lone sign and on any text holding a byte that is neither a digit nor a leading sign. */
  lemma AtoiRejects(s: seq<Byte>, i: nat)
    requires i < |s| && !IsDigit(s[i])
    requires i > 0 || (s[0] != Minus && s[0] != Plus) || |s| == 1
    ensures Atoi(s) == None
  {
    if s[0] == Minus || s[0] == Plus {
      if i > 0 {
        assert s[1..][i - 1] == s[i];
      }
    }
  }
}
