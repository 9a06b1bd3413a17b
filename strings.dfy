/**
  The handful of Python string built-ins the bot and the report rely on:
  `str.strip`, `str.isdigit`, `str.startswith`, `str.split(sep, maxsplit)`,
  `str(int)`, and `str(float)` for prices with at most two decimals.
*/
module Strings {

  import opened Wrappers

  // ---------------------------------------------------------------------
  // Whitespace and str.strip()

  /** Python's `str.isspace` for a single code point (the full Unicode set Python uses). */
  predicate IsSpace(c: char) {
    || c == ' '
    || '\t' <= c <= '\r'
    || '\U{1C}' <= c <= '\U{1F}'
    || c == '\U{85}'
    || c == '\U{A0}'
    || c == '\U{1680}'
    || '\U{2000}' <= c <= '\U{200A}'
    || c == '\U{2028}'
    || c == '\U{2029}'
    || c == '\U{202F}'
    || c == '\U{205F}'
    || c == '\U{3000}'
  }

  predicate AllSpace(s: string) {
    forall k :: 0 <= k < |s| ==> IsSpace(s[k])
  }

  lemma AllSpaceSnoc(s: string, c: char)
    requires AllSpace(s) && IsSpace(c)
    ensures AllSpace(s + [c])
  {
    forall k | 0 <= k < |s + [c]| ensures IsSpace((s + [c])[k]) {
      if k < |s| { assert (s + [c])[k] == s[k]; }
    }
  }

  /** `s.lstrip()`: a suffix of `s` that does not start with whitespace. */
  function StripLeft(s: string): (r: string)
    ensures |r| <= |s| && r == s[|s| - |r|..]
    ensures r == [] || !IsSpace(r[0])
    ensures AllSpace(s[..|s| - |r|])
  {
    if s != [] && IsSpace(s[0]) then StripLeft(s[1..]) else s
  }

  /** `s.rstrip()`: a prefix of `s` that does not end with whitespace. */
  function StripRight(s: string): (r: string)
    ensures |r| <= |s| && r == s[..|r|]
    ensures r == [] || !IsSpace(r[|r| - 1])
    ensures AllSpace(s[|r|..])
    decreases |s|, 1
  {
    if s != [] && IsSpace(s[|s| - 1]) then
      StripRightStep(s);
      StripRight(s[..|s| - 1])
    else s
  }

  /** The recursive case of `StripRight`: a trailing blank joins the stripped suffix. */
  lemma StripRightStep(s: string)
    requires s != [] && IsSpace(s[|s| - 1])
    ensures var r := StripRight(s[..|s| - 1]);
      && r == s[..|r|]
      && AllSpace(s[|r|..])
    decreases |s|, 0
  {
    var r := StripRight(s[..|s| - 1]);
    AllSpaceSnoc(s[..|s| - 1][|r|..], s[|s| - 1]);
    assert s[|r|..] == s[..|s| - 1][|r|..] + [s[|s| - 1]];
    assert s[..|s| - 1][..|r|] == s[..|r|];
  }

  /** `s.strip()`: neither end of the result is whitespace. */
  function Strip(s: string): (r: string)
    ensures |r| <= |s|
    ensures r == [] || (!IsSpace(r[0]) && !IsSpace(r[|r| - 1]))
  {
    StripRight(StripLeft(s))
  }

  lemma {:induction false} StripLeftOfPadded(a: string, t: string)
    requires AllSpace(a)
    requires t == [] || !IsSpace(t[0])
    ensures StripLeft(a + t) == t
  {
    if a != [] {
      assert (a + t)[1..] == a[1..] + t;
      StripLeftOfPadded(a[1..], t);
    }
  }

  lemma {:induction false} StripRightOfPadded(t: string, b: string)
    requires AllSpace(b)
    requires t == [] || !IsSpace(t[|t| - 1])
    ensures StripRight(t + b) == t
  {
    if b != [] {
      assert (t + b)[..|t + b| - 1] == t + b[..|b| - 1];
      StripRightOfPadded(t, b[..|b| - 1]);
    } else {
      assert t + b == t;
    }
  }

  /**
    The reference meaning of strip: whatever whitespace `a` and `b` surround a
    text `t` whose ends are not whitespace, `Strip` returns exactly `t`.
  */
  lemma StripExact(a: string, t: string, b: string)
    requires AllSpace(a) && AllSpace(b)
    requires t == [] || (!IsSpace(t[0]) && !IsSpace(t[|t| - 1]))
    ensures Strip(a + t + b) == t
  {
    assert a + t + b == a + (t + b);
    if t == [] {
      assert AllSpace(a + b);
      StripLeftOfPadded(a + b, []);
      assert a + b + [] == a + b;
    } else {
      StripLeftOfPadded(a, t + b);
    }
    StripRightOfPadded(t, b);
  }

  /** A text whose ends are not whitespace is its own strip. */
  lemma StrippedIsFixed(t: string)
    requires t == [] || (!IsSpace(t[0]) && !IsSpace(t[|t| - 1]))
    ensures Strip(t) == t
  {
    var empty: string := [];
    assert empty + t == t && t + empty == t;
    StripLeftOfPadded(empty, t);
    StripRightOfPadded(t, empty);
  }

  /** Stripping twice is stripping once. */
  lemma StripIdempotent(s: string)
    ensures Strip(Strip(s)) == Strip(s)
  {
    StrippedIsFixed(Strip(s));
  }

  // ---------------------------------------------------------------------
  // Digits and str.isdigit()

  predicate IsDigit(c: char) {
    '0' <= c <= '9'
  }

  /** `s.isdigit()` restricted to ASCII digits: false on the empty string. */
  predicate IsDigits(s: string) {
    |s| > 0 && forall k :: 0 <= k < |s| ==> IsDigit(s[k])
  }

  /** A text made only of digits is unaffected by `strip`. */
  lemma DigitsAreStripped(s: string)
    requires IsDigits(s)
    ensures Strip(s) == s
  {
    StrippedIsFixed(s);
  }

  function DigitChar(d: nat): (c: char)
    requires d < 10
    ensures IsDigit(c)
  {
    (('0' as int) + d) as char
  }

  function DigitValue(c: char): (d: nat)
    requires IsDigit(c)
    ensures d < 10 && DigitChar(d) == c
  {
    (c as int) - ('0' as int)
  }

  /** The decimal value of a string of digits (what `int(s)` gives). */
  function DigitsValue(s: string): nat
    requires forall k :: 0 <= k < |s| ==> IsDigit(s[k])
  {
    if s == [] then 0 else 10 * DigitsValue(s[..|s| - 1]) + DigitValue(s[|s| - 1])
  }

  /** `str(n)` for a natural number: decimal digits, no leading zero. */
  function NatText(n: nat): (s: string)
    ensures IsDigits(s)
    ensures s[0] == '0' ==> n == 0 && |s| == 1
  {
    if n < 10 then [DigitChar(n)] else NatText(n / 10) + [DigitChar(n % 10)]
  }

  /** Reading back what `str(n)` wrote gives `n`. */
  lemma {:induction false} NatTextValue(n: nat)
    ensures DigitsValue(NatText(n)) == n
  {
    if n >= 10 {
      var s := NatText(n);
      assert s[..|s| - 1] == NatText(n / 10);
      NatTextValue(n / 10);
    }
  }

  // ---------------------------------------------------------------------
  // str.startswith() and str.split(sep, maxsplit)

  predicate StartsWith(s: string, prefix: string) {
    |prefix| <= |s| && s[..|prefix|] == prefix
  }

  /** The position of the first `c` in `s` (`s.index(c)`). */
  function IndexOf(s: string, c: char): (i: nat)
    requires c in s
    ensures i < |s| && s[i] == c && c !in s[..i]
  {
    if s[0] == c then 0 else 1 + IndexOf(s[1..], c)
  }

  /** The first occurrence is the only position with `c` and no `c` before it. */
  lemma IndexOfFirst(s: string, c: char, i: nat)
    requires i < |s| && s[i] == c && c !in s[..i]
    ensures IndexOf(s, c) == i
  {
  }

  /** `sep.join(parts)`. */
  function Join(parts: seq<string>, sep: char): string {
    if |parts| == 0 then []
    else if |parts| == 1 then parts[0]
    else parts[0] + [sep] + Join(parts[1..], sep)
  }

  lemma JoinCons(head: string, rest: seq<string>, sep: char)
    requires |rest| >= 1
    ensures Join([head] + rest, sep) == head + [sep] + Join(rest, sep)
  {
    assert ([head] + rest)[1..] == rest;
  }

  /** No part but (possibly) the last holds the separator. */
  predicate SepOnlyInLast(parts: seq<string>, sep: char) {
    forall k :: 0 <= k < |parts| - 1 ==> sep !in parts[k]
  }

  lemma SepOnlyInLastOfRest(parts: seq<string>, sep: char)
    requires |parts| >= 1 && SepOnlyInLast(parts, sep)
    ensures SepOnlyInLast(parts[1..], sep)
  {
    var rest := parts[1..];
    forall k | 0 <= k < |rest| - 1 ensures sep !in rest[k] {
      assert rest[k] == parts[k + 1];
    }
  }

  /**
    `s.split(sep, maxsplit)`: cut `s` at its first `maxsplit` separators
    (at most `maxsplit + 1` parts). `SplitShape`, `JoinSplit` and
    `SplitJoin` state what the parts are.
  */
  function Split(s: string, sep: char, maxsplit: nat): (parts: seq<string>)
    ensures 1 <= |parts| <= maxsplit + 1
    decreases maxsplit
  {
    if maxsplit == 0 || sep !in s then [s]
    else
      var i := IndexOf(s, sep);
      [s[..i]] + Split(s[i + 1..], sep, maxsplit - 1)
  }

  /** A text that holds the separator is cut at least once. */
  lemma SplitCuts(s: string, sep: char, maxsplit: nat)
    requires maxsplit > 0 && sep in s
    ensures |Split(s, sep, maxsplit)| >= 2
  {
  }

  /**
    No part but the last holds a separator, and the last holds one only
    when all `maxsplit` cuts were made.
  */
  lemma {:induction false} SplitShape(s: string, sep: char, maxsplit: nat)
    ensures SepOnlyInLast(Split(s, sep, maxsplit), sep)
    ensures |Split(s, sep, maxsplit)| <= maxsplit ==> sep !in Split(s, sep, maxsplit)[|Split(s, sep, maxsplit)| - 1]
    decreases maxsplit
  {
    if maxsplit > 0 && sep in s {
      var i := IndexOf(s, sep);
      var head, rest := s[..i], Split(s[i + 1..], sep, maxsplit - 1);
      SplitShape(s[i + 1..], sep, maxsplit - 1);
      SepOnlyInLastCons(head, rest, sep);
      assert Split(s, sep, maxsplit) == [head] + rest;
    } else {
      assert Split(s, sep, maxsplit) == [s];
    }
  }

  /** A part free of the separator, put before parts of that shape, keeps it. */
  lemma SepOnlyInLastCons(head: string, rest: seq<string>, sep: char)
    requires sep !in head && |rest| >= 1 && SepOnlyInLast(rest, sep)
    ensures SepOnlyInLast([head] + rest, sep)
    ensures ([head] + rest)[|[head] + rest| - 1] == rest[|rest| - 1]
  {
    var parts := [head] + rest;
    forall k | 0 <= k < |parts| - 1 ensures sep !in parts[k] {
      if k > 0 { assert parts[k] == rest[k - 1]; }
    }
  }

  /** A text whose first separator follows `head` is cut right there. */
  lemma SplitAtFirst(head: string, tail: string, sep: char, maxsplit: nat)
    requires sep !in head && maxsplit > 0
    ensures Split(head + [sep] + tail, sep, maxsplit) == [head] + Split(tail, sep, maxsplit - 1)
  {
    var s := head + [sep] + tail;
    assert s[|head|] == sep;
    assert s[..|head|] == head;
    IndexOfFirst(s, sep, |head|);
    assert s[|head| + 1..] == tail;
  }

  /** Joining the parts of a split gives back the text that was split. */
  lemma {:induction false} JoinSplit(s: string, sep: char, maxsplit: nat)
    ensures Join(Split(s, sep, maxsplit), sep) == s
    decreases maxsplit
  {
    if maxsplit > 0 && sep in s {
      var i := IndexOf(s, sep);
      var head, tail := s[..i], s[i + 1..];
      assert s == head + [sep] + tail;
      JoinSplit(tail, sep, maxsplit - 1);
      SplitAtFirst(head, tail, sep, maxsplit);
      JoinCons(head, Split(tail, sep, maxsplit - 1), sep);
    } else {
      assert Split(s, sep, maxsplit) == [s];
    }
  }

  /** A text cut once is its first part, the separator, and its second part. */
  lemma SplitInTwo(s: string, sep: char)
    requires |Split(s, sep, 1)| == 2
    ensures s == Split(s, sep, 1)[0] + [sep] + Split(s, sep, 1)[1]
    ensures sep !in Split(s, sep, 1)[0]
  {
    assert sep in s;
    var i := IndexOf(s, sep);
    var head, tail := s[..i], s[i + 1..];
    assert Split(tail, sep, 0) == [tail];
    assert Split(s, sep, 1) == [head] + [tail];
    assert s == head + [sep] + tail;
  }

  lemma SplitJoinSingle(parts: seq<string>, sep: char, maxsplit: nat)
    requires |parts| == 1 && (1 <= maxsplit ==> sep !in parts[0])
    ensures Split(Join(parts, sep), sep, maxsplit) == parts
  {
    assert Join(parts, sep) == parts[0];
    assert [parts[0]] == parts;
  }

  lemma SplitJoinStep(parts: seq<string>, sep: char, maxsplit: nat)
    requires |parts| >= 2 && maxsplit > 0 && sep !in parts[0]
    requires Split(Join(parts[1..], sep), sep, maxsplit - 1) == parts[1..]
    ensures Split(Join(parts, sep), sep, maxsplit) == parts
  {
    var head, rest := parts[0], parts[1..];
    assert parts == [head] + rest;
    JoinCons(head, rest, sep);
    SplitAtFirst(head, Join(rest, sep), sep, maxsplit);
  }

  /** The parts after the first again have the shape `Split` produces, one cut fewer. */
  lemma SplitJoinRestFits(parts: seq<string>, sep: char, maxsplit: nat)
    requires 2 <= |parts| <= maxsplit + 1
    requires SepOnlyInLast(parts, sep)
    requires |parts| <= maxsplit ==> sep !in parts[|parts| - 1]
    ensures sep !in parts[0] && maxsplit > 0
    ensures 1 <= |parts[1..]| <= maxsplit
    ensures SepOnlyInLast(parts[1..], sep)
    ensures |parts[1..]| <= maxsplit - 1 ==> sep !in parts[1..][|parts[1..]| - 1]
  {
    SepOnlyInLastOfRest(parts, sep);
  }

  /** The shape `Split` produces, part by part. */
  predicate SplitShaped(parts: seq<string>, sep: char, maxsplit: nat)
    decreases parts
  {
    if |parts| <= 1 then |parts| == 1 && (maxsplit >= 1 ==> sep !in parts[0])
    else maxsplit >= 1 && sep !in parts[0] && SplitShaped(parts[1..], sep, maxsplit - 1)
  }

  /** The quantified shape gives the part-by-part one. */
  lemma {:induction false} SplitShapedOf(parts: seq<string>, sep: char, maxsplit: nat)
    requires 1 <= |parts| <= maxsplit + 1
    requires SepOnlyInLast(parts, sep)
    requires |parts| <= maxsplit ==> sep !in parts[|parts| - 1]
    ensures SplitShaped(parts, sep, maxsplit)
    decreases parts
  {
    if |parts| >= 2 {
      SplitJoinRestFits(parts, sep, maxsplit);
      SplitShapedOf(parts[1..], sep, maxsplit - 1);
    }
  }

  /** `SplitJoin` by induction on the parts, one cut at a time. */
  lemma {:induction false} SplitJoinShaped(parts: seq<string>, sep: char, maxsplit: nat)
    requires SplitShaped(parts, sep, maxsplit)
    ensures Split(Join(parts, sep), sep, maxsplit) == parts
    decreases parts
  {
    if |parts| == 1 {
      SplitJoinSingle(parts, sep, maxsplit);
    } else {
      SplitJoinShaped(parts[1..], sep, maxsplit - 1);
      SplitJoinStep(parts, sep, maxsplit);
    }
  }

  /**
    Conversely, `Split` recovers any parts of the shape it produces: at
    most `maxsplit + 1` of them, no separator in any part but the last, and
    none in the last either unless there are exactly `maxsplit + 1` parts.
  */
  lemma SplitJoin(parts: seq<string>, sep: char, maxsplit: nat)
    requires 1 <= |parts| <= maxsplit + 1
    requires SepOnlyInLast(parts, sep)
    requires |parts| <= maxsplit ==> sep !in parts[|parts| - 1]
    ensures Split(Join(parts, sep), sep, maxsplit) == parts
  {
    SplitShapedOf(parts, sep, maxsplit);
    SplitJoinShaped(parts, sep, maxsplit);
  }

  // ---------------------------------------------------------------------
  // str(float) for prices, and reading such a text back

  /**
    The digits after the point in `str(x)` for a float holding whole cents:
    Python prints the shortest form, one digit when the second is zero.
  */
  function FractionText(frac: nat): (t: string)
    requires frac < 100
    ensures IsDigits(t) && 1 <= |t| <= 2 && '.' !in t
  {
    if frac % 10 == 0 then [DigitChar(frac / 10)]
    else [DigitChar(frac / 10), DigitChar(frac % 10)]
  }

  /** The cents that one or two digits after a decimal point stand for. */
  function FractionCents(t: string): nat
    requires IsDigits(t) && |t| <= 2
  {
    if |t| == 1 then 10 * DigitValue(t[0]) else 10 * DigitValue(t[0]) + DigitValue(t[1])
  }

  lemma FractionTextValue(frac: nat)
    requires frac < 100
    ensures FractionCents(FractionText(frac)) == frac
  {
  }

  /**
    `str(x)` for a non-negative float `x` that holds an exact number of cents
    (`65.0`, `13.5`, `12.25`).
  */
  function PriceText(cents: nat): (s: string)
    ensures '.' in s && ':' !in s
  {
    var whole := NatText(cents / 100);
    assert (whole + "." + FractionText(cents % 100))[|whole|] == '.';
    whole + "." + FractionText(cents % 100)
  }

  /**
    The value in cents of a decimal text `<digits>.<one or two digits>`,
    the texts `PriceText` writes; None for any other text.
  */
  function DecimalCents(s: string): Option<nat> {
    var parts := Split(s, '.', 1);
    if |parts| != 2 || !IsDigits(parts[0]) || !IsDigits(parts[1]) || |parts[1]| > 2 then None
    else Some(100 * DigitsValue(parts[0]) + FractionCents(parts[1]))
  }

  lemma PriceTextParts(cents: nat)
    ensures Split(PriceText(cents), '.', 1) == [NatText(cents / 100), FractionText(cents % 100)]
  {
    var whole := NatText(cents / 100);
    assert '.' !in whole by {
      assert IsDigits(whole);
    }
    SplitAtFirst(whole, FractionText(cents % 100), '.', 1);
  }

  /** Reading a price text back gives the price it was written from. */
  lemma PriceTextValue(cents: nat)
    ensures DecimalCents(PriceText(cents)) == Some(cents)
  {
    PriceTextParts(cents);
    NatTextValue(cents / 100);
    FractionTextValue(cents % 100);
  }
}
