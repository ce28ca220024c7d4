/**
 * The Spanish-style number formatter of the FX Impact Simulator. Python first
 * renders the value with two decimals and comma thousands grouping (the `,.2f`
 * format spec), then swaps the separators through a placeholder with three
 * `str.replace` calls: `,` -> `X`, `.` -> `,`, `X` -> `.`.
 *
 * The value is taken already rounded to hundredths: a sign and a magnitude in
 * hundredths. Python prints the sign of a negative zero, so the sign is kept
 * apart from the magnitude.
 */
module CurrencyFormat {

  datatype Option<T> = None | Some(value: T)

  /** A fixed-point amount: `negative` and a magnitude in hundredths. */
  datatype Fixed = Fixed(negative: bool, hundredths: nat)

  // ---------------------------------------------------------------------------
  // Digits

  predicate IsDigit(c: char) { '0' <= c <= '9' }

  predicate AllDigits(s: string) { forall i :: 0 <= i < |s| ==> IsDigit(s[i]) }

  function DigitChar(d: nat): (c: char)
    requires d < 10
    ensures IsDigit(c) && DigitValue(c) == d
  {
    (48 + d) as char
  }

  function DigitValue(c: char): int { c as int - 48 }

  /** The decimal digits of `n`, most significant first, with no leading zero. */
  function Digits(n: nat): (s: string)
    ensures |s| > 0 && AllDigits(s)
    ensures s[0] == '0' <==> n == 0
    decreases n
  {
    if n < 10 then [DigitChar(n)] else Digits(n / 10) + [DigitChar(n % 10)]
  }

  /** Exactly two digits, zero-padded: the fractional part of `.2f`. */
  function TwoDigits(c: nat): (s: string)
    requires c < 100
    ensures |s| == 2 && AllDigits(s)
  {
    [DigitChar(c / 10), DigitChar(c % 10)]
  }

  /** The number a digit string denotes. */
  function Value(s: string): nat
    requires AllDigits(s)
  {
    if s == [] then 0 else 10 * Value(s[..|s| - 1]) + DigitValue(s[|s| - 1])
  }

  lemma {:induction false} ValueOfDigits(n: nat)
    ensures Value(Digits(n)) == n
    decreases n
  {
    if n >= 10 {
      var d := Digits(n / 10);
      assert (d + [DigitChar(n % 10)])[..|d|] == d;
      ValueOfDigits(n / 10);
    }
  }

  lemma ValueAppendTwo(a: string, c: nat)
    requires AllDigits(a) && c < 100
    ensures AllDigits(a + TwoDigits(c))
    ensures Value(a + TwoDigits(c)) == 100 * Value(a) + c
  {
    var s := a + TwoDigits(c);
    assert s[..|s| - 1] == a + [DigitChar(c / 10)];
    assert (a + [DigitChar(c / 10)])[..|a|] == a;
  }

  // ---------------------------------------------------------------------------
  // Thousands grouping

  /**
   * `s` is a run of digits split into groups of three by `sep`, counted from
   * the right; the leftmost group holds one to three digits.
   */
  predicate Grouped(s: string, sep: char)
  {
    && |s| % 4 != 0
    && forall i :: 0 <= i < |s| ==> if (|s| - i) % 4 == 0 then s[i] == sep else IsDigit(s[i])
  }

  /** Inserts `sep` between every three digits, counted from the right. */
  function Group(ds: string, sep: char): (g: string)
    requires |ds| > 0 && AllDigits(ds)
    ensures |g| == |ds| + (|ds| - 1) / 3
    decreases |ds|
  {
    if |ds| <= 3 then ds else Group(ds[..|ds| - 3], sep) + [sep] + ds[|ds| - 3..]
  }

  lemma {:induction false} GroupIsGrouped(ds: string, sep: char)
    requires |ds| > 0 && AllDigits(ds)
    ensures Grouped(Group(ds, sep), sep)
    decreases |ds|
  {
    if |ds| > 3 {
      var k := |ds| - 3;
      GroupIsGrouped(ds[..k], sep);
      GroupedExtend(Group(ds[..k], sep), sep, ds[k..]);
    }
  }

  lemma GroupedExtend(p: string, sep: char, last: string)
    requires Grouped(p, sep) && |last| == 3 && AllDigits(last)
    ensures Grouped(p + [sep] + last, sep)
  {
    var s := p + [sep] + last;
    forall i | 0 <= i < |s|
      ensures if (|s| - i) % 4 == 0 then s[i] == sep else IsDigit(s[i])
    {
      if i < |p| {
        assert (|s| - i) % 4 == (|p| - i) % 4 by {
          assert |s| - i == (|p| - i) + 4;
        }
        assert s[i] == p[i];
      } else if i == |p| {
        assert |s| - i == 4;
      } else {
        assert s[i] == last[i - |p| - 1];
      }
    }
  }

  // ---------------------------------------------------------------------------
  // Python's `f"{value:,.2f}"` on an amount already rounded to hundredths

  function SignPrefix(x: Fixed): string { if x.negative then "-" else "" }

  /** Python's rendering holds only a sign, digits, `,` and `.`: never the placeholder `X`. */
  function PyFormat(x: Fixed): (r: string)
    ensures 'X' !in r
  {
    GroupIsGrouped(Digits(x.hundredths / 100), ',');
    SignPrefix(x) + Group(Digits(x.hundredths / 100), ',') + "." + TwoDigits(x.hundredths % 100)
  }

  // ---------------------------------------------------------------------------
  // `str.replace` with one-character arguments, and the separator swap

  /** `s.replace(a, b)` for one-character `a` and `b`. */
  function ReplaceAll(s: string, a: char, b: char): (r: string)
    ensures |r| == |s|
    ensures forall i :: 0 <= i < |s| ==> r[i] == if s[i] == a then b else s[i]
  {
    if s == [] then [] else [if s[0] == a then b else s[0]] + ReplaceAll(s[1..], a, b)
  }

  function SwapChar(c: char): char
  {
    if c == ',' then '.' else if c == '.' then ',' else c
  }

  /** Every `,` becomes `.`, every `.` becomes `,`, everything else stays. */
  function SwapSeparators(s: string): string
  {
    seq(|s|, i requires 0 <= i < |s| => SwapChar(s[i]))
  }

  /**
   * The three chained replacements of `format_currency`. On a string without
   * the placeholder `X` they swap `,` and `.` and keep everything else.
   */
  function SwapThroughPlaceholder(s: string): (r: string)
    ensures |r| == |s|
    ensures 'X' !in s ==> r == SwapSeparators(s)
  {
    ReplaceAll(ReplaceAll(ReplaceAll(s, ',', 'X'), '.', ','), 'X', '.')
  }

  /** `format_currency`: Python's rendering with its separators swapped is the Spanish-style rendering. */
  function FormatCurrency(x: Fixed): (r: string)
    ensures r == SpanishFormat(x)
  {
    SwapLayout(SignPrefix(x), Digits(x.hundredths / 100), TwoDigits(x.hundredths % 100));
    SwapThroughPlaceholder(PyFormat(x))
  }

  // ---------------------------------------------------------------------------
  // Reference definitions: Spanish-style output and its reading back

  /** The Spanish-style rendering: `.` groups thousands and `,` marks the decimals. */
  function SpanishFormat(x: Fixed): string
  {
    SignPrefix(x) + Group(Digits(x.hundredths / 100), '.') + "," + TwoDigits(x.hundredths % 100)
  }

  /** An optional `-`, digits grouped by `.`, a `,` and exactly two digits. */
  predicate IsSpanishAmount(s: string)
  {
    var body := if |s| > 0 && s[0] == '-' then s[1..] else s;
    && |body| >= 4
    && body[|body| - 3] == ','
    && IsDigit(body[|body| - 2]) && IsDigit(body[|body| - 1])
    && Grouped(body[..|body| - 3], '.')
  }

  predicate IsSeparator(c: char) { c == ',' || c == '.' }

  /** Deletes every separator. */
  function Strip(s: string): string
  {
    if s == [] then [] else (if IsSeparator(s[0]) then [] else [s[0]]) + Strip(s[1..])
  }

  /** Reads a Spanish-style amount back: its sign and the digits left once separators are deleted. */
  function ParseSpanish(s: string): Option<Fixed>
  {
    var negative := |s| > 0 && s[0] == '-';
    var digits := Strip(if negative then s[1..] else s);
    if |digits| > 0 && AllDigits(digits) then Some(Fixed(negative, Value(digits))) else None
  }

  // ---------------------------------------------------------------------------
  // Properties

  lemma {:induction false} SwapGroup(ds: string)
    requires |ds| > 0 && AllDigits(ds)
    ensures SwapSeparators(Group(ds, ',')) == Group(ds, '.')
    decreases |ds|
  {
    if |ds| <= 3 {
      SwapDigits(ds);
    } else {
      var k := |ds| - 3;
      SwapGroup(ds[..k]);
      SwapJoin(Group(ds[..k], ','), ds[k..]);
    }
  }

  /** Swapping `p`, `,`, `last` swaps `p`, turns the `,` into `.` and keeps the digits of `last`. */
  lemma SwapJoin(p: string, last: string)
    requires AllDigits(last)
    ensures SwapSeparators(p + [','] + last) == SwapSeparators(p) + ['.'] + last
  {
    var s := p + [','] + last;
    var r := SwapSeparators(p) + ['.'] + last;
    assert |r| == |s|;
    forall i | 0 <= i < |s| ensures SwapSeparators(s)[i] == r[i] {
      if i < |p| {
        assert s[i] == p[i];
      } else if i > |p| {
        assert s[i] == last[i - |p| - 1];
      }
    }
  }

  lemma SwapDigits(ds: string)
    requires AllDigits(ds)
    ensures SwapSeparators(ds) == ds
  {
  }

  lemma SwapAppend(a: string, b: string)
    ensures SwapSeparators(a + b) == SwapSeparators(a) + SwapSeparators(b)
  {
  }

  /** Every `,` of Python's rendering becomes `.`, every `.` becomes `,`, nothing else changes. */
  lemma FormatCurrencySwapsSeparators(x: Fixed)
    ensures FormatCurrency(x) == SwapSeparators(PyFormat(x))
    ensures |FormatCurrency(x)| == |PyFormat(x)|
    ensures forall i :: 0 <= i < |PyFormat(x)| ==> FormatCurrency(x)[i] == SwapChar(PyFormat(x)[i])
  {
  }

  lemma SwapLayout(sign: string, ds: string, t: string)
    requires sign == "" || sign == "-"
    requires |ds| > 0 && AllDigits(ds) && AllDigits(t)
    ensures SwapSeparators(sign + Group(ds, ',') + "." + t) == sign + Group(ds, '.') + "," + t
  {
    var g := Group(ds, ',');
    SwapAppend(sign + g + ".", t);
    SwapAppend(sign + g, ".");
    SwapAppend(sign, g);
    SwapGroup(ds);
    SwapDigits(t);
    assert SwapSeparators(sign) == sign;
    assert SwapSeparators(".") == ",";
  }

  /** The output is an optional `-`, `.`-grouped digits, `,` and two digits. */
  lemma FormatCurrencyShape(x: Fixed)
    ensures IsSpanishAmount(FormatCurrency(x))
  {
    GroupIsGrouped(Digits(x.hundredths / 100), '.');
    ShapeOfLayout(SignPrefix(x), Group(Digits(x.hundredths / 100), '.'), TwoDigits(x.hundredths % 100));
  }

  lemma ShapeOfLayout(sign: string, g: string, t: string)
    requires sign == "" || sign == "-"
    requires Grouped(g, '.') && |t| == 2 && AllDigits(t)
    ensures IsSpanishAmount(sign + g + "," + t)
  {
    var s := sign + g + "," + t;
    var body := g + "," + t;
    assert IsDigit(g[0]);
    if sign == "" {
      assert s == body;
    } else {
      assert s[1..] == body;
    }
    assert body[..|body| - 3] == g;
  }

  lemma {:induction false} StripAppend(a: string, b: string)
    ensures Strip(a + b) == Strip(a) + Strip(b)
    decreases |a|
  {
    if a != [] {
      assert (a + b)[0] == a[0];
      assert (a + b)[1..] == a[1..] + b;
      StripAppend(a[1..], b);
    } else {
      assert a + b == b;
    }
  }

  lemma {:induction false} StripDigits(ds: string)
    requires AllDigits(ds)
    ensures Strip(ds) == ds
    decreases |ds|
  {
    if ds != [] {
      StripDigits(ds[1..]);
    }
  }

  lemma {:induction false} StripGroup(ds: string, sep: char)
    requires |ds| > 0 && AllDigits(ds) && IsSeparator(sep)
    ensures Strip(Group(ds, sep)) == ds
    decreases |ds|
  {
    if |ds| <= 3 {
      StripDigits(ds);
    } else {
      var k := |ds| - 3;
      StripGroup(ds[..k], sep);
      StripJoin(Group(ds[..k], sep), sep, ds[k..]);
      assert ds[..k] + ds[k..] == ds;
    }
  }

  /** Deleting the separators of `p`, `sep`, `last` keeps those of `p` and all of `last`. */
  lemma StripJoin(p: string, sep: char, last: string)
    requires IsSeparator(sep) && AllDigits(last)
    ensures Strip(p + [sep] + last) == Strip(p) + last
  {
    var q := p + [sep];
    assert Strip([sep]) == [] by {
      assert [sep][1..] == [];
    }
    calc {
      Strip(q + last);
      { StripAppend(q, last); }
      Strip(q) + Strip(last);
      { StripAppend(p, [sep]); StripDigits(last); }
      Strip(p) + [] + last;
      { assert Strip(p) + [] == Strip(p); }
      Strip(p) + last;
    }
  }

  /** Deleting the separators leaves the digits of the amount in hundredths. */
  lemma StripSpanishDigits(x: Fixed)
    ensures Strip(Group(Digits(x.hundredths / 100), '.') + "," + TwoDigits(x.hundredths % 100))
         == Digits(x.hundredths / 100) + TwoDigits(x.hundredths % 100)
    ensures AllDigits(Digits(x.hundredths / 100) + TwoDigits(x.hundredths % 100))
    ensures Value(Digits(x.hundredths / 100) + TwoDigits(x.hundredths % 100)) == x.hundredths
  {
    var ds := Digits(x.hundredths / 100);
    StripGroup(ds, '.');
    StripJoin(Group(ds, '.'), ',', TwoDigits(x.hundredths % 100));
    ValueAppendTwo(ds, x.hundredths % 100);
    ValueOfDigits(x.hundredths / 100);
  }

  /** Reading the output back gives the amount: the formatter loses nothing. */
  lemma FormatCurrencyRoundTrip(x: Fixed)
    ensures ParseSpanish(FormatCurrency(x)) == Some(x)
  {
    var ds := Digits(x.hundredths / 100);
    var t := TwoDigits(x.hundredths % 100);
    GroupIsGrouped(ds, '.');
    SignLayout(SignPrefix(x), Group(ds, '.'), t);
    StripSpanishDigits(x);
  }

  /** A leading `-` is read as the sign exactly when the sign prefix is present. */
  lemma SignLayout(sign: string, g: string, t: string)
    requires sign == "" || sign == "-"
    requires Grouped(g, '.')
    ensures var s := sign + g + "," + t;
      && (|s| > 0 && s[0] == '-') == (sign == "-")
      && (if sign == "-" then s[1..] else s) == g + "," + t
  {
    var s := sign + g + "," + t;
    assert IsDigit(g[0]);
    if sign == "" {
      assert s == g + "," + t;
    } else {
      assert s[1..] == g + "," + t;
    }
  }

  /** Distinct amounts are rendered differently. */
  lemma FormatCurrencyInjective(x: Fixed, y: Fixed)
    requires FormatCurrency(x) == FormatCurrency(y)
    ensures x == y
  {
    FormatCurrencyRoundTrip(x);
    FormatCurrencyRoundTrip(y);
  }
}
