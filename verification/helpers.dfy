/**
 * `formatNumber` from the point where `toFixed(2)` has produced the digits:
 * the magnitude is given as a whole number of hundredths, the sign as the
 * unrounded comparison `n < 0`. The integer digits get a thousands
 * separator before every full group of three counted from the right, and
 * the two decimals follow unless they are `"00"`.
 */
module Helpers {
  import opened Wrappers
  import opened Locale
  import LocaleUtil

  /** `isDefined`: anything but `undefined` is defined. */
  function IsDefined<T>(value: Option<T>): (r: bool)
    ensures r <==> value != None
  {
    value.Some?
  }

  datatype Separators = Separators(thousand: char, decimal: char)

  /** German uses `.` for thousands and `,` for decimals, every other locale the reverse. */
  function SeparatorsFor(locale: Option<string>): (r: Separators)
    ensures r == Separators('.', ',') <==> locale != Some("en") && locale != Some("en-US")
    ensures r == Separators('.', ',') || r == Separators(',', '.')
  {
    if LocaleUtil.GetLocale(locale) == DE then Separators('.', ',') else Separators(',', '.')
  }

  predicate IsDigit(c: char)
  {
    '0' <= c <= '9'
  }

  predicate AllDigits(s: string)
  {
    forall i :: 0 <= i < |s| ==> IsDigit(s[i])
  }

  function DigitChar(d: nat): (c: char)
    requires d < 10
    ensures IsDigit(c)
  {
    ['0', '1', '2', '3', '4', '5', '6', '7', '8', '9'][d]
  }

  function DigitValue(c: char): nat
    requires IsDigit(c)
  {
    (c as int - '0' as int) as nat
  }

  lemma DigitRoundTrip(d: nat)
    requires d < 10
    ensures DigitValue(DigitChar(d)) == d
  {
  }

  /** The decimal digits of `n`, most significant first, without leading zeros; `"0"` for zero. */
  function Digits(n: nat): (s: string)
    ensures |s| >= 1 && AllDigits(s)
    ensures |s| > 1 ==> s[0] != '0'
  {
    if n < 10 then [DigitChar(n)] else Digits(n / 10) + [DigitChar(n % 10)]
  }

  /** The number a string of decimal digits denotes. */
  function ParseDigits(s: string): nat
    requires AllDigits(s)
  {
    if |s| == 0 then 0 else ParseDigits(s[..|s| - 1]) * 10 + DigitValue(s[|s| - 1])
  }

  /** Reading the digits back gives the number. */
  lemma {:induction false} DigitsRoundTrip(n: nat)
    ensures ParseDigits(Digits(n)) == n
  {
    var s := Digits(n);
    if n < 10 {
      DigitRoundTrip(n);
      assert s[..0] == [];
    } else {
      DigitsRoundTrip(n / 10);
      DigitRoundTrip(n % 10);
      assert s[..|s| - 1] == Digits(n / 10);
    }
  }

  /** The two decimals `toFixed(2)` prints for `m` hundredths. */
  function TwoDigits(m: nat): (s: string)
    requires m < 100
    ensures |s| == 2 && AllDigits(s)
  {
    [DigitChar(m / 10), DigitChar(m % 10)]
  }

  lemma {:induction false} TwoDigitsRoundTrip(m: nat)
    requires m < 100
    ensures ParseDigits(TwoDigits(m)) == m
    ensures TwoDigits(m) == "00" <==> m == 0
  {
    var s := TwoDigits(m);
    DigitRoundTrip(m / 10);
    DigitRoundTrip(m % 10);
    assert s[..1][..0] == [];
    assert s[..1] == [DigitChar(m / 10)];
  }

  /**
   * The thousands grouping `replaceAll(/\B(?=(\d{3})+(?!\d))/g, sep)`: a
   * separator at every inner boundary followed by a multiple of three digits.
   */
  function Group(digits: string, sep: char): (r: string)
    decreases |digits|
  {
    if |digits| <= 3 then digits
    else Group(digits[..|digits| - 3], sep) + [sep] + digits[|digits| - 3..]
  }

  /** The string with every `sep` removed. */
  function Strip(s: string, sep: char): (r: string)
  {
    if |s| == 0 then []
    else Strip(s[..|s| - 1], sep) + (if s[|s| - 1] == sep then [] else [s[|s| - 1]])
  }

  lemma {:induction false} StripAppend(a: string, b: string, sep: char)
    ensures Strip(a + b, sep) == Strip(a, sep) + Strip(b, sep)
    decreases |b|
  {
    if |b| == 0 {
      assert a + b == a;
    } else {
      var b' := b[..|b| - 1];
      assert (a + b)[..|a + b| - 1] == a + b';
      StripAppend(a, b', sep);
    }
  }

  lemma {:induction false} StripNone(s: string, sep: char)
    requires forall i :: 0 <= i < |s| ==> s[i] != sep
    ensures Strip(s, sep) == s
    decreases |s|
  {
    if |s| > 0 {
      StripNone(s[..|s| - 1], sep);
    }
  }

  lemma {:induction false} StripSeparator(sep: char)
    ensures Strip([sep], sep) == []
  {
    assert [sep][..0] == [];
  }

  /** Stripping a separator joint removes the separator and keeps a separator-free tail. */
  lemma {:induction false} StripJoin(g: string, sep: char, lo: string)
    requires forall i :: 0 <= i < |lo| ==> lo[i] != sep
    ensures Strip(g + [sep] + lo, sep) == Strip(g, sep) + lo
  {
    StripAppend(g, [sep], sep);
    StripSeparator(sep);
    assert Strip(g + [sep], sep) == Strip(g, sep);
    StripAppend(g + [sep], lo, sep);
    StripNone(lo, sep);
  }

  /** Removing the separators from the grouped digits gives the digits back. */
  lemma {:induction false} GroupStripRoundTrip(digits: string, sep: char)
    requires AllDigits(digits) && !IsDigit(sep)
    ensures Strip(Group(digits, sep), sep) == digits
    decreases |digits|
  {
    if |digits| > 3 {
      var hi := digits[..|digits| - 3];
      var lo := digits[|digits| - 3..];
      assert AllDigits(hi) && AllDigits(lo);
      GroupStripRoundTrip(hi, sep);
      StripJoin(Group(hi, sep), sep, lo);
      assert hi + lo == digits;
    } else {
      StripNone(digits, sep);
    }
  }

  /**
   * The grouped string has one separator per full group of three digits
   * before the last group, and its separators sit exactly at the positions
   * with a multiple of four characters from there to the end: every group
   * after the first has three digits, and none starts the string.
   */
  lemma {:induction false} GroupShape(digits: string, sep: char)
    requires |digits| >= 1 && AllDigits(digits) && !IsDigit(sep)
    ensures var r := Group(digits, sep);
      && |r| == |digits| + (|digits| - 1) / 3
      && forall i :: 0 <= i < |r| ==> (r[i] == sep <==> i > 0 && (|r| - i) % 4 == 0)
    decreases |digits|
  {
    if |digits| > 3 {
      var hi := digits[..|digits| - 3];
      var lo := digits[|digits| - 3..];
      GroupShape(hi, sep);
      var g := Group(hi, sep);
      assert AllDigits(lo);
      SeparatorEveryFourth(g, lo, sep);
    }
  }

  /** Appending a separator and three digits keeps a separator at every fourth place from the end. */
  lemma {:induction false} SeparatorEveryFourth(g: string, lo: string, sep: char)
    requires |g| >= 1 && |lo| == 3 && AllDigits(lo) && !IsDigit(sep)
    requires forall i :: 0 <= i < |g| ==> (g[i] == sep <==> i > 0 && (|g| - i) % 4 == 0)
    ensures var r := g + [sep] + lo;
      forall i :: 0 <= i < |r| ==> (r[i] == sep <==> i > 0 && (|r| - i) % 4 == 0)
  {
    var r := g + [sep] + lo;
    forall i | 0 <= i < |r| ensures r[i] == sep <==> i > 0 && (|r| - i) % 4 == 0 {
      if i < |g| {
        assert r[i] == g[i];
        assert (|r| - i) % 4 == (|g| - i) % 4;
      } else if i == |g| {
        assert |r| - i == 4;
      } else {
        assert r[i] == lo[i - |g| - 1];
      }
    }
  }

  /** Separators the output can be read back with: distinct, and neither a digit nor the minus sign. */
  predicate Readable(seps: Separators)
  {
    && !IsDigit(seps.thousand) && !IsDigit(seps.decimal)
    && seps.thousand != seps.decimal
    && seps.thousand != '-' && seps.decimal != '-'
  }

  lemma SeparatorsReadable(locale: Option<string>)
    ensures Readable(SeparatorsFor(locale))
  {
  }

  /** The decimals: nothing when they are `00`, else the separator and two digits. */
  function DecimalPart(cents: nat, decimal: char): string
    requires cents < 100
  {
    if TwoDigits(cents) == "00" then "" else [decimal] + TwoDigits(cents)
  }

  /** The magnitude: grouped integer digits, then the decimals. */
  function FormatUnsigned(hundredths: nat, seps: Separators): string
  {
    Group(Digits(hundredths / 100), seps.thousand) + DecimalPart(hundredths % 100, seps.decimal)
  }

  /** `formatNumber(n, locale)` with `|n|` printed by `toFixed(2)` as `hundredths / 100`. */
  function FormatNumber(negative: bool, hundredths: nat, locale: Option<string>): string
  {
    Signed(negative, FormatUnsigned(hundredths, SeparatorsFor(locale)))
  }

  /** The position of the first `c` in `s`, if any. */
  function IndexOf(s: string, c: char): (r: Option<nat>)
    ensures r.Some? ==> r.value < |s| && s[r.value] == c && forall k :: 0 <= k < r.value ==> s[k] != c
    ensures r.None? ==> forall k :: 0 <= k < |s| ==> s[k] != c
  {
    if |s| == 0 then None
    else if s[0] == c then Some(0)
    else
      match IndexOf(s[1..], c)
      case None => None
      case Some(k) => Some(k + 1)
  }

  /**
   * Reading a magnitude back: the integer part up to the decimal separator
   * without its thousands separators, then the decimals if there is a
   * separator.
   */
  function ParseUnsigned(body: string, seps: Separators): Option<nat>
  {
    match IndexOf(body, seps.decimal)
    case None =>
      var digits := Strip(body, seps.thousand);
      if AllDigits(digits) then Some(ParseDigits(digits) * 100) else None
    case Some(k) =>
      var digits := Strip(body[..k], seps.thousand);
      var decimals := body[k + 1..];
      if AllDigits(digits) && AllDigits(decimals) then Some(ParseDigits(digits) * 100 + ParseDigits(decimals)) else None
  }

  /** Reading a formatted number back: a leading `-` is the sign, the rest the magnitude. */
  function ParseFormatted(s: string, seps: Separators): Option<(bool, nat)>
  {
    var negative := |s| > 0 && s[0] == '-';
    match ParseUnsigned(if negative then s[1..] else s, seps)
    case None => None
    case Some(h) => Some((negative, h))
  }

  lemma {:induction false} GroupHasNo(digits: string, sep: char, c: char)
    requires AllDigits(digits) && !IsDigit(c) && c != sep
    ensures forall i :: 0 <= i < |Group(digits, sep)| ==> Group(digits, sep)[i] != c
    decreases |digits|
  {
    if |digits| > 3 {
      var hi := digits[..|digits| - 3];
      assert AllDigits(hi);
      GroupHasNo(hi, sep, c);
    }
  }

  /** The grouped integer part reads back as the integer. */
  lemma {:induction false} IntegerPartRoundTrip(n: nat, seps: Separators)
    requires Readable(seps)
    ensures var g := Group(Digits(n), seps.thousand);
      && (forall i :: 0 <= i < |g| ==> g[i] != seps.decimal && g[i] != '-')
      && AllDigits(Strip(g, seps.thousand))
      && ParseDigits(Strip(g, seps.thousand)) == n
  {
    GroupHasNo(Digits(n), seps.thousand, seps.decimal);
    GroupHasNo(Digits(n), seps.thousand, '-');
    GroupStripRoundTrip(Digits(n), seps.thousand);
    DigitsRoundTrip(n);
  }

  /** The first `c` in `a + [c] + b` follows `a` when `a` has none. */
  lemma {:induction false} IndexOfAfter(a: string, c: char, b: string)
    requires forall i :: 0 <= i < |a| ==> a[i] != c
    ensures IndexOf(a + [c] + b, c) == Some(|a|)
  {
    var s := a + [c] + b;
    var r := IndexOf(s, c);
    assert s[|a|] == c;
    assert forall k :: 0 <= k < |a| ==> s[k] == a[k];
  }

  /** Without a decimal separator the whole string is the integer part. */
  lemma {:induction false} ParseWholeNumber(g: string, seps: Separators)
    requires forall i :: 0 <= i < |g| ==> g[i] != seps.decimal
    requires AllDigits(Strip(g, seps.thousand))
    ensures ParseUnsigned(g, seps) == Some(ParseDigits(Strip(g, seps.thousand)) * 100)
  {
    assert IndexOf(g, seps.decimal).None?;
  }

  /** With a decimal separator the integer part ends at it and the decimals follow it. */
  lemma {:induction false} ParseWithDecimals(body: string, g: string, cents: string, units: nat, hundredths: nat, seps: Separators)
    requires body == g + [seps.decimal] + cents
    requires forall i :: 0 <= i < |g| ==> g[i] != seps.decimal
    requires AllDigits(Strip(g, seps.thousand)) && AllDigits(cents)
    requires ParseDigits(Strip(g, seps.thousand)) == units && ParseDigits(cents) == hundredths
    ensures ParseUnsigned(body, seps) == Some(units * 100 + hundredths)
  {
    IndexOfAfter(g, seps.decimal, cents);
    assert body[..|g|] == g;
    assert body[|g| + 1..] == cents;
  }

  /** The magnitude reads back as the number of hundredths. */
  lemma {:induction false} UnsignedRoundTrip(hundredths: nat, seps: Separators)
    requires Readable(seps)
    ensures ParseUnsigned(FormatUnsigned(hundredths, seps), seps) == Some(hundredths)
  {
    if hundredths % 100 == 0 {
      WholeRoundTrip(hundredths, seps);
    } else {
      DecimalsRoundTrip(hundredths, seps);
    }
  }

  lemma {:induction false} WholeRoundTrip(hundredths: nat, seps: Separators)
    requires Readable(seps) && hundredths % 100 == 0
    ensures ParseUnsigned(FormatUnsigned(hundredths, seps), seps) == Some(hundredths)
  {
    var q := hundredths / 100;
    assert hundredths == q * 100;
    var g := Group(Digits(q), seps.thousand);
    IntegerPartRoundTrip(q, seps);
    TwoDigitsRoundTrip(hundredths % 100);
    assert DecimalPart(hundredths % 100, seps.decimal) == "";
    assert FormatUnsigned(hundredths, seps) == g;
    ParseWholeNumber(g, seps);
  }

  /** With cents that are not `00`, the magnitude is the grouped integer, the separator and two digits. */
  lemma {:induction false} DecimalsBody(hundredths: nat, seps: Separators)
    requires hundredths % 100 != 0
    ensures FormatUnsigned(hundredths, seps)
         == Group(Digits(hundredths / 100), seps.thousand) + [seps.decimal] + TwoDigits(hundredths % 100)
  {
    TwoDigitsRoundTrip(hundredths % 100);
  }

  /** A grouped integer `q`, the decimal separator and the two digits of `m` read back as `q` units and `m` hundredths. */
  lemma {:induction false} GroupedDecimalsRoundTrip(body: string, q: nat, m: nat, hundredths: nat, seps: Separators)
    requires Readable(seps) && 0 < m < 100 && hundredths == q * 100 + m
    requires body == Group(Digits(q), seps.thousand) + [seps.decimal] + TwoDigits(m)
    ensures ParseUnsigned(body, seps) == Some(hundredths)
  {
    var g := Group(Digits(q), seps.thousand);
    var cents := TwoDigits(m);
    IntegerPartRoundTrip(q, seps);
    TwoDigitsRoundTrip(m);
    ParseWithDecimals(body, g, cents, q, m, seps);
  }

  lemma {:induction false} DecimalsRoundTrip(hundredths: nat, seps: Separators)
    requires Readable(seps) && hundredths % 100 != 0
    ensures ParseUnsigned(FormatUnsigned(hundredths, seps), seps) == Some(hundredths)
  {
    DecimalsBody(hundredths, seps);
    UnitsAndHundredths(hundredths);
    GroupedDecimalsRoundTrip(FormatUnsigned(hundredths, seps), hundredths / 100, hundredths % 100, hundredths, seps);
  }

  /** A count of hundredths is its units and its remainder put back together. */
  lemma UnitsAndHundredths(hundredths: nat)
    ensures (hundredths / 100) * 100 + hundredths % 100 == hundredths
  {
  }

  /** The magnitude starts with a digit and holds a decimal separator exactly when the decimals are not `00`. */
  lemma {:induction false} UnsignedShape(hundredths: nat, seps: Separators)
    requires Readable(seps)
    ensures var body := FormatUnsigned(hundredths, seps);
      && |body| > 0 && IsDigit(body[0])
      && (hundredths % 100 == 0 <==> forall i :: 0 <= i < |body| ==> body[i] != seps.decimal)
      && (hundredths % 100 != 0 ==>
            |body| >= 3 && body[|body| - 3] == seps.decimal && body[|body| - 2..] == TwoDigits(hundredths % 100))
  {
    var digits := Digits(hundredths / 100);
    var g := Group(digits, seps.thousand);
    var cents := TwoDigits(hundredths % 100);
    GroupShape(digits, seps.thousand);
    assert g[0] == digits[0] by {
      GroupPrefix(digits, seps.thousand);
    }
    GroupHasNo(digits, seps.thousand, seps.decimal);
    TwoDigitsRoundTrip(hundredths % 100);
    var body := FormatUnsigned(hundredths, seps);
    if cents == "00" {
      assert body == g;
    } else {
      assert body == g + [seps.decimal] + cents;
      assert body[|g|] == seps.decimal;
    }
  }

  /** Grouping keeps the leading digit in front. */
  lemma {:induction false} GroupPrefix(digits: string, sep: char)
    requires |digits| >= 1
    ensures |Group(digits, sep)| >= 1 && Group(digits, sep)[0] == digits[0]
    decreases |digits|
  {
    if |digits| > 3 {
      var hi := digits[..|digits| - 3];
      GroupPrefix(hi, sep);
      assert hi[0] == digits[0];
    }
  }

  /** The formatted number reads back as its sign and its hundredths. */
  lemma {:induction false} FormatNumberRoundTrip(negative: bool, hundredths: nat, locale: Option<string>)
    ensures ParseFormatted(FormatNumber(negative, hundredths, locale), SeparatorsFor(locale))
         == Some((negative, hundredths))
  {
    var seps := SeparatorsFor(locale);
    var body := FormatUnsigned(hundredths, seps);
    var s := FormatNumber(negative, hundredths, locale);
    SeparatorsReadable(locale);
    UnsignedShape(hundredths, seps);
    UnsignedRoundTrip(hundredths, seps);
    if negative {
      assert s == "-" + body && s[1..] == body;
    } else {
      assert s == body;
    }
  }

  /** The sign, then the magnitude. */
  function Signed(negative: bool, body: string): string
  {
    (if negative then "-" else "") + body
  }

  /**
   * A sign in front of a magnitude that starts with a digit: a leading `-`
   * exactly when negative, never two, and the decimals stay where they were.
   */
  lemma {:induction false} SignPrefix(negative: bool, body: string, decimal: char, whole: bool, cents: string)
    requires |body| >= 1 && IsDigit(body[0]) && decimal != '-'
    requires whole <==> forall i :: 0 <= i < |body| ==> body[i] != decimal
    requires !whole ==> |body| >= 3 && body[|body| - 3] == decimal && body[|body| - 2..] == cents
    ensures |Signed(negative, body)| >= 1
    ensures Signed(negative, body)[0] == '-' <==> negative
    ensures negative ==> |Signed(negative, body)| >= 2 && Signed(negative, body)[1] != '-'
    ensures whole <==> forall i :: 0 <= i < |Signed(negative, body)| ==> Signed(negative, body)[i] != decimal
    ensures !whole ==> var s := Signed(negative, body);
      |s| >= 3 && s[|s| - 3] == decimal && s[|s| - 2..] == cents
  {
    var s := Signed(negative, body);
    if negative {
      assert s == ['-'] + body;
      assert forall i :: 1 <= i < |s| ==> s[i] == body[i - 1];
      if !whole {
        assert s[|s| - 3] == decimal;
        assert s[|s| - 2..] == body[|body| - 2..];
      } else {
        assert s[0] != decimal;
      }
    } else {
      assert s == body;
    }
  }

  /**
   * The output starts with a single `-` exactly for negative input, also when
   * the digits are all zeros; it holds the decimal separator exactly when
   * the decimals are not `00`, and then ends with the separator and the two
   * decimals.
   */
  lemma {:induction false} FormatNumberShape(negative: bool, hundredths: nat, locale: Option<string>)
    ensures var s := FormatNumber(negative, hundredths, locale);
      var decimal := SeparatorsFor(locale).decimal;
      && |s| >= 1
      && (s[0] == '-' <==> negative)
      && (negative ==> |s| >= 2 && s[1] != '-')
      && (hundredths % 100 == 0 <==> forall i :: 0 <= i < |s| ==> s[i] != decimal)
      && (hundredths % 100 != 0 ==> |s| >= 3 && s[|s| - 3] == decimal && s[|s| - 2..] == TwoDigits(hundredths % 100))
  {
    var seps := SeparatorsFor(locale);
    var body := FormatUnsigned(hundredths, seps);
    SeparatorsReadable(locale);
    UnsignedShape(hundredths, seps);
    SignPrefix(negative, body, seps.decimal, hundredths % 100 == 0, TwoDigits(hundredths % 100));
  }

  lemma {:induction false} DigitsExample()
    ensures Digits(1234) == "1234"
  {
    assert Digits(1) == "1";
    assert Digits(12) == "12";
    assert Digits(123) == "123";
  }

  lemma {:induction false} GroupExample()
    ensures Group("1234", '.') == "1.234"
  {
    assert Group("1", '.') == "1";
  }

  lemma {:induction false} UnsignedExample()
    ensures FormatUnsigned(123450, Separators('.', ',')) == "1.234,50"
  {
    assert 123450 / 100 == 1234 && 123450 % 100 == 50;
    DigitsExample();
    GroupExample();
    assert TwoDigits(50) == "50";
    assert DecimalPart(50, ',') == ",50";
  }

  /** `1234.5` in German is `1.234,50`. */
  lemma {:induction false} GermanExample()
    ensures FormatNumber(false, 123450, Some("de")) == "1.234,50"
  {
    UnsignedExample();
    assert SeparatorsFor(Some("de")) == Separators('.', ',');
  }
}
