/** The two thousands-separator algorithms (host-utility/src/blockchain.rs, host-utility/src/utils.rs). */
module Thousands {
  function Digit(d: nat): char
    requires d < 10
  {
    '0' + d as char
  }

  /** Decimal text of a natural number. */
  function Decimal(n: nat): string {
    if n < 10 then [Digit(n)] else Decimal(n / 10) + [Digit(n % 10)]
  }

  lemma {:induction false} DecimalDigits(n: nat)
    ensures Decimal(n) != "" && forall c | c in Decimal(n) :: '0' <= c <= '9'
  {
    if n >= 10 {
      DecimalDigits(n / 10);
    }
  }

  function DigitValue(c: char): int {
    c as int - '0' as int
  }

  function Value(s: string): int {
    if s == "" then 0 else 10 * Value(s[..|s| - 1]) + DigitValue(s[|s| - 1])
  }

  /** The text determines the number. */
  lemma {:induction false} DecimalValue(n: nat)
    ensures Value(Decimal(n)) == n
  {
    if n >= 10 {
      DecimalValue(n / 10);
      assert Decimal(n)[..|Decimal(n)| - 1] == Decimal(n / 10);
    } else {
      assert Decimal(n)[..0] == "";
    }
  }

  function Sign(value: int): string {
    if value < 0 then "-" else ""
  }

  function Magnitude(value: int): nat {
    if value < 0 then -value else value
  }

  /** The text of a signed integer. */
  function Text(value: int): string {
    Sign(value) + Decimal(Magnitude(value))
  }

  /** The character `i` places from the right end. */
  function FromRight(s: string, i: nat): char
    requires i < |s|
  {
    s[|s| - 1 - i]
  }

  /** Length of `n` digits with a separator between groups of three. */
  function GroupedLength(n: nat): nat {
    if n == 0 then 0 else n + (n - 1) / 3
  }

  lemma PlaceInDigits(n: nat, i: nat)
    requires i < GroupedLength(n) && i % 4 != 3
    ensures 0 <= i - i / 4 < n
  {
  }

  /** What a grouping of the digits shows `i` places from the right: every fourth character is a comma. */
  function Shown(digits: string, i: nat): char
    requires i < GroupedLength(|digits|)
  {
    if i % 4 == 3 then ',' else
      PlaceInDigits(|digits|, i);
      FromRight(digits, i - i / 4)
  }

  /** `g` is the digits in groups of three, counted from the right: this fixes every character of `g`. */
  ghost predicate IsGrouping(digits: string, g: string) {
    |g| == GroupedLength(|digits|) && forall i: nat | i < |g| :: FromRight(g, i) == Shown(digits, i)
  }

  lemma GroupingUnique(digits: string, g: string, h: string)
    requires IsGrouping(digits, g) && IsGrouping(digits, h)
    ensures g == h
  {
    forall j | 0 <= j < |g|
      ensures g[j] == h[j]
    {
      assert g[j] == FromRight(g, |g| - 1 - j) && h[j] == FromRight(h, |h| - 1 - j);
    }
  }

  // ---------------------------------------------------------------------------
  // Inserting from the right
  // ---------------------------------------------------------------------------

  /** The state of the insertion loop: `m` groups of three are done, the rest of the text is untouched. */
  ghost predicate Inserted(text: string, start: nat, pos: nat, m: nat, result: string) {
    && start < pos && pos + 3 * m == |text| && |result| == pos + 4 * m
    && (forall j | 0 <= j < pos :: result[j] == text[j])
    && (forall i: nat | i < 4 * m :: FromRight(result, i) == if i % 4 == 3 then ',' else FromRight(text, i - i / 4))
  }

  lemma InsertOne(text: string, start: nat, pos: nat, m: nat, result: string)
    requires Inserted(text, start, pos, m, result) && pos > start + 3
    ensures Inserted(text, start, pos - 3, m + 1, result[..pos - 3] + "," + result[pos - 3..])
  {
    var next := result[..pos - 3] + "," + result[pos - 3..];
    assert |next| == |result| + 1;
    forall i: nat | i < 4 * (m + 1)
      ensures FromRight(next, i) == if i % 4 == 3 then ',' else FromRight(text, i - i / 4)
    {
      if i < 4 * m {
        assert FromRight(next, i) == FromRight(result, i);
      } else if i < 4 * m + 3 {
        assert FromRight(next, i) == result[pos - 1 - (i - 4 * m)];
        assert i / 4 == m;
      } else {
        assert next[pos - 3] == ',';
      }
    }
  }

  lemma InsertDone(sign: string, digits: string, pos: nat, m: nat, result: string)
    requires Inserted(sign + digits, |sign|, pos, m, result) && pos <= |sign| + 3
    ensures |result| == |sign| + GroupedLength(|digits|)
    ensures result[..|sign|] == sign && IsGrouping(digits, result[|sign|..])
  {
    var g, k := result[|sign|..], pos - |sign|;
    assert |digits| == 3 * m + k;
    forall i: nat | i < |g|
      ensures FromRight(g, i) == Shown(digits, i)
    {
      assert FromRight(g, i) == FromRight(result, i);
      if i < 4 * m {
        if i % 4 != 3 {
          PlaceInDigits(|digits|, i);
          assert FromRight(sign + digits, i - i / 4) == FromRight(digits, i - i / 4);
        }
      } else {
        assert FromRight(result, i) == result[pos - 1 - (i - 4 * m)];
        assert i / 4 == m && i - i / 4 == 3 * m + (i - 4 * m);
      }
    }
  }

  /** Insert commas into the decimal text from the right, leaving a minus sign alone. */
  method FormatWithThousands(value: int) returns (result: string)
    ensures |Sign(value)| <= |result| && result[..|Sign(value)|] == Sign(value)
    ensures IsGrouping(Decimal(Magnitude(value)), result[|Sign(value)|..])
  {
    result := Text(value);
    ghost var text, m: nat := result, 0;
    DecimalDigits(Magnitude(value));
    var start: nat := if value < 0 then 1 else 0;
    var pos: nat := |result|;
    while pos > start + 3
      invariant Inserted(text, start, pos, m, result)
    {
      InsertOne(text, start, pos, m, result);
      pos := pos - 3;
      result := result[..pos] + "," + result[pos..];
      m := m + 1;
    }
    InsertDone(Sign(value), Decimal(Magnitude(value)), pos, m, result);
  }

  // ---------------------------------------------------------------------------
  // Building from the last digit backwards
  // ---------------------------------------------------------------------------

  /** The text built from the last `i` digits. */
  ghost predicate Built(s: string, i: nat, result: string) {
    && i <= |s| && |result| == GroupedLength(i)
    && forall t: nat | t < |result| :: FromRight(result, t) == Shown(s, t)
  }

  lemma Prepended(s: string, c: char)
    ensures forall t: nat | t < |s| :: FromRight([c] + s, t) == FromRight(s, t)
    ensures FromRight([c] + s, |s|) == c
  {
  }

  lemma BuildOne(s: string, i: nat, result: string)
    requires Built(s, i, result) && i < |s|
    ensures var c := FromRight(s, i);
            Built(s, i + 1, [c] + if i > 0 && i % 3 == 0 then "," + result else result)
  {
    var c, m := FromRight(s, i), i / 3;
    if i > 0 && i % 3 == 0 {
      assert |result| == 4 * m - 1;
      Prepended(result, ',');
      Prepended("," + result, c);
      assert GroupedLength(i + 1) == 4 * m + 1 && (4 * m) - (4 * m) / 4 == i;
    } else {
      Prepended(result, c);
      var r := i % 3;
      assert i > 0 ==> |result| == 4 * m + r;
      assert GroupedLength(i + 1) == |result| + 1 && |result| - |result| / 4 == i;
    }
  }

  /** Build the text from its last digit backwards. */
  method FormatWithSeparators(num: nat) returns (result: string)
    ensures IsGrouping(Decimal(num), result)
  {
    var s := Decimal(num);
    result := "";
    for i := 0 to |s|
      invariant Built(s, i, result)
    {
      BuildOne(s, i, result);
      if i > 0 && i % 3 == 0 {
        result := "," + result;
      }
      result := [s[|s| - 1 - i]] + result;
    }
  }

  /** The two algorithms agree on every non-negative number, in particular on every `u32`. */
  method AlgorithmsAgree(num: nat) returns (a: string, b: string)
    ensures a == b && IsGrouping(Decimal(num), a)
  {
    a := FormatWithThousands(num);
    b := FormatWithSeparators(num);
    assert a[0..] == a;
    GroupingUnique(Decimal(num), a, b);
  }

  // ---------------------------------------------------------------------------
  // Reading the text back
  // ---------------------------------------------------------------------------

  /** The last `t` characters without their commas. */
  function Strip(g: string, t: nat): string
    requires t <= |g|
  {
    if t == 0 then "" else (if FromRight(g, t - 1) == ',' then "" else [FromRight(g, t - 1)]) + Strip(g, t - 1)
  }

  lemma QuarterStep(u: nat)
    ensures (u + 1) / 4 == if u % 4 == 3 then u / 4 + 1 else u / 4
  {
  }

  lemma SuffixGrows(digits: string, j: nat)
    requires 0 < j <= |digits|
    ensures digits[j - 1..] == [digits[j - 1]] + digits[j..]
  {
  }

  /** The character in place `u` is a comma, or the next digit to the left. */
  lemma PlaceHolds(digits: string, g: string, u: nat)
    requires IsGrouping(digits, g) && ',' !in digits && u < |g|
    ensures u % 4 == 3 ==> FromRight(g, u) == ','
    ensures u % 4 != 3 ==> u - u / 4 < |digits| && FromRight(g, u) == digits[|digits| - (u - u / 4) - 1] != ','
  {
    assert FromRight(g, u) == Shown(digits, u);
    if u % 4 != 3 {
      PlaceInDigits(|digits|, u);
      assert digits[|digits| - (u - u / 4) - 1] in digits;
    }
  }

  lemma {:induction false} StripGrouping(digits: string, g: string, t: nat)
    requires IsGrouping(digits, g) && ',' !in digits && t <= |g|
    ensures 0 <= t - t / 4 <= |digits| && Strip(g, t) == digits[|digits| - (t - t / 4)..]
  {
    if t > 0 {
      var u := t - 1;
      StripGrouping(digits, g, u);
      QuarterStep(u);
      PlaceHolds(digits, g, u);
      if u % 4 != 3 {
        SuffixGrows(digits, |digits| - (u - u / 4));
      }
    }
  }

  lemma DigitsRoundTrip(n: nat, g: string)
    requires IsGrouping(Decimal(n), g)
    ensures Strip(g, |g|) == Decimal(n) && Value(Strip(g, |g|)) == n
  {
    DecimalDigits(n);
    StripGrouping(Decimal(n), g, |g|);
    assert |g| - |g| / 4 == |Decimal(n)|;
    DecimalValue(n);
  }

  /** Only the end of a text matters for its last characters. */
  lemma {:induction false} StripSuffix(s: string, g: string, t: nat)
    requires |g| <= |s| && s[|s| - |g|..] == g && t <= |g|
    ensures Strip(s, t) == Strip(g, t)
  {
    if t > 0 {
      StripSuffix(s, g, t - 1);
      assert FromRight(s, t - 1) == s[|s| - |g|..][|g| - t];
    }
  }

  /** For every signed value: removing the commas returns its text, and the digits of the text the magnitude. */
  lemma FormatRoundTrip(value: int, result: string)
    requires |Sign(value)| <= |result| && result[..|Sign(value)|] == Sign(value)
    requires IsGrouping(Decimal(Magnitude(value)), result[|Sign(value)|..])
    ensures Strip(result, |result|) == Text(value) == (if value < 0 then "-" else "") + Decimal(Magnitude(value))
    ensures Value(Strip(result, |result|)[|Sign(value)|..]) == Magnitude(value)
  {
    var g := result[|Sign(value)|..];
    DigitsRoundTrip(Magnitude(value), g);
    StripSuffix(result, g, |g|);
    if value < 0 {
      assert FromRight(result, |result| - 1) == result[..1][0] == '-';
    }
    assert Text(value)[|Sign(value)|..] == Decimal(Magnitude(value));
  }
}
