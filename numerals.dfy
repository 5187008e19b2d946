/**
 * Decimal numerals as the receipt prints them: plain digit strings
 * ("10", the row numbers), comma-grouped amounts ("1,250", "53,250")
 * and amounts in English words ("Fifty Three Thousand Two Hundred Fifty").
 * The receipt only holds these as literal strings; this module gives them
 * their numeric meaning so that the printed total can be checked.
 */
module Numerals {
  import opened Wrappers

  predicate IsDigit(c: char) { '0' <= c <= '9' }

  predicate AllDigits(s: string) { forall i :: 0 <= i < |s| ==> IsDigit(s[i]) }

  /** A digit string without leading zeros: what `str(n)` prints for a natural number. */
  predicate Canonical(s: string) { |s| >= 1 && AllDigits(s) && (s[0] == '0' ==> |s| == 1) }

  function DigitChar(d: nat): (c: char)
    requires d < 10
    ensures IsDigit(c)
  {
    ('0' as int + d) as char
  }

  function DigitValue(c: char): (d: nat)
    requires IsDigit(c)
    ensures d < 10 && DigitChar(d) == c
  {
    c as int - '0' as int
  }

  /** The number a digit string denotes, most significant digit first. */
  function ValueOf(s: string): nat
    requires AllDigits(s)
    decreases |s|
  {
    if s == [] then 0 else ValueOf(s[..|s| - 1]) * 10 + DigitValue(s[|s| - 1])
  }

  /** The decimal numeral of `n`, as Python's `str(n)`. */
  function Decimal(n: nat): (s: string)
    ensures Canonical(s)
    ensures n < 10 <==> |s| == 1
    decreases n
  {
    if n < 10 then [DigitChar(n)] else Decimal(n / 10) + [DigitChar(n % 10)]
  }

  lemma {:induction false} DecimalRoundTrip(n: nat)
    ensures ValueOf(Decimal(n)) == n
    decreases n
  {
    if n >= 10 {
      DecimalRoundTrip(n / 10);
      var s := Decimal(n);
      assert s[..|s| - 1] == Decimal(n / 10);
    }
  }

  /** A numeral without leading zeros denotes at least 10^(length-1), so at least 1 when longer than one digit. */
  lemma {:induction false} LeadingDigitBound(s: string)
    requires |s| >= 1 && AllDigits(s) && s[0] != '0'
    ensures ValueOf(s) >= 1
    ensures |s| >= 2 ==> ValueOf(s) >= 10
    decreases |s|
  {
    if |s| >= 2 {
      LeadingDigitBound(s[..|s| - 1]);
    }
  }

  /** Every canonical digit string is the numeral of its own value. */
  lemma {:induction false} DecimalOfValue(s: string)
    requires Canonical(s)
    ensures Decimal(ValueOf(s)) == s
    decreases |s|
  {
    if |s| >= 2 {
      var p := s[..|s| - 1];
      LeadingDigitBound(s);
      DecimalOfValue(p);
      assert s == p + [s[|s| - 1]];
    }
  }

  lemma DecimalBelowThousand(n: nat)
    requires n < 1000
    ensures |Decimal(n)| <= 3
  {
    if n >= 10 {
      assert n / 10 < 100;
      if n / 10 >= 10 {
        assert |Decimal(n / 10 / 10)| == 1;
      }
    }
  }

  /** The value of a string of at most three digits, digit by digit. */
  lemma ValueOfShort(s: string)
    requires |s| <= 3 && AllDigits(s)
    ensures |s| == 0 ==> ValueOf(s) == 0
    ensures |s| == 1 ==> ValueOf(s) == DigitValue(s[0])
    ensures |s| == 2 ==> ValueOf(s) == DigitValue(s[0]) * 10 + DigitValue(s[1])
    ensures |s| == 3 ==> ValueOf(s) == DigitValue(s[0]) * 100 + DigitValue(s[1]) * 10 + DigitValue(s[2])
    ensures ValueOf(s) < 1000
  {
    if |s| >= 1 {
      var p := s[..|s| - 1];
      ValueOfShort(p);
    }
  }

  /** The three-digit group after a thousands separator, with leading zeros. */
  function Group3(m: nat): (g: string)
    requires m < 1000
    ensures |g| == 3 && AllDigits(g) && ValueOf(g) == m
  {
    var g := [DigitChar(m / 100), DigitChar(m / 10 % 10), DigitChar(m % 10)];
    ValueOfShort(g);
    g
  }

  lemma Group3OfValue(g: string)
    requires |g| == 3 && AllDigits(g)
    ensures ValueOf(g) < 1000 && Group3(ValueOf(g)) == g
  {
    ValueOfShort(g);
    var a, b, c := DigitValue(g[0]), DigitValue(g[1]), DigitValue(g[2]);
    ThreeDigits(a, b, c);
    assert g == [DigitChar(a), DigitChar(b), DigitChar(c)];
  }

  lemma ThreeDigits(a: nat, b: nat, c: nat)
    requires a < 10 && b < 10 && c < 10
    ensures var v := a * 100 + b * 10 + c; v / 100 == a && v / 10 % 10 == b && v % 10 == c
  {
    var v := a * 100 + b * 10 + c;
    assert v / 10 == a * 10 + b;
  }

  /** `n` with a comma between each group of three digits, as the receipt prints amounts. */
  function Grouped(n: nat): (s: string)
    ensures |s| >= 1
    decreases n
  {
    if n < 1000 then Decimal(n) else Grouped(n / 1000) + "," + Group3(n % 1000)
  }

  /**
   * Reads a comma-grouped numeral: a leading group of one to three digits
   * without leading zeros, then groups of exactly three digits each after a
   * comma. Anything else is `None`.
   */
  function ParseGrouped(s: string): Option<nat>
    decreases |s|
  {
    if |s| >= 5 && s[|s| - 4] == ',' && AllDigits(s[|s| - 3..]) then
      match ParseGrouped(s[..|s| - 4])
      case Some(v) => if v > 0 then Some(v * 1000 + ValueOf(s[|s| - 3..])) else None
      case None => None
    else if |s| <= 3 && Canonical(s) then
      Some(ValueOf(s))
    else
      None
  }

  /** Reading a printed amount gives back the amount. */
  lemma {:induction false} GroupedRoundTrip(n: nat)
    ensures ParseGrouped(Grouped(n)) == Some(n)
    decreases n
  {
    var s := Grouped(n);
    if n < 1000 {
      DecimalBelowThousand(n);
      DecimalRoundTrip(n);
    } else {
      var p := Grouped(n / 1000);
      GroupedRoundTrip(n / 1000);
      assert s == p + [','] + Group3(n % 1000);
      assert s[..|s| - 4] == p;
      assert s[|s| - 3..] == Group3(n % 1000);
    }
  }

  /** Printing a number of at least one thousand splits off its last group. */
  lemma GroupedSplit(u: nat, w: nat)
    requires u > 0 && w < 1000
    ensures Grouped(u * 1000 + w) == Grouped(u) + "," + Group3(w)
  {
    var n := u * 1000 + w;
    assert n / 1000 == u && n % 1000 == w;
  }

  /** Every string that reads as a number is exactly how that number is printed. */
  lemma {:induction false} ParseGroupedCanonical(s: string)
    ensures ParseGrouped(s).Some? ==> Grouped(ParseGrouped(s).value) == s
    decreases |s|
  {
    if ParseGrouped(s).Some? {
      if |s| >= 5 && s[|s| - 4] == ',' && AllDigits(s[|s| - 3..]) {
        var p, g := s[..|s| - 4], s[|s| - 3..];
        ParseGroupedCanonical(p);
        GroupAppended(p, g, ParseGrouped(p).value);
        assert s == p + [','] + g;
      } else {
        ShortCanonical(s);
      }
    }
  }

  lemma GroupAppended(p: string, g: string, u: nat)
    requires |g| == 3 && AllDigits(g) && u > 0 && Grouped(u) == p
    ensures Grouped(u * 1000 + ValueOf(g)) == p + [','] + g
  {
    Group3OfValue(g);
    GroupedSplit(u, ValueOf(g));
  }

  lemma ShortCanonical(s: string)
    requires |s| <= 3 && Canonical(s)
    ensures Grouped(ValueOf(s)) == s
  {
    DecimalOfValue(s);
    ValueOfShort(s);
  }

  const Units: seq<string> := ["", "One", "Two", "Three", "Four", "Five", "Six", "Seven", "Eight",
    "Nine", "Ten", "Eleven", "Twelve", "Thirteen", "Fourteen", "Fifteen", "Sixteen", "Seventeen",
    "Eighteen", "Nineteen"]

  const Tens: seq<string> := ["", "", "Twenty", "Thirty", "Forty", "Fifty", "Sixty", "Seventy",
    "Eighty", "Ninety"]

  function WordsBelow100(n: nat): string
    requires 0 < n < 100
  {
    if n < 20 then Units[n]
    else if n % 10 == 0 then Tens[n / 10]
    else Tens[n / 10] + " " + Units[n % 10]
  }

  function WordsBelow1000(n: nat): string
    requires 0 < n < 1000
  {
    if n < 100 then WordsBelow100(n)
    else Units[n / 100] + " Hundred" + (if n % 100 == 0 then "" else " " + WordsBelow100(n % 100))
  }

  /** An amount below one million in English words, capitalised and without "and", as on the receipt. */
  function Words(n: nat): string
    requires 0 < n < 1000000
  {
    if n < 1000 then WordsBelow1000(n)
    else WordsBelow1000(n / 1000) + " Thousand" + (if n % 1000 == 0 then "" else " " + WordsBelow1000(n % 1000))
  }
}
