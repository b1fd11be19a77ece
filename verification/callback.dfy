/** The data carried by a giveaway's join button: the announcement attaches
    `join_<id>`, and the callback handler reads the id back with
    `parseInt(data.split("_")[1])`. */
module CallbackData {
  import opened Records

  const JoinPrefix: string := "join_"

  /** What the handler makes of a button's data: not a join button at all,
      or a join request whose id `parseInt` read (None stands for NaN). */
  datatype Callback = Other | JoinRequest(target: Option<int>)

  predicate IsDigit(c: char)
  {
    '0' <= c <= '9'
  }

  predicate AllDigits(s: string)
  {
    forall i :: 0 <= i < |s| ==> IsDigit(s[i])
  }

  function DigitChar(d: int): (c: char)
    requires 0 <= d < 10
    ensures IsDigit(c)
  {
    "0123456789"[d]
  }

  function DigitValue(c: char): (d: int)
    requires IsDigit(c)
    ensures 0 <= d < 10 && DigitChar(d) == c
  {
    (c as int) - ('0' as int)
  }

  /** The decimal text of a natural number, most significant digit first,
      without leading zeros. */
  function Decimal(n: nat): (s: string)
    ensures |s| > 0 && AllDigits(s)
    ensures s[0] == '0' ==> n == 0
  {
    if n < 10 then [DigitChar(n)] else Decimal(n / 10) + [DigitChar(n % 10)]
  }

  /** The text of an integer as a template literal prints it. */
  function IntText(n: int): (t: string)
    ensures |t| > 0 && (t[0] == '-' <==> n < 0)
  {
    if n < 0 then "-" + Decimal(-n) else Decimal(n)
  }

  /** The value of a non-empty run of decimal digits. */
  function DigitsValue(s: string): (v: nat)
    requires AllDigits(s)
  {
    if s == [] then 0 else DigitsValue(s[..|s| - 1]) * 10 + DigitValue(s[|s| - 1])
  }

  /** The longest prefix of `s` made of decimal digits. */
  function LeadingDigits(s: string): (p: string)
    ensures AllDigits(p) && p <= s
    ensures |p| < |s| ==> !IsDigit(s[|p|])
  {
    if s != [] && IsDigit(s[0]) then [s[0]] + LeadingDigits(s[1..]) else []
  }

  /** `s` without its leading `+` or `-`, if it has one. */
  function UnsignedPart(s: string): string
  {
    if s != [] && (s[0] == '+' || s[0] == '-') then s[1..] else s
  }

  /** True when `s` starts with a minus sign. */
  predicate Negative(s: string)
  {
    s != [] && s[0] == '-'
  }

  /** `parseInt(s)` for text with no leading white space and no `0x` prefix:
      an optional sign, then the longest run of decimal digits; NaN (None)
      when there is no digit. */
  function ParseInt(s: string): (r: Option<int>)
    ensures r.None? <==> UnsignedPart(s) == [] || !IsDigit(UnsignedPart(s)[0])
    ensures r.Some? && r.value < 0 ==> Negative(s)
    ensures r.Some? && Negative(s) ==> r.value <= 0
  {
    var digits := LeadingDigits(UnsignedPart(s));
    if digits == [] then None
    else if Negative(s) then Some(-(DigitsValue(digits) as int))
    else Some(DigitsValue(digits))
  }

  /** The text up to the first underscore: element 1 of `split("_")` once
      the part before the first underscore has been cut off. */
  function UpToUnderscore(s: string): (p: string)
    ensures p <= s && '_' !in p
    ensures |p| < |s| ==> s[|p|] == '_'
  {
    if s == [] || s[0] == '_' then [] else [s[0]] + UpToUnderscore(s[1..])
  }

  predicate StartsWith(s: string, prefix: string)
  {
    prefix <= s
  }

  /** The data the announcement attaches to the join button of giveaway `id`. */
  function JoinData(id: int): (data: string)
    ensures StartsWith(data, JoinPrefix)
  {
    JoinPrefix + IntText(id)
  }

  /** How the callback handler reads a button's data: anything that does not
      start with `join_` is ignored; otherwise the id is the `parseInt` of
      the text between the first and the second underscore. */
  function ParseCallback(data: string): (c: Callback)
    ensures c.Other? <==> !StartsWith(data, JoinPrefix)
  {
    if StartsWith(data, JoinPrefix) then JoinRequest(ParseInt(UpToUnderscore(data[|JoinPrefix|..])))
    else Other
  }

  /** Reading back the digits of a natural number gives the number. */
  lemma {:induction false} DecimalRoundTrip(n: nat)
    ensures DigitsValue(Decimal(n)) == n
  {
    var s := Decimal(n);
    if n >= 10 {
      DecimalRoundTrip(n / 10);
      assert s[..|s| - 1] == Decimal(n / 10);
    }
  }

  /** A string made only of digits is its own longest digit prefix. */
  lemma {:induction false} LeadingDigitsOfDigits(s: string)
    requires AllDigits(s)
    ensures LeadingDigits(s) == s
  {
    if s != [] {
      LeadingDigitsOfDigits(s[1..]);
    }
  }

  /** A string without underscores is cut nowhere. */
  lemma {:induction false} UpToUnderscoreWhole(s: string)
    requires '_' !in s
    ensures UpToUnderscore(s) == s
  {
    if s != [] {
      assert s[0] != '_';
      UpToUnderscoreWhole(s[1..]);
    }
  }

  /** `parseInt` of digits alone is their value. */
  lemma ParseUnsignedDigits(digits: string)
    requires digits != [] && AllDigits(digits)
    ensures ParseInt(digits) == Some(DigitsValue(digits) as int)
  {
    assert IsDigit(digits[0]);
    assert !Negative(digits);
    assert UnsignedPart(digits) == digits;
    LeadingDigitsOfDigits(digits);
  }

  /** `parseInt` of a minus sign followed by digits is their value negated. */
  lemma ParseNegatedDigits(digits: string)
    requires digits != [] && AllDigits(digits)
    ensures ParseInt("-" + digits) == Some(-(DigitsValue(digits) as int))
  {
    var text := "-" + digits;
    assert text[0] == '-' && text[1..] == digits;
    assert Negative(text);
    assert UnsignedPart(text) == digits;
    LeadingDigitsOfDigits(digits);
  }

  /** `parseInt` reads back the text a template literal prints for an integer. */
  lemma ParseIntText(id: int)
    ensures ParseInt(IntText(id)) == Some(id)
  {
    var n: nat := if id < 0 then -id else id;
    var digits := Decimal(n);
    DecimalRoundTrip(n);
    if id < 0 {
      ParseNegatedDigits(digits);
    } else {
      ParseUnsignedDigits(digits);
    }
  }

  /** The join button of giveaway `id` leads the callback handler back to
      exactly that id, negative ids included. */
  lemma JoinDataRoundTrip(id: int)
    ensures ParseCallback(JoinData(id)) == JoinRequest(Some(id))
  {
    var text := IntText(id);
    assert JoinData(id)[|JoinPrefix|..] == text;
    var digits := Decimal(if id < 0 then -id else id);
    assert '_' !in digits by {
      forall i | 0 <= i < |digits| ensures digits[i] != '_' {
        assert IsDigit(digits[i]);
      }
    }
    assert '_' !in text by {
      if id < 0 {
        assert text == "-" + digits;
      }
    }
    UpToUnderscoreWhole(text);
    ParseIntText(id);
  }
}
