/**
 * The pieces of Python's text handling that the application relies on:
 * `str.split` with a one-character separator, `int()` applied to a string,
 * `str()` of integers and of floats held in hundredths, and the
 * `f'{val:0,.2f}'` money format with thousands separators.
 */
module Text {
  import opened Common

  predicate IsDigit(c: char) { '0' <= c <= '9' }

  predicate AllDigits(s: string) { forall i :: 0 <= i < |s| ==> IsDigit(s[i]) }

  function DigitChar(d: nat): (c: char)
    requires d < 10
  {
    (48 + d) as char
  }

  function DigitValue(c: char): nat
    requires IsDigit(c)
  {
    c as int - 48
  }

  /** The ASCII whitespace that `int()` ignores around its argument. */
  predicate IsSpace(c: char)
  {
    c == ' ' || c == '\t' || c == '\n' || c == '\r' || c == '\U{000B}' || c == '\U{000C}'
  }

  function TrimLeft(s: string): string
  {
    if |s| > 0 && IsSpace(s[0]) then TrimLeft(s[1..]) else s
  }

  function TrimRight(s: string): string
  {
    if |s| > 0 && IsSpace(s[|s| - 1]) then TrimRight(s[..|s| - 1]) else s
  }

  function Strip(s: string): string
  {
    TrimRight(TrimLeft(s))
  }

  // ---------------------------------------------------------------------
  // str.split(sep) and its inverse sep.join(parts)
  // ---------------------------------------------------------------------

  /** The position of the first `c` in `s`. */
  function IndexOf(s: string, c: char): (i: nat)
    requires c in s
    ensures i < |s| && s[i] == c && c !in s[..i]
  {
    if s[0] == c then 0 else 1 + IndexOf(s[1..], c)
  }

  /**
   * `s.split(sep)`: the pieces between separators, empty pieces included;
   * there is always at least one piece.
   */
  function Split(s: string, sep: char): (parts: seq<string>)
    ensures |parts| >= 1
    ensures forall i :: 0 <= i < |parts| ==> sep !in parts[i]
    ensures sep !in s ==> parts == [s]
    ensures sep in s ==> |parts| >= 2
    decreases |s|
  {
    if sep !in s then [s]
    else
      var i := IndexOf(s, sep);
      [s[..i]] + Split(s[i + 1..], sep)
  }

  /** `sep.join(parts)`. */
  function JoinWith(parts: seq<string>, sep: char): string
  {
    if |parts| == 0 then ""
    else if |parts| == 1 then parts[0]
    else parts[0] + [sep] + JoinWith(parts[1..], sep)
  }

  /** Joining the pieces of a split gives back the original text. */
  lemma {:induction false} SplitThenJoin(s: string, sep: char)
    ensures JoinWith(Split(s, sep), sep) == s
    decreases |s|
  {
    if sep in s {
      var i := IndexOf(s, sep);
      var rest := s[i + 1..];
      SplitThenJoin(rest, sep);
      assert Split(s, sep) == [s[..i]] + Split(rest, sep);
      assert s == s[..i] + [sep] + rest;
    }
  }

  /** The first separator of `a + [sep] + b`, for `a` without one, is right after `a`. */
  lemma {:induction false} IndexAfterPrefix(a: string, sep: char, b: string)
    requires sep !in a
    ensures sep in a + [sep] + b && IndexOf(a + [sep] + b, sep) == |a|
  {
    var s := a + [sep] + b;
    assert s[|a|] == sep;
    if |a| > 0 {
      assert s[0] == a[0] != sep;
      assert s[1..] == a[1..] + [sep] + b;
      IndexAfterPrefix(a[1..], sep, b);
    }
  }

  /** Splitting at the first separator: the piece before it, then the split of the rest. */
  lemma SplitAtFirst(a: string, sep: char, b: string)
    requires sep !in a
    ensures Split(a + [sep] + b, sep) == [a] + Split(b, sep)
  {
    var s := a + [sep] + b;
    IndexAfterPrefix(a, sep, b);
    assert s[..|a|] == a;
    assert s[|a| + 1..] == b;
  }

  /** Splitting a join of separator-free pieces gives back the pieces. */
  lemma {:induction false} JoinThenSplit(parts: seq<string>, sep: char)
    requires |parts| >= 1
    requires forall i :: 0 <= i < |parts| ==> sep !in parts[i]
    ensures Split(JoinWith(parts, sep), sep) == parts
  {
    if |parts| > 1 {
      var tail := JoinWith(parts[1..], sep);
      assert JoinWith(parts, sep) == parts[0] + [sep] + tail;
      SplitAtFirst(parts[0], sep, tail);
      JoinThenSplit(parts[1..], sep);
      assert parts == [parts[0]] + parts[1..];
    }
  }

  // ---------------------------------------------------------------------
  // str() of an integer and int() of a string
  // ---------------------------------------------------------------------

  function NatToString(n: nat): (s: string)
    ensures |s| >= 1 && AllDigits(s)
  {
    if n < 10 then [DigitChar(n)] else NatToString(n / 10) + [DigitChar(n % 10)]
  }

  /** `str(n)` for an int. */
  function IntToString(n: int): string
  {
    if n < 0 then "-" + NatToString(-n) else NatToString(n)
  }

  /** The number a string of decimal digits denotes (leading zeros allowed). */
  function DigitsValue(s: string): nat
    requires AllDigits(s)
  {
    if |s| == 0 then 0 else DigitsValue(s[..|s| - 1]) * 10 + DigitValue(s[|s| - 1])
  }

  function ParseNat(s: string): Option<nat>
  {
    if |s| > 0 && AllDigits(s) then Some(DigitsValue(s)) else None
  }

  /**
   * `int(s)` for a string: surrounding whitespace, an optional sign and a
   * non-empty run of ASCII digits.  None stands for the ValueError raised
   * for anything else.
   */
  function ParseInt(s: string): (r: Option<int>)
    // blank text raises ValueError
    ensures Strip(s) == "" ==> r == None
  {
    var t := Strip(s);
    if |t| > 0 && (t[0] == '-' || t[0] == '+') then
      match ParseNat(t[1..])
      case None => None
      case Some(n) =>
        var m: int := n;
        Some(if t[0] == '-' then -m else m)
    else
      match ParseNat(t)
      case None => None
      case Some(n) => Some(n)
  }

  lemma DigitsValueAppend(s: string, c: char)
    requires AllDigits(s) && IsDigit(c)
    ensures AllDigits(s + [c])
    ensures DigitsValue(s + [c]) == DigitsValue(s) * 10 + DigitValue(c)
  {
    assert (s + [c])[..|s|] == s;
  }

  lemma {:induction false} DigitsOfNat(n: nat)
    ensures DigitsValue(NatToString(n)) == n
  {
    if n >= 10 {
      DigitsOfNat(n / 10);
      DigitsValueAppend(NatToString(n / 10), DigitChar(n % 10));
    }
  }

  lemma StripUnpadded(s: string)
    requires |s| > 0 && !IsSpace(s[0]) && !IsSpace(s[|s| - 1])
    ensures Strip(s) == s
  {
  }

  /** `int(str(n)) == n` for every integer. */
  lemma ParseIntRoundTrip(n: int)
    ensures ParseInt(IntToString(n)) == Some(n)
  {
    var s := IntToString(n);
    var digits := NatToString(if n < 0 then -n else n);
    assert s[|s| - 1] == digits[|digits| - 1];
    StripUnpadded(s);
    DigitsOfNat(if n < 0 then -n else n);
    if n < 0 {
      assert s[1..] == digits;
    }
  }

  // ---------------------------------------------------------------------
  // str() of a float and f'{val:0,.2f}', for amounts held in hundredths
  // ---------------------------------------------------------------------

  function Pad2(r: nat): string
    requires r < 100
  {
    [DigitChar(r / 10), DigitChar(r % 10)]
  }

  function Pad3(r: nat): string
    requires r < 1000
  {
    [DigitChar(r / 100), DigitChar(r / 10 % 10), DigitChar(r % 10)]
  }

  /** The digits of `n` in groups of three separated by commas. */
  function Group(n: nat): string
  {
    if n < 1000 then NatToString(n) else Group(n / 1000) + "," + Pad3(n % 1000)
  }

  function Abs(x: int): nat { if x < 0 then -x else x }

  function Sign(x: int): string { if x < 0 then "-" else "" }

  /**
   * `f'{val:0,.2f}'` for `val == cents / 100`: sign, grouped whole part,
   * a point and exactly two decimals.
   */
  function MoneyText(cents: int): string
  {
    Sign(cents) + Group(Abs(cents) / 100) + "." + Pad2(Abs(cents) % 100)
  }

  /**
   * `str(val)` of a float `val == cents / 100` (below 1e16, where Python
   * switches to exponent notation): the shortest decimals, at least one.
   */
  function FloatText(cents: int): string
  {
    var a := Abs(cents);
    var r := a % 100;
    Sign(cents) + NatToString(a / 100) + "." + (if r % 10 == 0 then [DigitChar(r / 10)] else Pad2(r))
  }

  /** `s` with every occurrence of `c` taken out. */
  function Without(s: string, c: char): (r: string)
    ensures c !in r
  {
    if |s| == 0 then "" else (if s[0] == c then "" else [s[0]]) + Without(s[1..], c)
  }

  lemma {:induction false} WithoutAppend(a: string, b: string, c: char)
    ensures Without(a + b, c) == Without(a, c) + Without(b, c)
  {
    if |a| > 0 {
      WithoutAppend(a[1..], b, c);
      assert (a + b)[1..] == a[1..] + b;
    } else {
      assert a + b == b;
    }
  }

  lemma {:induction false} WithoutAbsent(s: string, c: char)
    requires c !in s
    ensures Without(s, c) == s
  {
    if |s| > 0 {
      WithoutAbsent(s[1..], c);
    }
  }

  /** Above 999 the decimal text of `n` is that of `n / 1000` and three more digits. */
  lemma NatToStringThousands(n: nat)
    requires n >= 1000
    ensures NatToString(n) == NatToString(n / 1000) + Pad3(n % 1000)
  {
    var r := n % 1000;
    assert n / 10 / 10 == n / 100;
    assert n / 100 / 10 == n / 1000;
    assert n / 100 % 10 == r / 100;
    assert n / 10 % 10 == r / 10 % 10;
    assert n % 10 == r % 10;
    calc {
      NatToString(n);
      NatToString(n / 10) + [DigitChar(n % 10)];
      NatToString(n / 100) + [DigitChar(n / 10 % 10)] + [DigitChar(n % 10)];
      NatToString(n / 1000) + [DigitChar(n / 100 % 10)] + [DigitChar(n / 10 % 10)] + [DigitChar(n % 10)];
    }
  }

  /** The thousands separators are the only thing grouping adds to the digits. */
  lemma {:induction false} GroupDigits(n: nat)
    ensures Without(Group(n), ',') == NatToString(n)
  {
    if n < 1000 {
      WithoutAbsent(NatToString(n), ',');
    } else {
      GroupDigits(n / 1000);
      WithoutAppend(Group(n / 1000) + ",", Pad3(n % 1000), ',');
      WithoutAppend(Group(n / 1000), ",", ',');
      WithoutAbsent(Pad3(n % 1000), ',');
      NatToStringThousands(n);
    }
  }

  /** Taking a character out of four pieces, three of which lack it, touches only the second. */
  lemma WithoutSecond(a: string, b: string, c: string, d: string, ch: char)
    requires ch !in a && ch !in c && ch !in d
    ensures Without(a + b + c + d, ch) == a + Without(b, ch) + c + d
  {
    WithoutAppend(a + b + c, d, ch);
    WithoutAppend(a + b, c, ch);
    WithoutAppend(a, b, ch);
    WithoutAbsent(a, ch);
    WithoutAbsent(c, ch);
    WithoutAbsent(d, ch);
  }

  /** Taking a character out of four pieces, only the third of which is that character, drops the third. */
  lemma WithoutThird(a: string, b: string, d: string, ch: char)
    requires ch !in a && ch !in b && ch !in d
    ensures Without(a + b + [ch] + d, ch) == a + b + d
  {
    var ab := a + b;
    WithoutAppend(a, b, ch);
    WithoutAbsent(a, ch);
    WithoutAbsent(b, ch);
    assert Without(ab, ch) == ab;
    WithoutAppend(ab, [ch], ch);
    WithoutOne(ch);
    assert Without(ab + [ch], ch) == ab + "";
    WithoutAppend(ab + [ch], d, ch);
    WithoutAbsent(d, ch);
    assert ab + "" == ab;
  }

  /** A lone character is taken out entirely. */
  lemma WithoutOne(ch: char)
    ensures Without([ch], ch) == ""
  {
    assert [ch][1..] == "";
  }

  /** Digits hold no separator and no point. */
  lemma DigitsHaveNoPunctuation(s: string)
    requires AllDigits(s)
    ensures ',' !in s && '.' !in s
  {
  }

  /** Taking out commas and points leaves the sign, the whole digits and the two decimals. */
  lemma MoneyTextDigits(cents: int)
    ensures Without(Without(MoneyText(cents), ','), '.')
         == Sign(cents) + NatToString(Abs(cents) / 100) + Pad2(Abs(cents) % 100)
  {
    var sign, grouped, pad := Sign(cents), Group(Abs(cents) / 100), Pad2(Abs(cents) % 100);
    var digits := NatToString(Abs(cents) / 100);
    DigitsHaveNoPunctuation(pad);
    DigitsHaveNoPunctuation(digits);
    assert ',' !in sign && '.' !in sign;
    WithoutSecond(sign, grouped, ".", pad, ',');
    GroupDigits(Abs(cents) / 100);
    assert Without(MoneyText(cents), ',') == sign + digits + ['.'] + pad;
    WithoutThird(sign, digits, pad, '.');
  }

  /** Whole digits followed by two decimals denote the amount in hundredths. */
  lemma HundredthsValue(q: nat, r: nat)
    requires r < 100
    ensures AllDigits(NatToString(q) + Pad2(r))
    ensures DigitsValue(NatToString(q) + Pad2(r)) == q * 100 + r
  {
    var digits, pad := NatToString(q), Pad2(r);
    DigitsOfNat(q);
    DigitsValueAppend(digits, pad[0]);
    assert digits + pad == (digits + [pad[0]]) + [pad[1]];
    DigitsValueAppend(digits + [pad[0]], pad[1]);
  }

  /** `int()` reads a run of digits. */
  lemma ParseDigits(body: string)
    requires |body| > 0 && AllDigits(body)
    ensures ParseInt(body) == Some(DigitsValue(body))
  {
    assert IsDigit(body[0]) && IsDigit(body[|body| - 1]);
    StripUnpadded(body);
    assert ParseNat(body) == Some(DigitsValue(body));
  }

  /** `int()` reads a run of digits after a minus sign as a negative number. */
  lemma ParseNegativeDigits(body: string)
    requires |body| > 0 && AllDigits(body)
    ensures ParseInt("-" + body) == Some(-(DigitsValue(body) as int))
  {
    var neg := "-" + body;
    assert IsDigit(body[|body| - 1]);
    assert neg[|neg| - 1] == body[|body| - 1];
    StripUnpadded(neg);
    assert neg[1..] == body;
    ParseNatDigits(body);
  }

  /** A non-empty run of digits parses as its value. */
  lemma ParseNatDigits(body: string)
    requires |body| > 0 && AllDigits(body)
    ensures ParseNat(body) == Some(DigitsValue(body))
  {
  }

  /**
   * The money text, read without its separators and point, is exactly the
   * amount in hundredths: `int(text.replace(',', '').replace('.', ''))`
   * gives back `cents`.
   */
  lemma MoneyTextDenotesAmount(cents: int)
    ensures ParseInt(Without(Without(MoneyText(cents), ','), '.')) == Some(cents)
  {
    var q, r := Abs(cents) / 100, Abs(cents) % 100;
    var body := NatToString(q) + Pad2(r);
    MoneyTextDigits(cents);
    HundredthsValue(q, r);
    assert DigitsValue(body) == Abs(cents);
    assert Sign(cents) + NatToString(q) + Pad2(r) == Sign(cents) + body;
    if cents >= 0 {
      ParseDigits(body);
      assert Sign(cents) + body == body;
    } else {
      ParseNegativeDigits(body);
    }
  }

  /** A whole amount prints as its integer text followed by ".0". */
  lemma FloatTextWhole(n: int)
    ensures FloatText(n * 100) == IntToString(n) + ".0"
  {
    assert Abs(n * 100) == Abs(n) * 100;
    assert Abs(n * 100) / 100 == Abs(n);
    assert Abs(n * 100) % 100 == 0;
  }
}
