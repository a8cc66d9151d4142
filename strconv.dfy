/**
 * `strconv.Atoi` on a 64-bit platform, and the decimal rendering `fmt`
 * gives an int. Atoi accepts an optional sign and one or more ASCII digits
 * whose value fits in int64.
 */
module Strconv {
  import opened Wrappers

  /** The two reasons Atoi fails (`strconv.ErrSyntax`, `strconv.ErrRange`). */
  datatype NumError = Syntax | Range

  const MinInt64: int := -0x8000_0000_0000_0000
  const MaxInt64: int := 0x7FFF_FFFF_FFFF_FFFF
  const MaxUint64: int := 0xFFFF_FFFF_FFFF_FFFF

  predicate IsDigit(c: char)
  {
    '0' <= c <= '9'
  }

  predicate AllDigits(s: string)
  {
    forall k | 0 <= k < |s| :: IsDigit(s[k])
  }

  /** The value of a run of decimal digits, most significant first. */
  function DigitsValue(ds: string): nat
    requires AllDigits(ds)
  {
    if ds == [] then 0
    else 10 * DigitsValue(ds[..|ds| - 1]) + (ds[|ds| - 1] as int - '0' as int)
  }

  /** The longest prefix of `s` made of digits. */
  function DigitPrefix(s: string): (p: string)
    ensures p <= s && AllDigits(p)
    ensures p == s || !IsDigit(s[|p|])
    ensures AllDigits(s) ==> p == s
  {
    if s != [] && IsDigit(s[0]) then [s[0]] + DigitPrefix(s[1..]) else []
  }

  /** The text after an optional leading sign. */
  function Unsigned(s: string): string
  {
    if s != [] && (s[0] == '+' || s[0] == '-') then s[1..] else s
  }

  /** The value a signed digit string denotes. */
  function SignedValue(s: string): int
    requires s != [] && AllDigits(Unsigned(s))
  {
    var v: int := DigitsValue(Unsigned(s));
    if s[0] == '-' then -v else v
  }

  /**
   * `strconv.Atoi`. The unsigned scan stops with a range error as soon as
   * the digits read so far exceed uint64, before it meets a later non-digit.
   */
  function Atoi(s: string): Result<int, NumError>
  {
    var body := Unsigned(s);
    if body == [] then Failure(Syntax)
    else
      var p := DigitPrefix(body);
      if DigitsValue(p) > MaxUint64 then Failure(Range)
      else if p != body then Failure(Syntax)
      else
        var n := SignedValue(s);
        if MinInt64 <= n <= MaxInt64 then Success(n) else Failure(Range)
  }

  /**
   * Atoi succeeds iff the text is an optional sign and one or more digits
   * whose value is an int64, and then returns that value.
   */
  lemma AtoiSpec(s: string)
    ensures Atoi(s).Success? <==> s != [] && Unsigned(s) != [] && AllDigits(Unsigned(s))
                                  && MinInt64 <= SignedValue(s) <= MaxInt64
    ensures Atoi(s).Success? ==> Atoi(s).value == SignedValue(s)
  {
  }

  /** The text of a failed Atoi's `*NumError` (`err.Error()`). */
  function NumErrorText(s: string, e: NumError): string
  {
    "strconv.Atoi: parsing " + Quote(s) + ": " + (if e == Syntax then "invalid syntax" else "value out of range")
  }

  /** The lower-case hexadecimal digit of 0..15. */
  function HexDigit(d: int): char
    requires 0 <= d < 16
  {
    if d < 10 then ('0' as int + d) as char else ('a' as int + d - 10) as char
  }

  /** The value of a lower-case hexadecimal digit. */
  function HexValue(c: char): (r: Option<int>)
    ensures r.Some? ==> 0 <= r.value < 16
  {
    if '0' <= c <= '9' then Some(c as int - '0' as int)
    else if 'a' <= c <= 'f' then Some(c as int - 'a' as int + 10)
    else None
  }

  /** The letter of the C escapes `\a \b \f \n \r \t \v`, for the control character it stands for. */
  function ControlLetter(c: char): Option<char>
  {
    if c as int == 7 then Some('a')
    else if c as int == 8 then Some('b')
    else if c as int == 12 then Some('f')
    else if c == '\n' then Some('n')
    else if c == '\r' then Some('r')
    else if c == '\t' then Some('t')
    else if c as int == 11 then Some('v')
    else None
  }

  /** The control character a C escape letter stands for. */
  function LetterControl(l: char): Option<char>
  {
    match l
    case 'a' => Some(7 as char)
    case 'b' => Some(8 as char)
    case 'f' => Some(12 as char)
    case 'n' => Some('\n')
    case 'r' => Some('\r')
    case 't' => Some('\t')
    case 'v' => Some(11 as char)
    case _ => None
  }

  /**
   * How `strconv.Quote` writes one character: a quote or a backslash gets a
   * backslash, the seven C controls get their letter, the other ASCII
   * controls and DEL get `\x` and two lower-case hex digits; anything else is
   * written as it is.
   */
  function EscapeChar(c: char): string
  {
    if c == '"' || c == '\\' then ['\\', c]
    else if ControlLetter(c).Some? then ['\\', ControlLetter(c).value]
    else if c as int < 0x20 || c as int == 0x7f then ['\\', 'x', HexDigit(c as int / 16), HexDigit(c as int % 16)]
    else [c]
  }

  function Escaped(s: string): string
  {
    if s == [] then [] else EscapeChar(s[0]) + Escaped(s[1..])
  }

  /** `strconv.Quote`: the escaped text between double quotes. */
  function Quote(s: string): string
  {
    "\"" + Escaped(s) + "\""
  }

  /**
   * Reads one character from the front of escaped text, with the number of
   * characters it took; a bare quote or an unknown escape is refused.
   */
  function DecodeOne(t: string): (r: Option<(char, nat)>)
    ensures r.Some? ==> 1 <= r.value.1 <= |t|
  {
    if t == [] || t[0] == '"' then None
    else if t[0] != '\\' then Some((t[0], 1))
    else if |t| < 2 then None
    else if t[1] == '"' || t[1] == '\\' then Some((t[1], 2))
    else if t[1] == 'x' then
      if |t| < 4 then None
      else match (HexValue(t[2]), HexValue(t[3]))
        case (Some(h), Some(l)) => Some(((h * 16 + l) as char, 4))
        case _ => None
    else match LetterControl(t[1])
      case Some(c) => Some((c, 2))
      case None => None
  }

  /** Decodes a whole escaped text, one character at a time. */
  function Unescape(t: string): Option<string>
    decreases |t|
  {
    if t == [] then Some([])
    else match DecodeOne(t)
      case None => None
      case Some((c, n)) =>
        match Unescape(t[n..])
        case None => None
        case Some(rest) => Some([c] + rest)
  }

  /** `strconv.Unquote` restricted to double-quoted text. */
  function Unquote(q: string): Option<string>
  {
    if |q| >= 2 && q[0] == '"' && q[|q| - 1] == '"' then Unescape(q[1..|q| - 1]) else None
  }

  lemma HexRoundTrip(d: int)
    requires 0 <= d < 16
    ensures HexValue(HexDigit(d)) == Some(d)
  {
  }

  /** Each escape reads back as the character it was written for, whatever follows it. */
  lemma DecodeEscape(c: char, rest: string)
    ensures DecodeOne(EscapeChar(c) + rest) == Some((c, |EscapeChar(c)|))
  {
    var t := EscapeChar(c) + rest;
    if c == '"' || c == '\\' {
    } else if ControlLetter(c).Some? {
      assert t[1] == ControlLetter(c).value;
    } else if c as int < 0x20 || c as int == 0x7f {
      var n := c as int;
      HexRoundTrip(n / 16);
      HexRoundTrip(n % 16);
      assert t[2] == HexDigit(n / 16) && t[3] == HexDigit(n % 16);
      assert (n / 16) * 16 + n % 16 == n;
    } else {
      assert t[0] == c;
    }
  }

  /** Unescaping undoes escaping. */
  lemma {:induction false} UnescapeEscaped(s: string)
    ensures Unescape(Escaped(s)) == Some(s)
  {
    if s != [] {
      var e := EscapeChar(s[0]);
      DecodeEscape(s[0], Escaped(s[1..]));
      assert Escaped(s) == e + Escaped(s[1..]);
      assert Escaped(s)[|e|..] == Escaped(s[1..]);
      UnescapeEscaped(s[1..]);
      assert [s[0]] + s[1..] == s;
    }
  }

  /** `strconv.Unquote` reads back every text `strconv.Quote` writes. */
  lemma UnquoteQuote(s: string)
    ensures Unquote(Quote(s)) == Some(s)
  {
    var q := Quote(s);
    assert q[1..|q| - 1] == Escaped(s);
    UnescapeEscaped(s);
  }

  /** A quote and a newline are escaped. */
  lemma QuoteExamples()
    ensures Quote("a\"b") == "\"a\\\"b\""
    ensures Quote("1\n") == "\"1\\n\""
  {
    assert Escaped("a\"b") == "a\\\"b" by {
      assert Escaped("a\"b") == EscapeChar('a') + Escaped("\"b");
      assert Escaped("\"b") == EscapeChar('"') + Escaped("b");
      assert Escaped("b") == EscapeChar('b') + Escaped("");
    }
    assert Escaped("1\n") == "1\\n" by {
      assert Escaped("1\n") == EscapeChar('1') + Escaped("\n");
      assert Escaped("\n") == EscapeChar('\n') + Escaped("");
    }
  }

  function DigitChar(d: int): (c: char)
    requires 0 <= d <= 9
    ensures IsDigit(c) && c as int - '0' as int == d
  {
    ('0' as int + d) as char
  }

  /** The decimal digits of a natural number, without leading zeros. */
  function NatText(n: nat): (s: string)
    ensures s != [] && AllDigits(s)
    ensures n > 0 ==> s[0] != '0'
  {
    if n < 10 then [DigitChar(n)] else NatText(n / 10) + [DigitChar(n % 10)]
  }

  /** `fmt`'s `%v` of an int (`strconv.Itoa`). */
  function Itoa(n: int): string
  {
    if n < 0 then "-" + NatText(-n) else NatText(n)
  }

  lemma {:induction false} NatTextValue(n: nat)
    ensures DigitsValue(NatText(n)) == n
  {
    if n >= 10 {
      NatTextValue(n / 10);
      var s := NatText(n);
      assert s[..|s| - 1] == NatText(n / 10);
    }
  }

  /** Atoi reads back every int64 that Itoa writes. */
  lemma AtoiItoa(n: int)
    requires MinInt64 <= n <= MaxInt64
    ensures Atoi(Itoa(n)) == Success(n)
  {
    var t := NatText(if n < 0 then -n else n);
    NatTextValue(if n < 0 then -n else n);
    if n < 0 {
      assert Itoa(n)[1..] == t;
      assert Unsigned(Itoa(n)) == t;
    } else {
      assert Unsigned(Itoa(n)) == t;
    }
    assert DigitPrefix(t) == t by {
      DigitPrefixOfDigits(t);
    }
  }

  lemma {:induction false} DigitPrefixOfDigits(s: string)
    requires AllDigits(s)
    ensures DigitPrefix(s) == s
  {
    if s != [] {
      DigitPrefixOfDigits(s[1..]);
    }
  }

  /** The accepted examples of the exam tests. */
  lemma AtoiAccepts()
    ensures Atoi("1") == Success(1)
    ensures Atoi("-2") == Success(-2)
    ensures Atoi("123") == Success(123)
  {
    assert Unsigned("-2") == "2";
    assert DigitsValue("12") == 12;
    assert DigitsValue("123") == 123;
  }

  /** The rejected examples of the exam tests. */
  lemma AtoiRejects()
    ensures Atoi(".1") == Failure(Syntax)
    ensures Atoi("2O") == Failure(Syntax)
    ensures Atoi("3f") == Failure(Syntax)
    ensures Atoi("invalid") == Failure(Syntax)
  {
    assert DigitPrefix(".1") == [];
    assert DigitPrefix("2O") == "2";
    assert DigitPrefix("3f") == "3";
    assert DigitPrefix("invalid") == [];
  }

  /** A quote inside the value is escaped in Atoi's error text. */
  lemma AtoiErrorQuotes()
    ensures NumErrorText("a\"b", Syntax) == "strconv.Atoi: parsing \"a\\\"b\": invalid syntax"
  {
    QuoteExamples();
  }
}
