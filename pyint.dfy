/**
 * Python's built-in `int()` applied to a string, with base 10: surrounding
 * whitespace is ignored, an optional sign may precede the digits, and single
 * underscores may separate digits. Any other string raises ValueError, which
 * is `None` here.
 */
module PyInt {
  import opened Results

  /**
   * The whitespace `int()` skips around a number, among code points below 256:
   * the ASCII characters tab, line feed, vertical tab, form feed, carriage
   * return and space, and the two non-ASCII whitespace characters NEL (0x85)
   * and no-break space (0xA0). The ASCII separators 0x1C to 0x1F are not skipped.
   */
  predicate IsSpace(c: char) {
    var n := c as int;
    (9 <= n <= 13) || n == 32 || n == 0x85 || n == 0xA0
  }

  predicate IsDigit(c: char) {
    '0' <= c <= '9'
  }

  function DigitValue(c: char): nat
    requires IsDigit(c)
  {
    c as int - '0' as int
  }

  /** `s` without its leading whitespace. */
  function TrimStart(s: string): string {
    if |s| > 0 && IsSpace(s[0]) then TrimStart(s[1..]) else s
  }

  /** `s` without its trailing whitespace. */
  function TrimEnd(s: string): string {
    if |s| > 0 && IsSpace(s[|s| - 1]) then TrimEnd(s[..|s| - 1]) else s
  }

  /** Trimming the start leaves a suffix of `s`; everything cut off is whitespace. */
  lemma {:induction false} TrimStartShape(s: string)
    ensures |TrimStart(s)| <= |s| && TrimStart(s) == s[|s| - |TrimStart(s)|..]
    ensures forall i :: 0 <= i < |s| - |TrimStart(s)| ==> IsSpace(s[i])
  {
    if |s| > 0 && IsSpace(s[0]) {
      TrimStartShape(s[1..]);
    }
  }

  /** Trimming the end leaves a prefix of `s`; everything cut off is whitespace. */
  lemma {:induction false} TrimEndShape(s: string)
    ensures |TrimEnd(s)| <= |s| && TrimEnd(s) == s[..|TrimEnd(s)|]
    ensures forall i :: |TrimEnd(s)| <= i < |s| ==> IsSpace(s[i])
  {
    if |s| > 0 && IsSpace(s[|s| - 1]) {
      TrimEndShape(s[..|s| - 1]);
    }
  }

  /** The string without leading and trailing whitespace. */
  function Strip(s: string): string {
    TrimEnd(TrimStart(s))
  }

  /** A digit string in Python's integer syntax: digits, with single underscores between digits. */
  predicate WellFormedDigits(b: string) {
    && |b| > 0
    && DigitsOrUnderscores(b)
    && forall i :: 0 <= i < |b| && b[i] == '_' ==> 0 < i < |b| - 1 && IsDigit(b[i + 1])
  }

  predicate DigitsOrUnderscores(b: string) {
    forall i :: 0 <= i < |b| ==> IsDigit(b[i]) || b[i] == '_'
  }

  /** The value of a digit string read in base 10, underscores ignored. */
  function DigitsValue(b: string): nat
    requires DigitsOrUnderscores(b)
  {
    if b == [] then 0
    else
      var last := b[|b| - 1];
      if last == '_' then DigitsValue(b[..|b| - 1])
      else 10 * DigitsValue(b[..|b| - 1]) + DigitValue(last)
  }

  /** A character that may occur in a string `int()` accepts. */
  predicate IntegerChar(c: char) {
    IsDigit(c) || IsSpace(c) || c == '+' || c == '-' || c == '_'
  }

  predicate HasDigit(s: string) {
    |s| > 0 && (IsDigit(s[0]) || HasDigit(s[1..]))
  }

  predicate OnlyIntegerChars(s: string) {
    |s| == 0 || (IntegerChar(s[0]) && OnlyIntegerChars(s[1..]))
  }

  /** The stripped string without its leading sign, if it has one. */
  function UnsignedBody(t: string): string {
    if |t| > 0 && (t[0] == '-' || t[0] == '+') then t[1..] else t
  }

  /**
   * `int(s)` for a string `s`; `None` where Python raises ValueError. A string
   * that is accepted contains a digit and nothing but digits, whitespace,
   * signs and underscores.
   */
  function IntOf(s: string): (r: Option<int>)
    ensures r.Some? ==> HasDigit(s) && OnlyIntegerChars(s)
  {
    var t := Strip(s);
    var body := UnsignedBody(t);
    if WellFormedDigits(body) then
      AcceptedStringShape(s);
      var v: int := DigitsValue(body);
      Some(if |t| > 0 && t[0] == '-' then -v else v)
    else
      None
  }

  lemma {:induction false} HasDigitAt(s: string, i: nat)
    requires i < |s| && IsDigit(s[i])
    ensures HasDigit(s)
  {
    if i > 0 {
      HasDigitAt(s[1..], i - 1);
    }
  }

  lemma {:induction false} OnlyIntegerCharsIntro(s: string)
    requires forall i :: 0 <= i < |s| ==> IntegerChar(s[i])
    ensures OnlyIntegerChars(s)
  {
    if |s| > 0 {
      OnlyIntegerCharsIntro(s[1..]);
    }
  }

  /** A string whose stripped, unsigned body is a well-formed digit string contains a digit and only integer characters. */
  lemma AcceptedStringShape(s: string)
    requires WellFormedDigits(UnsignedBody(Strip(s)))
    ensures HasDigit(s) && OnlyIntegerChars(s)
  {
    var u := TrimStart(s);
    var t := TrimEnd(u);
    TrimStartShape(s);
    TrimEndShape(u);
    var body := UnsignedBody(t);
    var start := |s| - |u|;
    var first := if |t| > 0 && (t[0] == '-' || t[0] == '+') then 1 else 0;
    assert body[0] == t[first] == u[first] == s[start + first];
    HasDigitAt(s, start + first);
    forall i | 0 <= i < |s| ensures IntegerChar(s[i]) {
      if start <= i < start + |t| {
        var j := i - start;
        assert s[i] == u[j] == t[j];
        if first <= j {
          assert t[j] == body[j - first];
        }
      } else if start + |t| <= i {
        assert u[i - start] == s[i];
      }
    }
    OnlyIntegerCharsIntro(s);
  }

  function DigitChar(d: nat): char
    requires d < 10
  {
    ('0' as int + d) as char
  }

  /** The canonical base-10 spelling of a natural number, most significant digit first. */
  function NatDigits(n: nat): (r: string)
    ensures |r| > 0
    ensures forall i :: 0 <= i < |r| ==> IsDigit(r[i])
  {
    if n < 10 then [DigitChar(n)] else NatDigits(n / 10) + [DigitChar(n % 10)]
  }

  /** `str(n)` for an integer `n`. */
  function Decimal(n: int): (r: string)
  {
    if n < 0 then "-" + NatDigits(-n) else NatDigits(n)
  }

  lemma {:induction false} NatDigitsValue(n: nat)
    ensures DigitsValue(NatDigits(n)) == n
  {
    if n >= 10 {
      NatDigitsValue(n / 10);
      var r := NatDigits(n);
      assert r[..|r| - 1] == NatDigits(n / 10);
    }
  }

  /** `int(str(n)) == n`: every integer's decimal spelling parses back to it. */
  lemma IntOfDecimal(n: int)
    ensures IntOf(Decimal(n)) == Some(n)
  {
    var s := Decimal(n);
    var m: nat := if n < 0 then -n else n;
    var ds := NatDigits(m);
    assert !IsSpace(s[0]);
    assert TrimStart(s) == s;
    assert !IsSpace(s[|s| - 1]);
    assert Strip(s) == s;
    NatDigitsValue(m);
    if n < 0 {
      assert s[1..] == ds;
    }
    assert WellFormedDigits(ds);
  }

  lemma {:induction false} TrimStartAppendSpace(s: string, c: char)
    requires IsSpace(c)
    ensures TrimStart(s + [c]) == (if TrimStart(s) == [] then [] else TrimStart(s) + [c])
  {
    if |s| > 0 && IsSpace(s[0]) {
      assert (s + [c])[1..] == s[1..] + [c];
      TrimStartAppendSpace(s[1..], c);
    } else if |s| == 0 {
      assert TrimStart([c]) == TrimStart([c][1..]);
    } else {
      assert (s + [c])[0] == s[0];
    }
  }

  /** `int` ignores whitespace around the number: adding a whitespace character on either side changes nothing. */
  lemma IntOfIgnoresPadding(s: string, c: char)
    requires IsSpace(c)
    ensures IntOf([c] + s) == IntOf(s)
    ensures IntOf(s + [c]) == IntOf(s)
  {
    assert ([c] + s)[1..] == s;
    assert Strip([c] + s) == Strip(s);
    TrimStartAppendSpace(s, c);
    var t := TrimStart(s);
    if t != [] {
      assert (t + [c])[..|t + [c]| - 1] == t;
    }
    assert Strip(s + [c]) == Strip(s);
  }
}
