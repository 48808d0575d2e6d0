/**
 * ushort.TryParse(string, out ushort) with the default NumberStyles.Integer of the .NET
 * runtime: optional leading and trailing white space, an optional sign, and one or more
 * decimal digits whose value fits in an unsigned 16-bit integer. A minus sign is accepted
 * only in front of a zero value. Also the decimal rendering of a number, for the round trip.
 */
module NumberParsing {
  import opened Wrappers
  import opened Primitives

  /** The white space NumberStyles.AllowLeadingWhite / AllowTrailingWhite admit: U+0009..U+000D and U+0020. */
  predicate IsNumberWhite(c: char) {
    c == ' ' || '\t' <= c <= '\r'
  }

  predicate IsDigit(c: char) {
    '0' <= c <= '9'
  }

  predicate AllDigits(s: string) {
    forall k :: 0 <= k < |s| ==> IsDigit(s[k])
  }

  function DigitValue(c: char): (d: nat)
    requires IsDigit(c)
    ensures d < 10
  {
    c as int - '0' as int
  }

  /** The number a string of decimal digits denotes, most significant digit first. */
  function DigitsValue(s: string): nat
    requires AllDigits(s)
    decreases |s|
  {
    if s == [] then 0 else DigitsValue(s[..|s| - 1]) * 10 + DigitValue(s[|s| - 1])
  }

  predicate AllWhite(s: string) {
    forall k :: 0 <= k < |s| ==> IsNumberWhite(s[k])
  }

  /**
   * `s` has the shape NumberStyles.Integer admits, cut as white space `w1`, a sign `sg`
   * (none, plus or minus), the digits `d` (at least one) and white space `w2`.
   */
  predicate IntegerForm(s: string, w1: string, sg: string, d: string, w2: string) {
    && s == w1 + sg + d + w2
    && AllWhite(w1) && AllWhite(w2)
    && (sg == "" || sg == "+" || sg == "-")
    && d != [] && AllDigits(d)
  }

  /** Drops leading white space, and only white space. */
  function TrimStart(s: string): (r: string)
    ensures r == [] || !IsNumberWhite(r[0])
    ensures |r| <= |s| && r == s[|s| - |r|..]
    ensures forall k :: 0 <= k < |s| - |r| ==> IsNumberWhite(s[k])
    decreases |s|
  {
    if s != [] && IsNumberWhite(s[0]) then TrimStart(s[1..]) else s
  }

  /** Drops trailing white space, and only white space. */
  function TrimEnd(s: string): (r: string)
    ensures r == [] || !IsNumberWhite(r[|r| - 1])
    ensures |r| <= |s| && r == s[..|r|]
    ensures forall k :: |r| <= k < |s| ==> IsNumberWhite(s[k])
    decreases |s|
  {
    if s != [] && IsNumberWhite(s[|s| - 1]) then TrimEnd(s[..|s| - 1]) else s
  }

  /** White space and a plus sign around leading zeros are accepted. */
  lemma ParsePaddedSigned()
    ensures TryParseUInt16(" +007 ") == Some(7)
  {
    assert IntegerForm(" +007 ", " ", "+", "007", " ");
    assert "007"[..2] == "00" && "00"[..1] == "0";
    assert DigitsValue("007") == 7;
  }

  /** Minus zero is zero. */
  lemma ParseMinusZero()
    ensures TryParseUInt16("-0") == Some(0)
  {
    assert IntegerForm("-0", "", "-", "0", "");
  }

  /** One past the largest ushort is refused. */
  lemma ParseRejectsOverflow()
    ensures TryParseUInt16("65536") == None
  {
    assert IntegerForm("65536", "", "", "65536", "");
    assert "65536"[..4] == "6553" && "6553"[..3] == "655" && "655"[..2] == "65" && "65"[..1] == "6";
    assert DigitsValue("65536") == 65536;
  }

  /** A negative value is refused. */
  lemma ParseRejectsNegative()
    ensures TryParseUInt16("-5") == None
  {
    assert IntegerForm("-5", "", "-", "5", "");
  }

  /** Inner white space is refused. */
  lemma ParseRejectsInnerWhite()
    ensures TryParseUInt16("1 2") == None
  {
    assert TrimStart("1 2") == "1 2";
    assert TrimEnd("1 2") == "1 2";
    assert Unsigned("1 2") == "1 2" && !IsDigit("1 2"[1]);
  }

  /** A sign without digits is refused. */
  lemma ParseRejectsBareSign()
    ensures TryParseUInt16("+") == None
  {
    assert TrimStart("+") == "+";
    assert TrimEnd("+") == "+";
    assert Unsigned("+") == "";
  }

  /** The trimmed text without its sign, if it has one. */
  function Unsigned(t: string): string {
    if |t| > 0 && (t[0] == '+' || t[0] == '-') then t[1..] else t
  }

  /**
   * ushort.TryParse: `Some(value)` when it returns true, `None` when it returns false. A text
   * of the integer shape is accepted exactly when its digits denote at most 65535 and a minus
   * sign stands only before a zero value, and the value is that of its digits; a text of any
   * other shape is refused.
   */
  function TryParseUInt16(s: string): (r: Option<uint16>)
    ensures forall w1, sg, d, w2 :: IntegerForm(s, w1, sg, d, w2) ==>
      r == if DigitsValue(d) <= UInt16MaxValue && (sg == "-" ==> DigitsValue(d) == 0)
           then Some(DigitsValue(d) as uint16) else None
    ensures r.Some? ==> exists w1, sg, d, w2 :: IntegerForm(s, w1, sg, d, w2)
  {
    var t := TrimEnd(TrimStart(s));
    var negative := |t| > 0 && t[0] == '-';
    var digits := Unsigned(t);
    FormIsTrimmed(s);
    if digits == [] || !AllDigits(digits) then None
    else
      var v := DigitsValue(digits);
      if v > UInt16MaxValue || (negative && v != 0) then None
      else
        var ts := TrimStart(s);
        TrimStartSplit(s);
        TrimEndSplit(ts);
        FormFromParts(s, s[..|s| - |ts|], t, ts[|t|..]);
        Some(v as uint16)
  }

  /** Every cut of `s` into the integer shape is the one trimming finds: same digits, same sign. */
  lemma FormIsTrimmed(s: string)
    ensures forall w1, sg, d, w2 :: IntegerForm(s, w1, sg, d, w2) ==>
      var t := TrimEnd(TrimStart(s));
      Unsigned(t) == d && (|t| > 0 && t[0] == '-' <==> sg == "-")
  {
    forall w1, sg, d, w2 | IntegerForm(s, w1, sg, d, w2)
      ensures var t := TrimEnd(TrimStart(s));
        Unsigned(t) == d && (|t| > 0 && t[0] == '-' <==> sg == "-")
    {
      FormCut(s, w1, sg, d, w2);
      SignCut(sg, d);
    }
  }

  /** Trimming a text of the integer shape leaves its sign and digits. */
  lemma FormCut(s: string, w1: string, sg: string, d: string, w2: string)
    requires IntegerForm(s, w1, sg, d, w2)
    ensures TrimEnd(TrimStart(s)) == sg + d
  {
    var body := sg + d;
    assert w1 + sg + d == w1 + body;
    assert body[0] == (if sg == "" then d[0] else sg[0]);
    assert body[|body| - 1] == d[|d| - 1];
    TrimCut(w1, body, w2);
  }

  /** Trimming white space around a text that starts and ends with a character other than white space. */
  lemma TrimCut(w1: string, body: string, w2: string)
    requires AllWhite(w1) && AllWhite(w2)
    requires body != [] && !IsNumberWhite(body[0]) && !IsNumberWhite(body[|body| - 1])
    ensures TrimEnd(TrimStart(w1 + body + w2)) == body
  {
    assert w1 + body + w2 == w1 + (body + w2);
    TrimStartWhite(w1, body + w2);
    assert (body + w2)[0] == body[0];
    assert TrimStart(body + w2) == body + w2;
    TrimEndWhite(body, w2);
  }

  /** The sign and the digits are read back from their concatenation. */
  lemma SignCut(sg: string, d: string)
    requires sg == "" || sg == "+" || sg == "-"
    requires d != [] && AllDigits(d)
    ensures Unsigned(sg + d) == d && ((sg + d)[0] == '-' <==> sg == "-")
  {
    if sg == "" {
      assert sg + d == d && IsDigit(d[0]);
    } else {
      assert (sg + d)[0] == sg[0] && (sg + d)[1..] == d;
    }
  }

  /** `s` is the white space TrimStart drops followed by what it keeps. */
  lemma TrimStartSplit(s: string)
    ensures AllWhite(s[..|s| - |TrimStart(s)|]) && s == s[..|s| - |TrimStart(s)|] + TrimStart(s)
  {
    var r := TrimStart(s);
    assert s == s[..|s| - |r|] + s[|s| - |r|..];
  }

  /** `s` is what TrimEnd keeps followed by the white space it drops. */
  lemma TrimEndSplit(s: string)
    ensures AllWhite(s[|TrimEnd(s)|..]) && s == TrimEnd(s) + s[|TrimEnd(s)|..]
  {
    var r := TrimEnd(s);
    var w := s[|r|..];
    assert forall k :: 0 <= k < |w| ==> w[k] == s[|r| + k];
    assert s == s[..|r|] + w;
  }

  /** White space, a signed digit string and white space are a cut into the integer shape. */
  lemma FormFromParts(s: string, w1: string, t: string, w2: string)
    requires AllWhite(w1) && AllWhite(w2) && s == w1 + (t + w2)
    requires Unsigned(t) != [] && AllDigits(Unsigned(t))
    ensures exists w1, sg, d, w2 :: IntegerForm(s, w1, sg, d, w2)
  {
    var digits := Unsigned(t);
    var sg := SignOf(t);
    Concat4(w1, sg, digits, w2);
    assert IntegerForm(s, w1, sg, digits, w2);
  }

  /** The sign `t` starts with, if any, cut off `Unsigned(t)`. */
  lemma SignOf(t: string) returns (sg: string)
    ensures sg == "" || sg == "+" || sg == "-"
    ensures t == sg + Unsigned(t)
  {
    if |t| > 0 && (t[0] == '+' || t[0] == '-') {
      sg := t[..1];
      assert t == t[..1] + t[1..];
    } else {
      sg := "";
    }
  }

  lemma Concat4(a: string, b: string, c: string, d: string)
    ensures a + ((b + c) + d) == a + b + c + d
  {
  }

  lemma {:induction false} TrimStartWhite(w: string, t: string)
    requires AllWhite(w)
    ensures TrimStart(w + t) == TrimStart(t)
    decreases |w|
  {
    if w == [] {
      assert w + t == t;
    } else {
      assert (w + t)[0] == w[0];
      assert (w + t)[1..] == w[1..] + t;
      TrimStartWhite(w[1..], t);
    }
  }

  lemma {:induction false} TrimEndWhite(t: string, w: string)
    requires AllWhite(w)
    ensures TrimEnd(t + w) == TrimEnd(t)
    decreases |w|
  {
    if w == [] {
      assert t + w == t;
    } else {
      var u := t + w;
      assert u[|u| - 1] == w[|w| - 1];
      assert u[..|u| - 1] == t + w[..|w| - 1];
      TrimEndWhite(t, w[..|w| - 1]);
    }
  }

  /** The decimal digit for `d`. */
  function DigitChar(d: nat): (c: char)
    requires d < 10
    ensures IsDigit(c) && DigitValue(c) == d
  {
    ('0' as int + d) as char
  }

  /** The decimal rendering of `n` (as uint.ToString() and ushort.ToString() produce it). */
  function DecimalString(n: nat): (s: string)
    decreases n
  {
    if n < 10 then [DigitChar(n)] else DecimalString(n / 10) + [DigitChar(n % 10)]
  }

  /** The rendering is a non-empty string of digits that denotes `n`. */
  lemma {:induction false} DecimalStringValue(n: nat)
    ensures DecimalString(n) != [] && AllDigits(DecimalString(n))
    ensures DigitsValue(DecimalString(n)) == n
    decreases n
  {
    var s := DecimalString(n);
    if n >= 10 {
      DecimalStringValue(n / 10);
      assert s[..|s| - 1] == DecimalString(n / 10);
      assert s[|s| - 1] == DigitChar(n % 10);
    }
  }

  /** Parsing the decimal rendering of any ushort gives that ushort back. */
  lemma ParseDecimalString(n: uint16)
    ensures TryParseUInt16(DecimalString(n as nat)) == Some(n)
  {
    var s := DecimalString(n as nat);
    DecimalStringValue(n as nat);
    assert !IsNumberWhite(s[0]) && !IsNumberWhite(s[|s| - 1]);
    assert TrimStart(s) == s;
    assert TrimEnd(s) == s;
    assert s[0] != '+' && s[0] != '-';
  }
}
