/** The text form of the two ids, and reading it back. */
module IdText {
  import opened Records

  const MY_NET_WIDTH := 5

  function DigitChar(d: nat): char
    requires d < 10
  {
    ('0' as int + d) as char
  }

  predicate IsSign(c: char) { c == '+' || c == '-' }

  predicate IsDigit(c: char) { '0' <= c <= '9' }

  function Digits(n: nat): (s: string)
    ensures |s| > 0 && forall i :: 0 <= i < |s| ==> IsDigit(s[i])
  {
    if n < 10 then [DigitChar(n)] else Digits(n / 10) + [DigitChar(n % 10)]
  }

  function IntText(v: int): string {
    if v < 0 then "-" + Digits(-v) else Digits(v)
  }

  function Zeros(n: nat): (s: string)
    ensures |s| == n && forall i :: 0 <= i < n ==> s[i] == '0'
  {
    if n == 0 then "" else "0" + Zeros(n - 1)
  }

  /** Zeros on the left up to a width, after the sign if there is one. */
  function Zfill(s: string, width: nat): string {
    if |s| >= width then s
    else if |s| > 0 && IsSign(s[0]) then [s[0]] + Zeros(width - |s|) + s[1..]
    else Zeros(width - |s|) + s
  }

  function FmtMyNet(v: int): string { Zfill(IntText(v), MY_NET_WIDTH) }

  function FmtSystemNet(v: int): string { IntText(v) }

  function DigitValue(c: char): nat
    requires IsDigit(c)
  {
    c as int - '0' as int
  }

  function DigitsValue(s: string): nat
    requires forall i :: 0 <= i < |s| ==> IsDigit(s[i])
  {
    if |s| == 0 then 0 else DigitsValue(s[..|s| - 1]) * 10 + DigitValue(s[|s| - 1])
  }

  predicate AllDigits(s: string) {
    |s| > 0 && forall i :: 0 <= i < |s| ==> IsDigit(s[i])
  }

  /** `int(text)`: an optional sign and digits. */
  function ParseInt(s: string): Option<int> {
    if AllDigits(s) then Some(DigitsValue(s))
    else if |s| > 0 && IsSign(s[0]) && AllDigits(s[1..]) then
      var n: int := DigitsValue(s[1..]);
      Some(if s[0] == '-' then -n else n)
    else None
  }

  lemma {:induction false} DigitsRoundTrip(n: nat)
    ensures DigitsValue(Digits(n)) == n
  {
    if n < 10 {
      assert Digits(n)[..0] == "";
    } else {
      DigitsRoundTrip(n / 10);
      assert Digits(n)[..|Digits(n)| - 1] == Digits(n / 10);
    }
  }

  lemma {:induction false} ZerosAddNothing(k: nat, s: string)
    requires forall i :: 0 <= i < |s| ==> IsDigit(s[i])
    ensures DigitsValue(Zeros(k) + s) == DigitsValue(s)
  {
    var t := Zeros(k) + s;
    if |s| > 0 {
      ZerosAddNothing(k, s[..|s| - 1]);
      assert t[..|t| - 1] == Zeros(k) + s[..|s| - 1];
    } else if k > 0 {
      ZerosAddNothing(k - 1, s);
      assert t[..|t| - 1] == Zeros(k - 1) + s;
    } else {
      assert t == s;
    }
  }

  lemma AllDigitsRead(s: string)
    requires AllDigits(s)
    ensures ParseInt(s) == Some(DigitsValue(s))
  {
  }

  lemma PaddedReadsBack(digits: string, width: nat)
    requires AllDigits(digits)
    ensures ParseInt(Zfill(digits, width)) == Some(DigitsValue(digits))
  {
    if |digits| < width {
      var text := Zeros(width - |digits|) + digits;
      ZerosAddNothing(width - |digits|, digits);
      assert IsDigit(digits[0]) && !IsSign(digits[0]);
      assert Zfill(digits, width) == text;
      AllDigitsRead(text);
    } else {
      AllDigitsRead(digits);
    }
  }

  lemma SignedReadsBack(digits: string)
    requires AllDigits(digits)
    ensures var v: int := DigitsValue(digits); ParseInt("-" + digits) == Some(-v)
  {
    var text := "-" + digits;
    assert text[1..] == digits;
    assert text[0] == '-' && !IsDigit(text[0]);
  }

  lemma ZfillKeepsSign(digits: string, width: nat) returns (k: nat)
    ensures Zfill("-" + digits, width) == "-" + (Zeros(k) + digits)
  {
    var text := "-" + digits;
    assert text[1..] == digits && text[0] == '-';
    if |text| < width {
      k := width - |text|;
      assert [text[0]] == "-";
    } else {
      k := 0;
      assert Zeros(0) + digits == digits;
    }
  }

  lemma PaddedSignedReadsBack(digits: string, width: nat)
    requires AllDigits(digits)
    ensures var v: int := DigitsValue(digits); ParseInt(Zfill("-" + digits, width)) == Some(-v)
  {
    var k := ZfillKeepsSign(digits, width);
    ZerosAddNothing(k, digits);
    SignedReadsBack(Zeros(k) + digits);
  }

  /** Any id, of any length and sign, is read back from either text form unchanged. */
  lemma IdsRoundTrip(v: int)
    ensures ParseInt(FmtMyNet(v)) == Some(v) && ParseInt(FmtSystemNet(v)) == Some(v)
  {
    if v < 0 {
      DigitsRoundTrip(-v);
      PaddedSignedReadsBack(Digits(-v), MY_NET_WIDTH);
      PaddedSignedReadsBack(Digits(-v), 0);
    } else {
      DigitsRoundTrip(v);
      PaddedReadsBack(Digits(v), MY_NET_WIDTH);
      PaddedReadsBack(Digits(v), 0);
    }
  }

  lemma {:induction false} DigitsHaveNoZeroFirst(n: nat)
    ensures n > 0 ==> Digits(n)[0] != '0'
    ensures n == 0 ==> Digits(n) == "0"
  {
    if n >= 10 {
      DigitsHaveNoZeroFirst(n / 10);
    }
  }

  /** The texts of the ids in use: a label has at least five digits, padded with zeros to five and no further;
      a net id has no padding; and the digits spell the id. */
  lemma IdTexts(v: nat)
    ensures var s := FmtMyNet(v);
            AllDigits(s) && DigitsValue(s) == v && |s| >= 5 && (|s| > 5 ==> s[0] != '0')
    ensures var s := FmtSystemNet(v);
            AllDigits(s) && DigitsValue(s) == v && (|s| > 1 ==> s[0] != '0')
  {
    DigitsRoundTrip(v);
    DigitsHaveNoZeroFirst(v);
    var digits := Digits(v);
    assert IsDigit(digits[0]) && !IsSign(digits[0]);
    if |digits| < 5 {
      ZerosAddNothing(5 - |digits|, digits);
      assert FmtMyNet(v) == Zeros(5 - |digits|) + digits;
    }
  }
}
