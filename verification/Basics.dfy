/** What several modules share: optional values, Python's `strip` on ASCII text, decimals and full object ids. */
module Basics {

  datatype Option<+T> = None | Some(value: T)

  predicate IsSpace(c: char) {
    c == ' ' || ('\t' <= c <= '\r') || (28 as char <= c <= 31 as char)
  }

  function StripLeft(s: string): string {
    if s != "" && IsSpace(s[0]) then StripLeft(s[1..]) else s
  }

  function StripRight(s: string): string {
    if s != "" && IsSpace(s[|s| - 1]) then StripRight(s[..|s| - 1]) else s
  }

  /** The ASCII characters Python strips: tab to carriage return, the four separators, and the blank. */
  lemma SpaceIff(c: char)
    ensures IsSpace(c) <==> c as int in {9, 10, 11, 12, 13, 28, 29, 30, 31, 32}
  {
  }

  lemma {:induction false} StripLeftIs(s: string) returns (n: nat)
    ensures n <= |s| && StripLeft(s) == s[n..]
    ensures (forall i | 0 <= i < n :: IsSpace(s[i])) && (n < |s| ==> !IsSpace(s[n]))
  {
    n := 0;
    if s != "" && IsSpace(s[0]) {
      var m := StripLeftIs(s[1..]);
      n := m + 1;
      assert forall i | 0 < i < n :: s[i] == s[1..][i - 1];
    }
  }

  lemma {:induction false} StripRightIs(s: string) returns (n: nat)
    ensures n <= |s| && StripRight(s) == s[..n]
    ensures (forall i | n <= i < |s| :: IsSpace(s[i])) && (n > 0 ==> !IsSpace(s[n - 1]))
  {
    n := |s|;
    if s != "" && IsSpace(s[|s| - 1]) {
      n := StripRightIs(s[..|s| - 1]);
    }
  }

  /** 40 lower-case hexadecimal digits. */
  predicate IsFullOid(s: string) {
    |s| == 40 && forall i | 0 <= i < |s| :: '0' <= s[i] <= '9' || 'a' <= s[i] <= 'f'
  }

  lemma FullOidIff(s: string)
    ensures IsFullOid(s) <==> |s| == 40 && forall i | 0 <= i < |s| :: s[i] in "0123456789abcdef"
  {
    forall i | 0 <= i < |s|
      ensures s[i] in "0123456789abcdef" <==> '0' <= s[i] <= '9' || 'a' <= s[i] <= 'f'
    {
      HexDigitIff(s[i]);
    }
  }

  lemma HexDigitIff(c: char)
    ensures c in "0123456789abcdef" <==> '0' <= c <= '9' || 'a' <= c <= 'f'
  {
    var hex := "0123456789abcdef";
    if '0' <= c <= '9' {
      assert hex[c as int - '0' as int] == c;
    } else if 'a' <= c <= 'f' {
      assert hex[10 + c as int - 'a' as int] == c;
    }
  }

  // ----- Decimals -----

  predicate IsDigit(c: char) {
    '0' <= c <= '9'
  }

  /** The canonical decimal text of a number. */
  function Decimal(n: nat): string {
    if n < 10 then ['0' + n as char] else Decimal(n / 10) + ['0' + (n % 10) as char]
  }

  function DecimalValue(s: string): nat
    requires forall i | 0 <= i < |s| :: IsDigit(s[i])
  {
    if s == "" then 0
    else
      var last := s[|s| - 1];
      assert IsDigit(last);
      10 * DecimalValue(s[..|s| - 1]) + (last as int - '0' as int)
  }

  lemma {:induction false} DecimalIsDigits(n: nat)
    ensures Decimal(n) != "" && (forall i | 0 <= i < |Decimal(n)| :: IsDigit(Decimal(n)[i]))
    ensures DecimalValue(Decimal(n)) == n
    ensures n > 0 ==> Decimal(n)[0] != '0'
  {
    var d := Decimal(n);
    if n < 10 {
      assert d[..0] == "";
    } else {
      DecimalIsDigits(n / 10);
      assert d[..|d| - 1] == Decimal(n / 10);
    }
  }

  /** Every text of digits that does not begin with 0 is the decimal of its value. */
  lemma {:induction false} DecimalIsUnique(s: string)
    requires s != "" && s[0] != '0' && forall i | 0 <= i < |s| :: IsDigit(s[i])
    ensures DecimalValue(s) > 0 && s == Decimal(DecimalValue(s))
  {
    var n := |s| - 1;
    assert s == s[..n] + [s[n]];
    if n > 0 {
      DecimalIsUnique(s[..n]);
    }
  }

  lemma DecimalExample()
    ensures Decimal(0) == "0" && Decimal(16) == "16" && Decimal(305) == "305"
  {
    assert Decimal(30) == Decimal(3) + "0";
  }
}
