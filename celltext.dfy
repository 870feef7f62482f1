/** The text of a cell: Java's String.trim, String.valueOf(int) and
    Integer.parseInt over the characters of a text field, and the reading
    of one cell that checkSolution does. */
module CellText {
  import opened Boards

  /** A character that String.trim removes: any code point up to the space. */
  predicate IsBlank(ch: char) {
    ch <= ' '
  }

  predicate AllBlank(s: string) {
    forall i :: 0 <= i < |s| ==> IsBlank(s[i])
  }

  /** The text with its leading blank characters removed. */
  function TrimStart(s: string): (t: string)
    ensures |t| <= |s|
    ensures t == [] || !IsBlank(t[0])
  {
    if s != [] && IsBlank(s[0]) then TrimStart(s[1..]) else s
  }

  /** The text with its trailing blank characters removed. */
  function TrimEnd(s: string): (t: string)
    ensures |t| <= |s|
    ensures t == [] || !IsBlank(t[|t| - 1])
  {
    if s != [] && IsBlank(s[|s| - 1]) then TrimEnd(s[..|s| - 1]) else s
  }

  /** TrimStart leaves a suffix of the text and removes blanks only. */
  lemma {:induction false} TrimStartDropsBlanks(s: string)
    ensures var k := |s| - |TrimStart(s)|;
      TrimStart(s) == s[k..] && forall i :: 0 <= i < k ==> IsBlank(s[i])
  {
    if s != [] && IsBlank(s[0]) {
      TrimStartDropsBlanks(s[1..]);
      var k := |s| - |TrimStart(s)|;
      assert s[1..][k - 1..] == s[k..];
      assert forall i :: 1 <= i < k ==> s[i] == s[1..][i - 1];
    }
  }

  /** TrimEnd leaves a prefix of the text and removes blanks only. */
  lemma {:induction false} TrimEndDropsBlanks(s: string)
    ensures TrimEnd(s) == s[..|TrimEnd(s)|] && forall i :: |TrimEnd(s)| <= i < |s| ==> IsBlank(s[i])
  {
    if s != [] && IsBlank(s[|s| - 1]) {
      TrimEndDropsBlanks(s[..|s| - 1]);
      assert s[..|s| - 1][..|TrimEnd(s)|] == s[..|TrimEnd(s)|];
    }
  }

  /** String.trim: the text between the first and the last character that
      is not blank, or "" when there is none. */
  function Trim(s: string): (t: string)
    ensures t == [] || (!IsBlank(t[0]) && !IsBlank(t[|t| - 1]))
  {
    TrimEndDropsBlanks(TrimStart(s));
    TrimEnd(TrimStart(s))
  }

  /** Trim removes blank characters only, from both ends: what is left is
      the text between k and k + |Trim(s)|, and everything around it is
      blank. */
  lemma TrimRemovesBlanks(s: string)
    ensures var k := |s| - |TrimStart(s)|;
      k + |Trim(s)| <= |s| && Trim(s) == s[k..k + |Trim(s)|] &&
      (forall i :: 0 <= i < k ==> IsBlank(s[i])) &&
      (forall i :: k + |Trim(s)| <= i < |s| ==> IsBlank(s[i]))
  {
    var u := TrimStart(s);
    var k := |s| - |u|;
    var t := TrimEnd(u);
    TrimStartDropsBlanks(s);
    TrimEndDropsBlanks(u);
    assert Trim(s) == t && u == s[k..] && t == u[..|t|];
    assert u[..|t|] == s[k..k + |t|];
    forall i | k + |t| <= i < |s|
      ensures IsBlank(s[i])
    {
      assert |t| <= i - k < |u| && s[i] == u[i - k];
    }
  }

  /** The trimmed text is empty exactly when the text is all blank. */
  lemma TrimEmptyIff(s: string)
    ensures Trim(s) == [] <==> AllBlank(s)
  {
    TrimRemovesBlanks(s);
  }

  /** String.trim().isEmpty(): the text holds nothing but blanks. */
  function TrimIsEmpty(s: string): (b: bool)
    ensures b <==> AllBlank(s)
  {
    TrimEmptyIff(s);
    Trim(s) == []
  }

  /** A text with no blank character at either end is its own trim. */
  lemma TrimKeeps(s: string)
    requires s == [] || (!IsBlank(s[0]) && !IsBlank(s[|s| - 1]))
    ensures Trim(s) == s
  {
  }

  /** Trimming twice is trimming once. */
  lemma TrimIdempotent(s: string)
    ensures Trim(Trim(s)) == Trim(s)
  {
    TrimKeeps(Trim(s));
  }

  predicate IsDigitChar(ch: char) {
    '0' <= ch <= '9'
  }

  predicate IsDigitString(s: string) {
    forall i :: 0 <= i < |s| ==> IsDigitChar(s[i])
  }

  function DigitChar(d: int): (ch: char)
    requires 0 <= d <= 9
    ensures IsDigitChar(ch) && ch as int - '0' as int == d
  {
    ('0' as int + d) as char
  }

  /** The decimal value of a string of digits, read left to right. */
  function DigitsValue(s: string): nat
    requires IsDigitString(s)
  {
    if s == [] then 0 else DigitsValue(s[..|s| - 1]) * 10 + (s[|s| - 1] as int - '0' as int)
  }

  /** The decimal digits of n, most significant first, with no leading zero. */
  function Decimal(n: nat): (s: string)
    ensures |s| >= 1 && IsDigitString(s)
    ensures |s| > 1 ==> s[0] != '0'
  {
    if n < 10 then [DigitChar(n)] else Decimal(n / 10) + [DigitChar(n % 10)]
  }

  /** Reading the digits of n gives n back. */
  lemma {:induction false} DecimalValue(n: nat)
    ensures DigitsValue(Decimal(n)) == n
  {
    if n >= 10 {
      var s := Decimal(n);
      assert s[..|s| - 1] == Decimal(n / 10);
      DecimalValue(n / 10);
    }
  }

  /** String.valueOf(int): an optional minus sign and the digits. */
  function ShowInt(n: int): string {
    if n < 0 then "-" + Decimal(-n) else Decimal(n)
  }

  const IntMin: int := -0x8000_0000
  const IntMax: int := 0x7FFF_FFFF

  /** Integer.parseInt with radix 10 on ASCII digits: an optional '+' or
      '-', then at least one digit, and a value that fits in an int; None
      where Java throws NumberFormatException. */
  function ParseInt(s: string): Option<int> {
    var negative := s != [] && s[0] == '-';
    var digits := if s != [] && (s[0] == '-' || s[0] == '+') then s[1..] else s;
    if digits == [] || !IsDigitString(digits) then None
    else
      var v := if negative then -(DigitsValue(digits) as int) else DigitsValue(digits) as int;
      if IntMin <= v <= IntMax then Some(v) else None
  }

  /** Every int is read back from its String.valueOf text. */
  lemma ParseShowInt(n: int)
    requires IntMin <= n <= IntMax
    ensures ParseInt(ShowInt(n)) == Some(n)
  {
    DecimalValue(if n < 0 then -n else n);
    if n < 0 {
      assert ("-" + Decimal(-n))[1..] == Decimal(-n);
    }
  }

  /** What checkSolution reads from a cell: 0 for a blank cell, the digit
      for a number 1..9, None (the "Only numbers 1-9" error) otherwise. */
  function ParseCell(text: string): (v: Option<int>)
    ensures v.Some? ==> 0 <= v.value <= 9
    ensures v == Some(0) <==> AllBlank(text)
  {
    TrimEmptyIff(text);
    var t := Trim(text);
    if t == [] then Some(0)
    else match ParseInt(t)
      case None => None
      case Some(n) => if 1 <= n <= 9 then Some(n) else None
  }

  /** The text of a shown digit reads back as that digit and is not blank. */
  lemma ParseShownDigit(d: int)
    requires 1 <= d <= 9
    ensures ShowInt(d) == [DigitChar(d)]
    ensures ParseCell(ShowInt(d)) == Some(d)
  {
    var t := [DigitChar(d)];
    assert ShowInt(d) == t;
    TrimKeeps(t);
    assert t[..0] == [];
    assert DigitsValue(t) == d;
    assert ParseInt(t) == Some(d);
  }

  /** No String.valueOf text is blank. */
  lemma ShowIntNotBlank(n: int)
    ensures !AllBlank(ShowInt(n))
  {
    assert !IsBlank(ShowInt(n)[0]);
  }
}
