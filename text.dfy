/** The text operations the protocol's two ends rely on: substring search (C `strstr`,
    Python `str.find`), C strings that end at the first NUL, `strtok` over "\r\n",
    Java's decimal formatting (`%d`) and C's `atoi`. */
module Text {
  import opened Bytes

  /** p occurs in s at index j. */
  predicate MatchAt<T(==)>(s: seq<T>, p: seq<T>, j: int)
  {
    0 <= j && j + |p| <= |s| && s[j..j + |p|] == p
  }

  /** First index at or after i where p occurs in s, or -1 (Python's `find`, C's `strstr`). */
  function IndexOfFrom<T(==)>(s: seq<T>, p: seq<T>, i: nat): (r: int)
    ensures r == -1 || (i <= r && MatchAt(s, p, r))
    ensures forall j :: i <= j && (r == -1 || j < r) ==> !MatchAt(s, p, j)
    decreases |s| - i
  {
    if i + |p| > |s| then -1
    else if s[i..i + |p|] == p then i
    else IndexOfFrom(s, p, i + 1)
  }

  function IndexOf<T(==)>(s: seq<T>, p: seq<T>): (r: int)
    ensures r == -1 || MatchAt(s, p, r)
    ensures forall j :: 0 <= j && (r == -1 || j < r) ==> !MatchAt(s, p, j)
  {
    IndexOfFrom(s, p, 0)
  }

  /** A first occurrence determines IndexOf. */
  lemma IndexOfFirst<T>(s: seq<T>, p: seq<T>, r: int)
    requires MatchAt(s, p, r)
    requires forall j :: 0 <= j < r ==> !MatchAt(s, p, j)
    ensures IndexOf(s, p) == r
  {
  }

  /** If some element of p never appears in s, p does not occur in s. */
  lemma IndexOfMissing<T>(s: seq<T>, p: seq<T>, x: T)
    requires x in p && x !in s
    ensures IndexOf(s, p) == -1
  {
  }

  /** A one-element pattern occurs exactly when its element does. */
  lemma IndexOfElement<T>(s: seq<T>, x: T)
    ensures IndexOf(s, [x]) >= 0 <==> x in s
  {
    var r := IndexOf(s, [x]);
    if r >= 0 {
      assert s[r..r + 1][0] == s[r];
    }
    if x in s {
      var j :| 0 <= j < |s| && s[j] == x;
      assert s[j..j + 1] == [x];
      assert MatchAt(s, [x], j);
    }
  }

  /** x sits right after a in the bytes of a + x + b. */
  lemma AsciiFieldAt(a: string, x: string, b: string)
    ensures MatchAt(Ascii(a + x + b), Ascii(x), |a|)
  {
    var t := a + x + b;
    assert t[|a|..|a| + |x|] == x;
    assert Ascii(t)[|a|..|a| + |x|] == Ascii(x);
  }

  /** Both copies of x in a + x + b + x + c sit where the lengths of the parts put them. */
  lemma AsciiTwiceAt(a: string, x: string, b: string, c: string)
    ensures MatchAt(Ascii(a + x + b + x + c), Ascii(x), |a|)
    ensures MatchAt(Ascii(a + x + b + x + c), Ascii(x), |a| + |x| + |b|)
  {
    assert a + x + b + x + c == a + x + (b + x + c);
    AsciiFieldAt(a, x, b + x + c);
    AsciiFieldAt(a + x + b, x, c);
  }

  /** The C string held in a buffer: everything before the first NUL. */
  function CString(s: seq<byte>): (r: seq<byte>)
    ensures r <= s && 0 !in r
    ensures |r| < |s| ==> s[|r|] == 0
  {
    if s == [] || s[0] == 0 then [] else [s[0]] + CString(s[1..])
  }

  lemma {:induction false} CStringAppend(a: seq<byte>, b: seq<byte>)
    requires 0 !in a
    ensures CString(a + b) == a + CString(b)
  {
    if a != [] {
      assert (a + b)[1..] == a[1..] + b;
      CStringAppend(a[1..], b);
    } else {
      assert a + b == b;
    }
  }

  /** The delimiters the C receiver hands to `strtok`: carriage return and line feed. */
  predicate IsDelim(b: byte)
  {
    b == 13 || b == 10
  }

  predicate NoDelim(s: seq<byte>)
  {
    forall j :: 0 <= j < |s| ==> !IsDelim(s[j])
  }

  /** Length of the run of non-delimiters that starts s. */
  function TokenEnd(s: seq<byte>): (k: nat)
    ensures k <= |s| && NoDelim(s[..k])
    ensures k < |s| ==> IsDelim(s[k])
  {
    if s == [] || IsDelim(s[0]) then 0 else 1 + TokenEnd(s[1..])
  }

  lemma {:induction false} TokenEndAt(a: seq<byte>, rest: seq<byte>)
    requires NoDelim(a)
    requires rest == [] || IsDelim(rest[0])
    ensures TokenEnd(a + rest) == |a|
  {
    if a == [] {
      assert a + rest == rest;
    } else {
      assert (a + rest)[1..] == a[1..] + rest;
      TokenEndAt(a[1..], rest);
    }
  }

  /** The tokens successive `strtok(.., "\r\n")` calls return: maximal non-empty runs of
      non-delimiters, in order. */
  function Tokens(s: seq<byte>): (ts: seq<seq<byte>>)
    ensures forall t :: t in ts ==> t != [] && NoDelim(t)
    decreases |s|
  {
    if s == [] then []
    else if IsDelim(s[0]) then Tokens(s[1..])
    else
      var k := TokenEnd(s);
      [s[..k]] + Tokens(s[k..])
  }

  /** A line followed by a delimiter (or by nothing) is the next token. */
  lemma TokensLine(a: seq<byte>, rest: seq<byte>)
    requires a != [] && NoDelim(a)
    requires rest == [] || IsDelim(rest[0])
    ensures Tokens(a + rest) == [a] + Tokens(rest)
  {
    var s := a + rest;
    var k := TokenEnd(s);
    TokenEndAt(a, rest);
    assert s[..k] == a;
    assert s[k..] == rest;
  }

  /** The octets of s other than the delimiters, in order. */
  function Strip(s: seq<byte>): (r: seq<byte>)
    ensures NoDelim(r) && |r| <= |s|
  {
    if s == [] then [] else (if IsDelim(s[0]) then [] else [s[0]]) + Strip(s[1..])
  }

  /** Stripping s is keeping its leading token whole and stripping what follows it. */
  lemma {:induction false} StripRun(s: seq<byte>)
    ensures var k := TokenEnd(s); Strip(s) == s[..k] + Strip(s[k..])
  {
    var k := TokenEnd(s);
    if k > 0 {
      StripRun(s[1..]);
      assert s[1..][k - 1..] == s[k..];
      assert [s[0]] + s[1..][..k - 1] == s[..k];
    }
  }

  /** strtok loses only the delimiters: the tokens, one after another, are the input without
      its CR and LF octets. */
  lemma {:induction false} TokensKeepText(s: seq<byte>)
    ensures Concat(Tokens(s)) == Strip(s)
    decreases |s|
  {
    if s != [] {
      if IsDelim(s[0]) {
        TokensKeepText(s[1..]);
      } else {
        var k := TokenEnd(s);
        var ts := Tokens(s[k..]);
        TokensKeepText(s[k..]);
        StripRun(s);
        assert ([s[..k]] + ts)[1..] == ts;
      }
    }
  }

  lemma TokensSkip(d: byte, rest: seq<byte>)
    requires IsDelim(d)
    ensures Tokens([d] + rest) == Tokens(rest)
  {
    assert ([d] + rest)[1..] == rest;
  }

  predicate IsDigitChar(c: char)
  {
    '0' <= c <= '9'
  }

  /** The decimal digits of n, most significant first. */
  function NatDigits(n: nat): (r: string)
    ensures r != [] && forall i :: 0 <= i < |r| ==> IsDigitChar(r[i])
  {
    if n < 10 then [(48 + n) as char] else NatDigits(n / 10) + [(48 + n % 10) as char]
  }

  /** Java's `String.format("%d", n)` (and `Integer.toString`): optional minus sign, then digits. */
  function Decimal(n: int): (r: string)
    ensures IsAscii(r)
  {
    if n < 0 then "-" + NatDigits(-n) else NatDigits(n)
  }

  const BLANK: byte := 32
  const MINUS: byte := 45
  const PLUS: byte := 43

  predicate IsCSpace(b: byte)
  {
    b == 32 || 9 <= b <= 13
  }

  predicate IsCDigit(b: byte)
  {
    48 <= b <= 57
  }

  /** The longest prefix of s made of decimal digits. */
  function DigitPrefix(s: seq<byte>): (r: seq<byte>)
    ensures r <= s && forall i :: 0 <= i < |r| ==> IsCDigit(r[i])
    ensures |r| < |s| ==> !IsCDigit(s[|r|])
  {
    if s == [] || !IsCDigit(s[0]) then [] else [s[0]] + DigitPrefix(s[1..])
  }

  /** The value of a digit string, read most significant digit first. */
  function DigitsValue(ds: seq<byte>): nat
    requires forall i :: 0 <= i < |ds| ==> IsCDigit(ds[i])
  {
    if ds == [] then 0
    else
      assert IsCDigit(ds[|ds| - 1]);
      DigitsValue(ds[..|ds| - 1]) * 10 + (ds[|ds| - 1] as int - 48)
  }

  function SkipSpaces(s: seq<byte>): (r: seq<byte>)
    ensures |r| <= |s|
  {
    if s != [] && IsCSpace(s[0]) then SkipSpaces(s[1..]) else s
  }

  /** C's `atoi`: leading white space, an optional sign, then as many digits as follow.
      (Values outside the C int range, where `atoi` is undefined, are not distinguished.) */
  function Atoi(s: seq<byte>): int
  {
    var t := SkipSpaces(s);
    if t != [] && t[0] == MINUS then -(DigitsValue(DigitPrefix(t[1..])) as int)
    else if t != [] && t[0] == PLUS then DigitsValue(DigitPrefix(t[1..]))
    else DigitsValue(DigitPrefix(t))
  }

  lemma {:induction false} DigitPrefixAll(a: seq<byte>, tail: seq<byte>)
    requires forall i :: 0 <= i < |a| ==> IsCDigit(a[i])
    requires tail == [] || !IsCDigit(tail[0])
    ensures DigitPrefix(a + tail) == a
  {
    if a != [] {
      assert (a + tail)[1..] == a[1..] + tail;
      DigitPrefixAll(a[1..], tail);
    } else {
      assert a + tail == tail;
    }
  }

  lemma {:induction false} DigitsValueOfDecimal(n: nat)
    ensures DigitsValue(Ascii(NatDigits(n))) == n
  {
    var ds := Ascii(NatDigits(n));
    if n >= 10 {
      var hi := Ascii(NatDigits(n / 10));
      AsciiAppend(NatDigits(n / 10), [(48 + n % 10) as char]);
      assert ds[..|ds| - 1] == hi;
      DigitsValueOfDecimal(n / 10);
    }
  }

  predicate AllDigits(ds: seq<byte>)
  {
    forall i :: 0 <= i < |ds| ==> IsCDigit(ds[i])
  }

  /** `atoi` after one blank: digits ended by a non-digit. */
  lemma AtoiBlankDigits(digits: seq<byte>, tail: seq<byte>)
    requires digits != [] && AllDigits(digits)
    requires tail == [] || !IsCDigit(tail[0])
    ensures Atoi([BLANK] + digits + tail) == DigitsValue(digits)
  {
    var s := [BLANK] + digits + tail;
    var t := s[1..];
    assert t == digits + tail;
    assert SkipSpaces(s) == SkipSpaces(t) == t;
    DigitPrefixAll(digits, tail);
  }

  /** `atoi` after one blank: a minus sign, then digits ended by a non-digit. */
  lemma AtoiBlankMinusDigits(digits: seq<byte>, tail: seq<byte>)
    requires digits != [] && AllDigits(digits)
    requires tail == [] || !IsCDigit(tail[0])
    ensures Atoi([BLANK] + [MINUS] + digits + tail) == -(DigitsValue(digits) as int)
  {
    var s := [BLANK] + [MINUS] + digits + tail;
    var t := s[1..];
    assert t == [MINUS] + (digits + tail);
    assert SkipSpaces(s) == SkipSpaces(t) == t;
    assert t[1..] == digits + tail;
    DigitPrefixAll(digits, tail);
  }

  lemma AtoiNegative(n: int, tail: seq<byte>)
    requires n < 0 && (tail == [] || !IsCDigit(tail[0]))
    ensures Atoi(Ascii(" " + Decimal(n)) + tail) == n
  {
    var digits := Ascii(NatDigits(-n));
    assert AllDigits(digits);
    AsciiAppend(" ", Decimal(n));
    AsciiAppend("-", NatDigits(-n));
    assert Ascii(" ") == [BLANK] && Ascii("-") == [MINUS];
    assert Ascii(" " + Decimal(n)) == [BLANK] + ([MINUS] + digits);
    assert [BLANK] + ([MINUS] + digits) == [BLANK] + [MINUS] + digits;
    AtoiBlankMinusDigits(digits, tail);
    DigitsValueOfDecimal(-n);
  }

  lemma AtoiNonNegative(n: nat, tail: seq<byte>)
    requires tail == [] || !IsCDigit(tail[0])
    ensures Atoi(Ascii(" " + Decimal(n)) + tail) == n
  {
    var digits := Ascii(NatDigits(n));
    assert AllDigits(digits);
    AsciiAppend(" ", Decimal(n));
    assert Ascii(" ") == [BLANK];
    assert Ascii(" " + Decimal(n)) == [BLANK] + digits;
    AtoiBlankDigits(digits, tail);
    DigitsValueOfDecimal(n);
  }

  /** `atoi` reads back what Java's `%d` wrote, whatever follows the digits (as long as it is
      not another digit). */
  lemma AtoiDecimal(n: int, tail: seq<byte>)
    requires tail == [] || !IsCDigit(tail[0])
    ensures Atoi(Ascii(" " + Decimal(n)) + tail) == n
  {
    if n < 0 {
      AtoiNegative(n, tail);
    } else {
      AtoiNonNegative(n, tail);
    }
  }
}
