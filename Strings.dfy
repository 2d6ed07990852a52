/** The string operations the source relies on: ASCII upper-casing
    (`str.upper`), whitespace stripping (`str.strip`),
    stripping a character set from the end (`str.rstrip`), prefix tests
    (`startswith`), splitting at a single ':' (`key.split(":")` unpacked into
    two names) and decimal numerals (`int(...)`, template-literal numbers). */
module Strings {
  import opened Wrappers

  function UpperChar(c: char): (u: char)
    ensures 'a' <= c <= 'z' ==> u as int == c as int - 32
    ensures !('a' <= c <= 'z') ==> u == c
  {
    if 'a' <= c <= 'z' then (c as int - 32) as char else c
  }

  /** Upper-casing, on the ASCII letters. */
  function Upper(s: string): (u: string)
    ensures |u| == |s| && forall i :: 0 <= i < |s| ==> u[i] == UpperChar(s[i])
  {
    if |s| == 0 then [] else [UpperChar(s[0])] + Upper(s[1..])
  }

  lemma {:induction false} UpperIdempotent(s: string)
    ensures Upper(Upper(s)) == Upper(s)
  {
    var u := Upper(s);
    assert forall i :: 0 <= i < |u| ==> UpperChar(u[i]) == u[i];
  }

  /** The characters Python's `str.strip()` removes: ASCII whitespace, the
      four information separators, NEL, and Unicode's space separators and
      line and paragraph separators. */
  predicate IsSpace(c: char) {
    || c == ' ' || '\U{0009}' <= c <= '\U{000D}' || '\U{001C}' <= c <= '\U{001F}'
    || c == '\U{0085}' || c == '\U{00A0}' || c == '\U{1680}' || '\U{2000}' <= c <= '\U{200A}'
    || c == '\U{2028}' || c == '\U{2029}' || c == '\U{202F}' || c == '\U{205F}' || c == '\U{3000}'
  }

  /** Removes every trailing character that satisfies `drop`. */
  function RStripBy(s: string, drop: char -> bool): (r: string)
    ensures r <= s
    ensures |r| > 0 ==> !drop(r[|r| - 1])
    ensures forall i :: |r| <= i < |s| ==> drop(s[i])
  {
    if |s| == 0 || !drop(s[|s| - 1]) then s else RStripBy(s[..|s| - 1], drop)
  }

  /** `r` is the end of `s`. */
  predicate IsSuffix(r: string, s: string) {
    |r| <= |s| && r == s[|s| - |r|..]
  }

  /** Removes every leading character that satisfies `drop`. */
  function LStripBy(s: string, drop: char -> bool): (r: string)
    ensures IsSuffix(r, s)
    ensures |r| > 0 ==> !drop(r[0])
    ensures forall i :: 0 <= i < |s| - |r| ==> drop(s[i])
  {
    if |s| == 0 || !drop(s[0]) then s else LStripBy(s[1..], drop)
  }

  /** `str.strip()`: leading and trailing whitespace removed. */
  function Strip(s: string): (r: string)
    ensures |r| <= |s|
    ensures |r| > 0 ==> !IsSpace(r[0]) && !IsSpace(r[|r| - 1])
  {
    var t := RStripBy(s, IsSpace);
    var r := LStripBy(t, IsSpace);
    assert |r| > 0 ==> r[|r| - 1] == t[|t| - 1];
    r
  }

  /** What `strip` keeps is one contiguous piece `s[a..b]` of the text, and
      what it removes on either side is whitespace. */
  lemma StripIsSlice(s: string) returns (a: nat, b: nat)
    ensures a <= b <= |s| && Strip(s) == s[a..b]
    ensures forall i :: 0 <= i < a ==> IsSpace(s[i])
    ensures forall i :: b <= i < |s| ==> IsSpace(s[i])
  {
    var t := RStripBy(s, IsSpace);
    var r := LStripBy(t, IsSpace);
    assert Strip(s) == r;
    SuffixOfPrefix(s, t, r);
    a, b := |t| - |r|, |t|;
    forall i | 0 <= i < a ensures IsSpace(s[i]) {
      assert s[i] == t[i];
    }
  }

  lemma SuffixOfPrefix(s: string, t: string, r: string)
    requires t <= s && IsSuffix(r, t)
    ensures r == s[|t| - |r|..|t|]
  {
    assert t == s[..|t|];
  }

  /** `str.rstrip("NS")`. */
  function RStripNS(s: string): (r: string)
    ensures r <= s
    ensures |r| > 0 ==> r[|r| - 1] != 'N' && r[|r| - 1] != 'S'
    ensures forall i :: |r| <= i < |s| ==> s[i] == 'N' || s[i] == 'S'
  {
    RStripBy(s, c => c == 'N' || c == 'S')
  }

  /** `s.startswith(p)`. */
  predicate StartsWith(s: string, p: string) {
    p <= s
  }

  function CountChar(s: string, c: char): nat {
    if |s| == 0 then 0 else (if s[0] == c then 1 else 0) + CountChar(s[1..], c)
  }

  lemma {:induction false} CountCharAppend(a: string, b: string, c: char)
    ensures CountChar(a + b, c) == CountChar(a, c) + CountChar(b, c)
  {
    if |a| > 0 {
      assert (a + b)[1..] == a[1..] + b;
      CountCharAppend(a[1..], b, c);
    } else {
      assert a + b == b;
    }
  }

  lemma {:induction false} CountCharZero(s: string, c: char)
    ensures CountChar(s, c) == 0 <==> c !in s
  {
    if |s| > 0 {
      CountCharZero(s[1..], c);
      assert c in s <==> s[0] == c || c in s[1..];
    }
  }

  /** Index of the first `c` in `s`, or `|s|` if there is none. */
  function IndexOf(s: string, c: char): (i: nat)
    ensures i <= |s|
    ensures c !in s[..i]
    ensures i < |s| ==> s[i] == c
  {
    if |s| == 0 then 0
    else if s[0] == c then 0
    else
      var j := IndexOf(s[1..], c);
      assert s[..j + 1] == [s[0]] + s[1..][..j];
      j + 1
  }

  /** `a, b = s.split(":")`: succeeds exactly when `s` holds one ':'. */
  function SplitColon(s: string): (r: Option<(string, string)>)
    ensures r.Some? <==> CountChar(s, ':') == 1
    ensures r.Some? ==> r.value.0 + ":" + r.value.1 == s
    ensures r.Some? ==> ':' !in r.value.0 && ':' !in r.value.1
  {
    var i := IndexOf(s, ':');
    if i == |s| then
      assert s[..i] == s;
      CountCharZero(s, ':');
      None
    else
      var a, b := s[..i], s[i + 1..];
      assert s == a + [':'] + b;
      CountCharAppend(a + [':'], b, ':');
      CountCharAppend(a, [':'], ':');
      CountCharZero(a, ':');
      CountCharZero(b, ':');
      assert CountChar([':'], ':') == 1;
      if ':' in b then None else Some((a, b))
  }

  lemma {:induction false} IndexOfAt(s: string, c: char, k: nat)
    requires k < |s| && s[k] == c && c !in s[..k]
    ensures IndexOf(s, c) == k
  {
    if k > 0 {
      assert s[0] == s[..k][0];
      assert s[1..][..k - 1] == s[1..k];
      assert c !in s[1..][..k - 1];
      IndexOfAt(s[1..], c, k - 1);
    }
  }

  lemma SplitColonJoin(a: string, b: string)
    requires ':' !in a && ':' !in b
    ensures SplitColon(a + ":" + b) == Some((a, b))
  {
    var s := a + ":" + b;
    assert s[..|a|] == a && s[|a|] == ':' && s[|a| + 1..] == b;
    IndexOfAt(s, ':', |a|);
  }

  predicate IsDigit(c: char) {
    '0' <= c <= '9'
  }

  function DigitChar(d: nat): (c: char)
    requires d < 10
    ensures IsDigit(c) && c as int - '0' as int == d
  {
    ('0' as int + d) as char
  }

  /** The decimal numeral of `n`, without leading zeros. */
  function NatToString(n: nat): (s: string)
    ensures |s| > 0 && forall i :: 0 <= i < |s| ==> IsDigit(s[i])
    ensures |s| > 1 ==> s[0] != '0'
    ensures n > 0 ==> s[0] != '0'
    decreases n
  {
    if n < 10 then [DigitChar(n)] else NatToString(n / 10) + [DigitChar(n % 10)]
  }

  /** The value of a non-empty string of decimal digits. */
  function DigitValue(c: char): nat
    requires IsDigit(c)
  {
    c as int - '0' as int
  }

  function DigitsValue(s: string): nat
    requires forall i :: 0 <= i < |s| ==> IsDigit(s[i])
    decreases |s|
  {
    if |s| == 0 then 0
    else DigitsValue(s[..|s| - 1]) * 10 + DigitValue(s[|s| - 1])
  }

  /** Reads a numeral made of decimal digits only. */
  function ParseNat(s: string): (r: Option<nat>)
    ensures r.Some? <==> |s| > 0 && forall i :: 0 <= i < |s| ==> IsDigit(s[i])
  {
    if |s| > 0 && forall i :: 0 <= i < |s| ==> IsDigit(s[i]) then Some(DigitsValue(s)) else None
  }

  lemma {:induction false} ParseNatToString(n: nat)
    ensures ParseNat(NatToString(n)) == Some(n)
    decreases n
  {
    var s := NatToString(n);
    if n >= 10 {
      ParseNatToString(n / 10);
      assert s[..|s| - 1] == NatToString(n / 10);
      assert DigitsValue(s) == DigitsValue(NatToString(n / 10)) * 10 + n % 10;
    } else {
      assert s[..0] == [];
    }
  }

  /** A numeral as `NatToString` writes it: digits, no leading zero. */
  predicate CanonicalDigits(s: string) {
    && |s| > 0 && (forall i :: 0 <= i < |s| ==> IsDigit(s[i]))
    && (|s| > 1 ==> s[0] != '0')
  }

  lemma {:induction false} DigitsValuePositive(s: string)
    requires |s| > 0 && (forall i :: 0 <= i < |s| ==> IsDigit(s[i])) && s[0] != '0'
    ensures DigitsValue(s) > 0
    decreases |s|
  {
    if |s| > 1 {
      DigitsValuePositive(s[..|s| - 1]);
    }
  }

  /** Reading a canonical numeral and writing its value gives the same text
      back. */
  lemma {:induction false} CanonicalRoundTrip(s: string)
    requires CanonicalDigits(s)
    ensures NatToString(DigitsValue(s)) == s
    decreases |s|
  {
    var c := s[|s| - 1];
    if |s| == 1 {
      assert s == [c];
    } else {
      var p := s[..|s| - 1];
      assert p[0] == s[0];
      CanonicalRoundTrip(p);
      DigitsValuePositive(p);
      var n := DigitsValue(s);
      assert n == DigitsValue(p) * 10 + DigitValue(c);
      assert n / 10 == DigitsValue(p) && n % 10 == DigitValue(c);
      assert s == p + [c];
    }
  }

  /** Decimal digits in groups separated by single underscores, as Python's
      integer literals and `int()` allow: it starts and ends with a digit and
      no two underscores are adjacent. */
  predicate GroupedDigits(s: string) {
    && |s| > 0 && IsDigit(s[0]) && IsDigit(s[|s| - 1])
    && (forall i :: 0 <= i < |s| ==> IsDigit(s[i]) || s[i] == '_')
    && (forall i :: 0 <= i < |s| - 1 ==> s[i] == '_' ==> s[i + 1] != '_')
  }

  /** The text with its underscores removed. */
  function RemoveUnderscores(s: string): (r: string)
    ensures (forall i :: 0 <= i < |s| ==> IsDigit(s[i]) || s[i] == '_') ==> forall i :: 0 <= i < |r| ==> IsDigit(r[i])
    ensures '_' !in s ==> r == s
    ensures |s| > 0 && IsDigit(s[0]) ==> |r| > 0
    decreases |s|
  {
    if |s| == 0 then []
    else (if s[0] == '_' then [] else [s[0]]) + RemoveUnderscores(s[1..])
  }

  /** The value of a digit string with underscore separators. */
  function ParseDigits(s: string): (r: Option<nat>)
    ensures r.Some? <==> GroupedDigits(s)
    ensures '_' !in s ==> r == ParseNat(s)
  {
    if GroupedDigits(s) then Some(DigitsValue(RemoveUnderscores(s))) else None
  }

  /** `int(s)` on an already stripped string: an optional sign followed by
      decimal digits, which may be grouped by single underscores. */
  function ParseInt(s: string): (r: Option<int>)
    ensures r.Some? ==> |s| > 0
    ensures r.Some? && r.value < 0 ==> s[0] == '-'
  {
    if |s| > 0 && s[0] == '-' then
      match ParseDigits(s[1..]) { case Some(n) => Some(0 - n) case None => None }
    else if |s| > 0 && s[0] == '+' then
      match ParseDigits(s[1..]) { case Some(n) => Some(n) case None => None }
    else
      match ParseDigits(s) { case Some(n) => Some(n) case None => None }
  }

  /** The decimal numeral of an integer, with a leading '-' when negative. */
  function IntToString(i: int): (s: string)
    ensures |s| > 0
    ensures i < 0 <==> s[0] == '-'
  {
    if i < 0 then "-" + NatToString(-i) else NatToString(i)
  }

  /** A numeral has no underscore. */
  lemma NoUnderscore(n: nat)
    ensures '_' !in NatToString(n)
  {
  }

  /** The digit groups of a numeral read back as its value. */
  lemma ParseDigitsToString(n: nat)
    ensures ParseDigits(NatToString(n)) == Some(n)
  {
    NoUnderscore(n);
    ParseNatToString(n);
  }

  lemma ParseIntToString(i: int)
    ensures ParseInt(IntToString(i)) == Some(i)
  {
    var s := IntToString(i);
    if i < 0 {
      var t := NatToString(-i);
      ParseDigitsToString(-i);
      assert s == "-" + t;
      assert s[0] == '-' && s[1..] == t;
    } else {
      ParseDigitsToString(i);
      assert s == NatToString(i) && IsDigit(s[0]);
    }
  }
}
