/**
  The JavaScript string operations the capture core relies on, over `string` (a sequence
  of characters). Case mapping is ASCII-only; `length` counts characters of the sequence.
 */
module JsString {
  import opened Options

  /** JavaScript truthiness of an optional string: present and not empty. */
  predicate Truthy(s: Option<string>) {
    s.Some? && s.value != ""
  }

  predicate IsUpperAscii(c: char) { 'A' <= c <= 'Z' }

  predicate IsLowerAscii(c: char) { 'a' <= c <= 'z' }

  function LowerChar(c: char): char {
    if IsUpperAscii(c) then (c as int + 32) as char else c
  }

  function UpperChar(c: char): char {
    if IsLowerAscii(c) then (c as int - 32) as char else c
  }

  /** `s.toLowerCase()`: every ASCII capital becomes its small letter, nothing else moves. */
  function ToLower(s: string): (r: string)
    ensures |r| == |s|
    ensures forall i :: 0 <= i < |r| ==> !IsUpperAscii(r[i])
    ensures forall i :: 0 <= i < |s| && !IsUpperAscii(s[i]) ==> r[i] == s[i]
    ensures forall i :: 0 <= i < |s| && IsUpperAscii(s[i]) ==> r[i] as int == s[i] as int + 32
  {
    if |s| == 0 then "" else [LowerChar(s[0])] + ToLower(s[1..])
  }

  /** `s.toUpperCase()`: every ASCII small letter becomes its capital, nothing else moves. */
  function ToUpper(s: string): (r: string)
    ensures |r| == |s|
    ensures forall i :: 0 <= i < |r| ==> !IsLowerAscii(r[i])
    ensures forall i :: 0 <= i < |s| && !IsLowerAscii(s[i]) ==> r[i] == s[i]
    ensures forall i :: 0 <= i < |s| && IsLowerAscii(s[i]) ==> r[i] as int == s[i] as int - 32
  {
    if |s| == 0 then "" else [UpperChar(s[0])] + ToUpper(s[1..])
  }

  /** `sub` occurs in `s` starting at position `i`. */
  ghost predicate OccursAt(s: string, sub: string, i: int) {
    0 <= i && i + |sub| <= |s| && s[i..i + |sub|] == sub
  }

  /** `s.includes(sub)`: a case-sensitive substring test; the empty string occurs in every string. */
  function Includes(s: string, sub: string): (r: bool)
    ensures r <==> exists i :: OccursAt(s, sub, i)
  {
    IncludesFrom(s, sub, 0)
  }

  /** The search behind `Includes`, scanning start positions from `k` on. */
  function IncludesFrom(s: string, sub: string, k: nat): (r: bool)
    ensures r <==> exists i :: k <= i && OccursAt(s, sub, i)
    decreases |s| - k
  {
    if k + |sub| > |s| then false
    else if s[k..k + |sub|] == sub then assert OccursAt(s, sub, k); true
    else IncludesFrom(s, sub, k + 1)
  }

  /** A text that lacks one of the characters of `sub` does not contain `sub`. */
  lemma MissingCharExcludes(s: string, sub: string, j: int)
    requires 0 <= j < |sub| && sub[j] !in s
    ensures !Includes(s, sub)
  {
    forall i | 0 <= i
      ensures !OccursAt(s, sub, i)
    {
      if i + |sub| <= |s| {
        assert s[i..i + |sub|][j] == s[i + j];
        assert s[i + j] in s;
      }
    }
  }

  /**
    Whether some string of `needles` occurs in `s`, trying them front to back: the
    `some(... includes ...)` test used for content types and error triggers.
   */
  function AnyIncluded(s: string, needles: seq<string>): (r: bool)
    ensures r <==> exists t :: t in needles && Includes(s, t)
    ensures r <==> exists k :: 0 <= k < |needles| && Includes(s, needles[k])
  {
    if |needles| == 0 then false
    else Includes(s, needles[0]) || AnyIncluded(s, needles[1..])
  }

  /** `s.slice(0, n)` for a non-negative `n`: the first `n` characters, or all of `s` when shorter. */
  function Take(s: string, n: nat): (r: string)
    ensures |r| == if |s| <= n then |s| else n
    ensures r == s[..|r|]
  {
    if |s| <= n then s else s[..n]
  }

  /** The display cut used by the log views: text longer than `n` keeps its first `n` characters and gains "...". */
  function Ellipsize(s: string, n: nat): (r: string)
    ensures |s| <= n ==> r == s
    ensures |s| > n ==> |r| == n + 3 && r[..n] == s[..n] && r[n..] == "..."
  {
    if |s| > n then s[..n] + "..." else s
  }

  predicate IsDigit(c: char) { '0' <= c <= '9' }

  function DigitChar(d: nat): (c: char)
    requires d < 10
    ensures IsDigit(c)
    ensures c as int - '0' as int == d
  {
    (d + '0' as int) as char
  }

  function DigitValue(c: char): nat {
    if IsDigit(c) then c as int - '0' as int else 0
  }

  /** Decimal rendering of a natural number, as a template literal `${n}` produces it. */
  function NatToString(n: nat): (r: string)
    ensures |r| >= 1
    ensures forall i :: 0 <= i < |r| ==> IsDigit(r[i])
    decreases n
  {
    if n < 10 then [DigitChar(n)] else NatToString(n / 10) + [DigitChar(n % 10)]
  }

  /** Decimal rendering of an integer, with a leading '-' for negatives. */
  function IntToString(n: int): (r: string)
    ensures n >= 0 ==> r == NatToString(n)
    ensures n < 0 ==> |r| >= 2 && r[0] == '-' && r[1..] == NatToString(-n)
  {
    if n < 0 then "-" + NatToString(-n) else NatToString(n)
  }

  /** Reads a string of decimal digits back as a number (most significant digit first). */
  function ParseNat(s: string): nat
    decreases |s|
  {
    if |s| == 0 then 0 else 10 * ParseNat(s[..|s| - 1]) + DigitValue(s[|s| - 1])
  }

  predicate AllDigits(s: string) {
    forall i :: 0 <= i < |s| ==> IsDigit(s[i])
  }

  /** Decimal rendering loses nothing: parsing the digits gives the number back. */
  lemma {:induction false} ParseNatToString(n: nat)
    ensures ParseNat(NatToString(n)) == n
    decreases n
  {
    if n >= 10 {
      var s := NatToString(n / 10);
      var t := s + [DigitChar(n % 10)];
      assert t == NatToString(n);
      assert t[..|t| - 1] == s;
      ParseNatToString(n / 10);
    }
  }

  /** Digits as `${n}` writes them: at least one, and no leading zero unless the number is 0. */
  predicate CanonicalDigits(s: string) {
    |s| >= 1 && AllDigits(s) && (|s| == 1 || s[0] != '0')
  }

  /** Decimal rendering never writes a leading zero, and one digit exactly for numbers below 10. */
  lemma {:induction false} NatToStringCanonical(n: nat)
    ensures CanonicalDigits(NatToString(n))
    ensures n >= 1 ==> NatToString(n)[0] != '0'
    decreases n
  {
    if n >= 10 {
      NatToStringCanonical(n / 10);
      assert NatToString(n)[0] == NatToString(n / 10)[0];
    }
  }

  /** Digits that do not start with '0' denote a positive number. */
  lemma {:induction false} ParseNatPositive(s: string)
    requires |s| >= 1 && AllDigits(s) && s[0] != '0'
    ensures ParseNat(s) >= 1
    decreases |s|
  {
    if |s| > 1 {
      ParseNatPositive(s[..|s| - 1]);
    }
  }

  /** Canonical digits are exactly the rendering of the number they denote. */
  lemma {:induction false} ToStringParseNat(s: string)
    requires CanonicalDigits(s)
    ensures NatToString(ParseNat(s)) == s
    decreases |s|
  {
    var c := s[|s| - 1];
    var d := DigitValue(c);
    assert DigitChar(d) == c;
    if |s| == 1 {
      assert ParseNat(s) == 10 * ParseNat(s[..0]) + d;
      assert s == [c];
    } else {
      var p := s[..|s| - 1];
      assert p[0] == s[0];
      ParseNatPositive(p);
      ToStringParseNat(p);
      var n := ParseNat(s);
      assert n == 10 * ParseNat(p) + d;
      assert n / 10 == ParseNat(p) && n % 10 == d;
      assert s == p + [c];
    }
  }

  /** Two different numbers never render to the same digits. */
  lemma NatToStringInjective(a: nat, b: nat)
    ensures NatToString(a) == NatToString(b) ==> a == b
  {
    ParseNatToString(a);
    ParseNatToString(b);
  }
}
