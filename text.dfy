/**
 * String primitives the source takes from the .NET library: ordinal case-insensitive
 * comparison, IndexOf, Contains, Trim, invariant-culture integer formatting and parsing.
 * Case folding is the ASCII one: only 'a'..'z' and 'A'..'Z' are folded.
 */
module Text {
  import opened Wrappers

  /** The upper-case fold used by the OrdinalIgnoreCase and InvariantCultureIgnoreCase comparers. */
  function Upper(c: char): (u: char)
    ensures 'a' <= c <= 'z' ==> u as int == c as int - 32
    ensures !('a' <= c <= 'z') ==> u == c
  {
    if 'a' <= c <= 'z' then (c as int - 32) as char else c
  }

  /** ToLowerInvariant on one character. */
  function LowerChar(c: char): (l: char)
    ensures 'A' <= c <= 'Z' ==> l as int == c as int + 32
    ensures !('A' <= c <= 'Z') ==> l == c
  {
    if 'A' <= c <= 'Z' then (c as int + 32) as char else c
  }

  /** ToLowerInvariant on a string. */
  function Lower(s: string): (r: string)
    ensures |r| == |s|
  {
    if s == [] then [] else [LowerChar(s[0])] + Lower(s[1..])
  }

  /** Lower folds each character on its own. */
  lemma {:induction false} LowerChars(s: string)
    ensures forall k :: 0 <= k < |s| ==> Lower(s)[k] == LowerChar(s[k])
  {
    if s != [] {
      LowerChars(s[1..]);
    }
  }

  /**
   * Each fold is idempotent and leaves no letter of the other case; folding one way and then
   * the other gives the same as folding the other way directly.
   */
  lemma FoldsAgree(c: char)
    ensures Upper(Upper(c)) == Upper(c) && !('a' <= Upper(c) <= 'z')
    ensures LowerChar(LowerChar(c)) == LowerChar(c) && !('A' <= LowerChar(c) <= 'Z')
    ensures Upper(LowerChar(c)) == Upper(c) && LowerChar(Upper(c)) == LowerChar(c)
  {
  }

  /** ToLowerInvariant keeps a string equal to itself under the case-insensitive comparison. */
  lemma LowerEqualsIgnoreCase(s: string)
    ensures EqualsIgnoreCase(Lower(s), s)
  {
    LowerChars(s);
    forall k | 0 <= k < |s|
      ensures Upper(Lower(s)[k]) == Upper(s[k])
    {
      FoldsAgree(s[k]);
    }
  }

  /** Ordinal equality after folding case. */
  predicate EqualsIgnoreCase(a: string, b: string)
  {
    |a| == |b| && forall k :: 0 <= k < |a| ==> Upper(a[k]) == Upper(b[k])
  }

  /** Against a character that is not an upper-case letter, the upper fold and the lower fold agree. */
  lemma FoldMatchesLower(c: char, d: char)
    requires !('A' <= d <= 'Z')
    ensures Upper(c) == Upper(d) <==> LowerChar(c) == d
  {
  }

  /**
   * Comparing ignoring case with a text that has no upper-case letter is comparing its
   * ToLowerInvariant form exactly.
   */
  lemma EqualsIgnoreCaseIffLower(s: string, t: string)
    requires forall k :: 0 <= k < |t| ==> !('A' <= t[k] <= 'Z')
    ensures EqualsIgnoreCase(s, t) <==> Lower(s) == t
  {
    LowerChars(s);
    if |s| == |t| {
      forall k | 0 <= k < |s|
        ensures Upper(s[k]) == Upper(t[k]) <==> Lower(s)[k] == t[k]
      {
        FoldMatchesLower(s[k], t[k]);
      }
      if EqualsIgnoreCase(s, t) {
        assert forall k :: 0 <= k < |s| ==> Lower(s)[k] == t[k];
      }
    }
  }

  /** `s.StartsWith(prefix, StringComparison.OrdinalIgnoreCase)`. */
  predicate StartsWithIgnoreCase(s: string, prefix: string)
  {
    |prefix| <= |s| && EqualsIgnoreCase(s[..|prefix|], prefix)
  }

  /** A literal prefix is in particular a case-insensitive prefix. */
  lemma PrefixStartsWithIgnoreCase(prefix: string, rest: string)
    ensures StartsWithIgnoreCase(prefix + rest, prefix)
  {
    assert (prefix + rest)[..|prefix|] == prefix;
  }

  /** One position where the folded characters differ rules a prefix out. */
  lemma DifferenceRulesOutPrefix(s: string, prefix: string, k: nat)
    requires k < |s| && k < |prefix| && Upper(s[k]) != Upper(prefix[k])
    ensures !StartsWithIgnoreCase(s, prefix)
  {
    if |prefix| <= |s| {
      assert s[..|prefix|][k] == s[k];
    }
  }

  /** Index of the first occurrence of `c`, or -1 (String.IndexOf(char)). */
  function IndexOf(s: string, c: char): (r: int)
    ensures -1 <= r < |s|
    ensures r == -1 <==> c !in s
    ensures r >= 0 ==> s[r] == c && c !in s[..r]
  {
    if s == [] then -1
    else if s[0] == c then 0
    else
      var i := IndexOf(s[1..], c);
      assert s[1..][..if i < 0 then 0 else i] == s[1..1 + if i < 0 then 0 else i];
      if i == -1 then -1 else 1 + i
  }

  /** Ordinal, case-sensitive substring test (String.Contains). */
  predicate Contains(s: string, sub: string)
    decreases |s|
  {
    |sub| <= |s| && (s[..|sub|] == sub || Contains(s[1..], sub))
  }

  /** The white-space characters that String.Trim and IsNullOrWhiteSpace recognise (ASCII subset). */
  predicate IsWhiteSpace(c: char)
  {
    c == ' ' || c == '\t' || c == '\n' || c == '\r' || c == '\U{B}' || c == '\U{C}'
  }

  /** `string.IsNullOrWhiteSpace` for a non-null string. */
  predicate IsBlank(s: string)
  {
    forall k :: 0 <= k < |s| ==> IsWhiteSpace(s[k])
  }

  /** String.TrimStart(): drops leading white space. */
  function TrimStart(s: string): string
  {
    if s != [] && IsWhiteSpace(s[0]) then TrimStart(s[1..]) else s
  }

  /** String.TrimEnd(): drops trailing white space. */
  function TrimEnd(s: string): string
  {
    if s != [] && IsWhiteSpace(s[|s| - 1]) then TrimEnd(s[..|s| - 1]) else s
  }

  /** String.Trim(): drops leading and trailing white space. */
  function Trim(s: string): string
  {
    TrimEnd(TrimStart(s))
  }

  /** TrimStart leaves nothing exactly from a blank string, and otherwise starts at a non-blank character. */
  lemma {:induction false} TrimStartBlank(s: string)
    ensures TrimStart(s) == [] <==> IsBlank(s)
    ensures TrimStart(s) != [] ==> !IsWhiteSpace(TrimStart(s)[0])
  {
    if s != [] && IsWhiteSpace(s[0]) {
      TrimStartBlank(s[1..]);
      assert forall k :: 0 <= k < |s[1..]| ==> s[1..][k] == s[k + 1];
      assert IsBlank(s) <==> IsBlank(s[1..]) by {
        if IsBlank(s[1..]) {
          forall k | 0 <= k < |s| ensures IsWhiteSpace(s[k]) {
            if k > 0 { assert s[k] == s[1..][k - 1]; }
          }
        }
      }
    }
  }

  /** A trimmed string is empty exactly when the original was blank. */
  lemma TrimEmptyIffBlank(s: string)
    ensures Trim(s) == [] <==> IsBlank(s)
  {
    TrimStartBlank(s);
    if TrimStart(s) != [] {
      TrimEndKeepsNonBlank(TrimStart(s));
    }
  }

  lemma {:induction false} TrimEndKeepsNonBlank(s: string)
    requires s != [] && !IsWhiteSpace(s[0])
    ensures TrimEnd(s) != []
  {
    if |s| > 1 && IsWhiteSpace(s[|s| - 1]) {
      TrimEndKeepsNonBlank(s[..|s| - 1]);
    }
  }

  predicate IsDigit(c: char) { '0' <= c <= '9' }

  function DigitChar(d: nat): (c: char)
    requires d < 10
    ensures IsDigit(c) && c as int - '0' as int == d
  {
    ('0' as int + d) as char
  }

  /** Invariant-culture rendering of a non-negative int: plain decimal digits, no sign, no grouping. */
  function NatToString(n: nat): (s: string)
    ensures s != []
    ensures forall k :: 0 <= k < |s| ==> IsDigit(s[k])
    decreases n
  {
    if n < 10 then [DigitChar(n)] else NatToString(n / 10) + [DigitChar(n % 10)]
  }

  /** Invariant-culture rendering of an int: a '-' sign for negatives, then the digits. */
  function IntToString(i: int): (s: string)
    ensures s != []
    ensures i >= 0 ==> forall k :: 0 <= k < |s| ==> IsDigit(s[k])
    ensures i < 0 ==> s[0] == '-'
  {
    if i < 0 then "-" + NatToString(-i) else NatToString(i)
  }

  function DigitValue(c: char): (d: nat)
    requires IsDigit(c)
    ensures d < 10
  {
    c as int - '0' as int
  }

  /** The value of a string of decimal digits, most significant first. */
  function DigitsValue(s: string): nat
    requires forall k :: 0 <= k < |s| ==> IsDigit(s[k])
  {
    if s == [] then 0 else DigitsValue(s[..|s| - 1]) * 10 + DigitValue(s[|s| - 1])
  }

  lemma {:induction false} DigitsValueOfNatToString(n: nat)
    ensures DigitsValue(NatToString(n)) == n
    decreases n
  {
    if n >= 10 {
      var s := NatToString(n);
      assert s[..|s| - 1] == NatToString(n / 10);
      DigitsValueOfNatToString(n / 10);
    }
  }

  const MinInt32: int := -0x8000_0000
  const MaxInt32: int := 0x7FFF_FFFF

  predicate IsInt32(i: int) { MinInt32 <= i <= MaxInt32 }

  predicate AllDigits(s: string) { forall k :: 0 <= k < |s| ==> IsDigit(s[k]) }

  /**
   * int.TryParse / int.Parse on an optionally signed string of decimal digits:
   * None is a FormatException (or a false TryParse), and so is a value outside the
   * 32-bit range (OverflowException).
   */
  function ParseInt(s: string): (r: Option<int>)
    ensures r.Some? ==> IsInt32(r.value)
    ensures s == [] ==> r == None
  {
    var negative := s != [] && s[0] == '-';
    var digits := if s != [] && (s[0] == '-' || s[0] == '+') then s[1..] else s;
    if digits == [] || !AllDigits(digits) then None
    else
      var v: int := if negative then 0 - DigitsValue(digits) else DigitsValue(digits);
      if IsInt32(v) then Some(v) else None
  }

  /** Formatting an int and parsing it back is the identity on the 32-bit range. */
  lemma ParseIntOfIntToString(i: int)
    requires IsInt32(i)
    ensures ParseInt(IntToString(i)) == Some(i)
  {
    var s := IntToString(i);
    if i < 0 {
      var d := NatToString(-i);
      assert s == "-" + d;
      assert s[0] == '-' && s[1..] == d;
      DigitsValueOfNatToString(-i);
    } else {
      assert s == NatToString(i);
      assert s[0] != '-' && s[0] != '+';
      DigitsValueOfNatToString(i);
    }
  }

  /** Number of occurrences of `c` in `s`. */
  function CountChar(s: string, c: char): nat
  {
    if s == [] then 0 else (if s[0] == c then 1 else 0) + CountChar(s[1..], c)
  }

  lemma {:induction false} CountCharAppend(a: string, b: string, c: char)
    ensures CountChar(a + b, c) == CountChar(a, c) + CountChar(b, c)
  {
    if a == [] {
      assert a + b == b;
    } else {
      assert (a + b)[1..] == a[1..] + b;
      CountCharAppend(a[1..], b, c);
    }
  }

  lemma {:induction false} CountCharAbsent(s: string, c: char)
    requires forall k :: 0 <= k < |s| ==> s[k] != c
    ensures CountChar(s, c) == 0
  {
    if s != [] {
      CountCharAbsent(s[1..], c);
    }
  }

  /** Some position both strings have holds characters that differ after folding case. */
  predicate FoldDiverge(a: string, b: string)
  {
    exists k :: 0 <= k < |a| && k < |b| && Upper(a[k]) != Upper(b[k])
  }

  /** Two characters whose codes differ by neither 0 nor 32 fold to different characters. */
  lemma UpperKeepsDistinct(c: char, d: char)
    requires c as int - d as int != 0 && c as int - d as int != 32 && d as int - c as int != 32
    ensures Upper(c) != Upper(d)
  {
  }

  /** Witness form of FoldDiverge. */
  lemma DivergeAt(a: string, b: string, k: nat)
    requires k < |a| && k < |b|
    requires a[k] as int - b[k] as int != 0 && a[k] as int - b[k] as int != 32 && b[k] as int - a[k] as int != 32
    ensures FoldDiverge(a, b)
  {
    UpperKeepsDistinct(a[k], b[k]);
  }

  /**
   * `a + value + c` where value is bracketed by `open` and `close`: it starts with
   * `a + [open]` and ends with `[close] + c`.
   */
  lemma BracketedConcat(a: string, value: string, c: string, open: char, close: char)
    requires |value| >= 2 && value[0] == open && value[|value| - 1] == close
    ensures var s := a + value + c;
            |a| + 1 <= |s| && s[..|a| + 1] == a + [open] &&
            s[|s| - |c| - 1..] == [close] + c
  {
    var s := a + value + c;
    assert s[..|a| + 1] == a + [open] by {
      assert forall k :: 0 <= k < |a| ==> s[k] == a[k];
      assert s[|a|] == value[0];
    }
    assert s[|s| - |c| - 1..] == [close] + c by {
      assert s[|s| - |c| - 1] == value[|value| - 1];
      assert forall k :: 0 <= k < |c| ==> s[|s| - |c| + k] == c[k];
    }
  }
}
