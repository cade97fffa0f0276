/** String helpers the application relies on from the Kotlin and Java
    libraries: ASCII lower-casing, prefix and substring tests, `trim()`,
    splitting on the regular expression `\s+`, and decimal integers
    (`Long.toString`, `%02d` and reading digits back). */
module Text {
  import opened Wrappers

  // ---------------------------------------------------------------------
  // Case

  /** `Char.lowercaseChar()`, restricted to the ASCII letters. */
  function LowerChar(c: char): char {
    if 'A' <= c <= 'Z' then (c as int + 32) as char else c
  }

  /** `String.lowercase()`, character by character. */
  function Lower(s: string): (r: string)
    ensures |r| == |s|
    ensures forall i :: 0 <= i < |s| ==> r[i] == LowerChar(s[i])
  {
    seq(|s|, i requires 0 <= i < |s| => LowerChar(s[i]))
  }

  /** `a.equals(b, ignoreCase = true)` over ASCII. */
  predicate EqualsIgnoreCase(a: string, b: string) {
    Lower(a) == Lower(b)
  }

  // ---------------------------------------------------------------------
  // Prefixes and substrings

  /** `s.startsWith(p)`. */
  predicate StartsWith(s: string, p: string) {
    |p| <= |s| && s[..|p|] == p
  }

  /** `s.contains(t)`: `t` starts at some position of `s`. */
  predicate Contains(s: string, t: string)
    decreases |s|
  {
    StartsWith(s, t) || (|s| > 0 && Contains(s[1..], t))
  }

  /** `t` occurs in `s` starting at index `i`. */
  predicate OccursAt(s: string, t: string, i: int) {
    0 <= i && i + |t| <= |s| && s[i..i + |t|] == t
  }

  /** The recursive substring test agrees with the positional definition. */
  lemma {:induction false} ContainsIff(s: string, t: string)
    ensures Contains(s, t) <==> exists i :: OccursAt(s, t, i)
    decreases |s|
  {
    if StartsWith(s, t) {
      assert OccursAt(s, t, 0);
    }
    if |s| > 0 {
      ContainsIff(s[1..], t);
      if Contains(s[1..], t) {
        var i :| OccursAt(s[1..], t, i);
        assert s[1..][i..i + |t|] == s[i + 1..i + 1 + |t|];
        assert OccursAt(s, t, i + 1);
      }
      if i :| OccursAt(s, t, i) {
        if i > 0 {
          assert s[1..][i - 1..i - 1 + |t|] == s[i..i + |t|];
          assert OccursAt(s[1..], t, i - 1);
        } else {
          assert StartsWith(s, t);
        }
      }
    } else if i :| OccursAt(s, t, i) {
      assert i == 0 && |t| == 0;
      assert StartsWith(s, t);
    }
  }

  /** `s.lastIndexOf(c)`: the index of the last `c` in `s`, or -1. */
  function LastIndexOf(s: string, c: char): (r: int)
    ensures -1 <= r < |s|
    ensures r >= 0 ==> s[r] == c
    ensures forall i :: r < i < |s| ==> s[i] != c
    decreases |s|
  {
    if |s| == 0 then -1
    else if s[|s| - 1] == c then |s| - 1
    else LastIndexOf(s[..|s| - 1], c)
  }

  // ---------------------------------------------------------------------
  // Whitespace, trim() and split("\\s+")

  /** The characters matched by the regular expression class `\s`. */
  predicate IsSpace(c: char) {
    c == ' ' || c == '\t' || c == '\n' || c == '\U{0B}' || c == '\U{0C}' || c == '\r'
  }

  /** The ASCII characters `Char.isWhitespace()` accepts: `\s` and the
      four information separators U+001C..U+001F. */
  predicate IsTrimmed(c: char) {
    IsSpace(c) || '\U{1C}' <= c <= '\U{1F}'
  }

  /** The number of whitespace characters `s` starts with. */
  function LeadingTrimmed(s: string): (n: nat)
    ensures n <= |s|
    ensures forall i :: 0 <= i < n ==> IsTrimmed(s[i])
    ensures n < |s| ==> !IsTrimmed(s[n])
    decreases |s|
  {
    if |s| > 0 && IsTrimmed(s[0]) then 1 + LeadingTrimmed(s[1..]) else 0
  }

  /** The number of whitespace characters `s` ends with. */
  function TrailingTrimmed(s: string): (n: nat)
    ensures n <= |s|
    ensures forall i :: |s| - n <= i < |s| ==> IsTrimmed(s[i])
    ensures n < |s| ==> !IsTrimmed(s[|s| - n - 1])
    decreases |s|
  {
    if |s| > 0 && IsTrimmed(s[|s| - 1]) then 1 + TrailingTrimmed(s[..|s| - 1]) else 0
  }

  /** `String.trim()`: the part between the leading and the trailing
      whitespace. It is empty exactly when `s` is all whitespace. */
  function Trim(s: string): (r: string)
    ensures |r| <= |s|
    ensures |r| > 0 ==> !IsTrimmed(r[0]) && !IsTrimmed(r[|r| - 1])
    ensures |r| == 0 <==> forall i :: 0 <= i < |s| ==> IsTrimmed(s[i])
  {
    var start := LeadingTrimmed(s);
    var rest := s[start..];
    var r := rest[..|rest| - TrailingTrimmed(rest)];
    assert |rest| > 0 ==> !IsTrimmed(rest[0]);
    r
  }

  /** Length of the run of non-space characters at the start of `s`. */
  function WordLength(s: string): (n: nat)
    ensures n <= |s|
    ensures forall i :: 0 <= i < n ==> !IsSpace(s[i])
    ensures n < |s| ==> IsSpace(s[n])
    decreases |s|
  {
    if |s| > 0 && !IsSpace(s[0]) then 1 + WordLength(s[1..]) else 0
  }

  /** `s.split("\\s+".toRegex()).filter { it.isNotEmpty() }`: the maximal
      runs of non-space characters, in order. */
  function Tokens(s: string): seq<string>
    decreases |s|
  {
    if |s| == 0 then []
    else if IsSpace(s[0]) then Tokens(s[1..])
    else
      var n := WordLength(s);
      [s[..n]] + Tokens(s[n..])
  }

  /** Every token is non-empty and holds no whitespace. */
  lemma {:induction false} TokensWellFormed(s: string)
    ensures forall k :: 0 <= k < |Tokens(s)| ==>
      |Tokens(s)[k]| > 0 && forall i :: 0 <= i < |Tokens(s)[k]| ==> !IsSpace(Tokens(s)[k][i])
    decreases |s|
  {
    if |s| > 0 {
      if IsSpace(s[0]) {
        TokensWellFormed(s[1..]);
      } else {
        TokensWellFormed(s[WordLength(s)..]);
      }
    }
  }

  /** The characters of `s` that are not whitespace, in order. */
  function NonSpace(s: string): string
    decreases |s|
  {
    if |s| == 0 then [] else (if IsSpace(s[0]) then [] else [s[0]]) + NonSpace(s[1..])
  }

  /** Concatenation of a sequence of strings. */
  function Concat(ws: seq<string>): string
    decreases |ws|
  {
    if |ws| == 0 then [] else ws[0] + Concat(ws[1..])
  }

  lemma {:induction false} NonSpaceAppend(a: string, b: string)
    ensures NonSpace(a + b) == NonSpace(a) + NonSpace(b)
    decreases |a|
  {
    if |a| > 0 {
      assert (a + b)[1..] == a[1..] + b;
      NonSpaceAppend(a[1..], b);
    } else {
      assert a + b == b;
    }
  }

  lemma {:induction false} NonSpaceOfWord(w: string)
    requires forall i :: 0 <= i < |w| ==> !IsSpace(w[i])
    ensures NonSpace(w) == w
    decreases |w|
  {
    if |w| > 0 {
      NonSpaceOfWord(w[1..]);
    }
  }

  /** Splitting loses exactly the whitespace: gluing the tokens back
      together gives the input with its whitespace removed. */
  lemma {:induction false} TokensConcat(s: string)
    ensures Concat(Tokens(s)) == NonSpace(s)
    decreases |s|
  {
    if |s| > 0 {
      if IsSpace(s[0]) {
        TokensConcat(s[1..]);
      } else {
        var n := WordLength(s);
        TokensConcat(s[n..]);
        assert s == s[..n] + s[n..];
        NonSpaceAppend(s[..n], s[n..]);
        NonSpaceOfWord(s[..n]);
        assert Tokens(s)[1..] == Tokens(s[n..]);
      }
    }
  }

  /** There are no tokens exactly when the string is all whitespace. */
  lemma {:induction false} TokensEmptyIff(s: string)
    ensures Tokens(s) == [] <==> forall i :: 0 <= i < |s| ==> IsSpace(s[i])
    decreases |s|
  {
    if |s| > 0 {
      if IsSpace(s[0]) {
        TokensEmptyIff(s[1..]);
        if Tokens(s[1..]) == [] {
          forall i | 0 <= i < |s| ensures IsSpace(s[i]) {
            if i > 0 {
              assert s[i] == s[1..][i - 1];
            }
          }
        } else {
          var i :| 0 <= i < |s[1..]| && !IsSpace(s[1..][i]);
          assert !IsSpace(s[i + 1]);
        }
      }
    }
  }

  // ---------------------------------------------------------------------
  // Decimal integers

  predicate IsDigit(c: char) {
    '0' <= c <= '9'
  }

  predicate AllDigits(s: string) {
    forall i :: 0 <= i < |s| ==> IsDigit(s[i])
  }

  function DigitChar(d: nat): (c: char)
    requires d < 10
    ensures IsDigit(c)
  {
    ('0' as int + d) as char
  }

  function DigitValue(c: char): (d: nat)
    requires IsDigit(c)
    ensures d < 10
  {
    c as int - '0' as int
  }

  /** The value of a string of decimal digits, most significant first. */
  function ParseDigits(s: string): nat
    requires AllDigits(s)
    decreases |s|
  {
    if |s| == 0 then 0 else ParseDigits(s[..|s| - 1]) * 10 + DigitValue(s[|s| - 1])
  }

  /** `Long.toString()` of a non-negative number: its shortest decimal digits. */
  function NatToString(n: nat): (s: string)
    ensures |s| > 0 && AllDigits(s)
    ensures |s| > 1 ==> s[0] != '0'
    decreases n
  {
    if n < 10 then [DigitChar(n)] else NatToString(n / 10) + [DigitChar(n % 10)]
  }

  /** Reading the digits back gives the number that was written. */
  lemma {:induction false} NatToStringRoundTrip(n: nat)
    ensures ParseDigits(NatToString(n)) == n
    decreases n
  {
    if n >= 10 {
      NatToStringRoundTrip(n / 10);
      var s := NatToString(n);
      assert s[..|s| - 1] == NatToString(n / 10);
    }
  }

  /** A leading zero does not change the value of a digit string. */
  lemma {:induction false} ParseDigitsLeadingZero(s: string)
    requires AllDigits(s)
    ensures AllDigits("0" + s) && ParseDigits("0" + s) == ParseDigits(s)
    decreases |s|
  {
    if |s| > 0 {
      assert ("0" + s)[..|"0" + s| - 1] == "0" + s[..|s| - 1];
      ParseDigitsLeadingZero(s[..|s| - 1]);
    }
  }

  /** `Long.toString()` / string templates `"$n"` for any integer. */
  function IntToString(i: int): string {
    if i < 0 then "-" + NatToString(-i) else NatToString(i)
  }

  /** Java's `String.format("%02d", n)`: at least two characters, zero
      padded after the sign. A negative number already has two. */
  function Pad2(n: int): (s: string)
    ensures n >= 0 ==> |s| >= 2 && AllDigits(s) && ParseDigits(s) == n
    ensures n < 0 ==> s == IntToString(n)
  {
    if n < 0 then IntToString(n)
    else if n < 10 then
      NatToStringRoundTrip(n);
      ParseDigitsLeadingZero(NatToString(n));
      "0" + NatToString(n)
    else
      NatToStringRoundTrip(n);
      NatToString(n)
  }

  /** Length of the run of digits at the start of `s`. */
  function DigitRun(s: string): (n: nat)
    ensures n <= |s| && AllDigits(s[..n])
    ensures n < |s| ==> !IsDigit(s[n])
    decreases |s|
  {
    if |s| > 0 && IsDigit(s[0]) then
      var n := 1 + DigitRun(s[1..]);
      assert s[..n] == [s[0]] + s[1..][..n - 1];
      n
    else 0
  }

  /** Reads a non-empty run of digits; returns its value and what follows. */
  function ReadNat(s: string): (r: Option<(nat, string)>)
    ensures r.Some? ==> |r.value.1| < |s|
  {
    var n := DigitRun(s);
    if n == 0 then None else Some((ParseDigits(s[..n]), s[n..]))
  }

  /** Reads an optionally negative integer; returns its value and what follows. */
  function ReadInt(s: string): (r: Option<(int, string)>)
    ensures r.Some? ==> |r.value.1| < |s|
  {
    if |s| > 0 && s[0] == '-' then
      match ReadNat(s[1..])
      case Some((v, rest)) => var r: (int, string) := (-(v as int), rest); Some(r)
      case None => None
    else
      match ReadNat(s)
      case Some((v, rest)) => var r: (int, string) := (v, rest); Some(r)
      case None => None
  }

  /** A character that cannot continue a number. */
  predicate EndsNumber(rest: string) {
    |rest| == 0 || !IsDigit(rest[0])
  }

  lemma {:induction false} DigitRunOfDigits(digits: string, rest: string)
    requires AllDigits(digits) && EndsNumber(rest)
    ensures DigitRun(digits + rest) == |digits|
    decreases |digits|
  {
    if |digits| > 0 {
      assert (digits + rest)[1..] == digits[1..] + rest;
      DigitRunOfDigits(digits[1..], rest);
    } else {
      assert digits + rest == rest;
    }
  }

  /** A digit string followed by a non-digit is read back exactly. */
  lemma ReadNatDigits(digits: string, rest: string)
    requires |digits| > 0 && AllDigits(digits) && EndsNumber(rest)
    ensures ReadNat(digits + rest) == Some((ParseDigits(digits), rest))
  {
    DigitRunOfDigits(digits, rest);
    assert (digits + rest)[..|digits|] == digits;
    assert (digits + rest)[|digits|..] == rest;
  }

  /** Writing a non-negative integer and reading it back. */
  lemma NatToStringRead(n: nat, rest: string)
    requires EndsNumber(rest)
    ensures ReadNat(NatToString(n) + rest) == Some((n, rest))
  {
    NatToStringRoundTrip(n);
    ReadNatDigits(NatToString(n), rest);
  }

  /** One reading step of `ReadInt` after a minus sign. */
  lemma ReadIntMinus(s: string, v: nat, rest: string)
    requires |s| > 0 && s[0] == '-' && ReadNat(s[1..]) == Some((v, rest))
    ensures ReadInt(s) == Some((-(v as int), rest))
  {
  }

  /** One reading step of `ReadInt` without a sign. */
  lemma ReadIntPlain(s: string, v: nat, rest: string)
    requires |s| > 0 && s[0] != '-' && ReadNat(s) == Some((v, rest))
    ensures ReadInt(s) == Some((v as int, rest))
  {
  }

  /** A negative number is written as a minus sign and its magnitude. */
  lemma NegativeRead(i: int, rest: string)
    requires i < 0 && EndsNumber(rest)
    ensures ReadInt(IntToString(i) + rest) == Some((i, rest))
  {
    var text := "-" + (NatToString(-i) + rest);
    assert IntToString(i) + rest == text;
    assert text[1..] == NatToString(-i) + rest;
    NatToStringRead(-i, rest);
    ReadIntMinus(text, -i, rest);
  }

  /** A non-negative number is written as its digits alone. */
  lemma NonNegativeRead(i: int, rest: string)
    requires i >= 0 && EndsNumber(rest)
    ensures ReadInt(IntToString(i) + rest) == Some((i, rest))
  {
    var text := NatToString(i) + rest;
    NatToStringRead(i, rest);
    assert text[0] == NatToString(i)[0];
    ReadIntPlain(text, i, rest);
  }

  /** Writing an integer and reading it back gives the integer and the
      untouched remainder of the text. */
  lemma IntToStringRoundTrip(i: int, rest: string)
    requires EndsNumber(rest)
    ensures ReadInt(IntToString(i) + rest) == Some((i, rest))
  {
    if i < 0 {
      NegativeRead(i, rest);
    } else {
      NonNegativeRead(i, rest);
    }
  }
}
