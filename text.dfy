/** Character classes, whitespace tokenising and decimal conversion, as the judge's
    standard-library calls behave: `char::is_whitespace`, `str::split_whitespace`,
    `str::trim`, `usize`'s `Display` and `usize`'s `FromStr`. */
module Text {

  datatype Option<T> = None | Some(value: T)

  /** The largest value of a 64-bit `usize`. */
  const USIZE_MAX: int := 0xFFFF_FFFF_FFFF_FFFF

  type usize = x: int | 0 <= x <= USIZE_MAX

  /** The characters with the Unicode White_Space property, as inclusive ranges in
      increasing order. */
  const WHITE_SPACE: seq<(char, char)> :=
    [('\t', '\r'), (' ', ' '), ('\U{85}', '\U{85}'), ('\U{A0}', '\U{A0}'),
     ('\U{1680}', '\U{1680}'), ('\U{2000}', '\U{200A}'), ('\U{2028}', '\U{2029}'),
     ('\U{202F}', '\U{202F}'), ('\U{205F}', '\U{205F}'), ('\U{3000}', '\U{3000}')]

  predicate InRanges(c: char, ranges: seq<(char, char)>)
  {
    |ranges| > 0 && ((ranges[0].0 <= c <= ranges[0].1) || InRanges(c, ranges[1..]))
  }

  /** Rust's `char::is_whitespace`: the Unicode White_Space property. */
  predicate IsWhitespace(c: char)
  {
    InRanges(c, WHITE_SPACE)
  }

  /** A character below every range is in none of them. */
  lemma {:induction false} BelowRanges(c: char, ranges: seq<(char, char)>)
    requires forall i :: 0 <= i < |ranges| ==> c < ranges[i].0
    ensures !InRanges(c, ranges)
    decreases |ranges|
  {
    if |ranges| > 0 {
      BelowRanges(c, ranges[1..]);
    }
  }

  /** The separators `Display` writes are whitespace. */
  lemma SeparatorsAreWhitespace()
    ensures IsWhitespace(' ') && IsWhitespace('\n')
  {
    assert WHITE_SPACE[1..][0] == (' ', ' ');
  }

  /** Decimal digits are not whitespace. */
  lemma DigitIsNotWhitespace(c: char)
    requires IsDigit(c)
    ensures !IsWhitespace(c)
  {
    var tail := WHITE_SPACE[1..];
    var rest := WHITE_SPACE[2..];
    assert tail[0] == (' ', ' ') && tail[1..] == rest;
    BelowRanges(c, rest);
    assert !InRanges(c, tail);
  }

  /** A non-empty string of digits is a token. */
  lemma DigitsAreWord(s: string)
    requires |s| > 0 && AllDigits(s)
    ensures IsWord(s)
  {
    forall i | 0 <= i < |s| ensures !IsWhitespace(s[i]) {
      DigitIsNotWhitespace(s[i]);
    }
  }

  predicate IsDigit(c: char)
  {
    '0' <= c <= '9'
  }

  predicate AllDigits(s: string)
  {
    forall i :: 0 <= i < |s| ==> IsDigit(s[i])
  }

  /** A token: a non-empty run of non-whitespace characters. */
  predicate IsWord(w: string)
  {
    |w| > 0 && forall i :: 0 <= i < |w| ==> !IsWhitespace(w[i])
  }

  /** Length of the leading run of non-whitespace characters of `s`. */
  function WordLength(s: string): (k: nat)
    ensures k <= |s|
    ensures forall i :: 0 <= i < k ==> !IsWhitespace(s[i])
    ensures k < |s| ==> IsWhitespace(s[k])
  {
    if |s| == 0 || IsWhitespace(s[0]) then 0 else 1 + WordLength(s[1..])
  }

  /** `s.split_whitespace()`: the maximal runs of non-whitespace characters, in order. */
  function Tokens(s: string): seq<string>
    decreases |s|
  {
    if |s| == 0 then []
    else if IsWhitespace(s[0]) then Tokens(s[1..])
    else
      var k := WordLength(s);
      [s[..k]] + Tokens(s[k..])
  }

  /** Every token is a word. */
  lemma {:induction false} TokensAreWords(s: string)
    ensures forall i :: 0 <= i < |Tokens(s)| ==> IsWord(Tokens(s)[i])
    decreases |s|
  {
    if |s| > 0 {
      if IsWhitespace(s[0]) {
        TokensAreWords(s[1..]);
      } else {
        var k := WordLength(s);
        TokensAreWords(s[k..]);
        assert Tokens(s) == [s[..k]] + Tokens(s[k..]);
      }
    }
  }

  /** `s.trim()`: drop leading and trailing whitespace. */
  function TrimStart(s: string): string
  {
    if |s| > 0 && IsWhitespace(s[0]) then TrimStart(s[1..]) else s
  }

  function TrimEnd(s: string): string
  {
    if |s| > 0 && IsWhitespace(s[|s| - 1]) then TrimEnd(s[..|s| - 1]) else s
  }

  function Trim(s: string): string
  {
    TrimEnd(TrimStart(s))
  }

  /** Trimming removes no character other than whitespace at either end. */
  lemma {:induction false} TrimStartDrops(s: string)
    ensures var t := TrimStart(s);
            |t| <= |s| && t == s[|s| - |t|..]
            && (|t| > 0 ==> !IsWhitespace(t[0]))
            && forall i :: 0 <= i < |s| - |t| ==> IsWhitespace(s[i])
    decreases |s|
  {
    if |s| > 0 && IsWhitespace(s[0]) {
      TrimStartDrops(s[1..]);
      var t := TrimStart(s);
      forall i | 1 <= i < |s| - |t| ensures IsWhitespace(s[i]) {
        assert s[i] == s[1..][i - 1];
      }
    }
  }

  lemma {:induction false} TrimEndDrops(s: string)
    ensures var t := TrimEnd(s);
            |t| <= |s| && t == s[..|t|]
            && (|t| > 0 ==> !IsWhitespace(t[|t| - 1]))
            && forall i :: |t| <= i < |s| ==> IsWhitespace(s[i])
    decreases |s|
  {
    if |s| > 0 && IsWhitespace(s[|s| - 1]) {
      var u := s[..|s| - 1];
      TrimEndDrops(u);
      var t := TrimEnd(s);
      forall i | |t| <= i < |s| - 1 ensures IsWhitespace(s[i]) {
        assert s[i] == u[i];
      }
    }
  }

  /** A text that neither starts nor ends with whitespace is its own trim. */
  lemma TrimOfTrimmed(s: string)
    requires |s| > 0 && !IsWhitespace(s[0]) && !IsWhitespace(s[|s| - 1])
    ensures Trim(s) == s
  {
  }

  function DigitChar(d: int): (c: char)
    requires 0 <= d < 10
    ensures IsDigit(c) && (c as int) - ('0' as int) == d
  {
    ((('0' as int) + d) as char)
  }

  /** `usize`'s `Display`: decimal without sign or leading zeros. */
  function NatToString(k: nat): (s: string)
    ensures |s| > 0 && AllDigits(s)
  {
    if k < 10 then [DigitChar(k)] else NatToString(k / 10) + [DigitChar(k % 10)]
  }

  /** The value of a string of decimal digits (leading zeros allowed). */
  function DigitsValue(s: string): nat
    requires AllDigits(s)
  {
    if |s| == 0 then 0
    else 10 * DigitsValue(s[..|s| - 1]) + ((s[|s| - 1] as int) - ('0' as int))
  }

  /** `s.parse::<usize>()`: an optional `+`, then at least one decimal digit, and a
      value that fits in 64 bits; `None` stands for the `ParseIntError`. */
  function ParseUsize(s: string): (r: Option<usize>)
  {
    var digits := if |s| > 0 && s[0] == '+' then s[1..] else s;
    if |digits| == 0 || !AllDigits(digits) then None
    else if DigitsValue(digits) <= USIZE_MAX then Some(DigitsValue(digits))
    else None
  }

  lemma {:induction false} DigitsValueOfNatToString(k: nat)
    ensures DigitsValue(NatToString(k)) == k
  {
    if k >= 10 {
      var s := NatToString(k);
      assert s[..|s| - 1] == NatToString(k / 10);
      DigitsValueOfNatToString(k / 10);
    }
  }

  /** Parsing inverts formatting, and a leading `+` is accepted. */
  lemma ParseUsizeOfNatToString(k: usize)
    ensures ParseUsize(NatToString(k)) == Some(k)
    ensures ParseUsize("+" + NatToString(k)) == Some(k)
  {
    DigitsValueOfNatToString(k);
    var s := NatToString(k);
    assert ("+" + s)[1..] == s;
  }

  /** What is never a `usize`: the empty token, a bare sign, any minus sign in front,
      and any token holding a non-digit after the optional `+`. */
  lemma ParseUsizeRejects(s: string)
    ensures |s| == 0 ==> ParseUsize(s).None?
    ensures s == "+" || s == "-" ==> ParseUsize(s).None?
    ensures |s| > 0 && s[0] == '-' ==> ParseUsize(s).None?
    ensures (exists i :: 1 <= i < |s| && !IsDigit(s[i])) ==> ParseUsize(s).None?
  {
    if |s| > 0 && s[0] == '+' {
      assert forall i :: 1 <= i < |s| ==> s[1..][i - 1] == s[i];
    }
  }

  /** On a nonempty run of digits, with or without a leading `+`: the value when it
      fits in 64 bits, and the overflow error when it does not. */
  lemma ParseUsizeOfDigits(d: string)
    requires |d| > 0 && AllDigits(d)
    ensures ParseUsize(d) == (if DigitsValue(d) <= USIZE_MAX then Some(DigitsValue(d)) else None)
    ensures ParseUsize("+" + d) == ParseUsize(d)
  {
    assert ("+" + d)[1..] == d;
  }

  /** Leading zeros do not change the value. */
  lemma {:induction false} DigitsValueLeadingZero(d: string)
    requires AllDigits(d)
    ensures AllDigits("0" + d) && DigitsValue("0" + d) == DigitsValue(d)
    decreases |d|
  {
    if |d| > 0 {
      var z := "0" + d;
      assert z[..|z| - 1] == "0" + d[..|d| - 1];
      DigitsValueLeadingZero(d[..|d| - 1]);
    }
  }

  /** A leading zero is accepted and ignored: `"007"` parses as `7`. */
  lemma ParseUsizeLeadingZero(d: string)
    requires |d| > 0 && AllDigits(d)
    ensures ParseUsize("0" + d) == ParseUsize(d)
  {
    DigitsValueLeadingZero(d);
  }

  lemma {:induction false} WordLengthOfWord(w: string, rest: string)
    requires IsWord(w)
    requires |rest| == 0 || IsWhitespace(rest[0])
    ensures WordLength(w + rest) == |w|
    decreases |w|
  {
    if |w| > 1 {
      assert (w + rest)[1..] == w[1..] + rest;
      WordLengthOfWord(w[1..], rest);
    }
  }

  /** A single word tokenises to itself. */
  lemma TokensOfWord(w: string)
    requires IsWord(w)
    ensures Tokens(w) == [w]
  {
    WordLengthOfWord(w, "");
    assert w + "" == w;
  }

  lemma {:induction false} WordLengthBeforeSeparator(a: string, c: char, b: string)
    requires IsWhitespace(c)
    ensures WordLength(a + [c] + b) == WordLength(a)
    decreases |a|
  {
    if |a| > 0 && !IsWhitespace(a[0]) {
      assert (a + [c] + b)[1..] == a[1..] + [c] + b;
      WordLengthBeforeSeparator(a[1..], c, b);
    }
  }

  /** Tokenising splits at any whitespace character: the tokens of `a`, a whitespace
      character, then `b` are those of `a` followed by those of `b`. */
  lemma {:induction false} TokensAroundSeparator(a: string, c: char, b: string)
    requires IsWhitespace(c)
    ensures Tokens(a + [c] + b) == Tokens(a) + Tokens(b)
    decreases |a|
  {
    var s := a + [c] + b;
    if |a| == 0 {
      assert s[1..] == b;
    } else if IsWhitespace(a[0]) {
      assert s[1..] == a[1..] + [c] + b;
      TokensAroundSeparator(a[1..], c, b);
    } else {
      WordLengthBeforeSeparator(a, c, b);
      var k := WordLength(a);
      assert s[..k] == a[..k];
      assert s[k..] == a[k..] + [c] + b;
      TokensAroundSeparator(a[k..], c, b);
    }
  }
}
