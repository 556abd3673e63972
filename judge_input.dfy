/** The problem instance and its two-line text form (`Input`, its `Display`, `parse_input`). */
module JudgeInput {
  import opened Text

  /** `n` positions, `l` simulation steps, the target visit count of each position. */
  datatype Input = Input(n: usize, l: usize, t: seq<usize>)

  /** The shape every instance has: one target per position. */
  predicate WellFormed(x: Input)
  {
    |x.t| == x.n
  }

  /** `t.iter().join(" ")`. */
  function Join(t: seq<usize>): string
  {
    if |t| == 0 then ""
    else if |t| == 1 then NatToString(t[0])
    else NatToString(t[0]) + " " + Join(t[1..])
  }

  /** The first line `"{n} {l}"`, without its newline. */
  function HeaderLine(x: Input): string
  {
    NatToString(x.n) + " " + NatToString(x.l)
  }

  /** The second line, the targets separated by single spaces, without its newline. */
  function TargetLine(x: Input): string
  {
    Join(x.t)
  }

  /** `Display for Input`: both lines, each ended by a newline. */
  function Format(x: Input): string
  {
    HeaderLine(x) + "\n" + TargetLine(x) + "\n"
  }

  /** Read `k` values, in order; `None` where `input!` would panic. */
  function ParseValues(toks: seq<string>): (r: Option<seq<usize>>)
    ensures r.Some? ==> |r.value| == |toks|
  {
    if |toks| == 0 then Some([])
    else match (ParseUsize(toks[0]), ParseValues(toks[1..]))
      case (Some(v), Some(vs)) => Some([v] + vs)
      case _ => None
  }

  /** `parse_input`: `n`, then `l`, then `n` targets, as whitespace-separated tokens.
      `None` stands for the panic of `input!` on a missing or malformed token; tokens
      after the last target are not looked at. */
  function ParseInput(f: string): (r: Option<Input>)
    ensures r.Some? ==> WellFormed(r.value)
  {
    var toks := Tokens(f);
    if |toks| < 2 then None
    else match (ParseUsize(toks[0]), ParseUsize(toks[1]))
      case (Some(n), Some(l)) =>
        if |toks| < 2 + n then None
        else (match ParseValues(toks[2..2 + n])
              case Some(t) => Some(Input(n, l, t))
              case None => None)
      case _ => None
  }

  function DecimalTokens(t: seq<usize>): (r: seq<string>)
    ensures |r| == |t|
  {
    seq(|t|, i requires 0 <= i < |t| => NatToString(t[i]))
  }

  lemma {:induction false} TokensOfJoin(t: seq<usize>)
    ensures Tokens(Join(t)) == DecimalTokens(t)
    decreases |t|
  {
    if |t| == 0 {
    } else if |t| == 1 {
      DigitsAreWord(NatToString(t[0]));
      TokensOfWord(NatToString(t[0]));
    } else {
      var w := NatToString(t[0]);
      SeparatorsAreWhitespace();
      DigitsAreWord(w);
      assert Join(t) == w + [' '] + Join(t[1..]);
      TokensAroundSeparator(w, ' ', Join(t[1..]));
      TokensOfWord(w);
      TokensOfJoin(t[1..]);
      assert DecimalTokens(t) == [w] + DecimalTokens(t[1..]);
    }
  }

  /** Tokenising a word followed by a whitespace character and more text. */
  lemma TokensOfWordThen(w: string, c: char, rest: string)
    requires IsWord(w) && IsWhitespace(c)
    ensures Tokens(w + [c] + rest) == [w] + Tokens(rest)
  {
    TokensAroundSeparator(w, c, rest);
    TokensOfWord(w);
  }

  lemma FormatShape(x: Input)
    ensures Format(x) == NatToString(x.n) + [' '] + (NatToString(x.l) + ['\n'] + (Join(x.t) + ['\n'] + []))
  {
  }

  /** The text `Display` writes splits into `n`, `l` and the targets, in decimal. */
  lemma FormatTokens(x: Input)
    ensures Tokens(Format(x)) == [NatToString(x.n), NatToString(x.l)] + DecimalTokens(x.t)
  {
    var j := Join(x.t);
    var empty: string := [];
    var s3 := j + ['\n'] + empty;
    var s2 := NatToString(x.l) + ['\n'] + s3;
    SeparatorsAreWhitespace();
    DigitsAreWord(NatToString(x.l));
    DigitsAreWord(NatToString(x.n));
    TokensAroundSeparator(j, '\n', empty);
    TokensOfJoin(x.t);
    assert Tokens(empty) == [];
    assert Tokens(s3) == DecimalTokens(x.t);
    TokensOfWordThen(NatToString(x.l), '\n', s3);
    assert Tokens(s2) == [NatToString(x.l)] + DecimalTokens(x.t);
    TokensOfWordThen(NatToString(x.n), ' ', s2);
    FormatShape(x);
  }

  lemma {:induction false} ParseValuesOfDecimal(t: seq<usize>)
    ensures ParseValues(DecimalTokens(t)) == Some(t)
    decreases |t|
  {
    if |t| > 0 {
      ParseUsizeOfNatToString(t[0]);
      assert DecimalTokens(t)[1..] == DecimalTokens(t[1..]);
      ParseValuesOfDecimal(t[1..]);
      assert [t[0]] + t[1..] == t;
    }
  }

  /** Reading an instance from any text whose tokens start with its decimal form. */
  lemma ParseInputOfTokens(f: string, x: Input, rest: seq<string>)
    requires WellFormed(x)
    requires Tokens(f) == [NatToString(x.n), NatToString(x.l)] + DecimalTokens(x.t) + rest
    ensures ParseInput(f) == Some(x)
  {
    var toks := Tokens(f);
    assert toks[0] == NatToString(x.n) && toks[1] == NatToString(x.l);
    ParseUsizeOfNatToString(x.n);
    ParseUsizeOfNatToString(x.l);
    assert toks[2..2 + x.n] == DecimalTokens(x.t);
    ParseValuesOfDecimal(x.t);
  }

  /** `parse_input` inverts `Display` on every well-formed instance. */
  lemma ParseInputFormat(x: Input)
    requires WellFormed(x)
    ensures ParseInput(Format(x)) == Some(x)
  {
    FormatTokens(x);
    var toks := Tokens(Format(x));
    assert toks == toks + [];
    ParseInputOfTokens(Format(x), x, []);
  }

  lemma FormatEndsInNewline(x: Input)
    ensures Format(x) == (HeaderLine(x) + "\n" + TargetLine(x)) + ['\n']
  {
  }

  /** What follows the instance's text is tokenised on its own. */
  lemma TokensAfterFormat(x: Input, extra: string)
    ensures Tokens(Format(x) + extra) == Tokens(Format(x)) + Tokens(extra)
  {
    var body := HeaderLine(x) + "\n" + TargetLine(x);
    var f := Format(x);
    var empty: string := [];
    FormatEndsInNewline(x);
    SeparatorsAreWhitespace();
    assert f + extra == body + ['\n'] + extra;
    assert f == body + ['\n'] + empty;
    TokensAroundSeparator(body, '\n', extra);
    TokensAroundSeparator(body, '\n', empty);
    assert Tokens(empty) == [];
    assert Tokens(body) + [] == Tokens(body);
  }

  /** Extra tokens after the last target do not change what is read. */
  lemma ParseInputIgnoresTrailing(x: Input, extra: string)
    requires WellFormed(x)
    ensures ParseInput(Format(x) + extra) == Some(x)
  {
    TokensAfterFormat(x, extra);
    FormatTokens(x);
    ParseInputOfTokens(Format(x) + extra, x, Tokens(extra));
  }
}
