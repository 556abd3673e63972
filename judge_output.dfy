/** The bounded token reader `read` and the offline output parser `parse_output`. */
module JudgeOutput {
  import opened Text
  import opened JudgeInput

  /** The judge's failures; `Message` gives the exact text the source reports. */
  datatype Error =
    | UnexpectedEof
    | ParseError(token: string)
    | OutOfRange(value: usize)
    | LineCountNotN
    | TooManyOutput(line: string)
    | Terminated

  datatype Result<T> = Ok(value: T) | Err(error: Error)

  function Message(e: Error): string
  {
    match e
    case UnexpectedEof => "Unexpected EOF"
    case ParseError(token) => "Parse error: " + token
    case OutOfRange(v) => "Out of range: " + NatToString(v)
    case LineCountNotN => "Number of lines in output is not N"
    case TooManyOutput(line) => "Too many output: " + line
    case Terminated => "Your program has terminated unexpectedly"
  }

  /** The first character of each failure's text. */
  function Initial(e: Error): char
  {
    match e
    case UnexpectedEof => 'U'
    case ParseError(_) => 'P'
    case OutOfRange(_) => 'O'
    case LineCountNotN => 'N'
    case TooManyOutput(_) => 'T'
    case Terminated => 'Y'
  }

  lemma MessageInitial(e: Error)
    ensures |Message(e)| > 0 && Message(e)[0] == Initial(e)
  {
  }

  /** Each failure has its own text: the message tells which failure it was and, for
      a token, a value or a line, which one. */
  lemma MessageDetermines(e1: Error, e2: Error)
    requires Message(e1) == Message(e2)
    ensures e1 == e2
  {
    var m := Message(e1);
    MessageInitial(e1);
    MessageInitial(e2);
    if e1.ParseError? && e2.ParseError? {
      assert e1.token == m[13..] == e2.token;
    } else if e1.TooManyOutput? && e2.TooManyOutput? {
      assert e1.line == m[17..] == e2.line;
    } else if e1.OutOfRange? && e2.OutOfRange? {
      assert NatToString(e1.value) == m[14..] == NatToString(e2.value);
      DigitsValueOfNatToString(e1.value);
      DigitsValueOfNatToString(e2.value);
    }
  }

  /** A successor pair `(a, b)`: where to go after an odd, resp. even, visit. */
  type Pair = (usize, usize)

  /** A successor table for `n` positions: `n` pairs, every component in `[0, n-1]`. */
  predicate ValidTable(n: nat, out: seq<Pair>)
  {
    |out| == n && forall i :: 0 <= i < |out| ==> out[i].0 < n && out[i].1 < n
  }

  /** `read(token, lb, ub)` at `T = usize`. */
  function Read(token: Option<string>, lb: usize, ub: usize): (r: Result<usize>)
    ensures r.Ok? <==> token.Some? && ParseUsize(token.value).Some?
                       && lb <= ParseUsize(token.value).value <= ub
    ensures r.Ok? ==> r.value == ParseUsize(token.value).value
    ensures token.None? ==> r == Err(UnexpectedEof)
    ensures token.Some? && ParseUsize(token.value).None? ==> r == Err(ParseError(token.value))
    ensures token.Some? && ParseUsize(token.value).Some? && !r.Ok?
            ==> r == Err(OutOfRange(ParseUsize(token.value).value))
  {
    match token
    case None => Err(UnexpectedEof)
    case Some(v) =>
      match ParseUsize(v)
      case Some(x) => if x < lb || ub < x then Err(OutOfRange(x)) else Ok(x)
      case None => Err(ParseError(v))
  }

  /** `iter.next()` on a token sequence positioned at `i`. */
  function TokenAt(toks: seq<string>, i: nat): (r: Option<string>)
    ensures r.Some? <==> i < |toks|
    ensures r.Some? ==> r.value == toks[i]
  {
    if i < |toks| then Some(toks[i]) else None
  }

  /** A token `read` accepts for positions `0..ub`. */
  predicate Accepted(tok: string, ub: usize)
  {
    Read(Some(tok), 0, ub).Ok?
  }

  /** The value of an accepted token. */
  function ValueOf(tok: string, ub: usize): usize
    requires Accepted(tok, ub)
  {
    Read(Some(tok), 0, ub).value
  }

  /** A token reader: `read` with its bounds fixed; like `read`, it reports a missing
      token as an unexpected end of input. */
  type Reader = rd: Option<string> -> Result<usize> | rd(None) == Err(UnexpectedEof)
    witness (tok: Option<string>) => Err(UnexpectedEof)

  /** `read(_, 0, ub)`, the reader of `parse_output`. */
  function ReadTo(ub: usize): Reader
  {
    tok => Read(tok, 0, ub)
  }

  /** The `while tokens.peek().is_some()` loop of `parse_output` with reader `rd`: two
      reads per round, stopping at the first error. */
  function Pairs(rd: Reader, toks: seq<string>): (r: Result<seq<Pair>>)
    ensures r.Ok? ==> 2 * |r.value| == |toks|
    decreases |toks|
  {
    if |toks| == 0 then Ok([])
    else match rd(Some(toks[0]))
      case Err(e) => Err(e)
      case Ok(a) =>
        match rd(TokenAt(toks, 1))
        case Err(e) => Err(e)
        case Ok(b) =>
          Prefixed([(a, b)], Pairs(rd, toks[2..]))
  }

  /** The loop of `parse_output`, reading positions `0..ub`. */
  function ParsePairs(ub: usize, toks: seq<string>): (r: Result<seq<Pair>>)
    ensures r.Ok? ==> 2 * |r.value| == |toks|
  {
    Pairs(ReadTo(ub), toks)
  }

  /** `pre` in front of a successful parse; an error passes through. */
  function Prefixed(pre: seq<Pair>, r: Result<seq<Pair>>): (p: Result<seq<Pair>>)
    ensures p.Ok? <==> r.Ok?
    ensures p.Ok? ==> p.value == pre + r.value
  {
    match r
    case Err(e) => Err(e)
    case Ok(rest) => Ok(pre + rest)
  }

  /** Pair `k` of a stream is pair `k - 1` of the stream after its first pair. */
  lemma PairShift<T>(toks: seq<T>, k: nat)
    requires 0 < k && 2 * k + 1 < |toks|
    ensures toks[2 * k] == toks[2..][2 * (k - 1)] && toks[2 * k + 1] == toks[2..][2 * (k - 1) + 1]
  {
  }

  /** On success every token was read and the `k`-th pair holds tokens `2k` and `2k+1`. */
  lemma {:induction false} PairsValues(rd: Reader, toks: seq<string>)
    requires Pairs(rd, toks).Ok?
    ensures forall i :: 0 <= i < |toks| ==> rd(Some(toks[i])).Ok?
    ensures var out := Pairs(rd, toks).value;
            forall k :: 0 <= k < |out| ==>
              out[k] == (rd(Some(toks[2 * k])).value, rd(Some(toks[2 * k + 1])).value)
    decreases |toks|
  {
    if |toks| > 0 {
      var tail := toks[2..];
      var a := rd(Some(toks[0]));
      var b := rd(TokenAt(toks, 1));
      assert a.Ok? && b.Ok? && |toks| >= 2;
      assert TokenAt(toks, 1) == Some(toks[1]);
      var rest := Pairs(rd, tail);
      assert rest.Ok?;
      PairsValues(rd, tail);
      var out := Pairs(rd, toks).value;
      assert out == [(a.value, b.value)] + rest.value;
      forall k | 0 <= k < |out|
        ensures out[k] == (rd(Some(toks[2 * k])).value, rd(Some(toks[2 * k + 1])).value)
      {
        if k > 0 {
          assert out[k] == rest.value[k - 1];
          PairShift(toks, k);
        }
      }
      forall i | 0 <= i < |toks| ensures rd(Some(toks[i])).Ok? {
        if i >= 2 {
          assert toks[i] == tail[i - 2];
        }
      }
    }
  }

  /** On success every token was accepted and the `k`-th pair holds the values of tokens
      `2k` and `2k+1`, both within `0..ub`. */
  lemma ParsePairsValues(ub: usize, toks: seq<string>)
    requires ParsePairs(ub, toks).Ok?
    ensures forall i :: 0 <= i < |toks| ==> Accepted(toks[i], ub)
    ensures var out := ParsePairs(ub, toks).value;
            forall k :: 0 <= k < |out| ==>
              out[k].0 <= ub && out[k].1 <= ub
              && out[k] == (ValueOf(toks[2 * k], ub), ValueOf(toks[2 * k + 1], ub))
  {
    PairsValues(ReadTo(ub), toks);
  }

  datatype Output = Output(out: seq<Pair>)

  /** `parse_output` on the tokens of the contestant's output. The bound `n - 1` is only
      evaluated once a token is present, so `n = 0` is allowed with no tokens (and then
      any bound gives the empty loop). */
  function ParseOutputSpec(n: usize, toks: seq<string>): (r: Result<Output>)
    requires n >= 1 || |toks| == 0
  {
    match ParsePairs(if n == 0 then 0 else n - 1, toks)
    case Err(e) => Err(e)
    case Ok(out) => if |out| != n then Err(LineCountNotN) else Ok(Output(out))
  }

  /** One round of the loop, on the tokens not yet consumed. */
  lemma PairsRound(rd: Reader, s: seq<string>, out: seq<Pair>)
    requires |s| > 0
    ensures var a := rd(Some(s[0]));
            a.Err? ==> Prefixed(out, Pairs(rd, s)) == Err(a.error)
    ensures var a := rd(Some(s[0]));
            var b := rd(TokenAt(s, 1));
            a.Ok? && b.Err? ==> Prefixed(out, Pairs(rd, s)) == Err(b.error)
    ensures var a := rd(Some(s[0]));
            var b := rd(TokenAt(s, 1));
            a.Ok? && b.Ok? ==>
              |s| >= 2 &&
              Prefixed(out, Pairs(rd, s)) == Prefixed(out + [(a.value, b.value)], Pairs(rd, s[2..]))
  {
    var a := rd(Some(s[0]));
    var b := rd(TokenAt(s, 1));
    if a.Ok? && b.Ok? {
      var rest := Pairs(rd, s[2..]);
      if rest.Ok? {
        assert out + ([(a.value, b.value)] + rest.value) == out + [(a.value, b.value)] + rest.value;
      }
    }
  }

  /** `PairsRound` for `parse_output`'s reader, at position `i` of the whole stream. */
  lemma ParsePairsRoundAt(ub: usize, toks: seq<string>, i: nat, out: seq<Pair>)
    requires i < |toks|
    ensures var a := Read(TokenAt(toks, i), 0, ub);
            a.Err? ==> Prefixed(out, ParsePairs(ub, toks[i..])) == Err(a.error)
    ensures var a := Read(TokenAt(toks, i), 0, ub);
            var b := Read(TokenAt(toks, i + 1), 0, ub);
            a.Ok? && b.Err? ==> Prefixed(out, ParsePairs(ub, toks[i..])) == Err(b.error)
    ensures var a := Read(TokenAt(toks, i), 0, ub);
            var b := Read(TokenAt(toks, i + 1), 0, ub);
            a.Ok? && b.Ok? ==>
              i + 2 <= |toks| &&
              Prefixed(out, ParsePairs(ub, toks[i..])) == Prefixed(out + [(a.value, b.value)], ParsePairs(ub, toks[i + 2..]))
  {
    var s := toks[i..];
    assert s[0] == toks[i];
    assert TokenAt(s, 1) == TokenAt(toks, i + 1);
    PairsRound(ReadTo(ub), s, out);
    if i + 2 <= |toks| {
      assert s[2..] == toks[i + 2..];
    }
  }

  /** The `while tokens.peek().is_some()` loop of `parse_output`: two `read`s per
      round, pushing the pair into `out`; the first failing `read` ends it. */
  method ReadPairs(n: usize, toks: seq<string>) returns (r: Result<seq<Pair>>)
    requires n >= 1 || |toks| == 0
    ensures r == ParsePairs(if n == 0 then 0 else n - 1, toks)
  {
    ghost var ub := if n == 0 then 0 else n - 1;
    var out: seq<Pair> := [];
    var i := 0;
    assert toks[0..] == toks;
    ghost var whole := ParsePairs(ub, toks);
    assert whole.Ok? ==> [] + whole.value == whole.value;
    while i < |toks|
      invariant 0 <= i <= |toks|
      invariant whole == Prefixed(out, ParsePairs(ub, toks[i..]))
      decreases |toks| - i
    {
      ParsePairsRoundAt(ub, toks, i, out);
      var a := Read(TokenAt(toks, i), 0, n - 1);
      if a.Err? {
        return Err(a.error);
      }
      var b := Read(TokenAt(toks, i + 1), 0, n - 1);
      if b.Err? {
        return Err(b.error);
      }
      out := out + [(a.value, b.value)];
      i := i + 2;
    }
    assert toks[i..] == [];
    assert out + [] == out;
    return Ok(out);
  }

  /** `parse_output(input, f)`: the pair loop over the tokens of `f`, then the check
      that there is one pair per position. */
  method ParseOutput(input: Input, f: string) returns (r: Result<Output>)
    requires input.n >= 1 || |Tokens(f)| == 0
    ensures r == ParseOutputSpec(input.n, Tokens(f))
  {
    r := ParseOutputTokens(input.n, Tokens(f));
  }

  /** The body of `parse_output` on the token stream: the pair loop, then the check
      that there is one pair per position. */
  method ParseOutputTokens(n: usize, toks: seq<string>) returns (r: Result<Output>)
    requires n >= 1 || |toks| == 0
    ensures r == ParseOutputSpec(n, toks)
  {
    var pairs := ReadPairs(n, toks);
    if pairs.Err? {
      return Err(pairs.error);
    }
    if |pairs.value| != n {
      return Err(LineCountNotN);
    }
    return Ok(Output(pairs.value));
  }

  /** `parse_output` succeeds exactly when the stream is `2n` accepted tokens, and the
      pairs are then the tokens' values, two by two, as a valid successor table: every
      token is consumed. */
  lemma ParseOutputOkIff(n: usize, toks: seq<string>)
    requires n >= 1
    ensures ParseOutputSpec(n, toks).Ok? <==>
            |toks| == 2 * n && forall i :: 0 <= i < |toks| ==> Accepted(toks[i], n - 1)
    ensures ParseOutputSpec(n, toks).Ok? ==>
            var out := ParseOutputSpec(n, toks).value.out;
            ValidTable(n, out) && |toks| == 2 * |out|
            && forall k :: 0 <= k < n ==> out[k] == (ValueOf(toks[2 * k], n - 1), ValueOf(toks[2 * k + 1], n - 1))
  {
    if |toks| == 2 * n && forall i :: 0 <= i < |toks| ==> Accepted(toks[i], n - 1) {
      AllReadPairs(ReadTo(n - 1), toks);
    }
    if ParsePairs(n - 1, toks).Ok? {
      ParsePairsValues(n - 1, toks);
    }
  }

  lemma {:induction false} AllReadPairs(rd: Reader, toks: seq<string>)
    requires |toks| % 2 == 0
    requires forall i :: 0 <= i < |toks| ==> rd(Some(toks[i])).Ok?
    ensures Pairs(rd, toks).Ok?
    decreases |toks|
  {
    if |toks| > 0 {
      AllReadPairs(rd, toks[2..]);
    }
  }

  /** A bad token aborts the loop with the reader's error for it, when every earlier
      token was read. */
  lemma {:induction false} PairsFirstBadToken(rd: Reader, toks: seq<string>, i: nat)
    requires i < |toks| && rd(Some(toks[i])).Err?
    requires forall j :: 0 <= j < i ==> rd(Some(toks[j])).Ok?
    ensures Pairs(rd, toks) == Err(rd(Some(toks[i])).error)
    decreases |toks|
  {
    if i >= 2 {
      PairsFirstBadToken(rd, toks[2..], i - 2);
    }
  }

  /** An odd number of read tokens fails on the second read of the last round. */
  lemma {:induction false} PairsOddCount(rd: Reader, toks: seq<string>)
    requires |toks| % 2 == 1
    requires forall i :: 0 <= i < |toks| ==> rd(Some(toks[i])).Ok?
    ensures Pairs(rd, toks) == Err(UnexpectedEof)
    decreases |toks|
  {
    if |toks| > 1 {
      PairsOddCount(rd, toks[2..]);
    }
  }

  /** `parse_output` aborts at the first rejected token, with `read`'s error for it. */
  lemma ParseOutputFirstBadToken(n: usize, toks: seq<string>, i: nat)
    requires n >= 1
    requires i < |toks| && !Accepted(toks[i], n - 1)
    requires forall j :: 0 <= j < i ==> Accepted(toks[j], n - 1)
    ensures ParseOutputSpec(n, toks) == Err(Read(Some(toks[i]), 0, n - 1).error)
  {
    PairsFirstBadToken(ReadTo(n - 1), toks, i);
  }

  /** An odd number of accepted tokens: the missing last component is an unexpected EOF. */
  lemma ParseOutputOddCount(n: usize, toks: seq<string>)
    requires n >= 1
    requires forall i :: 0 <= i < |toks| ==> Accepted(toks[i], n - 1)
    requires |toks| % 2 == 1
    ensures ParseOutputSpec(n, toks) == Err(UnexpectedEof)
  {
    PairsOddCount(ReadTo(n - 1), toks);
  }

  /** Complete pairs, all accepted, but too many or too few of them. */
  lemma ParseOutputWrongCount(n: usize, toks: seq<string>)
    requires n >= 1
    requires forall i :: 0 <= i < |toks| ==> Accepted(toks[i], n - 1)
    requires |toks| % 2 == 0 && |toks| != 2 * n
    ensures ParseOutputSpec(n, toks) == Err(LineCountNotN)
  {
    AllReadPairs(ReadTo(n - 1), toks);
  }

  /** `read` on a position written in decimal, with or without a `+`: accepted exactly
      when it is at most `ub`, otherwise an out-of-range error carrying the value. */
  lemma ReadDecimal(v: usize, ub: usize)
    ensures Read(Some(NatToString(v)), 0, ub) == if v <= ub then Ok(v) else Err(OutOfRange(v))
    ensures Read(Some("+" + NatToString(v)), 0, ub) == if v <= ub then Ok(v) else Err(OutOfRange(v))
  {
    ParseUsizeOfNatToString(v);
  }
}
