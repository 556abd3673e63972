/** The interactive judge: `read_line` over the child's output lines and `exec`, which
    sends the instance, collects `n` answer lines and scores them. The child's output is
    the sequence of its raw lines; reading one of them is `BufRead::read_line`. */
module JudgeExec {
  import opened Text
  import opened JudgeInput
  import opened JudgeOutput
  import opened JudgeScore

  /** A line `read_line` does not count: blank once trimmed, or a `#` comment. */
  predicate Skipped(v: string)
  {
    |v| == 0 || v[0] == '#'
  }

  /** The lines `read_line` returns from a stream, trimmed, in order: every line that is
      neither blank nor a comment once trimmed. */
  function Substantive(raw: seq<string>): (r: seq<string>)
    ensures |r| <= |raw|
    ensures forall i :: 0 <= i < |r| ==> !Skipped(r[i])
  {
    if |raw| == 0 then []
    else
      var v := Trim(raw[0]);
      (if Skipped(v) then [] else [v]) + Substantive(raw[1..])
  }

  /** The body of `exec`'s loop for one line: two `read`s, then a check that nothing follows. */
  function ParseLine(n: usize, line: string): (r: Result<Pair>)
    requires n >= 1
    ensures r.Ok? ==> r.value.0 < n && r.value.1 < n
  {
    var toks := Tokens(line);
    match Read(TokenAt(toks, 0), 0, n - 1)
    case Err(e) => Err(e)
    case Ok(a) =>
      match Read(TokenAt(toks, 1), 0, n - 1)
      case Err(e) => Err(e)
      case Ok(b) => if |toks| > 2 then Err(TooManyOutput(line)) else Ok((a, b))
  }

  /** Every pair of `out` names positions below `n`. */
  predicate InBounds(n: nat, out: seq<Pair>)
  {
    forall i :: 0 <= i < |out| ==> out[i].0 < n && out[i].1 < n
  }

  /** The parsed lines in order, stopping at the first failure: `Ok` of every value when
      none failed, else the first failure. */
  function Sequenced(rs: seq<Result<Pair>>): (r: Result<seq<Pair>>)
    ensures r.Ok? ==> |r.value| == |rs|
                      && forall i :: 0 <= i < |rs| ==> rs[i] == Ok(r.value[i])
  {
    if |rs| == 0 then Ok([])
    else match Sequenced(rs[..|rs| - 1])
      case Err(e) => Err(e)
      case Ok(out) =>
        match rs[|rs| - 1]
        case Err(e) => Err(e)
        case Ok(p) => Ok(out + [p])
  }

  /** What `ParseLine` makes of each line. */
  function ParsedLines(n: usize, lines: seq<string>): (r: seq<Result<Pair>>)
    requires n >= 1 || |lines| == 0
    ensures |r| == |lines|
    ensures forall i :: 0 <= i < |r| && r[i].Ok? ==> r[i].value.0 < n && r[i].value.1 < n
  {
    seq(|lines|, i requires 0 <= i < |lines| => ParseLine(n, lines[i]))
  }

  /** `ParseLine` over the lines in order, stopping at the first that fails. */
  function ParseLines(n: usize, lines: seq<string>): (r: Result<seq<Pair>>)
    requires n >= 1 || |lines| == 0
    ensures r.Ok? ==> |r.value| == |lines| && InBounds(n, r.value)
  {
    Sequenced(ParsedLines(n, lines))
  }

  /** `n` rounds of `ParseLine` over the substantive lines; the lines may run out first
      (`Terminated`), but only once every line before their end has parsed. With `n = 0`
      no round runs, and no line is read. */
  function FromLines(n: usize, lines: seq<string>): (r: Result<seq<Pair>>)
    ensures r.Ok? ==> |r.value| == n && InBounds(n, r.value)
  {
    if |lines| < n then
      match ParseLines(n, lines)
      case Err(e) => Err(e)
      case Ok(_) => Err(Terminated)
    else ParseLines(n, lines[..n])
  }

  /** The loop of `exec` on the child's raw output lines. */
  function Answers(n: usize, raw: seq<string>): (r: Result<seq<Pair>>)
    ensures r.Ok? ==> |r.value| == n && InBounds(n, r.value)
  {
    FromLines(n, Substantive(raw))
  }

  /** What `exec` returns for a child whose output lines are `raw`. */
  function ExecSpec(input: Input, raw: seq<string>): Result<int>
    requires WellFormed(input) && (input.l > 0 ==> input.n > 0)
  {
    match Answers(input.n, raw)
    case Err(e) => Err(e)
    case Ok(out) => Ok(FinalScore(input, out))
  }

  /** Lines as `BufRead::read_line` delivers them: none holds a line break. */
  predicate NoNewlines(raw: seq<string>)
  {
    forall i :: 0 <= i < |raw| ==> '\n' !in raw[i]
  }

  /** The judge's buffered reader on the child's standard output. */
  class ChildStdout {
    const lines: seq<string>
    var cursor: nat

    predicate Valid()
      reads this
    {
      cursor <= |lines|
    }

    /** The lines not read yet. */
    function Unread(): seq<string>
      reads this
      requires Valid()
    {
      lines[cursor..]
    }

    constructor (lines: seq<string>)
      requires NoNewlines(lines)
      ensures Valid() && this.lines == lines && cursor == 0
    {
      this.lines := lines;
      cursor := 0;
    }

    /** `read_line`: skip blank and `#` lines; fail once the stream is exhausted. */
    method ReadLine() returns (r: Result<string>)
      requires Valid()
      modifies this
      ensures Valid()
      ensures r.Err? ==> r.error == Terminated && Unread() == [] && Substantive(old(Unread())) == []
      ensures r.Ok? ==> Substantive(old(Unread())) == [r.value] + Substantive(Unread())
    {
      ghost var start := Unread();
      while cursor < |lines|
        invariant Valid()
        invariant Substantive(Unread()) == Substantive(start)
        decreases |lines| - cursor
      {
        var out := lines[cursor];
        assert Unread()[0] == out && Unread()[1..] == lines[cursor + 1..];
        cursor := cursor + 1;
        var v := Trim(out);
        if |v| == 0 || v[0] == '#' {
          continue;
        }
        return Ok(v);
      }
      return Err(Terminated);
    }
  }

  /** A failure stays the result however many results follow it. */
  lemma {:induction false} SequencedErrPrefix(rs: seq<Result<Pair>>, more: seq<Result<Pair>>)
    requires Sequenced(rs).Err?
    ensures Sequenced(rs + more) == Sequenced(rs)
    decreases |more|
  {
    if |more| > 0 {
      var shorter := rs + more[..|more| - 1];
      assert (rs + more)[..|rs + more| - 1] == shorter;
      SequencedErrPrefix(rs, more[..|more| - 1]);
      assert Sequenced(shorter).Err?;
      assert Sequenced(rs + more) == Err(Sequenced(shorter).error);
    } else {
      assert rs + more == rs;
    }
  }

  /** A line that fails decides the result whatever follows it. */
  lemma ParseLinesErrPrefix(n: usize, lines: seq<string>, more: seq<string>)
    requires n >= 1 && ParseLines(n, lines).Err?
    ensures ParseLines(n, lines + more) == ParseLines(n, lines)
  {
    var all, front, back := ParsedLines(n, lines + more), ParsedLines(n, lines), ParsedLines(n, more);
    forall i | 0 <= i < |all| ensures all[i] == (front + back)[i] {
      if i < |lines| {
        assert (lines + more)[i] == lines[i];
      } else {
        assert (lines + more)[i] == more[i - |lines|];
      }
    }
    assert all == front + back;
    SequencedErrPrefix(ParsedLines(n, lines), ParsedLines(n, more));
  }

  /** One more line parsed at the end. */
  lemma ParseLinesSnoc(n: usize, lines: seq<string>, v: string)
    requires n >= 1
    ensures ParseLines(n, lines + [v]) ==
            match ParseLines(n, lines)
            case Err(e) => Err(e)
            case Ok(out) =>
              match ParseLine(n, v)
              case Err(e) => Err(e)
              case Ok(p) => Ok(out + [p])
  {
    var rs := ParsedLines(n, lines + [v]);
    assert rs[..|rs| - 1] == ParsedLines(n, lines);
  }

  lemma Regroup<T>(a: seq<T>, x: T, b: seq<T>)
    ensures a + ([x] + b) == (a + [x]) + b
  {
  }

  /** The loop stops at a line that fails to parse, with that line's error. */
  lemma FromLinesStopsAt(n: usize, lines: seq<string>, read: seq<string>)
    requires n >= 1 && |read| <= n && |read| <= |lines| && lines[..|read|] == read
    requires ParseLines(n, read).Err?
    ensures FromLines(n, lines) == ParseLines(n, read)
  {
    var m := if |lines| < n then |lines| else n;
    assert lines[..m] == read + lines[|read|..m];
    assert lines[..|lines|] == lines;
    ParseLinesErrPrefix(n, read, lines[|read|..m]);
  }

  /** The `for _ in 0..input.n` loop of `exec`, reading from `stdout`. */
  method CollectAnswers(n: usize, stdout: ChildStdout) returns (r: Result<seq<Pair>>)
    requires stdout.Valid()
    modifies stdout
    ensures r == Answers(n, old(stdout.Unread()))
  {
    ghost var lines := Substantive(stdout.Unread());
    ghost var done: seq<string> := [];
    var out: seq<Pair> := [];
    for k := 0 to n
      invariant stdout.Valid()
      invariant |done| == k && lines == done + Substantive(stdout.Unread())
      invariant ParseLines(n, done) == Ok(out)
    {
      var line := stdout.ReadLine();
      if line.Err? {
        assert lines == done;
        return Err(line.error);
      }
      ghost var read := done + [line.value];
      Regroup(done, line.value, Substantive(stdout.Unread()));
      assert lines[..|read|] == read;
      ParseLinesSnoc(n, done, line.value);
      var parsed := ParseLine(n, line.value);
      if parsed.Err? {
        FromLinesStopsAt(n, lines, read);
        return Err(parsed.error);
      }
      out := out + [parsed.value];
      done := read;
    }
    assert lines[..n] == done;
    return Ok(out);
  }

  /** `read_line` on the stream as a whole: the lines of a concatenation are those of
      each part. */
  lemma {:induction false} SubstantiveAppend(a: seq<string>, b: seq<string>)
    ensures Substantive(a + b) == Substantive(a) + Substantive(b)
    decreases |a|
  {
    if |a| > 0 {
      var head: seq<string> := if Skipped(Trim(a[0])) then [] else [Trim(a[0])];
      assert (a + b)[0] == a[0] && (a + b)[1..] == a[1..] + b;
      assert Substantive(a + b) == head + Substantive(a[1..] + b);
      SubstantiveAppend(a[1..], b);
      assert head + (Substantive(a[1..]) + Substantive(b)) == (head + Substantive(a[1..])) + Substantive(b);
    } else {
      assert a + b == b;
    }
  }

  /** `Sequenced` succeeds exactly when every result does. */
  lemma {:induction false} SequencedOkIff(rs: seq<Result<Pair>>)
    ensures Sequenced(rs).Ok? <==> forall i :: 0 <= i < |rs| ==> rs[i].Ok?
    decreases |rs|
  {
    if |rs| > 0 {
      var front := rs[..|rs| - 1];
      SequencedOkIff(front);
      assert forall i :: 0 <= i < |front| ==> front[i] == rs[i];
    }
  }

  /** The first failing result is the outcome. */
  lemma SequencedFirstErr(rs: seq<Result<Pair>>, j: nat)
    requires j < |rs| && rs[j].Err?
    requires forall i :: 0 <= i < j ==> rs[i].Ok?
    ensures Sequenced(rs) == Err(rs[j].error)
  {
    var upto := rs[..j + 1];
    SequencedOkIff(upto[..j]);
    assert upto[..j] == rs[..j];
    assert upto[j] == rs[j];
    assert Sequenced(upto) == Err(rs[j].error);
    assert rs == upto + rs[j + 1..];
    SequencedErrPrefix(upto, rs[j + 1..]);
  }

  /** A line is accepted exactly when it holds two tokens, both positions below `n`; the
      pair is then their values. */
  lemma ParseLineOkIff(n: usize, line: string)
    requires n >= 1
    ensures var toks := Tokens(line);
            ParseLine(n, line).Ok? <==>
              |toks| == 2 && Accepted(toks[0], n - 1) && Accepted(toks[1], n - 1)
    ensures var toks := Tokens(line);
            ParseLine(n, line).Ok? ==>
              ParseLine(n, line).value == (ValueOf(toks[0], n - 1), ValueOf(toks[1], n - 1))
  {
  }

  /** The tokens of a line are checked in order: a missing or rejected first token is
      reported before anything about the second, and a third token is reported only
      once the first two were accepted. */
  lemma ParseLineErrors(n: usize, line: string)
    requires n >= 1
    ensures var toks := Tokens(line);
            |toks| == 0 ==> ParseLine(n, line) == Err(UnexpectedEof)
    ensures var toks := Tokens(line);
            |toks| > 0 && !Accepted(toks[0], n - 1) ==>
              ParseLine(n, line) == Err(Read(Some(toks[0]), 0, n - 1).error)
    ensures var toks := Tokens(line);
            |toks| == 1 && Accepted(toks[0], n - 1) ==> ParseLine(n, line) == Err(UnexpectedEof)
    ensures var toks := Tokens(line);
            |toks| > 1 && Accepted(toks[0], n - 1) && !Accepted(toks[1], n - 1) ==>
              ParseLine(n, line) == Err(Read(Some(toks[1]), 0, n - 1).error)
    ensures var toks := Tokens(line);
            |toks| > 2 && Accepted(toks[0], n - 1) && Accepted(toks[1], n - 1) ==>
              ParseLine(n, line) == Err(TooManyOutput(line))
  {
  }

  /** `exec` collects its answers exactly when the child prints at least `n` substantive
      lines and each of the first `n` is accepted; answer `i` is then line `i`'s pair. */
  lemma AnswersOkIff(n: usize, raw: seq<string>)
    ensures var lines := Substantive(raw);
            Answers(n, raw).Ok? <==>
              |lines| >= n && forall i :: 0 <= i < n ==> ParseLine(n, lines[i]).Ok?
    ensures var lines := Substantive(raw);
            Answers(n, raw).Ok? ==>
              forall i :: 0 <= i < n ==> Answers(n, raw).value[i] == ParseLine(n, lines[i]).value
  {
    var lines := Substantive(raw);
    if |lines| >= n {
      var rs := ParsedLines(n, lines[..n]);
      SequencedOkIff(rs);
      assert forall i :: 0 <= i < n ==> rs[i] == ParseLine(n, lines[i]);
    } else {
      SequencedOkIff(ParsedLines(n, lines));
    }
  }

  /** A child that stops after fewer than `n` substantive lines, all accepted, has
      terminated unexpectedly. */
  lemma AnswersTerminated(n: usize, raw: seq<string>)
    requires var lines := Substantive(raw);
             |lines| < n && forall i :: 0 <= i < |lines| ==> ParseLine(n, lines[i]).Ok?
    ensures Answers(n, raw) == Err(Terminated)
  {
    SequencedOkIff(ParsedLines(n, Substantive(raw)));
  }

  /** The first of the first `n` substantive lines that is rejected decides the error. */
  lemma AnswersFirstBadLine(n: usize, raw: seq<string>, j: nat)
    requires var lines := Substantive(raw);
             j < n && j < |lines| && ParseLine(n, lines[j]).Err?
             && forall i :: 0 <= i < j ==> ParseLine(n, lines[i]).Ok?
    ensures Answers(n, raw) == Err(ParseLine(n, Substantive(raw)[j]).error)
  {
    var lines := Substantive(raw);
    var taken := if |lines| < n then lines else lines[..n];
    assert |lines| < n ==> taken == lines;
    SequencedFirstErr(ParsedLines(n, taken), j);
  }

  /** Whatever the child prints after its `n`-th substantive line is never read. */
  lemma AnswersIgnoresLater(n: usize, raw: seq<string>, extra: seq<string>)
    requires |Substantive(raw)| >= n
    ensures Answers(n, raw + extra) == Answers(n, raw)
  {
    SubstantiveAppend(raw, extra);
    var lines := Substantive(raw);
    assert (lines + Substantive(extra))[..n] == lines[..n];
  }

  /** A blank or comment line anywhere in the child's output changes nothing. */
  lemma AnswersSkipNoise(n: usize, before: seq<string>, noise: string, after: seq<string>)
    requires Skipped(Trim(noise))
    ensures Answers(n, before + [noise] + after) == Answers(n, before + after)
  {
    SubstantiveAppend(before + [noise], after);
    SubstantiveAppend(before, [noise]);
    SubstantiveAppend(before, after);
    assert Substantive([noise]) == [];
    assert Substantive(before) + [] == Substantive(before);
  }

  /** An instance with no positions and no steps: `exec` reads no line and scores 0,
      and `parse_output` accepts only the empty output. */
  lemma EmptyInstance(raw: seq<string>)
    ensures ExecSpec(Input(0, 0, []), raw) == Ok(0)
    ensures ParseOutputSpec(0, []) == Ok(Output([]))
  {
  }

  /** The line a solution prints for one position: `"{a} {b}"`. */
  function PairLine(p: Pair): string
  {
    NatToString(p.0) + " " + NatToString(p.1)
  }

  /** A printed pair is one substantive line holding the pair's two decimal tokens. */
  lemma PairLineShape(p: Pair)
    ensures Trim(PairLine(p)) == PairLine(p) && !Skipped(PairLine(p))
    ensures Tokens(PairLine(p)) == [NatToString(p.0), NatToString(p.1)]
  {
    var a, b := NatToString(p.0), NatToString(p.1);
    var line := PairLine(p);
    DigitIsNotWhitespace(a[0]);
    DigitIsNotWhitespace(b[|b| - 1]);
    assert line[0] == a[0] && line[|line| - 1] == b[|b| - 1];
    TrimOfTrimmed(line);
    SeparatorsAreWhitespace();
    DigitsAreWord(a);
    DigitsAreWord(b);
    TokensOfWordThen(a, ' ', b);
    TokensOfWord(b);
  }

  /** `exec` reads back exactly the pair a solution printed, when both are positions. */
  lemma ParseLineOfPairLine(n: usize, p: Pair)
    requires n >= 1 && p.0 < n && p.1 < n
    ensures ParseLine(n, PairLine(p)) == Ok(p)
  {
    PairLineShape(p);
    ReadDecimal(p.0, n - 1);
    ReadDecimal(p.1, n - 1);
  }

  /** A table printed one pair per line. */
  function PrintedLines(out: seq<Pair>): (r: seq<string>)
    ensures |r| == |out|
  {
    seq(|out|, i requires 0 <= i < |out| => PairLine(out[i]))
  }

  /** The same lines as one text, each ended by a newline. */
  function PrintedText(out: seq<Pair>): string
  {
    if |out| == 0 then "" else PairLine(out[0]) + "\n" + PrintedText(out[1..])
  }

  /** Lines that are already trimmed and substantive are all read, as they are. */
  lemma {:induction false} SubstantiveOfClean(lines: seq<string>)
    requires forall i :: 0 <= i < |lines| ==> Trim(lines[i]) == lines[i] && !Skipped(lines[i])
    ensures Substantive(lines) == lines
    decreases |lines|
  {
    if |lines| > 0 {
      SubstantiveOfClean(lines[1..]);
      assert lines == [lines[0]] + lines[1..];
    }
  }

  lemma SubstantiveOfPrinted(out: seq<Pair>)
    ensures Substantive(PrintedLines(out)) == PrintedLines(out)
  {
    var lines := PrintedLines(out);
    forall i | 0 <= i < |lines| ensures Trim(lines[i]) == lines[i] && !Skipped(lines[i]) {
      PairLineShape(out[i]);
    }
    SubstantiveOfClean(lines);
  }

  /** Lines that each parse to the next pair of `out` are collected as `out`. */
  lemma AnswersOfParsed(n: usize, raw: seq<string>, out: seq<Pair>)
    requires |out| == n && |Substantive(raw)| >= n
    requires forall i :: 0 <= i < n ==> ParseLine(n, Substantive(raw)[i]) == Ok(out[i])
    ensures Answers(n, raw) == Ok(out)
  {
    AnswersOkIff(n, raw);
    var r := Answers(n, raw);
    assert r.Ok?;
    assert r.value == out;
  }

  /** The interactive judge collects exactly the table the solution printed. */
  lemma AnswersOfPrinted(n: usize, out: seq<Pair>)
    requires n >= 1 && ValidTable(n, out)
    ensures Answers(n, PrintedLines(out)) == Ok(out)
  {
    var lines := PrintedLines(out);
    SubstantiveOfPrinted(out);
    forall i | 0 <= i < n ensures ParseLine(n, lines[i]) == Ok(out[i]) {
      ParseLineOfPairLine(n, out[i]);
    }
    AnswersOfParsed(n, lines, out);
  }

  /** `toks` are the decimal tokens of the pairs of `out`, two by two. */
  predicate TokensOfPairs(toks: seq<string>, out: seq<Pair>)
  {
    |toks| == 2 * |out|
    && forall k :: 0 <= k < |out| ==>
         toks[2 * k] == NatToString(out[k].0) && toks[2 * k + 1] == NatToString(out[k].1)
  }

  lemma TokensOfPairsCons(out: seq<Pair>, tail: seq<string>)
    requires |out| > 0 && TokensOfPairs(tail, out[1..])
    ensures TokensOfPairs([NatToString(out[0].0), NatToString(out[0].1)] + tail, out)
  {
    var toks := [NatToString(out[0].0), NatToString(out[0].1)] + tail;
    forall k | 1 <= k < |out|
      ensures toks[2 * k] == NatToString(out[k].0) && toks[2 * k + 1] == NatToString(out[k].1)
    {
      assert out[k] == out[1..][k - 1];
      assert toks[2 * k] == tail[2 * (k - 1)] && toks[2 * k + 1] == tail[2 * (k - 1) + 1];
    }
  }

  /** The printed text splits into the tokens of the pairs, in order. */
  lemma {:induction false} TokensOfPrinted(out: seq<Pair>)
    ensures TokensOfPairs(Tokens(PrintedText(out)), out)
    decreases |out|
  {
    if |out| > 0 {
      var line, rest := PairLine(out[0]), PrintedText(out[1..]);
      PairLineShape(out[0]);
      SeparatorsAreWhitespace();
      assert PrintedText(out) == line + ['\n'] + rest;
      TokensAroundSeparator(line, '\n', rest);
      TokensOfPrinted(out[1..]);
      TokensOfPairsCons(out, Tokens(rest));
    }
  }

  /** The decimal tokens of a table's pairs are what `parse_output` reads it from. */
  lemma ParseOutputOfPairTokens(n: usize, toks: seq<string>, out: seq<Pair>)
    requires n >= 1 && ValidTable(n, out) && TokensOfPairs(toks, out)
    ensures ParseOutputSpec(n, toks) == Ok(Output(out))
  {
    forall i | 0 <= i < |toks| ensures Accepted(toks[i], n - 1) {
      var k := i / 2;
      if i % 2 == 0 {
        assert toks[i] == toks[2 * k];
        ReadDecimal(out[k].0, n - 1);
      } else {
        assert toks[i] == toks[2 * k + 1];
        ReadDecimal(out[k].1, n - 1);
      }
    }
    ParseOutputOkIff(n, toks);
    var back := ParseOutputSpec(n, toks).value.out;
    forall k | 0 <= k < n ensures back[k] == out[k] {
      ReadDecimal(out[k].0, n - 1);
      ReadDecimal(out[k].1, n - 1);
    }
    assert back == out;
  }

  /** The offline judge reads the same table from the printed text. */
  lemma ParseOutputOfPrinted(n: usize, out: seq<Pair>)
    requires n >= 1 && ValidTable(n, out)
    ensures ParseOutputSpec(n, Tokens(PrintedText(out))) == Ok(Output(out))
  {
    TokensOfPrinted(out);
    ParseOutputOfPairTokens(n, Tokens(PrintedText(out)), out);
  }

  /** A table printed line by line gets the same score from the interactive judge as
      from `parse_output` followed by `compute_score`. */
  lemma JudgesAgreeOnPrinted(input: Input, out: seq<Pair>)
    requires WellFormed(input) && input.n >= 1 && ValidTable(input.n, out)
    ensures ExecSpec(input, PrintedLines(out)) == Ok(FinalScore(input, out))
    ensures ParseOutputSpec(input.n, Tokens(PrintedText(out))) == Ok(Output(out))
  {
    AnswersOfPrinted(input.n, out);
    ParseOutputOfPrinted(input.n, out);
  }

  /** `exec(p, local)`: read the instance from `text` (the judge's standard input), write
      it to the child, read `n` answer lines, score them. `sent` is what the child
      receives on its standard input. */
  method Exec(text: string, child: seq<string>) returns (sent: string, r: Result<int>)
    requires ParseInput(text).Some?
    requires var x := ParseInput(text).value; x.l > 0 ==> x.n > 0
    requires NoNewlines(child)
    ensures sent == Format(ParseInput(text).value)
    ensures ParseInput(sent) == ParseInput(text)
    ensures r == ExecSpec(ParseInput(text).value, child)
  {
    var input := ParseInput(text).value;
    sent := HeaderLine(input) + "\n";
    sent := sent + TargetLine(input) + "\n";
    assert sent == Format(input);
    ParseInputFormat(input);
    var stdout := new ChildStdout(child);
    assert stdout.Unread() == child;
    var answers := CollectAnswers(input.n, stdout);
    if answers.Err? {
      return sent, Err(answers.error);
    }
    var score, _ := ComputeScore(input, Output(answers.value));
    r := Ok(score);
  }
}
