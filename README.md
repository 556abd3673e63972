# A verified model of the AHC044 judge and two contestant solutions

This project models the Rust judge of an AtCoder Heuristic Contest problem. It also
models the deterministic parts of two contestant solutions: one in C++ (`main.cpp`)
and one in Python (`main.py`).

**The problem.** An instance gives `n` positions, a number of steps `l`, and a target
`t[i]` for each position. A contestant prints a successor table: one pair `(a, b)` per
position. The judge replays a walk from position 0 for `l` steps. Each step counts a
visit to the current position, then moves to `a` if that count is now odd and to `b`
otherwise. The score is `2l − Σ |counts[i] − t[i]|`.

**The judge (`tools/src/lib.rs`)** is modelled in five modules:

- `Text`: the Rust library behaviour the judge relies on.
  - `split_whitespace` over the Unicode White_Space property.
  - `trim`.
  - `usize`'s `FromStr` (an optional `+`, digits, at most 2^64 − 1) and its `Display`.
- `JudgeInput`: the instance, its `Display`, and `parse_input`.
- `JudgeOutput`: the bounded token reader `read`, and `parse_output` as a loop.
- `JudgeScore`: the replay and the scorer, as loops proved against recursive
  definitions.
- `JudgeExec`: the interactive protocol.
  - The child's standard output is a `ChildStdout` object over a sequence of lines.
  - `read_line` is its method.
  - `exec` sends the instance, collects `n` answers, and scores them.

**The solutions.**

- `SolutionSpec` is what both solutions compute, stated as values:
  - the load estimate `calc` and its difference vector;
  - the cyclic single-slot rewrite and its undo;
  - the initial tables;
  - the two acceptance tests;
  - the order in which each priority queue hands out `tuika`.
- `SolutionCpp` and `SolutionPy` are imperative models of the two programs. Tables are
  arrays, rewritten in place.
- C++ copies a `vector` on assignment. Its best table `final_ans` is therefore a value
  (`seq`).
- Python shares lists by reference. Its `final` is an `array` reference, so the
  aliasing between `final` and `ans` is modelled as it is.
- Every random draw is a parameter. This covers the 95%-probability choices of
  `hataraki` and `sabori`, both `cut`s, and the noise draw. They come in `Draw`
  records that put each drawn value in its range.

The solutions differ in three ways, and each difference is proved:

- **Heap tie-break.** On equal priority, C++ picks the larger index and Python the
  smaller (`SolutionSpec.TuikaTieBreak`).
- **Acceptance test.** Python's `sc > new_sc ^ r >= 95` parses as
  `sc > (new_sc ^ r) >= 95`. It disagrees with the C++ `improved ^ noise`
  (`SolutionSpec.AcceptDisagree`, `SolutionSpec.PyAcceptNearScore`).
- **List aliasing.** In Python, once `final = ans` has run, `final` follows every later
  rewrite (`SolutionPy.Program.InitialRound`). In the second phase `ans` is `final`,
  so the printed table is where the search ended (`SolutionPy.Program.LocalSearch`).
  In C++ the recorded table always scores `ideal_score` (`SolutionCpp.Search.Valid`,
  kept by every method of `Search`).

## Model

| member | source | states |
|---|---|---|
| Text.Tokens | tools/src/lib.rs:107 | `split_whitespace`: the maximal runs of non-whitespace characters, in order (stated by the four lemmas below) |
| Text.IsWhitespace | tools/src/lib.rs:107 | `char::is_whitespace`, on which `split_whitespace` splits: the Unicode White_Space property, as the ten code-point ranges of the constant `WHITE_SPACE` (stated by `SeparatorsAreWhitespace` and `DigitIsNotWhitespace`) |
| Text.SeparatorsAreWhitespace | tools/src/lib.rs:57-59 | the space and the newline that `Display` writes between values are whitespace |
| Text.DigitIsNotWhitespace | tools/src/lib.rs:107 | no decimal digit is whitespace |
| Text.DigitsAreWord | tools/src/lib.rs:107 | a non-empty run of digits is a single token |
| Text.WordLength | tools/src/lib.rs:107 | the leading run of non-whitespace characters: every character before its end is not whitespace, and the one at its end is |
| Text.TokensAreWords | tools/src/lib.rs:107 | every token `split_whitespace` yields is a non-empty run of non-whitespace characters |
| Text.TokensAroundSeparator | tools/src/lib.rs:107 | tokenising splits at any whitespace character: the tokens of `a + [c] + b` are those of `a` followed by those of `b` |
| Text.TokensOfWord | tools/src/lib.rs:107 | a single word is its own only token |
| Text.TrimStart | tools/src/lib.rs:471 | the leading half of `trim`: drop whitespace from the front (stated by `TrimStartDrops`) |
| Text.TrimEnd | tools/src/lib.rs:471 | the trailing half of `trim`: drop whitespace from the back (stated by `TrimEndDrops`) |
| Text.Trim | tools/src/lib.rs:471 | `str::trim`: both halves (stated by `TrimOfTrimmed` and the two lemmas before it) |
| Text.TrimStartDrops | tools/src/lib.rs:471 | `trim` drops a leading run of whitespace only, and what is left does not start with whitespace |
| Text.TrimEndDrops | tools/src/lib.rs:471 | `trim` drops a trailing run of whitespace only, and what is left does not end with whitespace |
| Text.TrimOfTrimmed | tools/src/lib.rs:471 | a text that neither starts nor ends with whitespace is left unchanged by `trim` |
| Text.NatToString | tools/src/lib.rs:58-59 | `Display` of a `usize` is a non-empty string of decimal digits |
| Text.ParseUsize | tools/src/lib.rs:83 | `parse::<usize>`: an optional `+`, then one or more decimal digits whose value is at most 2^64 − 1; anything else is an error (stated by `ParseUsizeOfDigits`, `ParseUsizeLeadingZero`, `ParseUsizeOfNatToString` and `ParseUsizeRejects`) |
| Text.ParseUsizeOfNatToString | tools/src/lib.rs:83 | `parse::<usize>` inverts `Display`, with or without a leading `+` |
| Text.ParseUsizeRejects | tools/src/lib.rs:83 | the empty token, a bare sign, a leading `-` and any non-digit after the first character are parse errors |
| Text.DigitsValueOfNatToString | tools/src/lib.rs:57-59 | the decimal `Display` writes has the number as its value |
| Text.ParseUsizeOfDigits | tools/src/lib.rs:83 | a non-empty run of digits, with or without a leading `+`, parses to its value when that is at most 2^64 − 1, and is an overflow error when it is larger |
| Text.DigitsValueLeadingZero | tools/src/lib.rs:83 | a leading zero does not change the value of a decimal |
| Text.ParseUsizeLeadingZero | tools/src/lib.rs:83 | a leading zero is accepted and ignored: `"0" + d` parses as `d` does |
| JudgeInput.Join | tools/src/lib.rs:59 | `t.iter().join(" ")`: the decimals separated by single spaces (stated by `TokensOfJoin`) |
| JudgeInput.Format | tools/src/lib.rs:56-62 | `Display for Input`: `"{n} {l}\n"` then the joined targets and `"\n"` (stated by `FormatTokens` and `ParseInputFormat`) |
| JudgeInput.ParseValues | tools/src/lib.rs:71 | reading `t: [usize; n]` yields exactly one value per token when it succeeds |
| JudgeInput.ParseInput | tools/src/lib.rs:65-74 | a parsed instance is well formed: exactly `n` targets |
| JudgeInput.TokensOfJoin | tools/src/lib.rs:59 | the targets joined by spaces split back into their decimal forms |
| JudgeInput.FormatTokens | tools/src/lib.rs:56-62 | the text `Display` writes splits into `n`, `l` and the targets, in decimal |
| JudgeInput.ParseValuesOfDecimal | tools/src/lib.rs:71 | the decimal forms of the targets read back as the targets |
| JudgeInput.ParseInputOfTokens | tools/src/lib.rs:65-74 | any text whose tokens start with an instance's decimal form reads as that instance |
| JudgeInput.ParseInputFormat | tools/src/lib.rs:56-74 | round trip: `parse_input(format(x)) == x` for every instance with `\|t\| == n` |
| JudgeInput.TokensAfterFormat | tools/src/lib.rs:56-62 | text after the instance's final newline is tokenised on its own |
| JudgeInput.ParseInputIgnoresTrailing | tools/src/lib.rs:65-74 | tokens after the last target do not change what `parse_input` reads |
| JudgeOutput.Message | tools/src/lib.rs:82-115 | the texts the judge reports: "Out of range: {v}", "Parse error: {token}", "Unexpected EOF", "Number of lines in output is not N", and from `exec` (lines 464 and 504) "Your program has terminated unexpectedly" and "Too many output: {line}" (stated by `MessageDetermines`) |
| JudgeOutput.MessageInitial | tools/src/lib.rs:82-115 | every failure's text is non-empty, and its first character tells which failure it is |
| JudgeOutput.MessageDetermines | tools/src/lib.rs:82-115 | two failures with the same text are the same failure, down to the token, value or line it names |
| JudgeOutput.Read | tools/src/lib.rs:77-95 | `Ok(v)` exactly when the token is present, parses, and `lb ≤ v ≤ ub`; otherwise "Unexpected EOF" for no token, "Parse error" for an unparsable one, "Out of range" for a value outside the bounds |
| JudgeOutput.ReadDecimal | tools/src/lib.rs:77-95 | a position written in decimal, with or without `+`, is accepted exactly when it is at most `ub`, and reported out of range otherwise |
| JudgeOutput.TokenAt | tools/src/lib.rs:107-110 | the iterator yields a token exactly while tokens remain, and yields them in order |
| JudgeOutput.Pairs | tools/src/lib.rs:108-112 | the loop with any reader that, like `read`, reports a missing token as "Unexpected EOF": a successful loop consumed two tokens per pair |
| JudgeOutput.ParsePairs | tools/src/lib.rs:108-112 | the loop with `read(_, 0, ub)`: a successful loop consumed two tokens per pair |
| JudgeOutput.PairsValues | tools/src/lib.rs:108-112 | on success the reader accepted every token, and pair `k` holds its values for tokens `2k` and `2k+1` |
| JudgeOutput.ParsePairsValues | tools/src/lib.rs:108-112 | on success every token was accepted, and pair `k` holds the values of tokens `2k` and `2k+1`, both within `0..ub` |
| JudgeOutput.PairsRound | tools/src/lib.rs:108-112 | one round: the first read's error, then the second's, aborts the loop, and otherwise the pair is pushed and the loop goes on |
| JudgeOutput.ParsePairsRoundAt | tools/src/lib.rs:108-112 | the same round for `read(_, 0, ub)`, at a position `i` of the whole token stream |
| JudgeOutput.ReadPairs | tools/src/lib.rs:107-112 | the `while tokens.peek().is_some()` loop that pushes into `out` returns exactly what `ParsePairs` gives for the bound `n - 1` |
| JudgeOutput.ParseOutputTokens | tools/src/lib.rs:106-117 | the pair loop followed by the length check computes `ParseOutputSpec` on the token stream |
| JudgeOutput.ParseOutputSpec | tools/src/lib.rs:105-117 | `parse_output` on the token stream: the pair loop's error, else "Number of lines in output is not N" unless there are `n` pairs; `n = 0` only with no tokens, since `input.n - 1` is evaluated once a token is present (stated by `ParseOutputOkIff` and the lemmas after it) |
| JudgeOutput.ParseOutput | tools/src/lib.rs:105-117 | `parse_output` on the contestant's text computes `ParseOutputSpec` on its whitespace-separated tokens |
| JudgeOutput.ParseOutputOkIff | tools/src/lib.rs:105-117 | success exactly when the stream holds `2n` accepted tokens; the pairs are then those tokens' values, two by two, every component in `[0, n-1]`, and every token consumed |
| JudgeOutput.AllReadPairs | tools/src/lib.rs:108-112 | an even number of tokens, all accepted by the reader, always completes the loop |
| JudgeOutput.PairsFirstBadToken | tools/src/lib.rs:109-110 | the loop aborts with the reader's error for the first rejected token |
| JudgeOutput.PairsOddCount | tools/src/lib.rs:110 | an odd number of accepted tokens fails on the second read of the last round with "Unexpected EOF" |
| JudgeOutput.ParseOutputFirstBadToken | tools/src/lib.rs:108-112 | a bad token aborts `parse_output` at the first offender, with that token's error |
| JudgeOutput.ParseOutputOddCount | tools/src/lib.rs:110 | an odd token count, all accepted, fails with "Unexpected EOF" |
| JudgeOutput.ParseOutputWrongCount | tools/src/lib.rs:113-115 | any other number of complete pairs, too many or too few, fails with "Number of lines in output is not N" |
| JudgeScore.Step | tools/src/lib.rs:162-171 | one replay round keeps the position on the table and the counts one per position |
| JudgeScore.Run | tools/src/lib.rs:158-171 | `pos` stays in `[0, n-1]` throughout, and there is one count per position |
| JudgeScore.CountsAreVisits | tools/src/lib.rs:158-171 | each count is the number of rounds that started at that position |
| JudgeScore.Visits | tools/src/lib.rs:158-171 | reference definition of a count: the number of rounds that started at that position (tied to the loop by `CountsAreVisits`) |
| JudgeScore.RunConservation | tools/src/lib.rs:158-171 | after the loop the counts sum to `l` |
| JudgeScore.CountsNonNegative | tools/src/lib.rs:158-171 | counts are never negative |
| JudgeScore.TransitionRule | tools/src/lib.rs:162-171 | a round increments only `counts[pos]`, by one, then moves to `.0` if the new count is odd and to `.1` otherwise |
| JudgeScore.AbsDiffSumSnoc | tools/src/lib.rs:175-178 | the penalty over one more position adds that position's `\|counts[i] − t[i]\|` |
| JudgeScore.AbsDiffSum | tools/src/lib.rs:174-178 | the penalty `Σ \|counts[i] − t[i]\|` the scoring loop subtracts (stated by `AbsDiffSumZeroIff`, `AbsDiffSumAtMostSums` and `Penalty`) |
| JudgeScore.ScoreOf | tools/src/lib.rs:174-178 | the score `2l − Σ \|counts[i] − t[i]\|` (stated by `ScoreAtMostTwiceSteps` and `ScoreAtLeast`) |
| JudgeScore.FinalScore | tools/src/lib.rs:157-180 | the score of a table: replay `l` rounds, then `2l − Σ \|counts[i] − t[i]\|` (stated by `ComputeScoreDetails` and `JudgeScoreBounds`) |
| JudgeScore.ComputeScoreDetails | tools/src/lib.rs:157-180 | the counting loop and the scoring loop over a `counts` vector give `2l − Σ \|counts[i] − t[i]\|` of the replay, with an empty error |
| JudgeScore.Penalty | tools/src/lib.rs:174-178 | the scoring loop gives `2l − Σ \|counts[i] − t[i]\|` |
| JudgeScore.ComputeScore | tools/src/lib.rs:148-154 | the error from the details is always empty, so `compute_score` returns their score unchanged |
| JudgeScore.AbsDiffSumZeroIff | tools/src/lib.rs:174-178 | the penalty is never negative, and it is zero exactly when the counts equal the targets |
| JudgeScore.AbsDiffSumAtMostSums | tools/src/lib.rs:174-178 | with non-negative counts and targets, the penalty is at most `Σ counts + Σ t` |
| JudgeScore.ScoreAtMostTwiceSteps | tools/src/lib.rs:174-178 | the score is at most `2l`, and equal to it exactly when the counts equal the targets |
| JudgeScore.ScoreAtLeast | tools/src/lib.rs:174-178 | with non-negative counts summing to `l`, the score is at least `l − Σt` |
| JudgeScore.JudgeScoreBounds | tools/src/lib.rs:157-180 | for any valid table, `l − Σt ≤ score ≤ 2l`; the score is `2l` exactly when the counts equal the targets; it is `≥ 0` when `Σt = l`, as the generator arranges |
| JudgeScore.ExampleRun | tools/src/lib.rs:158-171 | four rounds on pairs `[(1,2),(0,2),(0,1)]` end at position 0 with counts `[2,1,1]` |
| JudgeScore.ExamplePenalty | tools/src/lib.rs:174-178 | counts `[2,1,1]` against targets `[1,2,1]` cost 2 |
| JudgeScore.WorkedExample | tools/src/lib.rs:157-180 | `n=3, l=4, t=[1,2,1]` with pairs `[(1,2),(0,2),(0,1)]` gives counts `[2,1,1]` and score 6 |
| JudgeExec.Substantive | tools/src/lib.rs:459-476 | the lines `read_line` returns are never blank and never start with `#`, and there are no more of them than raw lines |
| JudgeExec.Skipped | tools/src/lib.rs:472 | a trimmed line that `read_line` skips: empty, or starting with `#` (stated by `Substantive` and `AnswersSkipNoise`) |
| JudgeExec.ParseLine | tools/src/lib.rs:499-505 | an accepted line gives a pair of positions below `n` |
| JudgeExec.Sequenced | tools/src/lib.rs:497-506 | collecting results, stopping at the first failure: on success, one value per result, in order |
| JudgeExec.ParsedLines | tools/src/lib.rs:497-506 | one outcome per line, each accepted pair within the table |
| JudgeExec.ParseLines | tools/src/lib.rs:497-506 | on success, one in-range pair per line |
| JudgeExec.FromLines | tools/src/lib.rs:497-506 | on success, exactly `n` in-range pairs |
| JudgeExec.Answers | tools/src/lib.rs:496-506 | what `exec` collects: on success, exactly `n` pairs of positions below `n` |
| JudgeExec.ExecSpec | tools/src/lib.rs:496-510 | what `exec` returns for the child's lines: the first error in reading the answers, else `compute_score` of them; defined for `n = 0` when `l = 0` (stated by `Exec`, `AnswersOkIff` and `JudgesAgreeOnPrinted`) |
| JudgeExec.NoNewlines | tools/src/lib.rs:459-476 | the lines `read_line` hands over hold no line break |
| JudgeExec.ChildStdout.constructor | tools/src/lib.rs:487 | a reader on the child's output lines, none holding a line break, with no line read yet |
| JudgeExec.ChildStdout.ReadLine | tools/src/lib.rs:459-476 | returns the next substantive line, trimmed, skipping blank and `#` lines without counting them; at end of stream "Your program has terminated unexpectedly", and only when no substantive line is left |
| JudgeExec.SequencedErrPrefix | tools/src/lib.rs:497-506 | a failure stays the result however many lines follow it |
| JudgeExec.ParseLinesErrPrefix | tools/src/lib.rs:497-506 | a rejected line decides the result whatever follows it |
| JudgeExec.ParseLinesSnoc | tools/src/lib.rs:497-506 | one more line parsed at the end extends the pairs, or fails with that line's error |
| JudgeExec.FromLinesStopsAt | tools/src/lib.rs:497-506 | the loop stops at the first rejected line, with that line's error |
| JudgeExec.CollectAnswers | tools/src/lib.rs:496-506 | the `for _ in 0..input.n` loop over `read_line` computes `Answers` of the lines the child has not yet had read |
| JudgeExec.SubstantiveAppend | tools/src/lib.rs:459-476 | the substantive lines of a concatenation are those of each part, in order |
| JudgeExec.SequencedOkIff | tools/src/lib.rs:497-506 | collecting succeeds exactly when every line's result does |
| JudgeExec.SequencedFirstErr | tools/src/lib.rs:497-506 | the first failing line's error is the outcome |
| JudgeExec.ParseLineOkIff | tools/src/lib.rs:499-505 | a line is accepted exactly when it holds two tokens, both positions below `n`; the pair is then their values |
| JudgeExec.ParseLineErrors | tools/src/lib.rs:499-505 | errors are reported in order: a missing or rejected first token, then a missing or rejected second token, and "Too many output" for a third token after two accepted ones |
| JudgeExec.AnswersOkIff | tools/src/lib.rs:496-506 | `exec` collects its answers exactly when the child prints at least `n` substantive lines and each of the first `n` is accepted; answer `i` is line `i`'s pair |
| JudgeExec.AnswersTerminated | tools/src/lib.rs:463-465 | end of stream before `n` substantive lines, all accepted, gives "Your program has terminated unexpectedly" |
| JudgeExec.AnswersFirstBadLine | tools/src/lib.rs:497-506 | the first rejected line among the first `n` decides the error |
| JudgeExec.AnswersIgnoresLater | tools/src/lib.rs:497 | output after the `n`-th substantive line is ignored |
| JudgeExec.AnswersSkipNoise | tools/src/lib.rs:471-474 | a blank or `#` line anywhere in the child's output changes nothing |
| JudgeExec.EmptyInstance | tools/src/lib.rs:482-511 | with `n = 0, l = 0`, `exec` reads no line and returns `Ok(0)`, and `parse_output` of an empty output returns the empty table |
| JudgeExec.PairLine | main.cpp:261 | the line `"{a} {b}"` a solution prints for one position, as `print(*final[i])` does at main.py:108 (stated by `PairLineShape` and `ParseLineOfPairLine`) |
| JudgeExec.PairLineShape | tools/src/lib.rs:499 | a printed pair `"{a} {b}"` is one substantive line, with two tokens, both decimal |
| JudgeExec.ParseLineOfPairLine | tools/src/lib.rs:499-505 | `exec` reads back exactly the pair a solution printed, when both are positions |
| JudgeExec.PrintedLines | main.cpp:260-262 | one line per printed pair, as main.py:107-108 prints them |
| JudgeExec.PrintedText | main.cpp:260-262 | the whole text a solution writes: each pair's line followed by `"\n"`, as main.py:107-108 writes it too (stated by `TokensOfPrinted` and `ParseOutputOfPrinted`) |
| JudgeExec.SubstantiveOfClean | tools/src/lib.rs:471-475 | every trimmed, substantive line is read as it is |
| JudgeExec.SubstantiveOfPrinted | tools/src/lib.rs:471-475 | every line of a printed table is read, unchanged |
| JudgeExec.AnswersOfParsed | tools/src/lib.rs:496-506 | lines that each parse to the next pair are collected as exactly those pairs |
| JudgeExec.AnswersOfPrinted | tools/src/lib.rs:496-506 | the interactive judge collects exactly the table the solution printed |
| JudgeExec.TokensOfPairsCons | tools/src/lib.rs:107 | prepending one pair's tokens extends the pairs' token stream |
| JudgeExec.TokensOfPrinted | tools/src/lib.rs:107 | a printed table splits into the decimal tokens of its pairs, in order |
| JudgeExec.ParseOutputOfPairTokens | tools/src/lib.rs:105-117 | the decimal tokens of a valid table's pairs are parsed back as that table |
| JudgeExec.ParseOutputOfPrinted | tools/src/lib.rs:105-117 | the offline judge reads the same table from the printed text |
| JudgeExec.JudgesAgreeOnPrinted | tools/src/lib.rs:482-511 | a table printed line by line gets the same score from the interactive judge as from the offline parser and scorer |
| JudgeExec.Exec | tools/src/lib.rs:482-511 | sends exactly the text `Display` writes for the instance, which reads back as the same instance; the result is the answers' score, or the first error in reading them |
| Arith.SumUpdate | main.cpp:72-73 | overwriting one element changes the sum by the difference |
| Arith.Zeros | main.cpp:70 | `vector<ll>(N, 0)`: `N` zeros, summing to 0 |
| SolutionSpec.CalcScore | main.cpp:69-83 | `calc`'s score `Σ \|work_count[i] − 2·T[i]\|`, never negative (zero exactly when the difference vector is, by `CalcScoreZeroIff`) |
| SolutionSpec.WorkCountUpTo | main.cpp:71-74 | one count per node after every prefix of the first loop |
| SolutionSpec.WorkCountIsSlotLoad | main.cpp:71-74 | `work_count[j]` is `Σ T[i]` over the slots `G[i].first == j` plus over `G[i].second == j`, so a node with both slots equal to `j` counts twice |
| SolutionSpec.WorkCountSum | main.cpp:71-74 | conservation: `Σ work_count = 2·Σ T` |
| SolutionSpec.Sabun | main.cpp:77-81 | one difference `work_count[i] − 2·T[i]` per node |
| SolutionSpec.AbsSum | main.cpp:76-82 | a sum of absolute values is never negative |
| SolutionSpec.SumOfDifference | main.cpp:78 | summing `w[i] − 2·t[i]` is `Σ w − 2·Σ t` |
| SolutionSpec.SabunSumsToZero | main.cpp:77-81 | `Σ sab = 0` |
| SolutionSpec.AbsSumZeroIff | main.cpp:76-82 | `Σ \|s[i]\|` is 0 exactly when every `s[i]` is 0 |
| SolutionSpec.CalcScoreZeroIff | main.cpp:69-83 | `calc` is 0 exactly when every `sab[i]` is 0 |
| SolutionSpec.ScanNode | main.cpp:145 | step `k` of the cyclic scan is a node |
| SolutionSpec.FirstMatch | main.cpp:144-154 | the first scan step whose node names `hataraki`, with no earlier step naming it; or none, when no step does |
| SolutionSpec.MoveTarget | main.cpp:144-154 | the slot the rewrite writes: a node and `.first` or `.second`, and that slot names `hataraki` |
| SolutionSpec.Move | main.cpp:144-154 | the rewrite: one slot naming `hataraki` now names `sabori`, and the table keeps its length (stated by `MoveChangesOneSlot` and `MoveUndo`) |
| SolutionSpec.SetSlot | main.cpp:147-150 | writing one slot sets it and leaves the other |
| SolutionSpec.FirstMatchSkip | main.cpp:144-154 | stepping past a node that does not name `hataraki` keeps the same first match |
| SolutionSpec.MoveTargetAt | main.cpp:144-154 | the first matching node, and `.first` before `.second`, is where the rewrite writes |
| SolutionSpec.MoveTargetNone | main.cpp:144-154 | a scan that ends without a match writes nothing |
| SolutionSpec.ScanCovers | main.cpp:144-145 | the cyclic scan reaches every node |
| SolutionSpec.ModUnique | main.cpp:145 | `a % n` is the remainder in `[0, n)` |
| SolutionSpec.ScanNodeIsMod | main.cpp:145 | `(cut + k) % N` is step `k` of the cyclic scan |
| SolutionSpec.MoveChangesOneSlot | main.cpp:197-210 | the rewrite replaces only the first slot equal to `hataraki`, in scan order, `.first` before `.second`, and leaves every other slot unchanged; if no slot names `hataraki`, the table is unchanged |
| SolutionSpec.MoveInRange | main.cpp:197-210 | rewriting a slot to a node keeps every successor a node |
| SolutionSpec.MoveUndo | main.cpp:224-227 | writing `t_old` back into `(t_i, t_j)` restores exactly the table before the rewrite |
| SolutionSpec.Jun | main.py:48 | `list(range(cut, N)) + list(range(cut))` has `N` entries |
| SolutionSpec.JunIsScanOrder | main.py:48 | Python's `jun` visits the nodes in the order of the C++ `(cut + k) % N` |
| SolutionSpec.DefaultAns | main.cpp:249-250 | every pair of the default `final_ans` lies in `[0, N)` |
| SolutionSpec.CppRem | main.cpp:112 | C++ `%` truncates: strictly between `−n` and `n`, and not negative for a non-negative dividend |
| SolutionSpec.CppIndex | main.cpp:112-113 | the C++ index `(i − sana) % N`, plus `N` when negative (stated by `CppIndexIsFloorMod`) |
| SolutionSpec.CppIndexIsFloorMod | main.cpp:112-113 | the C++ remainder plus the `idx += N` correction equals Python's non-negative `(i − sana) % N` |
| SolutionSpec.InitialGraph | main.cpp:109-116 | the phase-1 table of round `sana`: `((i + sana + 1) % N, tuika[(i − sana) mod N])`, one pair per node (row 27 of `main.py` builds the same list) |
| SolutionSpec.InitialGraphInRange | main.cpp:109-116 | every pair `((i+sana+1)%N, tuika[idx])` of a phase-1 table lies in `[0, N)` |
| SolutionSpec.CppAccept | main.cpp:217-220 | C++ keeps the rewrite when `improved ^ noise`: an improvement unless the noise draw is at least 95, a worsening only if it is |
| SolutionSpec.Xor | main.py:97 | Python's `^` on non-negative integers, bit by bit (stated by `XorZero` and `XorBounds`) |
| SolutionSpec.PyAccept | main.py:97 | Python's `sc > new_sc ^ r >= 95`, read as `sc > x and x >= 95` with `x = new_sc ^ r` (stated by `PyAcceptZeroDraw` and `PyAcceptNearScore`) |
| SolutionSpec.XorZero | main.py:97 | `x ^ 0 == x` |
| SolutionSpec.PyAcceptZeroDraw | main.py:97 | with a zero draw Python accepts only an improvement to a score of at least 95 |
| SolutionSpec.AcceptDisagree | main.py:97 | C++ keeps an improvement from 200 to 50 with no noise, and Python drops it |
| SolutionSpec.XorBounds | main.py:97 | `a − b ≤ a ^ b ≤ a + b` |
| SolutionSpec.PyAcceptNearScore | main.py:97 | Python never accepts a table worse by 100 or more, nor a new score below `95 − r`, so it keeps a perfect table only on a draw of at least 95 |
| SolutionSpec.Priority | main.cpp:88-99 | a node's key in the queue after earlier picks: its target less 2500 for each time it was picked (main.py:19-25 keeps its negation) |
| SolutionSpec.LexLe | main.cpp:94 | `std::pair` order, and Python's tuple order at main.py:23: by the first component, then by the second |
| SolutionSpec.CppTop | main.cpp:94 | `pq.top()`: the largest `(priority, idx)` among all nodes, each priority being the target less 2500 per earlier pick |
| SolutionSpec.PyTop | main.py:23 | `heappop(TT)`: the smallest `(−priority, idx)` among all nodes |
| SolutionSpec.CppPicks | main.cpp:86-101 | `tuika` in C++: `N` picks, each the queue top given the picks before it |
| SolutionSpec.PyPicks | main.py:19-25 | `tuika` in Python: `N` picks, each the heap minimum given the picks before it |
| SolutionSpec.Count | main.cpp:93-100 | no node has been picked more often than there have been picks |
| SolutionSpec.CountSnoc | main.cpp:98-99 | one more pick adds one to that node's count, and nothing to the others |
| SolutionSpec.TuikaTieBreak | main.cpp:94 | for any targets and earlier picks, of two nodes `i < j` with equal priority the C++ top is never `i` and the Python top never `j` |
| SolutionSpec.TuikaTieBreakExample | main.py:19-25 | with targets `[5, 5]`, C++ picks `[1, 0]` and Python `[0, 1]` |
| SolutionSpec.CppTopUnique | main.cpp:94 | at most one node is the queue top, since no two entries share an index |
| SolutionSpec.PyTopUnique | main.py:23 | at most one node is the heap minimum, since no two entries share an index |
| SolutionSpec.CppPicksAgree | main.cpp:93-100 | two sequences of C++ picks agree on every prefix |
| SolutionSpec.PyPicksAgree | main.py:22-25 | two sequences of Python picks agree on every prefix |
| SolutionSpec.CppPicksUnique | main.cpp:86-101 | the targets determine the C++ `tuika` |
| SolutionSpec.PyPicksUnique | main.py:19-25 | the targets determine the Python `tuika` |
| SolutionSpec.CppPicksInRange | main.cpp:86-101 | every C++ pick is a node |
| SolutionSpec.PyPicksInRange | main.py:19-25 | every Python pick is a node |
| SolutionSpec.RecordBest | main.cpp:121-124 | the record step on values: the stored score never rises; the record is kept, or replaced by the current table and its score exactly when that score is lower |
| SolutionSpec.InitialBest | main.cpp:249-251 | the starting record: the default table, every pair in `[0, N)`, with score `1e14` |
| SolutionSpec.Scored | main.cpp:121-124 | what the record keeps true: its score is that of its table, unless it is still the starting record |
| SolutionCpp.Calc | main.cpp:69-83 | fills `sab` with `work_count[i] − 2·T[i]` and returns `Σ \|sab[i]\|` |
| SolutionCpp.MaxAt | main.cpp:94 | the index of an entry no other entry exceeds in `std::pair` order |
| SolutionCpp.PrepareTuika | main.cpp:86-101 | `N` indices, each the top `(value, idx)` of what is left (ties go to the larger `idx`), each popped node re-entering 2500 lower |
| SolutionCpp.ApplyMove | main.cpp:194-210 | the rewrite of `SolutionSpec.Move`, and `found` exactly when a slot named `hataraki`; `t_i`, `t_j` give the slot and `t_old` is `hataraki`, and they stay −1 otherwise |
| SolutionCpp.Phase1Rounds | main.cpp:119-155 | the rounds on one phase-1 table, on values: the table stays in range, the record stays `Scored` (it scores its table unless it is still the starting record), and its score never rises; each round records, then rewrites (stated by `RoundsNext`) |
| SolutionCpp.RoundsNext | main.cpp:119-155 | one more round records the table left by the earlier rounds, then rewrites it |
| SolutionCpp.Phase1 | main.cpp:107-156 | `generate_initial_solution` on values: table `sana` is built by `InitialGraph` and run through its rounds, with the record carried from table to table; the record stays `Scored` and never rises |
| SolutionCpp.Phase2Step | main.cpp:194-228 | one round's change to `ans`: the rewrite when a slot matched and `improved ^ noise`, otherwise the same table; every successor stays a node |
| SolutionCpp.Phase2 | main.cpp:161-230 | `run_local_search` on values: each round records the current table, then takes a step; the table stays in range and the record stays `Scored` and never rises |
| SolutionCpp.Phase2Next | main.cpp:167-229 | one more round records the table left by the earlier rounds, then takes `Phase2Step` on it |
| SolutionCpp.Printed | main.cpp:247-262 | what `main` prints: `final_ans` after phase 1 from the default record, then phase 2 from a copy of that record; every successor in `[0, N)` |
| SolutionCpp.Search.constructor | main.cpp:249-251 | the default table and `ideal_score = 1e14` |
| SolutionCpp.Search.Record | main.cpp:120-124 | if `sc < ideal_score`, `final_ans` becomes a copy of the current table and `ideal_score` becomes `sc`; otherwise both are kept |
| SolutionCpp.Search.BuildGraph | main.cpp:109-116 | builds exactly the phase-1 table of round `sana`, every pair in `[0, N)` |
| SolutionCpp.Search.Phase1Round | main.cpp:120-154 | one phase-1 round: `ans` becomes the `Move` rewrite of itself and the record becomes `RecordBest` of the old record and the old table; the table stays in range |
| SolutionCpp.Search.TableRounds | main.cpp:119-155 | the 1000 rounds on table `sana`: the table and the record end exactly as `Phase1Rounds` gives from their old values and the draws |
| SolutionCpp.Search.InitialSolution | main.cpp:104-158 | `final_ans` and `ideal_score` end exactly as `Phase1` computes from their old values; `final_ans` stays in range, `ideal_score` never increases, and the returned copy is `final_ans` |
| SolutionCpp.Search.LocalSearchRound | main.cpp:194-228 | the table changes to the rewrite exactly when a slot matched and `improved ^ noise`, and is otherwise restored; `sc == calc(ans)` and `sab` is `ans`'s difference vector afterwards |
| SolutionCpp.Search.Phase2Round | main.cpp:175-228 | one phase-2 round: the record becomes `RecordBest` of the old record and the old table, `ans` becomes `Phase2Step` of the old table, and `sc`, `sab` come back as its score and difference vector |
| SolutionCpp.Search.LocalSearch | main.cpp:161-230 | `ans`, `final_ans` and `ideal_score` end exactly as `Phase2` computes from their old values, with the loop invariant that `sc` is `calc(ans)` and `sab` its difference vector; both tables stay in range and `ideal_score` never increases |
| SolutionCpp.Solve | main.cpp:232-262 | the printed table is `Printed` of the one `tuika` that `CppPicks` allows, so the targets and the draws fix it; every successor in `[0, N)` |
| SolutionPy.Calc | main.py:6-16 | returns `(Σ \|work_count[i] − 2T[i]\|, sabun)` with `sabun[i] = work_count[i] − 2T[i]` |
| SolutionPy.MinAt | main.py:23 | the index of an entry that no other entry is below in tuple order |
| SolutionPy.PrepareTuika | main.py:19-25 | `N` indices, each the smallest `(-value, idx)` left (ties go to the smaller `idx`), each popped node re-entering with `p + 2500` |
| SolutionPy.Rewrite | main.py:80-95 | the rewrite of `SolutionSpec.Move`; `temp` is `(i, j, hataraki)` for the rewritten slot, or `(0, 0, ans[0][0])` when nothing matched |
| SolutionPy.Phase1Rounds | main.py:28-60 | the rounds on one phase-1 list, on values: once `final = ans` has run, `final` is that list and ends as the rewritten list; until then `final` and `ideal` are unchanged; `ideal` never rises and both lists stay in range |
| SolutionPy.RoundsSnoc | main.py:28-60 | one more round scores the list the earlier rounds left, takes it as `final` if it beats `ideal`, then rewrites it |
| SolutionPy.Phase1Snoc | main.py:26-60 | one more list: list `k` is in range, and phase 1 over the first `k + 1` lists is the rounds on list `k` from where the first `k` lists left `final` and `ideal` |
| SolutionPy.Phase1 | main.py:26-60 | the 80 lists of phase 1 on values: list `sana` is built by `InitialGraph` and run through its rounds; `final` stays in range and `ideal` never rises |
| SolutionPy.Phase2Step | main.py:80-104 | one round's change to `ans`: the rewrite when `sc > (new_sc ^ r) >= 95`, otherwise the same list; every successor stays a node |
| SolutionPy.Phase2 | main.py:62-104 | the second phase on values, where `ans` is `final`: the list the steps end on, and `ideal` never rises |
| SolutionPy.Phase2Snoc | main.py:65-104 | one more round: the second phase over the first `k + 1` draws is `Phase2Step` on where the first `k` draws left the list, with `ideal` lowered to that list's score when it is below |
| SolutionPy.Phase2IgnoresIdeal | main.py:65-68 | in the second phase `ideal` has no say in the list `final` ends as |
| SolutionPy.Printed | main.py:17-108 | what the script prints: `final` after phase 1 from the default list and `10**14`, then phase 2; every successor in `[0, N)` |
| SolutionPy.PrintedIs | main.py:62-108 | phase 2 run from where phase 1 ends is what the script prints |
| SolutionPy.Program.constructor | main.py:17-18 | the default `final` and `ideal = 10**14` |
| SolutionPy.Program.InitialRound | main.py:30-60 | if `sc < ideal`, `final` becomes the list `ans` itself and `ideal` becomes `sc`; the rewrite then applies to `ans`, and through it to `final` whenever they are the same list |
| SolutionPy.Program.TableRounds | main.py:26-60 | the body of `for sana in range(80)`: a new list, then rounds that leave `final` and `ideal` exactly as `Phase1Rounds` gives; `final` is either the same reference or the new list |
| SolutionPy.Program.InitialSolution | main.py:26-60 | `final` and `ideal` end exactly as `Phase1` computes from their old values; `final` is the old reference or one of the phase-1 lists, it stays in range, and `ideal` never increases |
| SolutionPy.Program.LocalSearchRound | main.py:66-104 | with `ans` being `final`: the table changes to the rewrite exactly when `sc > (new_sc ^ r) >= 95`, and only then is `sc` updated; otherwise writing `temp` back restores it |
| SolutionPy.Program.LocalSearch | main.py:62-104 | `ans = final` makes one list, so `final` and `ideal` end exactly as `Phase2` computes: `final` is the table the search ended on and `sc` is its score; `sab` keeps the vector of the starting table; `ideal` never increases |
| SolutionPy.Solve | main.py:17-108 | the printed table is `Printed` of the one `tuika` that `PyPicks` allows, so the targets and the draws fix it; every successor in `[0, N)` |

## Left out

- The visualiser (`vis`, `vis_default`, `color`, `rect`, `group`, tools/src/lib.rs:185-454) is not modelled. It draws SVG with floating-point arithmetic, and its counting loop repeats the replay.
- The generator `gen` (tools/src/lib.rs:122-143) is not modelled. It is a ChaCha20 rejection loop. `JudgeScore.JudgeScoreBounds` states the bound it makes use of (`Σt = l`).
- `SetMinMax` and `mat!` (tools/src/lib.rs:15-43) are not modelled. They are helpers used only by the colour ramp.
- JudgeExec.Exec: the child process is not modelled. The instance text is a parameter, and so are the child's output lines. The writes to the child, the flushes, `p.wait()` and the local echo (`print!` of each line) are left out.
- JudgeExec.ChildStdout.ReadLine: a read error and invalid UTF-8 end the stream, like end of file. The child's output is given as lines of characters.
- JudgeOutput.ParseOutput: with `n = 0` it requires an output with no tokens. With `n = 0` and at least one token, `input.n - 1` underflows on the first `read` (lib.rs:109): a panic in a debug build, a bound of 2^64 − 1 in a release build. That input is excluded. With no tokens the loop never runs and the result is the empty table (`JudgeExec.EmptyInstance`).
- JudgeExec.Exec: with `n = 0` it requires `l = 0`. `for _ in 0..input.n` then runs zero times and the result is `Ok(0)` (`JudgeExec.EmptyInstance`). With `n = 0` and `l > 0`, `compute_score` indexes an empty table and panics, and that input is excluded.
- JudgeExec.Exec: it requires `ParseInput(text).Some?`. On malformed standard input `input!` in `parse_input` panics (tools/src/lib.rs:65-74, 485), and that path is not modelled.
- JudgeExec.Answers: it is stated over any strings. Only the entry points require lines without a line break (`JudgeExec.ChildStdout.constructor`, `JudgeExec.Exec`), as `read_line` delivers them.
- JudgeExec.ParseLine, JudgeOutput.ParseOutputOkIff and the other per-token lemmas require `n ≥ 1`: they speak of the bound `n - 1`, which the source evaluates only in that case.
- JudgeInput.ParseInput: a failure of `input!` is `None` rather than a panic. Tokens are whitespace-separated decimal naturals, read as `parse_output` reads them, and the internals of the proconio reader are not modelled.
- JudgeScore.ComputeScoreDetails: the `i64` arithmetic of the score is unbounded here. No overflow occurs within the problem's limits.
- SolutionCpp.Calc: `long long` sums are unbounded here, and so are Python's integers.
- SolutionCpp.PrepareTuika, SolutionPy.PrepareTuika: the binary heap's layout is not modelled. The queue is one entry per node, held at that node's position, and the pop takes its maximum (C++) or minimum (Python). The order of pops is the same, since both heaps pop an extreme entry and entries never tie, their indices being distinct.
- SolutionCpp.Search.LocalSearch: the time-bounded `while (true)` loop (main.cpp:167-173) is one round per given draw. The clock check every 128 rounds, `TimeKeeperDouble` and `Random` (main.cpp:8-57) are left out, and so is the seeding (main.cpp:240-241).
- The 95%-probability selection scans for `hataraki` and `sabori` (main.cpp:127-139, main.cpp:180-192, main.py:34-44, main.py:69-79) are not modelled. Their outcomes are parameters, within `[0, N)`.
- SolutionPy.Program.InitialRound: phase 1's `temp = (i, j, sabori)` (main.py:56) is not kept. It is never read. The rewrite records phase 2's `temp` instead.
- SolutionCpp.Search.InitialSolution: the returned copy of `final_ans` is discarded by `main` and not modelled beyond being `final_ans`.
- Console I/O (`cin`, `cout`, `input()`, `print`) is not modelled. The targets are a parameter and the printed table is the result. The solutions require `N ≥ 1`.
