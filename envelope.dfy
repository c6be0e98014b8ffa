/** The envelope formatter: every line of a Sentry envelope is trimmed,
    blank lines are kept as blank lines, every other line must hold one JSON
    value and is replaced by its indented form, and the first line that is
    not JSON aborts the whole call.

    JSON itself is not modelled: `parse` stands for decoding one line with
    encoding/json (a value, or the decoder's syntax diagnostic) and `pretty`
    for re-encoding a value with two-space indentation. */
module Envelope {
  import opened Text
  import opened Scanning

  datatype Option<T> = None | Some(value: T)

  /** What the JSON decoder makes of one trimmed line. */
  datatype ParseResult<V> = Parsed(value: V) | SyntaxError(reason: string)

  /** The formatter's one error kind: the 1-based number of the first line
      that is not JSON, and the decoder's diagnostic for it. */
  datatype FormatError = InvalidJson(line: nat, reason: string)

  /** The result of formatting a whole envelope. */
  datatype Outcome = Formatted(text: string) | Failed(error: FormatError)

  /** What one scanned line contributes: output text, or a parse failure. */
  datatype LineOutput = Emit(text: string) | Reject(reason: string)

  /** The contribution of a single scanned line. */
  function Piece<V>(line: string, parse: string -> ParseResult<V>, pretty: V -> string): LineOutput
  {
    var trimmed := TrimSpace(line);
    if trimmed == "" then Emit("\n")
    else match parse(trimmed)
      case Parsed(v) => Emit(pretty(v) + "\n\n")
      case SyntaxError(reason) => Reject(reason)
  }

  /** The contributions of scanned lines, one per line, in order. */
  function Pieces<V>(lines: seq<string>, parse: string -> ParseResult<V>, pretty: V -> string): (ps: seq<LineOutput>)
    ensures |ps| == |lines|
    ensures forall k :: 0 <= k < |lines| ==> ps[k] == Piece(lines[k], parse, pretty)
  {
    seq(|lines|, k requires 0 <= k < |lines| => Piece(lines[k], parse, pretty))
  }

  /** The line loop over already classified lines, one line after the other:
      the output so far grows by each line's contribution until a line is
      rejected, whose number (counting every line before it, blank or not)
      is reported. */
  function Assemble(pieces: seq<LineOutput>): (r: Outcome)
    ensures r.Failed? ==> 1 <= r.error.line <= |pieces|
  {
    if pieces == [] then Formatted("")
    else
      match Assemble(pieces[..|pieces| - 1])
      case Failed(e) => Failed(e)
      case Formatted(done) =>
        match pieces[|pieces| - 1]
        case Emit(p) => Formatted(done + p)
        case Reject(reason) => Failed(InvalidJson(|pieces|, reason))
  }

  /** What formatting a sequence of scanned lines yields. */
  function FormatLines<V>(lines: seq<string>, parse: string -> ParseResult<V>, pretty: V -> string): Outcome
  {
    Assemble(Pieces(lines, parse, pretty))
  }

  /** What formatting an envelope yields. */
  function Format<V>(envelope: string, parse: string -> ParseResult<V>, pretty: V -> string): Outcome
  {
    FormatLines(ScanLines(envelope), parse, pretty)
  }

  /** The text of the error the formatter returns. */
  function ErrorMessage(e: FormatError): string
  {
    "line " + DecimalString(e.line) + " is not valid JSON: " + e.reason
  }

  /** k newline characters. */
  function Newlines(k: nat): (s: string)
    ensures |s| == k && forall i :: 0 <= i < k ==> s[i] == '\n'
  {
    seq(k, i => '\n')
  }

  /** Every line is accepted. */
  predicate AllEmitted(pieces: seq<LineOutput>)
  {
    forall k :: 0 <= k < |pieces| ==> pieces[k].Emit?
  }

  /** The contributions of accepted lines, concatenated front to back: an
      independent reference definition of the formatter's output. */
  function Concatenated(pieces: seq<LineOutput>): string
    requires AllEmitted(pieces)
  {
    if pieces == [] then "" else pieces[0].text + Concatenated(pieces[1..])
  }

  // ---------------------------------------------------------------------
  // What a single line contributes

  /** A line contributes exactly one newline if and only if it is blank
      (all white space): blank lines are kept, never dropped. */
  lemma BlankLineIff<V>(line: string, parse: string -> ParseResult<V>, pretty: V -> string)
    ensures Piece(line, parse, pretty) == Emit("\n") <==> AllSpace(line)
  {
    TrimSpaceEmptyIff(line);
    var trimmed := TrimSpace(line);
    if trimmed != "" && parse(trimmed).Parsed? {
      assert |pretty(parse(trimmed).value) + "\n\n"| >= 2;
    }
  }

  /** A line that is not blank and parses contributes its indented form
      followed by a blank line; one that does not parse is rejected with the
      decoder's diagnostic. */
  lemma NonBlankLine<V>(line: string, parse: string -> ParseResult<V>, pretty: V -> string)
    requires !AllSpace(line)
    ensures parse(TrimSpace(line)).Parsed? ==>
              Piece(line, parse, pretty) == Emit(pretty(parse(TrimSpace(line)).value) + "\n\n")
    ensures parse(TrimSpace(line)).SyntaxError? ==>
              Piece(line, parse, pretty) == Reject(parse(TrimSpace(line)).reason)
  {
    TrimSpaceEmptyIff(line);
  }

  /** Dropping a trailing carriage return, as the scanner does, never
      changes a line's contribution. */
  lemma PieceIgnoresCR<V>(line: string, parse: string -> ParseResult<V>, pretty: V -> string)
    ensures Piece(DropCR(line), parse, pretty) == Piece(line, parse, pretty)
  {
    if line != DropCR(line) {
      TrimSpaceIgnoresTrailingCR(DropCR(line));
    }
  }

  // ---------------------------------------------------------------------
  // The line loop

  /** Once a prefix fails, later lines are never examined: appending any
      lines leaves the error unchanged. */
  lemma {:induction false} FailureIsFinal(a: seq<LineOutput>, b: seq<LineOutput>)
    requires Assemble(a).Failed?
    ensures Assemble(a + b) == Assemble(a)
    decreases |b|
  {
    if b == [] {
      assert a + b == a;
    } else {
      var front := b[..|b| - 1];
      FailureIsFinal(a, front);
      assert (a + b)[..|a + b| - 1] == a + front;
    }
  }

  /** The loop splits over concatenation: after an accepted prefix, the
      output of the rest is appended in order, and an error in the rest is
      reported with its line number shifted by the prefix's line count
      (blank lines included). */
  lemma {:induction false} AssembleAppend(a: seq<LineOutput>, b: seq<LineOutput>)
    requires Assemble(a).Formatted?
    ensures Assemble(b).Formatted? ==>
              Assemble(a + b) == Formatted(Assemble(a).text + Assemble(b).text)
    ensures Assemble(b).Failed? ==>
              Assemble(a + b) == Failed(InvalidJson(|a| + Assemble(b).error.line, Assemble(b).error.reason))
    decreases |b|
  {
    if b == [] {
      assert a + b == a;
    } else {
      var front, last := b[..|b| - 1], b[|b| - 1];
      var ab := a + b;
      assert ab[..|ab| - 1] == a + front;
      assert ab[|ab| - 1] == last;
      AssembleAppend(a, front);
      match Assemble(front)
      case Failed(e) =>
      case Formatted(tf) =>
        match last
        case Emit(p) =>
          assert (Assemble(a).text + tf) + p == Assemble(a).text + (tf + p);
        case Reject(r) =>
    }
  }

  /** Success is exactly "every line is accepted", and the output is then the
      concatenation of the lines' contributions in input order. */
  lemma {:induction false} AssembleSuccessIff(pieces: seq<LineOutput>)
    ensures Assemble(pieces).Formatted? <==> AllEmitted(pieces)
    ensures AllEmitted(pieces) ==> Assemble(pieces) == Formatted(Concatenated(pieces))
    decreases |pieces|
  {
    if pieces != [] {
      var first, rest := pieces[0], pieces[1..];
      AssembleSuccessIff(rest);
      assert [first] + rest == pieces;
      assert [first][..0] == [];
      if first.Emit? {
        AssembleAppend([first], rest);
        if !AllEmitted(rest) {
          var k :| 0 <= k < |rest| && !rest[k].Emit?;
          assert pieces[k + 1] == rest[k];
        }
      } else {
        FailureIsFinal([first], rest);
      }
    }
  }

  /** Fail-fast, both directions: the loop reports line n with reason r
      exactly when line n (1-based) is rejected with r and every line before
      it is accepted. */
  lemma {:induction false} AssembleFailureIff(pieces: seq<LineOutput>, n: nat, reason: string)
    ensures Assemble(pieces) == Failed(InvalidJson(n, reason))
            <==> (1 <= n <= |pieces| && pieces[n - 1] == Reject(reason) && AllEmitted(pieces[..n - 1]))
    decreases |pieces|
  {
    if pieces != [] {
      var front := pieces[..|pieces| - 1];
      AssembleFailureIff(front, n, reason);
      AssembleSuccessIff(front);
      if 1 <= n <= |front| {
        assert pieces[..n - 1] == front[..n - 1];
        assert pieces[n - 1] == front[n - 1];
        if front[n - 1] == Reject(reason) {
          assert !AllEmitted(front);
        }
      } else if n == |pieces| {
        assert pieces[..n - 1] == front;
      }
    }
  }

  /** Lines that each contribute one newline give one newline per line. */
  lemma {:induction false} NewlinePiecesGiveNewlines(pieces: seq<LineOutput>)
    requires forall k :: 0 <= k < |pieces| ==> pieces[k] == Emit("\n")
    ensures Assemble(pieces) == Formatted(Newlines(|pieces|))
    decreases |pieces|
  {
    if pieces != [] {
      var front := pieces[..|pieces| - 1];
      NewlinePiecesGiveNewlines(front);
      assert Newlines(|front|) + "\n" == Newlines(|pieces|);
    }
  }

  // ---------------------------------------------------------------------
  // The line loop stated on scanned lines

  /** Formatting succeeds exactly when every line is blank or parses, and
      the output is then every line's contribution, in input order. */
  lemma FormatLinesSuccess<V>(lines: seq<string>, parse: string -> ParseResult<V>, pretty: V -> string)
    ensures FormatLines(lines, parse, pretty).Formatted?
            <==> forall k :: 0 <= k < |lines| ==> Piece(lines[k], parse, pretty).Emit?
    ensures FormatLines(lines, parse, pretty).Formatted? ==>
              FormatLines(lines, parse, pretty).text == Concatenated(Pieces(lines, parse, pretty))
  {
    AssembleSuccessIff(Pieces(lines, parse, pretty));
  }

  /** Formatting fails with line n and reason r exactly when line n (1-based,
      blank lines counted) does not parse, giving r, and every earlier line
      is blank or parses. */
  lemma FormatLinesFailure<V>(lines: seq<string>, n: nat, reason: string, parse: string -> ParseResult<V>, pretty: V -> string)
    ensures FormatLines(lines, parse, pretty) == Failed(InvalidJson(n, reason))
            <==> (1 <= n <= |lines|
                  && Piece(lines[n - 1], parse, pretty) == Reject(reason)
                  && forall k :: 0 <= k < n - 1 ==> Piece(lines[k], parse, pretty).Emit?)
  {
    var ps := Pieces(lines, parse, pretty);
    AssembleFailureIff(ps, n, reason);
    if 1 <= n <= |ps| {
      assert forall k :: 0 <= k < n - 1 ==> ps[..n - 1][k] == ps[k];
    }
  }

  /** One more line: its contribution is appended to the output so far, or,
      if it is rejected, the error names it by its 1-based position. */
  lemma FormatLinesStep<V>(lines: seq<string>, line: string, parse: string -> ParseResult<V>, pretty: V -> string)
    requires FormatLines(lines, parse, pretty).Formatted?
    ensures Piece(line, parse, pretty).Emit? ==>
              FormatLines(lines + [line], parse, pretty)
                == Formatted(FormatLines(lines, parse, pretty).text + Piece(line, parse, pretty).text)
    ensures Piece(line, parse, pretty).Reject? ==>
              FormatLines(lines + [line], parse, pretty)
                == Failed(InvalidJson(|lines| + 1, Piece(line, parse, pretty).reason))
  {
    var ps := Pieces(lines + [line], parse, pretty);
    PiecesAppend(lines, [line], parse, pretty);
    assert ps[..|lines|] == Pieces(lines, parse, pretty);
  }

  /** Growing a prefix by one element. */
  lemma PrefixSnoc<T>(s: seq<T>, k: nat)
    requires k < |s|
    ensures s[..k + 1] == s[..k] + [s[k]]
  {
  }

  /** One more line of the loop: an accepted line extends the output, and a
      rejected one decides the outcome for all the lines. */
  lemma PrefixStep<V>(lines: seq<string>, k: nat, result: string,
                      parse: string -> ParseResult<V>, pretty: V -> string)
    requires k < |lines|
    requires FormatLines(lines[..k], parse, pretty) == Formatted(result)
    ensures Piece(lines[k], parse, pretty).Emit? ==>
              FormatLines(lines[..k + 1], parse, pretty) == Formatted(result + Piece(lines[k], parse, pretty).text)
    ensures Piece(lines[k], parse, pretty).Reject? ==>
              FormatLines(lines, parse, pretty) == Failed(InvalidJson(k + 1, Piece(lines[k], parse, pretty).reason))
  {
    PrefixSnoc(lines, k);
    FormatLinesStep(lines[..k], lines[k], parse, pretty);
    if Piece(lines[k], parse, pretty).Reject? {
      FirstRejectDecides(lines, k, Piece(lines[k], parse, pretty).reason, parse, pretty);
    }
  }

  /** The lines from k on are the token just scanned followed by the rest. */
  lemma NextLine(lines: seq<string>, k: nat, token: string, rest: seq<string>)
    requires k <= |lines| && lines[k..] == [token] + rest
    ensures k < |lines| && lines[k] == token && lines[k + 1..] == rest
  {
    assert lines[k..][0] == token;
    assert lines[k + 1..] == lines[k..][1..];
  }

  /** The first rejected line decides the outcome, whatever follows it. */
  lemma FirstRejectDecides<V>(lines: seq<string>, k: nat, reason: string, parse: string -> ParseResult<V>, pretty: V -> string)
    requires k < |lines|
    requires FormatLines(lines[..k], parse, pretty).Formatted?
    requires Piece(lines[k], parse, pretty) == Reject(reason)
    ensures FormatLines(lines, parse, pretty) == Failed(InvalidJson(k + 1, reason))
  {
    assert lines[..k + 1] == lines[..k] + [lines[k]];
    FormatLinesStep(lines[..k], lines[k], parse, pretty);
    assert lines == lines[..k + 1] + lines[k + 1..];
    PiecesAppend(lines[..k + 1], lines[k + 1..], parse, pretty);
    FailureIsFinal(Pieces(lines[..k + 1], parse, pretty), Pieces(lines[k + 1..], parse, pretty));
  }

  /** Classifying lines commutes with concatenating them. */
  lemma PiecesAppend<V>(a: seq<string>, b: seq<string>, parse: string -> ParseResult<V>, pretty: V -> string)
    ensures Pieces(a + b, parse, pretty) == Pieces(a, parse, pretty) + Pieces(b, parse, pretty)
  {
  }

  /** Lines that are all blank give one newline each and no error. */
  lemma BlankLinesGiveNewlines<V>(lines: seq<string>, parse: string -> ParseResult<V>, pretty: V -> string)
    requires forall k :: 0 <= k < |lines| ==> AllSpace(lines[k])
    ensures FormatLines(lines, parse, pretty) == Formatted(Newlines(|lines|))
  {
    var ps := Pieces(lines, parse, pretty);
    forall k | 0 <= k < |ps|
      ensures ps[k] == Emit("\n")
    {
      BlankLineIff(lines[k], parse, pretty);
    }
    NewlinePiecesGiveNewlines(ps);
  }

  // ---------------------------------------------------------------------
  // Whole envelopes

  /** The empty envelope has no lines: empty output and no error. */
  lemma EmptyEnvelope<V>(parse: string -> ParseResult<V>, pretty: V -> string)
    ensures Format("", parse, pretty) == Formatted("")
  {
  }

  /** k newline-terminated whitespace-only lines give exactly k newlines. */
  lemma WhitespaceLines<V>(lines: seq<string>, parse: string -> ParseResult<V>, pretty: V -> string)
    requires forall k :: 0 <= k < |lines| ==> '\n' !in lines[k] && AllSpace(lines[k])
    ensures Format(JoinTerminated(lines), parse, pretty) == Formatted(Newlines(|lines|))
  {
    var scanned := ScanLines(JoinTerminated(lines));
    ScanJoinTerminated(lines);
    forall k | 0 <= k < |scanned|
      ensures AllSpace(scanned[k])
    {
      assert scanned[k] == DropCR(lines[k]);
    }
    BlankLinesGiveNewlines(scanned, parse, pretty);
  }

  /** Any envelope made only of white space formats without error, to one
      newline per scanned line; a non-empty one has at least one line. */
  lemma WhitespaceEnvelope<V>(envelope: string, parse: string -> ParseResult<V>, pretty: V -> string)
    requires AllSpace(envelope)
    ensures Format(envelope, parse, pretty) == Formatted(Newlines(|ScanLines(envelope)|))
    ensures envelope != "" ==> |ScanLines(envelope)| >= 1
  {
    ScanLinesOfSpace(envelope);
    BlankLinesGiveNewlines(ScanLines(envelope), parse, pretty);
  }

  /** The shape of the fail-fast case `{"a":1}` / `not json` / `{"b":2}`:
      with an accepted first line and a rejected second line, the error names
      line 2, whatever follows. */
  lemma FailFastOnSecondLine<V>(first: string, second: string, rest: string, reason: string,
                                parse: string -> ParseResult<V>, pretty: V -> string)
    requires '\n' !in first && '\n' !in second
    requires Piece(first, parse, pretty).Emit?
    requires Piece(second, parse, pretty) == Reject(reason)
    ensures Format(first + "\n" + (second + "\n" + rest), parse, pretty) == Failed(InvalidJson(2, reason))
  {
    ScanTwoLines(first, second, rest);
    PieceIgnoresCR(first, parse, pretty);
    PieceIgnoresCR(second, parse, pretty);
    SecondLineRejected([DropCR(first), DropCR(second)] + ScanLines(rest), reason, parse, pretty);
  }

  /** On scanned lines: an accepted first line and a rejected second line
      fail at line 2. */
  lemma SecondLineRejected<V>(lines: seq<string>, reason: string,
                              parse: string -> ParseResult<V>, pretty: V -> string)
    requires |lines| >= 2
    requires Piece(lines[0], parse, pretty).Emit?
    requires Piece(lines[1], parse, pretty) == Reject(reason)
    ensures FormatLines(lines, parse, pretty) == Failed(InvalidJson(2, reason))
  {
    assert lines[..0] == [];
    PrefixStep(lines, 0, "", parse, pretty);
    PrefixStep(lines, 1, Piece(lines[0], parse, pretty).text, parse, pretty);
  }

  /** The error message keeps the line number and the diagnostic
      recoverable: different errors give different messages. */
  lemma ErrorMessageInjective(e1: FormatError, e2: FormatError)
    requires ErrorMessage(e1) == ErrorMessage(e2)
    ensures e1 == e2
  {
    var d1, d2 := DecimalString(e1.line), DecimalString(e2.line);
    var m := ErrorMessage(e1);
    var tail := " is not valid JSON: ";
    assert m == "line " + d1 + tail + e1.reason;
    assert m == "line " + d2 + tail + e2.reason;
    // The first character after the digits is a space, never a digit.
    assert |d1| == |d2| by {
      assert m[5 + |d1|] == ' ' && m[5 + |d2|] == ' ';
    }
    assert d1 == m[5..5 + |d1|] == d2;
    DecimalStringInjective(e1.line, e2.line);
    assert e1.reason == m[5 + |d1| + |tail|..] == e2.reason;
  }

  // ---------------------------------------------------------------------
  // The formatter itself

  /** formatEnvelope: scans the envelope line by line, counting every line,
      writing a newline for each blank line and the indented JSON plus a
      blank line for each other line, and returning on the first line that
      does not parse. On failure the output is empty. */
  method FormatEnvelope<V>(envelope: string, parse: string -> ParseResult<V>, pretty: V -> string)
    returns (formatted: string, err: Option<FormatError>)
    ensures err.None? ==> Format(envelope, parse, pretty) == Formatted(formatted)
    ensures err.Some? ==> Format(envelope, parse, pretty) == Failed(err.value) && formatted == ""
  {
    var result := "";
    var scanner := new LineScanner(envelope);
    var lineNum := 0;
    ghost var lines := ScanLines(envelope);
    var more := scanner.Scan();
    if more {
      NextLine(lines, 0, scanner.token, scanner.pending);
    }
    assert lines[..0] == [];
    while more
      invariant scanner.Valid()
      invariant lineNum <= |lines|
      invariant more ==> lineNum < |lines| && lines[lineNum] == scanner.token
                         && scanner.pending == lines[lineNum + 1..]
      invariant !more ==> lineNum == |lines|
      invariant FormatLines(lines[..lineNum], parse, pretty) == Formatted(result)
      decreases |scanner.pending| + (if more then 1 else 0)
    {
      var token := scanner.Text();
      var line := TrimSpace(token);
      PrefixStep(lines, lineNum, result, parse, pretty);
      lineNum := lineNum + 1;
      if line == "" {
        assert Piece(token, parse, pretty) == Emit("\n");
        result := result + "\n";
      } else {
        match parse(line)
        case SyntaxError(reason) =>
          assert Piece(token, parse, pretty) == Reject(reason);
          return "", Some(InvalidJson(lineNum, reason));
        case Parsed(v) =>
          assert Piece(token, parse, pretty) == Emit(pretty(v) + "\n\n");
          result := result + (pretty(v) + "\n\n");
      }
      more := scanner.Scan();
      if more {
        NextLine(lines, lineNum, scanner.token, scanner.pending);
      }
    }
    assert lines[..lineNum] == lines;
    return result, None;
  }
}
