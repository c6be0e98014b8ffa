/** Line splitting as done by a bufio.Scanner with its default split
    function ScanLines: tokens end at '\n', a trailing '\r' is dropped from
    each token, a final line without a newline is still a token, and a
    trailing newline does not produce an extra empty token. */
module Scanning {
  import opened Text

  /** Position of the first '\n' in s, or |s| when there is none. */
  function NewlineIndex(s: string): (i: nat)
    ensures i <= |s|
  {
    if s == [] || s[0] == '\n' then 0 else 1 + NewlineIndex(s[1..])
  }

  /** NewlineIndex finds the first newline: none before it, one at it. */
  lemma {:induction false} NewlineIndexFirst(s: string)
    ensures forall k :: 0 <= k < NewlineIndex(s) ==> s[k] != '\n'
    ensures NewlineIndex(s) < |s| ==> s[NewlineIndex(s)] == '\n'
  {
    if s != [] && s[0] != '\n' {
      NewlineIndexFirst(s[1..]);
    }
  }

  /** The first newline is at i when the characters before i are not
      newlines and the one at i is (or there is none and i is |s|). */
  lemma {:induction false} NewlineIndexAt(s: string, i: nat)
    requires i <= |s|
    requires forall k :: 0 <= k < i ==> s[k] != '\n'
    requires i < |s| ==> s[i] == '\n'
    ensures NewlineIndex(s) == i
  {
    if i > 0 {
      NewlineIndexAt(s[1..], i - 1);
    }
  }

  /** The token for one line: the line with a single trailing '\r' removed. */
  function DropCR(s: string): (r: string)
    ensures s == r || s == r + "\r"
    ensures s != [] && s[|s| - 1] == '\r' ==> |r| == |s| - 1
  {
    if s != [] && s[|s| - 1] == '\r' then s[..|s| - 1] else s
  }

  /** The tokens a line scanner yields for the whole input s, in order. */
  function ScanLines(s: string): (lines: seq<string>)
    decreases |s|
  {
    if s == [] then []
    else
      var i := NewlineIndex(s);
      [DropCR(s[..i])] + (if i < |s| then ScanLines(s[i + 1..]) else [])
  }

  /** No token contains a newline. */
  lemma {:induction false} TokensHaveNoNewline(s: string)
    ensures forall k :: 0 <= k < |ScanLines(s)| ==> '\n' !in ScanLines(s)[k]
    decreases |s|
  {
    if s != [] {
      var i := NewlineIndex(s);
      NewlineIndexFirst(s);
      var line := s[..i];
      assert '\n' !in line by {
        forall j | 0 <= j < |line| ensures line[j] != '\n' { assert line[j] == s[j]; }
      }
      var token := DropCR(line);
      assert '\n' !in token by {
        if token != line { assert line == token + "\r"; }
      }
      var tail := if i < |s| then ScanLines(s[i + 1..]) else [];
      assert ScanLines(s) == [token] + tail;
      if i < |s| { TokensHaveNoNewline(s[i + 1..]); }
      forall k | 0 <= k < |ScanLines(s)|
        ensures '\n' !in ScanLines(s)[k]
      {
        if k > 0 {
          assert ScanLines(s)[k] == tail[k - 1];
        }
      }
    }
  }

  /** The input split at its first newline: one token for the line and the
      tokens of what follows. */
  lemma ScanLinesCons(line: string, rest: string)
    requires '\n' !in line
    ensures ScanLines(line + "\n" + rest) == [DropCR(line)] + ScanLines(rest)
  {
    var s := line + "\n" + rest;
    assert s[|line|] == '\n';
    assert forall k :: 0 <= k < |line| ==> s[k] == line[k];
    NewlineIndexAt(s, |line|);
    assert s[..|line|] == line;
    assert s[|line| + 1..] == rest;
  }

  /** Two newline-terminated lines in front of the rest scan as those two
      tokens followed by the tokens of the rest. */
  lemma ScanTwoLines(first: string, second: string, rest: string)
    requires '\n' !in first && '\n' !in second
    ensures ScanLines(first + "\n" + (second + "\n" + rest))
            == [DropCR(first), DropCR(second)] + ScanLines(rest)
  {
    ScanLinesCons(second, rest);
    ScanLinesCons(first, second + "\n" + rest);
  }

  /** Lines joined with a newline after each one. */
  function JoinTerminated(lines: seq<string>): (s: string)
    ensures |s| >= |lines|
  {
    if lines == [] then [] else lines[0] + "\n" + JoinTerminated(lines[1..])
  }

  /** Scanning newline-terminated lines gives back exactly those lines, each
      with one trailing '\r' dropped: as many tokens as lines, and no extra
      empty token after the last newline. */
  lemma {:induction false} ScanJoinTerminated(lines: seq<string>)
    requires forall k :: 0 <= k < |lines| ==> '\n' !in lines[k]
    ensures |ScanLines(JoinTerminated(lines))| == |lines|
    ensures forall k :: 0 <= k < |lines| ==> ScanLines(JoinTerminated(lines))[k] == DropCR(lines[k])
  {
    if lines != [] {
      ScanJoinTerminated(lines[1..]);
      ScanLinesCons(lines[0], JoinTerminated(lines[1..]));
    }
  }

  /** Concatenation regroups freely. */
  lemma AppendAssoc(a: string, b: string, c: string)
    ensures (a + b) + c == a + (b + c)
  {
  }

  /** A final line with no newline after it is still a token. */
  lemma ScanLinesLastLine(s: string)
    requires s != [] && '\n' !in s
    ensures ScanLines(s) == [DropCR(s)]
  {
    NewlineIndexAt(s, |s|);
    assert s[..|s|] == s;
  }

  /** Newline-terminated lines followed by a last line without a newline
      scan as those lines and then the last one, each less one trailing
      '\r': the unterminated last line is not lost. */
  lemma {:induction false} ScanJoinWithLast(lines: seq<string>, last: string)
    requires forall k :: 0 <= k < |lines| ==> '\n' !in lines[k]
    requires last != [] && '\n' !in last
    ensures |ScanLines(JoinTerminated(lines) + last)| == |lines| + 1
    ensures forall k :: 0 <= k < |lines| ==> ScanLines(JoinTerminated(lines) + last)[k] == DropCR(lines[k])
    ensures ScanLines(JoinTerminated(lines) + last)[|lines|] == DropCR(last)
  {
    if lines == [] {
      assert JoinTerminated(lines) + last == last;
      ScanLinesLastLine(last);
    } else {
      var joined := JoinTerminated(lines[1..]);
      var tail := joined + last;
      ScanJoinWithLast(lines[1..], last);
      calc {
        JoinTerminated(lines) + last;
        (lines[0] + "\n" + joined) + last;
        { AppendAssoc(lines[0] + "\n", joined, last); }
        lines[0] + "\n" + tail;
      }
      ScanLinesCons(lines[0], tail);
      var scanned := ScanLines(JoinTerminated(lines) + last);
      assert scanned == [DropCR(lines[0])] + ScanLines(tail);
      forall k | 0 < k <= |lines|
        ensures scanned[k] == ScanLines(tail)[k - 1]
      {
      }
    }
  }

  /** Input made only of white space (as strings.TrimSpace counts it)
      yields only tokens made of white space. */
  lemma {:induction false} ScanLinesOfSpace(s: string)
    requires AllSpace(s)
    ensures forall k :: 0 <= k < |ScanLines(s)| ==> AllSpace(ScanLines(s)[k])
    decreases |s|
  {
    if s != [] {
      var i := NewlineIndex(s);
      var token := DropCR(s[..i]);
      assert AllSpace(token) by {
        assert forall j :: 0 <= j < |token| ==> token[j] == s[j];
      }
      var tail := if i < |s| then ScanLines(s[i + 1..]) else [];
      assert ScanLines(s) == [token] + tail;
      if i < |s| {
        ScanLinesOfSpace(s[i + 1..]);
      }
      forall k | 0 <= k < |ScanLines(s)|
        ensures AllSpace(ScanLines(s)[k])
      {
        if k > 0 {
          assert ScanLines(s)[k] == tail[k - 1];
        }
      }
    }
  }

  /** Non-empty input yields at least one token. */
  lemma ScanLinesNonEmpty(s: string)
    ensures |ScanLines(s)| >= 1 <==> s != []
  {
  }

  /** A scanner over a fixed input, as bufio.Scanner is used by the
      formatter: each call of Scan consumes one line of the unread input and
      leaves that line's token in Text. The ghost field pending holds the
      tokens still to come. */
  class LineScanner {
    var rest: string
    var token: string
    ghost var pending: seq<string>

    ghost predicate Valid()
      reads this
    {
      pending == ScanLines(rest)
    }

    constructor (s: string)
      ensures Valid() && rest == s && pending == ScanLines(s) && token == ""
    {
      rest := s;
      token := "";
      pending := ScanLines(s);
    }

    /** The token found by the last successful Scan. */
    function Text(): string
      reads this
    {
      token
    }

    /** Advances to the next token. Returns false, changing nothing, once the
        input is used up; otherwise the token is the first line of what
        remained, the rest of the input stays unread, and one token fewer is
        still to come. */
    method Scan() returns (ok: bool)
      requires Valid()
      modifies this
      ensures Valid()
      ensures ok <==> old(pending) != []
      ensures !ok ==> rest == old(rest) && token == old(token) && pending == old(pending)
      ensures ok ==> old(pending) == [token] + pending
      ensures ok ==> |rest| < |old(rest)|
    {
      if rest == [] {
        return false;
      }
      var i := NewlineIndex(rest);
      token := DropCR(rest[..i]);
      rest := if i < |rest| then rest[i + 1..] else [];
      pending := ScanLines(rest);
      ok := true;
    }
  }
}
