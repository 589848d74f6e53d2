/**
 Reading command output line by line the way the adapters do: a `StringReader` drained with
 `while (Peek() != -1) ReadLine()`. A line ends at "\r\n", "\r" or "\n"; a terminator at the very
 end of the text does not start another (empty) line.
 */
module Lines {
  import opened Text

  predicate IsLineBreak(c: char) {
    c == '\n' || c == '\r'
  }

  predicate NoLineBreak(s: string) {
    forall i :: 0 <= i < |s| ==> !IsLineBreak(s[i])
  }

  /** Index of the first line terminator, or `|s|`. */
  function LineEnd(s: string): (i: nat)
    ensures i <= |s| && NoLineBreak(s[..i])
    ensures i < |s| ==> IsLineBreak(s[i])
  {
    if s == [] || IsLineBreak(s[0]) then 0 else 1 + LineEnd(s[1..])
  }

  /** Where the next line starts once the line ending at `i` has been read. */
  function NextLineStart(s: string, i: nat): (j: nat)
    requires i <= |s|
    ensures i < j <= |s| || j == i == |s|
  {
    if i == |s| then i
    else if s[i] == '\r' && i + 1 < |s| && s[i + 1] == '\n' then i + 2
    else i + 1
  }

  /** The lines `StringReader` yields for `s`. */
  function ReadLines(s: string): (lines: seq<string>)
    ensures forall k :: 0 <= k < |lines| ==> NoLineBreak(lines[k])
    ensures |lines| <= |s|
    ensures s == [] <==> lines == []
    decreases |s|
  {
    if s == [] then []
    else
      var i := LineEnd(s);
      var j := NextLineStart(s, i);
      [s[..i]] + ReadLines(s[j..])
  }

  /** Lines written out with a fixed terminator between them (the partner of `ReadLines`). */
  function JoinLines(lines: seq<string>, nl: string): string
    requires |lines| > 0
  {
    if |lines| == 1 then lines[0] else lines[0] + nl + JoinLines(lines[1..], nl)
  }

  predicate IsTerminator(nl: string) {
    nl == "\n" || nl == "\r\n" || nl == "\r"
  }

  /** A line without a break, followed by a break or nothing, ends where it ends. */
  lemma {:induction false} LineEndOfConcat(l: string, rest: string)
    requires NoLineBreak(l)
    requires rest == [] || IsLineBreak(rest[0])
    ensures LineEnd(l + rest) == |l|
  {
    if l == [] {
      assert l + rest == rest;
    } else {
      assert (l + rest)[0] == l[0];
      assert (l + rest)[1..] == l[1..] + rest;
      LineEndOfConcat(l[1..], rest);
    }
  }

  lemma JoinedHasNoBreakBefore(lines: seq<string>, nl: string)
    requires |lines| > 0 && IsTerminator(nl)
    requires forall k :: 0 <= k < |lines| ==> NoLineBreak(lines[k])
    ensures LineEnd(JoinLines(lines, nl)) == |lines[0]|
  {
    if |lines| == 1 {
      assert JoinLines(lines, nl) == lines[0] + [];
      LineEndOfConcat(lines[0], []);
    } else {
      var rest := nl + JoinLines(lines[1..], nl);
      assert JoinLines(lines, nl) == lines[0] + rest;
      LineEndOfConcat(lines[0], rest);
    }
  }

  /** Lines joined by "\r" never start with '\n', so a "\r" between two lines is never read as "\r\n". */
  lemma {:induction false} JoinedByCrStart(lines: seq<string>)
    requires |lines| > 0
    requires forall k :: 0 <= k < |lines| ==> NoLineBreak(lines[k])
    ensures JoinLines(lines, "\r") == [] || JoinLines(lines, "\r")[0] != '\n'
  {
    if |lines| > 1 && lines[0] == [] {
      assert JoinLines(lines, "\r") == [] + "\r" + JoinLines(lines[1..], "\r");
    }
  }

  /** After a line without a break, a terminator is consumed whole. */
  lemma NextLineStartOfJoined(l: string, nl: string, rest: string)
    requires NoLineBreak(l) && IsTerminator(nl)
    requires nl == "\r" ==> rest == [] || rest[0] != '\n'
    ensures NextLineStart(l + nl + rest, |l|) == |l| + |nl|
  {
    var s := l + nl + rest;
    assert s[|l|] == nl[0];
    if nl == "\r\n" {
      assert s[|l| + 1] == '\n';
    } else if nl == "\r" && |l| + 1 < |s| {
      assert s[|l| + 1] == rest[0];
    }
  }

  /** Reading a line, its terminator and the rest yields the line, then the lines of the rest. */
  lemma ReadLinesStep(lines: seq<string>, nl: string)
    requires |lines| > 1 && IsTerminator(nl)
    requires forall k :: 0 <= k < |lines| ==> NoLineBreak(lines[k])
    ensures ReadLines(JoinLines(lines, nl)) == [lines[0]] + ReadLines(JoinLines(lines[1..], nl))
  {
    var s := JoinLines(lines, nl);
    var l := lines[0];
    var rest := JoinLines(lines[1..], nl);
    JoinedHasNoBreakBefore(lines, nl);
    assert s == l + nl + rest;
    assert s[..|l|] == l;
    if nl == "\r" {
      JoinedByCrStart(lines[1..]);
    }
    NextLineStartOfJoined(l, nl, rest);
    assert s[|l| + |nl|..] == rest;
  }

  lemma HeadTail(lines: seq<string>)
    requires lines != []
    ensures [lines[0]] + lines[1..] == lines
  {
  }

  /** A non-empty text without a line break is one line. */
  lemma ReadOneLine(l: string)
    requires l != [] && NoLineBreak(l)
    ensures ReadLines(l) == [l]
  {
    LineEndOfConcat(l, []);
    assert l + [] == l;
    assert l[..|l|] == l && l[|l|..] == [];
  }

  /** Lines joined by a terminator, each free of line breaks, the last one non-empty. */
  predicate Readable(lines: seq<string>, nl: string) {
    && |lines| > 0 && IsTerminator(nl)
    && (forall k :: 0 <= k < |lines| ==> NoLineBreak(lines[k]))
    && lines[|lines| - 1] != []
  }

  /** The inductive step of `ReadJoinedLines`. */
  lemma ReadJoinedCons(lines: seq<string>, nl: string)
    requires Readable(lines, nl) && |lines| > 1
    requires ReadLines(JoinLines(lines[1..], nl)) == lines[1..]
    ensures ReadLines(JoinLines(lines, nl)) == lines
  {
    ReadLinesStep(lines, nl);
    HeadTail(lines);
  }

  lemma ReadableTail(lines: seq<string>, nl: string)
    requires Readable(lines, nl) && |lines| > 1
    ensures Readable(lines[1..], nl)
  {
    assert lines[1..][|lines| - 2] == lines[|lines| - 1];
  }

  /** Reading back lines joined by any terminator gives the lines, provided the last is non-empty. */
  lemma {:induction false} ReadJoinedLines(lines: seq<string>, nl: string)
    requires Readable(lines, nl)
    ensures ReadLines(JoinLines(lines, nl)) == lines
    decreases |lines|
  {
    if |lines| == 1 {
      assert JoinLines(lines, nl) == lines[0];
      ReadOneLine(lines[0]);
    } else {
      ReadableTail(lines, nl);
      ReadJoinedLines(lines[1..], nl);
      ReadJoinedCons(lines, nl);
    }
  }

  /**
   The `$` of a pattern matched without the multiline option also accepts one final '\n'.
   None of the adapters' whole-output patterns can match text containing '\n', so matching
   `^P$` against `s` is matching `P` against `s` without that final '\n'.
   */
  function DropFinalNewline(s: string): (r: string)
    ensures s == r + "\n" <==> |s| > 0 && s[|s| - 1] == '\n'
    ensures s != r + "\n" ==> r == s
  {
    if |s| > 0 && s[|s| - 1] == '\n' then s[..|s| - 1] else s
  }

  /** Text that does not end in '\n' gets back from `$` exactly as it was written. */
  lemma DropAddedNewline(s: string, tail: string)
    requires s == [] || s[|s| - 1] != '\n'
    requires tail == "" || tail == "\n"
    ensures DropFinalNewline(s + tail) == s
  {
    if tail == "" {
      assert s + tail == s;
    } else {
      assert (s + tail)[..|s|] == s;
    }
  }
}
