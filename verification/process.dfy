/**
 The process listing read by `GetMinicapProcessInfo`: the reply of `ps | grep 'minicap'` is
 matched as a whole against
   `^user[ ]+pid[ ]+ppid[ ]+vsize[ ]+rss[ ]+wchan[ ]+pc[ ]+s[ ]+exe$`
 where pid, ppid, vsize and rss are `[\d]+`, s is one `\S` and the other fields are `[\S]+`.
 Fields are separated by runs of the space character only; a field holds no whitespace at all.
 */
module ProcessTable {
  import opened Results
  import opened Text
  import opened Decimal
  import opened Lines

  /** One or more spaces: the `[ ]+` separator. */
  predicate IsGap(g: string) {
    g != [] && forall i :: 0 <= i < |g| ==> g[i] == ' '
  }

  /** A non-empty run without the space character. */
  predicate IsWord(w: string) {
    w != [] && ' ' !in w
  }

  /** Number of leading spaces. */
  function LeadingBlanks(s: string): (n: nat)
    ensures n <= |s|
    ensures forall i :: 0 <= i < n ==> s[i] == ' '
    ensures n < |s| ==> s[n] != ' '
  {
    if s != [] && s[0] == ' ' then 1 + LeadingBlanks(s[1..]) else 0
  }

  /** The runs between the spaces of `s`, in order. */
  function Words(s: string): (r: seq<string>)
    ensures forall k :: 0 <= k < |r| ==> IsWord(r[k])
    decreases |s|
  {
    var t := s[LeadingBlanks(s)..];
    if t == [] then []
    else
      var i := IndexOf(t, ' ');
      [t[..i]] + Words(t[i..])
  }

  /** The runs of spaces between the words of `s`, in order (trailing spaces excluded). */
  function Gaps(s: string): (r: seq<string>)
    ensures forall k :: 0 <= k < |r| ==> IsGap(r[k])
    decreases |s|
  {
    var t := s[LeadingBlanks(s)..];
    if t == [] then []
    else
      var i := IndexOf(t, ' ');
      var rest := t[i..];
      var n := LeadingBlanks(rest);
      if n == |rest| then [] else [rest[..n]] + Gaps(rest)
  }

  /** Words written out with the given separators between them (the partner of `Words`). */
  function Render(words: seq<string>, gaps: seq<string>): string
    requires |words| == |gaps| + 1
  {
    if gaps == [] then words[0] else words[0] + gaps[0] + Render(words[1..], gaps[1..])
  }

  /** Neither empty nor starting or ending with a space: what `^[\S]+ ... [\S]+$` can match. */
  predicate IsFramed(s: string) {
    s != [] && s[0] != ' ' && s[|s| - 1] != ' '
  }

  lemma LeadingBlanksOfGap(g: string, x: string)
    requires forall i :: 0 <= i < |g| ==> g[i] == ' '
    ensures LeadingBlanks(g + x) == |g| + LeadingBlanks(x)
    decreases |g|
  {
    if g != [] {
      assert (g + x)[1..] == g[1..] + x;
      LeadingBlanksOfGap(g[1..], x);
    } else {
      assert g + x == x;
    }
  }

  /** Leading spaces are invisible to `Words`. */
  lemma WordsSkip(s: string)
    ensures Words(s) == Words(s[LeadingBlanks(s)..])
  {
    var t := s[LeadingBlanks(s)..];
    assert LeadingBlanks(t) == 0;
    assert t[0..] == t;
  }

  /** Leading spaces are invisible to `Gaps`. */
  lemma GapsSkip(s: string)
    ensures Gaps(s) == Gaps(s[LeadingBlanks(s)..])
  {
    var t := s[LeadingBlanks(s)..];
    assert LeadingBlanks(t) == 0;
    assert t[0..] == t;
  }

  /** The first word of a text that starts with one ends at the first space. */
  lemma WordsAt(s: string, i: nat)
    requires 0 < i <= |s| && ' ' !in s[..i] && (i < |s| ==> s[i] == ' ')
    ensures Words(s) == [s[..i]] + Words(s[i..])
  {
    assert s[0] == s[..i][0];
    assert s[0..] == s;
    IndexOfAt(s, ' ', i);
  }

  /** The first separator of a text that starts with a word follows that word. */
  lemma GapsAt(s: string, i: nat)
    requires 0 < i < |s| && ' ' !in s[..i] && s[i] == ' '
    requires LeadingBlanks(s[i..]) < |s| - i
    ensures Gaps(s) == [s[i..][..LeadingBlanks(s[i..])]] + Gaps(s[i..])
  {
    assert s[0] == s[..i][0];
    assert s[0..] == s;
    IndexOfAt(s, ' ', i);
  }

  /** A lone word is one word with no separators. */
  lemma WordsOfWord(w: string)
    requires IsWord(w)
    ensures Words(w) == [w] && Gaps(w) == []
  {
    assert w[..|w|] == w && w[|w|..] == [];
    WordsAt(w, |w|);
    assert w[0] == w[..|w|][0];
    assert w[0..] == w;
    IndexOfAt(w, ' ', |w|);
  }

  /** `Words` takes the first word, skips the separator after it, then reads on. */
  lemma WordsStep(w: string, g: string, rest: string)
    requires IsWord(w) && IsGap(g) && rest != [] && rest[0] != ' '
    ensures Words(w + g + rest) == [w] + Words(rest)
  {
    var s := w + g + rest;
    var after := g + rest;
    assert s[..|w|] == w && s[|w|..] == after;
    LeadingBlanksOfGap(g, rest);
    assert after[|g|..] == rest;
    WordsAt(s, |w|);
    WordsSkip(after);
  }

  /** `Gaps` takes the separator after the first word, then reads on. */
  lemma GapsStep(w: string, g: string, rest: string)
    requires IsWord(w) && IsGap(g) && rest != [] && rest[0] != ' '
    ensures Gaps(w + g + rest) == [g] + Gaps(rest)
  {
    var s := w + g + rest;
    var after := g + rest;
    assert s[..|w|] == w && s[|w|..] == after;
    LeadingBlanksOfGap(g, rest);
    assert after[..|g|] == g && after[|g|..] == rest;
    GapsAt(s, |w|);
    GapsSkip(after);
  }

  /** Words joined by separators start and end with a word. */
  lemma {:induction false} RenderFramed(words: seq<string>, gaps: seq<string>)
    requires |words| == |gaps| + 1
    requires forall k :: 0 <= k < |words| ==> IsWord(words[k])
    requires forall k :: 0 <= k < |gaps| ==> IsGap(gaps[k])
    ensures IsFramed(Render(words, gaps))
    decreases |gaps|
  {
    if gaps != [] {
      RenderFramed(words[1..], gaps[1..]);
      var rest := Render(words[1..], gaps[1..]);
      assert Render(words, gaps) == words[0] + (gaps[0] + rest);
    }
  }

  /** Reading back words written with space separators gives the words. */
  lemma {:induction false} WordsOfRender(words: seq<string>, gaps: seq<string>)
    requires |words| == |gaps| + 1
    requires forall k :: 0 <= k < |words| ==> IsWord(words[k])
    requires forall k :: 0 <= k < |gaps| ==> IsGap(gaps[k])
    ensures Words(Render(words, gaps)) == words
    decreases |gaps|
  {
    if gaps == [] {
      WordsOfWord(words[0]);
    } else {
      var rest := Render(words[1..], gaps[1..]);
      WordsOfRender(words[1..], gaps[1..]);
      RenderFramed(words[1..], gaps[1..]);
      assert Render(words, gaps) == words[0] + gaps[0] + rest;
      WordsStep(words[0], gaps[0], rest);
      assert words == [words[0]] + words[1..];
    }
  }

  /** Reading back words written with space separators gives the separators. */
  lemma {:induction false} GapsOfRender(words: seq<string>, gaps: seq<string>)
    requires |words| == |gaps| + 1
    requires forall k :: 0 <= k < |words| ==> IsWord(words[k])
    requires forall k :: 0 <= k < |gaps| ==> IsGap(gaps[k])
    ensures Gaps(Render(words, gaps)) == gaps
    decreases |gaps|
  {
    if gaps == [] {
      WordsOfWord(words[0]);
    } else {
      var rest := Render(words[1..], gaps[1..]);
      GapsOfRender(words[1..], gaps[1..]);
      RenderFramed(words[1..], gaps[1..]);
      assert Render(words, gaps) == words[0] + gaps[0] + rest;
      GapsStep(words[0], gaps[0], rest);
      assert gaps == [gaps[0]] + gaps[1..];
    }
  }

  /** Every framed text is its words written with its separators. */
  lemma {:induction false} RenderOfWords(s: string)
    requires IsFramed(s)
    ensures |Words(s)| == |Gaps(s)| + 1
    ensures s == Render(Words(s), Gaps(s))
    decreases |s|
  {
    var i := IndexOf(s, ' ');
    if i == |s| {
      assert s[..i] == s;
      WordsOfWord(s);
    } else {
      var rest := s[i..];
      var n := LeadingBlanks(rest);
      assert n < |rest| by {
        assert rest[|rest| - 1] == s[|s| - 1] != ' ';
      }
      var w, g, next := s[..i], rest[..n], rest[n..];
      assert s == w + g + next;
      assert IsWord(w) by {
        assert s[0] != ' ';
      }
      assert IsGap(g) by {
        assert rest[0] == ' ';
      }
      RenderOfWords(next);
      WordsStep(w, g, next);
      GapsStep(w, g, next);
    }
  }

  /** The nine fields `user pid ppid vsize rss wchan pc s exe` as the process pattern requires. */
  predicate IsProcessFields(f: seq<string>) {
    && |f| == 9
    && (forall k :: 0 <= k < |f| ==> f[k] != [] && NoSpace(f[k]))
    && IsDigits(f[1]) && IsDigits(f[2]) && IsDigits(f[3]) && IsDigits(f[4])
    && |f[7]| == 1
  }

  /** The fields of the process pattern when it matches the whole reply. */
  function MatchProcessLine(output: string): (r: Option<seq<string>>)
    ensures r.Some? ==> IsProcessFields(r.value)
  {
    var s := DropFinalNewline(output);
    if IsFramed(s) && IsProcessFields(Words(s)) then Some(Words(s)) else None
  }

  lemma NoSpaceIsWord(w: string)
    requires w != [] && NoSpace(w)
    ensures IsWord(w)
  {
  }

  /** A reply the pattern accepts is its nine fields separated by runs of spaces. */
  lemma MatchProcessLineSound(output: string)
    requires MatchProcessLine(output).Some?
    ensures var s := DropFinalNewline(output);
      |Gaps(s)| == 8 && s == Render(MatchProcessLine(output).value, Gaps(s))
  {
    RenderOfWords(DropFinalNewline(output));
  }

  /** Any nine fields separated by runs of spaces, with or without a final '\n', are accepted. */
  lemma MatchProcessLineComplete(fields: seq<string>, gaps: seq<string>, tail: string)
    requires IsProcessFields(fields)
    requires |gaps| == 8 && forall k :: 0 <= k < 8 ==> IsGap(gaps[k])
    requires tail == "" || tail == "\n"
    ensures MatchProcessLine(Render(fields, gaps) + tail) == Some(fields)
  {
    var s := Render(fields, gaps);
    forall k | 0 <= k < 9
      ensures IsWord(fields[k])
    {
      NoSpaceIsWord(fields[k]);
    }
    WordsOfRender(fields, gaps);
    RenderFramed(fields, gaps);
    RenderHasOnlyBlanks(fields, gaps);
    assert s[|s| - 1] != '\n';
    DropAddedNewline(s, tail);
  }

  /** Words without whitespace joined by spaces hold no whitespace but the spaces. */
  lemma {:induction false} RenderHasOnlyBlanks(words: seq<string>, gaps: seq<string>)
    requires |words| == |gaps| + 1
    requires forall k :: 0 <= k < |words| ==> NoSpace(words[k])
    requires forall k :: 0 <= k < |gaps| ==> IsGap(gaps[k])
    ensures forall i :: 0 <= i < |Render(words, gaps)| ==> Render(words, gaps)[i] == ' ' || !IsSpace(Render(words, gaps)[i])
    decreases |gaps|
  {
    if gaps != [] {
      var rest := Render(words[1..], gaps[1..]);
      RenderHasOnlyBlanks(words[1..], gaps[1..]);
      var s := Render(words, gaps);
      var p := words[0] + gaps[0];
      assert s == p + rest;
      forall i | 0 <= i < |s|
        ensures s[i] == ' ' || !IsSpace(s[i])
      {
        if i < |words[0]| {
          assert s[i] == words[0][i];
        } else if i < |p| {
          assert s[i] == gaps[0][i - |words[0]|];
        } else {
          assert s[i] == rest[i - |p|];
        }
      }
    }
  }

  /** The pattern has no line break: a reply of several lines never matches. */
  lemma MatchProcessLineSingleLine(output: string, k: nat)
    requires k < |output| - 1 && output[k] == '\n'
    ensures MatchProcessLine(output) == None
  {
    var s := DropFinalNewline(output);
    assert s[k] == '\n';
    if MatchProcessLine(output).Some? {
      MatchProcessLineSound(output);
      RenderHasOnlyBlanks(Words(s), Gaps(s));
    }
  }

  /**
   The pid `GetMinicapProcessInfo` leaves behind: the second field converted by `Int32.Parse`
   when the whole reply matches, the previous pid otherwise.
   */
  function ProcessId(output: string, pid: int): (r: Result<int, NumberError>)
    ensures MatchProcessLine(output).None? ==> r == Ok(pid)
    ensures MatchProcessLine(output).Some? ==>
      var digits := MatchProcessLine(output).value[1];
      && (r.Ok? <==> Value(digits) <= Int32Max)
      && (r.Ok? ==> r.value == Value(digits))
      && (r.Err? ==> r.error == OverflowError(digits))
  {
    match MatchProcessLine(output)
    case None => Ok(pid)
    case Some(fields) =>
      match ParseDigitsInt32(fields[1])
      case Ok(v) => Ok(v)
      case Err(e) => Err(e)
  }

  /** A process line printed with any 32-bit pid yields that pid. */
  lemma ProcessIdRoundTrip(fields: seq<string>, gaps: seq<string>, tail: string, pid: nat, old_pid: int)
    requires IsProcessFields(fields) && fields[1] == NatToString(pid) && pid <= Int32Max
    requires |gaps| == 8 && forall k :: 0 <= k < 8 ==> IsGap(gaps[k])
    requires tail == "" || tail == "\n"
    ensures ProcessId(Render(fields, gaps) + tail, old_pid) == Ok(pid)
  {
    MatchProcessLineComplete(fields, gaps, tail);
  }
}
