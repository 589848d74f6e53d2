/** Option and Result: the failure-carrying types of the parsers and of the session steps. */
module Results {

  datatype Option<+T> = None | Some(value: T)

  datatype Result<+T, +E> = Ok(value: T) | Err(error: E)
}

/**
 The string helpers of the .NET base library that the adapters use, restricted to ASCII:
 the whitespace class, `String.Trim`, invariant `ToLower`, and the "first occurrence" search
 that a regular-expression literal separator amounts to.
 */
module Text {

  /** The ASCII members of the .NET whitespace class: space, tab, LF, VT, FF and CR. */
  predicate IsSpace(c: char) {
    c == ' ' || c == '\t' || c == '\n' || c == '\U{B}' || c == '\U{C}' || c == '\r'
  }

  predicate AllSpace(s: string) {
    forall i :: 0 <= i < |s| ==> IsSpace(s[i])
  }

  /** The `[\S]+` character class, minus the "one or more". */
  predicate NoSpace(s: string) {
    forall i :: 0 <= i < |s| ==> !IsSpace(s[i])
  }

  /** Neither a leading nor a trailing whitespace character. */
  predicate IsTrimmed(s: string) {
    s == [] || (!IsSpace(s[0]) && !IsSpace(s[|s| - 1]))
  }

  /** `r` is `s` with nothing but whitespace removed at its two ends. */
  ghost predicate PaddedBy(s: string, r: string) {
    exists i :: 0 <= i <= |s| - |r| && s[i..i + |r|] == r && AllSpace(s[..i]) && AllSpace(s[i + |r|..])
  }

  function TrimStart(s: string): (r: string)
    ensures |r| <= |s|
    ensures r == [] || !IsSpace(r[0])
  {
    if s != [] && IsSpace(s[0]) then TrimStart(s[1..]) else s
  }

  /** `TrimStart` cuts a whitespace prefix and keeps the rest. */
  lemma {:induction false} TrimStartCuts(s: string)
    ensures TrimStart(s) == s[|s| - |TrimStart(s)|..]
    ensures AllSpace(s[..|s| - |TrimStart(s)|])
  {
    if s != [] && IsSpace(s[0]) {
      var r := TrimStart(s);
      TrimStartCuts(s[1..]);
      assert s[1..][|s| - 1 - |r|..] == s[|s| - |r|..];
      var cut, rest := s[..|s| - |r|], s[1..][..|s| - 1 - |r|];
      forall i | 0 <= i < |cut|
        ensures IsSpace(cut[i])
      {
        if i > 0 {
          assert cut[i] == rest[i - 1];
        }
      }
    }
  }

  function TrimEnd(s: string): (r: string)
    ensures |r| <= |s|
    ensures r == [] || !IsSpace(r[|r| - 1])
    ensures r != [] ==> r[0] == s[0]
  {
    if s != [] && IsSpace(s[|s| - 1]) then TrimEnd(s[..|s| - 1]) else s
  }

  /** `TrimEnd` cuts a whitespace suffix and keeps the rest. */
  lemma {:induction false} TrimEndCuts(s: string)
    ensures TrimEnd(s) == s[..|TrimEnd(s)|]
    ensures AllSpace(s[|TrimEnd(s)|..])
  {
    if s != [] && IsSpace(s[|s| - 1]) {
      var r := TrimEnd(s);
      var p := s[..|s| - 1];
      TrimEndCuts(p);
      assert p[..|r|] == s[..|r|];
      var cut, rest := s[|r|..], p[|r|..];
      forall i | 0 <= i < |cut|
        ensures IsSpace(cut[i])
      {
        if i < |rest| {
          assert cut[i] == rest[i];
        }
      }
    }
  }

  /** `String.Trim()`: the text between the leading and the trailing whitespace. */
  function Trim(s: string): (r: string)
    ensures IsTrimmed(r) && |r| <= |s|
  {
    TrimEnd(TrimStart(s))
  }

  /** `String.Trim()` removes nothing but whitespace, and only at the two ends. */
  lemma TrimPads(s: string)
    ensures PaddedBy(s, Trim(s))
  {
    TrimStartCuts(s);
    TrimEndCuts(TrimStart(s));
    PaddingOfSuffixPrefix(s, TrimStart(s), Trim(s));
  }

  /** A prefix `r` of a suffix `t` of `s`, with only whitespace cut away, is `s` padded. */
  lemma PaddingOfSuffixPrefix(s: string, t: string, r: string)
    requires |t| <= |s| && t == s[|s| - |t|..] && AllSpace(s[..|s| - |t|])
    requires |r| <= |t| && r == t[..|r|] && AllSpace(t[|r|..])
    ensures PaddedBy(s, r)
  {
    var i := |s| - |t|;
    assert s[i..i + |r|] == r;
    assert s[i + |r|..] == t[|r|..];
  }

  lemma TrimStartOfPadded(a: string, x: string)
    requires AllSpace(a)
    requires x == [] || !IsSpace(x[0])
    ensures TrimStart(a + x) == x
    decreases |a|
  {
    if a != [] {
      assert (a + x)[1..] == a[1..] + x;
      TrimStartOfPadded(a[1..], x);
    } else {
      assert a + x == x;
    }
  }

  lemma TrimEndOfPadded(x: string, b: string)
    requires AllSpace(b)
    requires x == [] || !IsSpace(x[|x| - 1])
    ensures TrimEnd(x + b) == x
    decreases |b|
  {
    if b != [] {
      assert (x + b)[..|x + b| - 1] == x + b[..|b| - 1];
      TrimEndOfPadded(x, b[..|b| - 1]);
    } else {
      assert x + b == x;
    }
  }

  lemma TrimOfConcat(a: string, r: string, b: string)
    requires AllSpace(a) && AllSpace(b) && IsTrimmed(r)
    ensures Trim(a + r + b) == r
  {
    if r == [] {
      assert a + r + b == (a + b) + [];
      assert AllSpace(a + b);
      TrimStartOfPadded(a + b, []);
    } else {
      assert a + r + b == a + (r + b);
      TrimStartOfPadded(a, r + b);
      TrimEndOfPadded(r, b);
    }
  }

  /** Trimming is determined by the padding: a trimmed `r` surrounded by whitespace trims to `r`. */
  lemma TrimOfPadded(s: string, r: string)
    requires IsTrimmed(r) && PaddedBy(s, r)
    ensures Trim(s) == r
  {
    var i :| 0 <= i <= |s| - |r| && s[i..i + |r|] == r && AllSpace(s[..i]) && AllSpace(s[i + |r|..]);
    var a, b := s[..i], s[i + |r|..];
    assert s == a + r + b by {
      assert s == s[..i] + s[i..i + |r|] + s[i + |r|..];
    }
    TrimOfConcat(a, r, b);
  }

  /** `String.Trim()` is idempotent. */
  lemma TrimIdempotent(s: string)
    ensures Trim(Trim(s)) == Trim(s)
  {
    var r := Trim(s);
    TrimPads(s);
    assert r[0..0 + |r|] == r && r[..0] == [] && r[|r|..] == [];
    TrimOfPadded(r, r);
  }

  /** Only all-whitespace text trims to the empty string. */
  lemma TrimEmptyIffAllSpace(s: string)
    ensures Trim(s) == [] <==> AllSpace(s)
  {
    if AllSpace(s) {
      assert s[0..0] == [] && s[..0] == [] && s[0..] == s;
      TrimOfPadded(s, []);
    }
    if Trim(s) == [] {
      TrimPads(s);
      var i :| 0 <= i <= |s| && AllSpace(s[..i]) && AllSpace(s[i..]);
      forall k | 0 <= k < |s|
        ensures IsSpace(s[k])
      {
        if k < i {
          assert s[..i][k] == s[k];
        } else {
          assert s[i..][k - i] == s[k];
        }
      }
    }
  }

  /** Invariant-culture `ToLower` on one ASCII character. */
  function LowerChar(c: char): (d: char)
    ensures 'A' <= c <= 'Z' ==> 'a' <= d <= 'z' && d as int - 'a' as int == c as int - 'A' as int
    ensures !('A' <= c <= 'Z') ==> d == c
  {
    if 'A' <= c <= 'Z' then (c as int + 32) as char else c
  }

  function Lower(s: string): (r: string)
    ensures |r| == |s|
    ensures forall i :: 0 <= i < |s| ==> r[i] == LowerChar(s[i])
  {
    if s == [] then [] else [LowerChar(s[0])] + Lower(s[1..])
  }

  /** Exactly four spellings lower-case to "ok". */
  lemma {:induction false} LowerIsOk(t: string)
    ensures Lower(t) == "ok" <==> t in {"ok", "oK", "Ok", "OK"}
  {
    if Lower(t) == "ok" {
      assert |t| == 2;
      assert LowerChar(t[0]) == 'o' && LowerChar(t[1]) == 'k';
      assert t[0] == 'o' || t[0] == 'O';
      assert t[1] == 'k' || t[1] == 'K';
      assert t == [t[0], t[1]];
    }
  }

  /** Index of the first `c` in `s`, or `|s|` when there is none. */
  function IndexOf(s: string, c: char): (i: nat)
    ensures i <= |s|
    ensures c !in s[..i]
    ensures i < |s| ==> s[i] == c
  {
    if s == [] || s[0] == c then 0 else 1 + IndexOf(s[1..], c)
  }

  /** The first occurrence of `c` is at `k` when `c` is at `k` and nowhere before. */
  lemma IndexOfAt(s: string, c: char, k: nat)
    requires k <= |s| && c !in s[..k] && (k < |s| ==> s[k] == c)
    ensures IndexOf(s, c) == k
  {
  }

  /** The first occurrence of a separator is found right after a prefix that lacks it. */
  lemma IndexOfAfter(a: string, c: char, b: string)
    requires c !in a
    ensures IndexOf(a + [c] + b, c) == |a|
  {
    assert (a + [c] + b)[|a|] == c;
    assert (a + [c] + b)[..|a|] == a;
  }
}
