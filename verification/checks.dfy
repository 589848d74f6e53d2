/**
 The two yes/no readings of device output in the minicap adapter: whether the minicap files are
 already on the device (`CheckedInstalledMinicap`) and whether the self test passed
 (`ValidateMinicapEnv`). Both start from a small list of expected names, call
 `List<string>.Remove` with every non-empty output line (trimmed, and lower-cased for the self
 test), and look at how much of the list is left.
 */
module Checks {
  import opened Text
  import opened Lines

  /** `List<string>.Remove(x)`: the list without its first element equal to `x`, if any. */
  function RemoveFirst(list: seq<string>, x: string): seq<string> {
    if list == [] then []
    else if list[0] == x then list[1..]
    else [list[0]] + RemoveFirst(list[1..], x)
  }

  /** One `Remove` call per name, in order. */
  function RemoveEach(list: seq<string>, names: seq<string>): seq<string>
    decreases |names|
  {
    if names == [] then list else RemoveEach(RemoveFirst(list, names[0]), names[1..])
  }

  /** `Remove` takes away one occurrence of `x` when there is one, and nothing else. */
  lemma {:induction false} RemoveFirstBag(list: seq<string>, x: string)
    ensures multiset(RemoveFirst(list, x)) == multiset(list) - multiset{x}
    ensures x !in list ==> RemoveFirst(list, x) == list
  {
    if list != [] {
      assert list == [list[0]] + list[1..];
      if list[0] != x {
        RemoveFirstBag(list[1..], x);
      }
    }
  }

  /** The `Remove` calls take away one occurrence per name: a multiset difference. */
  lemma {:induction false} RemoveEachBag(list: seq<string>, names: seq<string>)
    ensures multiset(RemoveEach(list, names)) == multiset(list) - multiset(names)
    decreases |names|
  {
    if names != [] {
      RemoveFirstBag(list, names[0]);
      RemoveEachBag(RemoveFirst(list, names[0]), names[1..]);
      assert names == [names[0]] + names[1..];
    }
  }

  /** The elements of `list` that are not among `names`, in list order: a reference for `RemoveEach`. */
  function Without(list: seq<string>, names: seq<string>): seq<string> {
    if list == [] then []
    else (if list[0] in names then [] else [list[0]]) + Without(list[1..], names)
  }

  lemma {:induction false} WithoutMembership(list: seq<string>, names: seq<string>, x: string)
    ensures x in Without(list, names) <==> x in list && x !in names
  {
    if list != [] {
      WithoutMembership(list[1..], names, x);
      assert list == [list[0]] + list[1..];
    }
  }

  predicate Distinct(list: seq<string>) {
    forall i, j :: 0 <= i < j < |list| ==> list[i] != list[j]
  }

  lemma {:induction false} WithoutNothing(list: seq<string>, names: seq<string>)
    requires forall x :: x in list ==> x !in names
    ensures Without(list, names) == list
  {
    if list != [] {
      WithoutNothing(list[1..], names);
      assert list == [list[0]] + list[1..];
    }
  }

  lemma DistinctTail(list: seq<string>)
    requires Distinct(list) && list != []
    ensures Distinct(list[1..]) && list[0] !in list[1..]
  {
    forall j | 0 <= j < |list[1..]|
      ensures list[1..][j] != list[0]
    {
      assert list[1..][j] == list[j + 1];
    }
    forall i, j | 0 <= i < j < |list[1..]|
      ensures list[1..][i] != list[1..][j]
    {
      assert list[1..][i] == list[i + 1] && list[1..][j] == list[j + 1];
    }
  }

  lemma ConsDistinct(x: string, w: seq<string>)
    requires Distinct(w) && x !in w
    ensures Distinct([x] + w)
  {
    var l := [x] + w;
    forall i, j | 0 <= i < j < |l|
      ensures l[i] != l[j]
    {
      assert l[j] == w[j - 1];
      if i > 0 {
        assert l[i] == w[i - 1];
      }
    }
  }

  /** On a list without repetitions `Remove(x)` removes every `x`. */
  lemma {:induction false} RemoveFirstDistinct(list: seq<string>, x: string)
    requires Distinct(list)
    ensures RemoveFirst(list, x) == Without(list, [x])
  {
    if list != [] {
      DistinctTail(list);
      if list[0] == x {
        assert forall y :: y in list[1..] ==> y !in [x];
        WithoutNothing(list[1..], [x]);
      } else {
        RemoveFirstDistinct(list[1..], x);
      }
    }
  }

  /** Removing names from a list without repetitions leaves a list without repetitions. */
  lemma {:induction false} WithoutDistinct(list: seq<string>, names: seq<string>)
    requires Distinct(list)
    ensures Distinct(Without(list, names))
  {
    if list != [] {
      DistinctTail(list);
      WithoutDistinct(list[1..], names);
      if list[0] !in names {
        WithoutMembership(list[1..], names, list[0]);
        ConsDistinct(list[0], Without(list[1..], names));
      } else {
        assert Without(list, names) == Without(list[1..], names);
      }
    }
  }

  lemma {:induction false} WithoutTwice(list: seq<string>, a: seq<string>, b: seq<string>)
    ensures Without(Without(list, a), b) == Without(list, a + b)
  {
    if list != [] {
      var x, rest := list[0], list[1..];
      WithoutTwice(rest, a, b);
      assert x in a + b <==> x in a || x in b;
      if x !in a {
        assert Without(list, a) == [x] + Without(rest, a);
        assert Without([x] + Without(rest, a), b) == (if x in b then [] else [x]) + Without(Without(rest, a), b);
      } else {
        assert Without(list, a) == Without(rest, a);
      }
    }
  }

  /** On a list without repetitions the `Remove` calls leave exactly the names never removed. */
  lemma {:induction false} RemoveEachDistinct(list: seq<string>, names: seq<string>)
    requires Distinct(list)
    ensures RemoveEach(list, names) == Without(list, names)
    decreases |names|
  {
    if names == [] {
      WithoutNothing(list, names);
    } else {
      RemoveFirstDistinct(list, names[0]);
      WithoutDistinct(list, [names[0]]);
      RemoveEachDistinct(RemoveFirst(list, names[0]), names[1..]);
      WithoutTwice(list, [names[0]], names[1..]);
      assert [names[0]] + names[1..] == names;
    }
  }

  /** The argument of `Remove` for one line: the trimmed line, lower-cased when asked. */
  function LineKey(line: string, lower: bool): string {
    if lower then Lower(Trim(line)) else Trim(line)
  }

  /** The arguments of the `Remove` calls for the lines read, skipping empty lines. */
  function Keys(lines: seq<string>, lower: bool): (r: seq<string>)
    ensures |r| <= |lines|
  {
    if lines == [] then []
    else (if lines[0] == [] then [] else [LineKey(lines[0], lower)]) + Keys(lines[1..], lower)
  }

  /** A name is removed exactly when some non-empty line yields it. */
  lemma {:induction false} KeysMembership(lines: seq<string>, lower: bool, x: string)
    ensures x in Keys(lines, lower) <==> exists k :: 0 <= k < |lines| && lines[k] != [] && LineKey(lines[k], lower) == x
  {
    if lines != [] {
      KeysMembership(lines[1..], lower, x);
      if x in Keys(lines[1..], lower) {
        var k :| 0 <= k < |lines[1..]| && lines[1..][k] != [] && LineKey(lines[1..][k], lower) == x;
        assert lines[k + 1] == lines[1..][k];
      }
      if exists k :: 0 <= k < |lines| && lines[k] != [] && LineKey(lines[k], lower) == x {
        var k :| 0 <= k < |lines| && lines[k] != [] && LineKey(lines[k], lower) == x;
        if k > 0 {
          assert lines[1..][k - 1] == lines[k];
        }
      }
    }
  }

  /** The files a complete minicap installation leaves in `/data/local/tmp`. */
  const MinicapFiles: seq<string> := ["minicap", "minicap-nopie", "minicap.so"]

  /** `CheckedInstalledMinicap` after the `ls`: at most one expected file is left unremoved. */
  function CheckedInstalled(output: string): bool {
    |RemoveEach(MinicapFiles, Keys(ReadLines(output), false))| <= 1
  }

  /** How many of the three files are absent from the given names. */
  function MissingCount(names: seq<string>): nat {
    (if "minicap" in names then 0 else 1)
    + (if "minicap-nopie" in names then 0 else 1)
    + (if "minicap.so" in names then 0 else 1)
  }

  /**
   The installation counts as present exactly when at most one of the three files is not named
   by a non-empty trimmed line; repeated and unrelated lines do not matter.
   */
  lemma CheckedInstalledMeans(output: string)
    ensures CheckedInstalled(output) <==> MissingCount(Keys(ReadLines(output), false)) <= 1
  {
    var names := Keys(ReadLines(output), false);
    RemoveEachDistinct(MinicapFiles, names);
    var l := MinicapFiles;
    assert Without(l, names) == (if l[0] in names then [] else [l[0]]) + Without(l[1..], names);
    assert Without(l[1..], names) == (if l[1] in names then [] else [l[1]]) + Without(l[2..], names);
    assert Without(l[2..], names) == (if l[2] in names then [] else [l[2]]) + Without(l[3..], names);
    assert l[3..] == [];
  }

  /** `ValidateMinicapEnv` after the self test: the single expected "ok" was removed. */
  function Validated(output: string): bool {
    RemoveEach(["ok"], Keys(ReadLines(output), true)) == []
  }

  /**
   The self test passes exactly when some non-empty line, trimmed and lower-cased, is "ok";
   every other line is ignored, and empty output fails.
   */
  lemma ValidatedMeans(output: string)
    ensures Validated(output) <==> "ok" in Keys(ReadLines(output), true)
    ensures Validated(output) <==>
      exists k :: 0 <= k < |ReadLines(output)| && ReadLines(output)[k] != [] && LineKey(ReadLines(output)[k], true) == "ok"
    ensures output == [] ==> !Validated(output)
  {
    var names := Keys(ReadLines(output), true);
    RemoveEachDistinct(["ok"], names);
    assert Without(["ok"], names) == (if "ok" in names then [] else ["ok"]) + Without([], names);
    KeysMembership(ReadLines(output), true, "ok");
  }

  /** A line accepts the self test exactly when it trims to one of the four spellings of "ok". */
  lemma OkLine(line: string)
    ensures LineKey(line, true) == "ok" <==> Trim(line) in {"ok", "oK", "Ok", "OK"}
  {
    LowerIsOk(Trim(line));
  }
}
