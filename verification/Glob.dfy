/**
 The single-pass wildcard matcher of the event filters (api/internal/model/srvlog.go,
 `matchWildcard` and `matchField`) against declarative glob semantics.
 */
module Glob {
  import opened Common
  import opened Utf8

  const STAR: byte := 42

  // ----- what a pattern means

  function Stars(pattern: seq<byte>): nat {
    if pattern == [] then 0 else Stars(pattern[1..]) + (if pattern[0] == STAR then 1 else 0)
  }

  /** The pattern with its stars replaced, in order, by the given strings. */
  function Fill(pattern: seq<byte>, fills: seq<seq<byte>>): seq<byte>
    requires |fills| == Stars(pattern)
  {
    if pattern == [] then []
    else if pattern[0] == STAR then fills[0] + Fill(pattern[1..], fills[1..])
    else [pattern[0]] + Fill(pattern[1..], fills)
  }

  /** Some way to fill each star makes the pattern equal to the value. */
  ghost predicate Matches(pattern: seq<byte>, value: seq<byte>) {
    exists fills: seq<seq<byte>> :: |fills| == Stars(pattern) && Fill(pattern, fills) == value
  }

  // ----- library functions

  /** strings.Split(s, "*"). */
  function Split(s: seq<byte>): (parts: seq<seq<byte>>)
    ensures |parts| == Stars(s) + 1
    ensures STAR in s <==> |parts| > 1
  {
    if s == [] then [[]]
    else
      var rest := Split(s[1..]);
      if s[0] == STAR then [[]] + rest else [[s[0]] + rest[0]] + rest[1..]
  }

  predicate OccursAt(part: seq<byte>, s: seq<byte>, i: nat) {
    i + |part| <= |s| && s[i..i + |part|] == part
  }

  /** strings.Index: the first occurrence, or -1. */
  function Index(s: seq<byte>, part: seq<byte>, from: nat := 0): (i: int)
    requires from <= |s|
    ensures i >= 0 ==> from <= i && OccursAt(part, s, i)
    ensures forall j: nat :: from <= j && (i < 0 || j < i) ==> !OccursAt(part, s, j)
    decreases |s| - from
  {
    if OccursAt(part, s, from) then from
    else if from == |s| then -1
    else Index(s, part, from + 1)
  }

  predicate HasSuffix(s: seq<byte>, part: seq<byte>) {
    |part| <= |s| && s[|s| - |part|..] == part
  }

  // ----- the matcher

  /** Parts that each follow a star, matched against all of s. */
  ghost predicate Trailing(parts: seq<seq<byte>>, s: seq<byte>) {
    if parts == [] then s == []
    else exists i: nat :: OccursAt(parts[0], s, i) && Trailing(parts[1..], s[i + |parts[0]|..])
  }

  ghost predicate PartsMatch(parts: seq<seq<byte>>, s: seq<byte>)
    requires parts != []
  {
    OccursAt(parts[0], s, 0) && Trailing(parts[1..], s[|parts[0]|..])
  }

  lemma TrailingWitness(parts: seq<seq<byte>>, s: seq<byte>, i: nat)
    requires parts != [] && OccursAt(parts[0], s, i) && Trailing(parts[1..], s[i + |parts[0]|..])
    ensures Trailing(parts, s)
  {
  }

  /** A star also covers any text in front. */
  lemma TrailingPrepend(parts: seq<seq<byte>>, s: seq<byte>, d: nat)
    requires parts != [] && d <= |s| && Trailing(parts, s[d..])
    ensures Trailing(parts, s)
  {
    var i: nat :| OccursAt(parts[0], s[d..], i) && Trailing(parts[1..], s[d..][i + |parts[0]|..]);
    assert s[d..][i..i + |parts[0]|] == s[d + i..d + i + |parts[0]|];
    assert s[d..][i + |parts[0]|..] == s[d + i + |parts[0]|..];
    TrailingWitness(parts, s, d + i);
  }

  /** Taking the first occurrence loses nothing, as long as another star follows. */
  lemma GreedyStep(parts: seq<seq<byte>>, s: seq<byte>, first: nat)
    requires |parts| >= 2 && OccursAt(parts[0], s, first)
    requires forall j: nat :: j < first ==> !OccursAt(parts[0], s, j)
    ensures Trailing(parts, s) <==> Trailing(parts[1..], s[first + |parts[0]|..])
  {
    if Trailing(parts, s) {
      var i: nat :| OccursAt(parts[0], s, i) && Trailing(parts[1..], s[i + |parts[0]|..]);
      var rest := s[first + |parts[0]|..];
      assert rest[i - first..] == s[i + |parts[0]|..];
      TrailingPrepend(parts[1..], rest, i - first);
    }
  }

  /** After the last star only the end of the value counts, and it cannot overlap what came before. */
  lemma LastPart(part: seq<byte>, s: seq<byte>)
    ensures Trailing([part], s) <==> HasSuffix(s, part)
  {
    assert [part][1..] == [];
    if Trailing([part], s) {
      var i: nat :| OccursAt(part, s, i) && Trailing([], s[i + |part|..]);
      assert i + |part| == |s|;
    }
    if HasSuffix(s, part) {
      assert OccursAt(part, s, |s| - |part|) && s[|s| - |part| + |part|..] == [];
      TrailingWitness([part], s, |s| - |part|);
    }
  }

  /** What is left to decide once the first i parts are placed before pos. */
  ghost predicate Remaining(parts: seq<seq<byte>>, s: seq<byte>, i: nat, pos: nat)
    requires |parts| >= 2 && i <= |parts| && pos <= |s|
  {
    if i == 0 then PartsMatch(parts, s)
    else if i < |parts| then Trailing(parts[i..], s[pos..])
    else HasSuffix(s, parts[|parts| - 1])
  }

  lemma Advance(parts: seq<seq<byte>>, s: seq<byte>, i: nat, pos: nat, idx: nat)
    requires |parts| >= 2 && i < |parts| && pos <= |s|
    requires OccursAt(parts[i], s[pos..], idx)
    requires forall j: nat :: j < idx ==> !OccursAt(parts[i], s[pos..], j)
    requires i == 0 ==> pos == idx == 0
    ensures Remaining(parts, s, i, pos) <==> Remaining(parts, s, i + 1, pos + idx + |parts[i]|)
  {
    var rest := s[pos..];
    assert rest[idx + |parts[i]|..] == s[pos + idx + |parts[i]|..];
    if i == 0 {
      assert rest == s;
    } else if i + 1 < |parts| {
      assert parts[i..][1..] == parts[i + 1..];
      GreedyStep(parts[i..], rest, idx);
    } else {
      assert parts[i..] == [parts[i]];
      LastPart(parts[i], rest);
      assert rest[|rest| - |parts[i]|..] == s[|s| - |parts[i]|..];
    }
  }

  method MatchParts(s: seq<byte>, parts: seq<seq<byte>>) returns (ok: bool)
    requires |parts| >= 2
    ensures ok <==> PartsMatch(parts, s)
  {
    hide Trailing, PartsMatch;
    var pos := 0;
    for i := 0 to |parts|
      invariant 0 <= pos <= |s| && (i == 0 ==> pos == 0)
      invariant PartsMatch(parts, s) <==> Remaining(parts, s, i, pos)
    {
      if parts[i] == [] {
        Advance(parts, s, i, pos, 0);
        continue;
      }
      var idx := Index(s[pos..], parts[i]);
      if idx < 0 || (i == 0 && idx != 0) {
        NotPlaced(parts, s, i, pos);
        return false;
      }
      Advance(parts, s, i, pos, idx);
      pos := pos + idx + |parts[i]|;
    }
    var last := parts[|parts| - 1];
    return last == [] || HasSuffix(s, last);
  }

  lemma NotPlaced(parts: seq<seq<byte>>, s: seq<byte>, i: nat, pos: nat)
    requires |parts| >= 2 && i < |parts| && pos <= |s| && (i == 0 ==> pos == 0)
    requires Index(s[pos..], parts[i]) < 0 || (i == 0 && Index(s[pos..], parts[i]) != 0)
    ensures !Remaining(parts, s, i, pos)
  {
    assert i == 0 ==> s[pos..] == s;
  }

  /** The code: `pattern == "*"` and patterns without a star are decided before the scan. */
  method MatchWildcard(lower: rune -> rune, equalFold: (seq<byte>, seq<byte>) -> bool, value: seq<byte>,
      pattern: seq<byte>)
    returns (ok: bool)
    requires lower(STAR) == STAR
    ensures STAR in pattern ==> (ok <==> Matches(ToLower(lower, pattern), ToLower(lower, value)))
    ensures STAR !in pattern ==> ok == equalFold(value, pattern)
  {
    if pattern == [STAR] {
      LoneStar(lower, ToLower(lower, value));
      return true;
    }
    if STAR !in pattern {
      return equalFold(value, pattern);
    }
    KeptByLowering(lower, pattern, STAR);
    var parts := Split(ToLower(lower, pattern));
    ok := MatchParts(ToLower(lower, value), parts);
    SplitMeaning(ToLower(lower, pattern), ToLower(lower, value));
  }

  /** Patterns without a star compare exactly, with one by the glob. */
  method MatchField(lower: rune -> rune, equalFold: (seq<byte>, seq<byte>) -> bool, value: seq<byte>,
      pattern: seq<byte>)
    returns (ok: bool)
    requires lower(STAR) == STAR
    ensures ok <==>
      if STAR in pattern then Matches(ToLower(lower, pattern), ToLower(lower, value)) else value == pattern
  {
    if STAR in pattern {
      ok := MatchWildcard(lower, equalFold, value, pattern);
    } else {
      ok := value == pattern;
    }
  }

  lemma LoneStar(lower: rune -> rune, value: seq<byte>)
    requires lower(STAR) == STAR
    ensures Matches(ToLower(lower, [STAR]), value)
  {
    assert ToLower(lower, [STAR]) == [STAR];
    assert [STAR][1..] == [];
    assert Fill([STAR], [value]) == value;
  }

  // ----- parts against fills

  /** The parts after the first, each preceded by its fill. */
  function Tail(parts: seq<seq<byte>>, fills: seq<seq<byte>>): seq<byte>
    requires |parts| == |fills|
  {
    if parts == [] then [] else fills[0] + parts[0] + Tail(parts[1..], fills[1..])
  }

  lemma {:induction false} FillByParts(pattern: seq<byte>, fills: seq<seq<byte>>)
    requires |fills| == Stars(pattern)
    ensures Fill(pattern, fills) == Split(pattern)[0] + Tail(Split(pattern)[1..], fills)
  {
    if pattern != [] {
      var rest := Split(pattern[1..]);
      if pattern[0] == STAR {
        FillByParts(pattern[1..], fills[1..]);
        assert Split(pattern)[1..] == rest;
        assert fills[0] + (rest[0] + Tail(rest[1..], fills[1..])) == fills[0] + rest[0] + Tail(rest[1..], fills[1..]);
      } else {
        FillByParts(pattern[1..], fills);
        assert Split(pattern)[1..] == rest[1..];
        assert [pattern[0]] + (rest[0] + Tail(rest[1..], fills)) == ([pattern[0]] + rest[0]) + Tail(rest[1..], fills);
      }
    }
  }

  lemma {:induction false} TrailingToFills(parts: seq<seq<byte>>, s: seq<byte>) returns (fills: seq<seq<byte>>)
    requires Trailing(parts, s)
    ensures |fills| == |parts| && Tail(parts, fills) == s
  {
    if parts == [] {
      fills := [];
    } else {
      var i: nat :| OccursAt(parts[0], s, i) && Trailing(parts[1..], s[i + |parts[0]|..]);
      var more := TrailingToFills(parts[1..], s[i + |parts[0]|..]);
      fills := [s[..i]] + more;
      assert fills[1..] == more;
      assert s == s[..i] + s[i..i + |parts[0]|] + s[i + |parts[0]|..];
    }
  }

  lemma {:induction false} FillsToTrailing(parts: seq<seq<byte>>, fills: seq<seq<byte>>)
    requires |fills| == |parts|
    ensures Trailing(parts, Tail(parts, fills))
  {
    if parts != [] {
      FillsToTrailing(parts[1..], fills[1..]);
      var s, i := Tail(parts, fills), |fills[0]|;
      assert s[i..i + |parts[0]|] == parts[0];
      assert s[i + |parts[0]|..] == Tail(parts[1..], fills[1..]);
      TrailingWitness(parts, s, i);
    }
  }

  lemma SplitMeaning(pattern: seq<byte>, value: seq<byte>)
    ensures PartsMatch(Split(pattern), value) <==> Matches(pattern, value)
  {
    var parts := Split(pattern);
    if PartsMatch(parts, value) {
      var fills := TrailingToFills(parts[1..], value[|parts[0]|..]);
      FillByParts(pattern, fills);
      assert value == value[..|parts[0]|] + value[|parts[0]|..];
      assert Fill(pattern, fills) == value;
    }
    if Matches(pattern, value) {
      var fills: seq<seq<byte>> :| |fills| == Stars(pattern) && Fill(pattern, fills) == value;
      FillByParts(pattern, fills);
      FillsToTrailing(parts[1..], fills);
      assert value[0..0 + |parts[0]|] == parts[0];
      assert value[|parts[0]|..] == Tail(parts[1..], fills);
    }
  }
}
