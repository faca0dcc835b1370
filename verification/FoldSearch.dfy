/**
 The allocation-free case-folded substring search of the event filters
 (api/internal/model/srvlog.go, `containsFold` and `hasPrefixFold`), against a search in the
 lowercased string, by runes and by bytes. `lower` stands for unicode.ToLower.
 */
module FoldSearch {
  import opened Common
  import opened Utf8

  /** The needle's runes are the lowercased runes of hay from position k. */
  ghost predicate OccursAt(lower: rune -> rune, needle: seq<rune>, hay: seq<rune>, k: nat) {
    k + |needle| <= |hay| && forall j :: 0 <= j < |needle| ==> lower(hay[k + j]) == needle[j]
  }

  /** The needle's runes occur in the lowercased haystack. */
  ghost predicate Occurs(lower: rune -> rune, needle: seq<rune>, hay: seq<rune>) {
    exists k: nat :: OccursAt(lower, needle, hay, k)
  }

  /** What the byte scan finds: an occurrence from some byte that is not a continuation byte. */
  ghost predicate Finds(lower: rune -> rune, s: seq<byte>, needle: seq<byte>) {
    needle == [] || exists i: nat :: FoundFrom(lower, s, needle, i)
  }

  ghost predicate FoundFrom(lower: rune -> rune, s: seq<byte>, needle: seq<byte>, i: nat) {
    i < |s| && !Continuation(s[i]) && OccursAt(lower, Runes(needle), Runes(s[i..]), 0)
  }

  lemma HeadAndTail(lower: rune -> rune, needle: seq<rune>, hay: seq<rune>)
    requires needle != []
    ensures OccursAt(lower, needle, hay, 0) <==>
      hay != [] && lower(hay[0]) == needle[0] && OccursAt(lower, needle[1..], hay[1..], 0)
  {
    if hay != [] && lower(hay[0]) == needle[0] && OccursAt(lower, needle[1..], hay[1..], 0) {
      forall j | 0 <= j < |needle|
        ensures lower(hay[0 + j]) == needle[j]
      {
        if j > 0 {
          assert needle[1..][j - 1] == needle[j] && hay[1..][0 + (j - 1)] == hay[j];
        }
      }
    }
    if OccursAt(lower, needle, hay, 0) {
      assert lower(hay[0 + 0]) == needle[0];
      forall j | 0 <= j < |needle[1..]|
        ensures lower(hay[1..][0 + j]) == needle[1..][j]
      {
        assert lower(hay[0 + (j + 1)]) == needle[j + 1];
      }
    }
  }

  /** Decoding looks at no more than four bytes. */
  lemma FourBytesDecide(s: seq<byte>)
    requires s != []
    ensures var buf := s[..if |s| < 4 then |s| else 4]; FirstRune(buf) == FirstRune(s) && Width(buf) == Width(s)
  {
  }

  /** The decoding step of the scan: a fast path for ASCII, else a copy of up to four bytes. */
  method DecodeAt(s: seq<byte>, i: nat) returns (r: rune, size: nat)
    requires i < |s|
    ensures r == FirstRune(s[i..]) && size == Width(s[i..])
  {
    r, size := s[i], 1;
    if s[i] >= 0x80 {
      FourBytesDecide(s[i..]);
      var buf := s[i..][..if |s| - i < 4 then |s| - i else 4];
      r, size := FirstRune(buf), Width(buf);
    }
  }

  method HasPrefixFold(lower: rune -> rune, s: seq<byte>, prefix: seq<byte>) returns (found: bool)
    ensures found <==> OccursAt(lower, Runes(prefix), Runes(s), 0)
  {
    hide SequenceLength, FirstRune, Width;
    var i, n := 0, 0;
    assert s[0..] == s && prefix[0..] == prefix;
    while n < |prefix|
      invariant i <= |s| && n <= |prefix|
      invariant OccursAt(lower, Runes(prefix), Runes(s), 0) <==> OccursAt(lower, Runes(prefix[n..]), Runes(s[i..]), 0)
    {
      hide OccursAt;
      HeadAndTail(lower, Runes(prefix[n..]), Runes(s[i..]));
      if i >= |s| {
        return false;
      }
      var pr, width := FirstRune(prefix[n..]), Width(prefix[n..]);
      var sr, size := DecodeAt(s, i);
      if lower(sr) != pr {
        return false;
      }
      assert s[i..][size..] == s[i + size..] && prefix[n..][width..] == prefix[n + width..];
      i, n := i + size, n + width;
    }
    return true;
  }

  method ContainsFold(lower: rune -> rune, s: seq<byte>, needle: seq<byte>) returns (found: bool)
    ensures found <==> Finds(lower, s, needle)
  {
    if needle == [] {
      return true;
    }
    for i := 0 to |s|
      invariant forall j: nat :: j < i ==> !FoundFrom(lower, s, needle, j)
    {
      if Continuation(s[i]) {
        continue;
      }
      var prefix := HasPrefixFold(lower, s[i..], needle);
      if prefix {
        assert FoundFrom(lower, s, needle, i);
        return true;
      }
    }
    return false;
  }

  // ----- the scan against the documented meaning

  lemma OccursShifted(lower: rune -> rune, needle: seq<rune>, hay: seq<rune>, k: nat)
    requires k <= |hay|
    ensures OccursAt(lower, needle, hay[k..], 0) <==> OccursAt(lower, needle, hay, k)
  {
    if k + |needle| <= |hay| {
      forall j | 0 <= j < |needle|
        ensures lower(hay[k..][0 + j]) == needle[j] <==> lower(hay[k + j]) == needle[j]
      {
      }
    }
  }

  /** The scan never reports an occurrence that is not there, whatever the bytes. */
  lemma FoundIsThere(lower: rune -> rune, s: seq<byte>, needle: seq<byte>)
    requires Finds(lower, s, needle)
    ensures Occurs(lower, Runes(needle), Runes(s))
  {
    if needle == [] {
      assert OccursAt(lower, Runes(needle), Runes(s), 0);
    } else {
      var i: nat :| FoundFrom(lower, s, needle, i);
      var k := StartsRune(s, i);
      RunesFrom(s, k);
      OccursShifted(lower, Runes(needle), Runes(s), k);
    }
  }

  /** An occurrence that starts at a proper rune is found. */
  lemma ThereIsFound(lower: rune -> rune, s: seq<byte>, needle: seq<byte>, k: nat)
    requires OccursAt(lower, Runes(needle), Runes(s), k) && needle != []
    requires Valid(s) || Runes(s)[k] != RUNE_ERROR
    ensures Finds(lower, s, needle)
  {
    StrayRune(s, k);
    RunesFrom(s, k);
    OccursShifted(lower, Runes(needle), Runes(s), k);
    assert FoundFrom(lower, s, needle, Offset(s, k));
  }

  // ----- runes and bytes of the lowercased string

  /** strings.Contains. */
  ghost predicate Contains(s: seq<byte>, part: seq<byte>) {
    exists i: nat :: PartAt(s, part, i)
  }

  predicate PartAt(s: seq<byte>, part: seq<byte>, i: nat) {
    i + |part| <= |s| && s[i..i + |part|] == part
  }

  /** An occurrence by runes is a contiguous part of the lowercased bytes, and the other way round. */
  lemma OccursIsContained(lower: rune -> rune, s: seq<byte>, needle: seq<byte>)
    requires ScalarValued(lower) && Valid(needle)
    ensures Occurs(lower, Runes(needle), Runes(s)) <==> Contains(ToLower(lower, s), needle)
  {
    hide Runes, ToLower, Valid, EncodeAll, ScalarValued;
    if Occurs(lower, Runes(needle), Runes(s)) {
      var k: nat :| OccursAt(lower, Runes(needle), Runes(s), k);
      OccursThenContained(lower, s, needle, k);
    }
    if Contains(ToLower(lower, s), needle) {
      var i: nat :| PartAt(ToLower(lower, s), needle, i);
      ContainedThenOccurs(lower, s, needle, i);
    }
  }

  lemma OccursThenContained(lower: rune -> rune, s: seq<byte>, needle: seq<byte>, k: nat)
    requires Valid(needle) && OccursAt(lower, Runes(needle), Runes(s), k)
    ensures Contains(ToLower(lower, s), needle)
  {
    hide Runes, ToLower, Valid, EncodeAll;
    var rs, n := Lowered(lower, Runes(s)), |Runes(needle)|;
    LoweredRunes(lower, s);
    EncodeRunes(needle);
    assert rs[k..k + n] == Runes(needle);
    assert rs == rs[..k] + (rs[k..k + n] + rs[k + n..]);
    EncodeConcat(rs[..k], rs[k..k + n] + rs[k + n..]);
    EncodeConcat(rs[k..k + n], rs[k + n..]);
    var a, t := EncodeAll(rs[..k]), ToLower(lower, s);
    assert PartAt(t, needle, |a|);
  }

  lemma ContainedThenOccurs(lower: rune -> rune, s: seq<byte>, needle: seq<byte>, i: nat)
    requires ScalarValued(lower) && Valid(needle) && PartAt(ToLower(lower, s), needle, i)
    ensures Occurs(lower, Runes(needle), Runes(s))
  {
    hide Runes, ToLower, Valid, ScalarValued;
    if needle == [] {
      NoRunes();
      assert OccursAt(lower, Runes(needle), Runes(s), 0);
    } else {
      var t := ToLower(lower, s);
      var k := PartDecodes(t, needle, i);
      LoweredRunes(lower, s);
      SliceOccurs(lower, Runes(s), Runes(needle), Runes(t[i + |needle|..]), k);
    }
  }

  /** A valid part of any bytes decodes to a slice of their runes. */
  lemma PartDecodes(t: seq<byte>, part: seq<byte>, i: nat) returns (k: nat)
    requires Valid(part) && part != [] && PartAt(t, part, i)
    ensures k <= |Runes(t)| && Runes(t)[k..] == Runes(part) + Runes(t[i + |part|..])
  {
    hide Runes, Valid, Offset;
    StartOfValid(part);
    assert t[i..i + |part|][0] == t[i];
    k := StartsRune(t, i);
    RunesFrom(t, k);
    assert t[i..] == t[i..i + |part|] + t[i + |part|..];
    RunesConcat(part, t[i + |part|..]);
  }

  lemma SliceOccurs(lower: rune -> rune, hay: seq<rune>, needle: seq<rune>, rest: seq<rune>, k: nat)
    requires k <= |hay| && Lowered(lower, hay)[k..] == needle + rest
    ensures Occurs(lower, needle, hay)
  {
    forall j | 0 <= j < |needle|
      ensures lower(hay[k + j]) == needle[j]
    {
      assert Lowered(lower, hay)[k..][j] == (needle + rest)[j];
    }
    assert OccursAt(lower, needle, hay, k);
  }

  /** On valid UTF-8 the byte scan decides exactly whether the lowercased string contains the needle. */
  lemma ExactOnValidUtf8(lower: rune -> rune, s: seq<byte>, needle: seq<byte>)
    requires Valid(s)
    ensures Finds(lower, s, needle) <==> Occurs(lower, Runes(needle), Runes(s))
    ensures ScalarValued(lower) && Valid(needle) ==> (Finds(lower, s, needle) <==> Contains(ToLower(lower, s), needle))
  {
    if Finds(lower, s, needle) {
      FoundIsThere(lower, s, needle);
    }
    if Occurs(lower, Runes(needle), Runes(s)) && needle != [] {
      var k: nat :| OccursAt(lower, Runes(needle), Runes(s), k);
      ThereIsFound(lower, s, needle, k);
    }
    if ScalarValued(lower) && Valid(needle) {
      OccursIsContained(lower, s, needle);
    }
  }

  /** A lowercase needle. */
  ghost predicate Lowercase(lower: rune -> rune, needle: seq<byte>) {
    Valid(needle) && forall j :: 0 <= j < |Runes(needle)| ==> lower(Runes(needle)[j]) == Runes(needle)[j]
  }

  /** What strings.ToLower produces is lowercase, whatever it is given. */
  lemma LoweredIsLowercase(lower: rune -> rune, search: seq<byte>)
    requires ScalarValued(lower) && forall r: rune :: lower(lower(r)) == lower(r)
    ensures Lowercase(lower, ToLower(lower, search))
  {
    hide Runes, ToLower, Valid;
    LoweredRunes(lower, search);
    var rs := Runes(ToLower(lower, search));
    forall j | 0 <= j < |rs|
      ensures lower(rs[j]) == rs[j]
    {
      var r: rune := Runes(search)[j];
      assert lower(lower(r)) == lower(r) && rs[j] == lower(r);
    }
  }

  /**
   The documentation promises, for every byte string, whether its lowercased form contains the
   needle. That is kept for exactly the needles that do not begin with U+FFFD: such a needle is
   also contained where the lowercased form has a stray continuation byte replaced, and there the
   scan never starts.
   */
  lemma ExactForNeedle(lower: rune -> rune, needle: seq<byte>)
    requires ScalarValued(lower) && lower(RUNE_ERROR) == RUNE_ERROR && Lowercase(lower, needle)
    ensures (forall s: seq<byte> :: Finds(lower, s, needle) <==> Contains(ToLower(lower, s), needle))
       <==> (needle == [] || Runes(needle)[0] != RUNE_ERROR)
  {
    hide Finds, Occurs, Runes, Contains, ToLower;
    if needle == [] || Runes(needle)[0] != RUNE_ERROR {
      forall s: seq<byte>
        ensures Finds(lower, s, needle) <==> Contains(ToLower(lower, s), needle)
      {
        ExactWhenProper(lower, s, needle);
        OccursIsContained(lower, s, needle);
      }
    } else {
      var s: seq<byte> := [0x80] + needle[Width(needle)..];
      MissedAtStrayByte(lower, needle);
      OccursIsContained(lower, s, needle);
      assert !(Finds(lower, s, needle) <==> Contains(ToLower(lower, s), needle));
    }
  }

  lemma ExactWhenProper(lower: rune -> rune, s: seq<byte>, needle: seq<byte>)
    requires lower(RUNE_ERROR) == RUNE_ERROR
    requires needle == [] || Runes(needle)[0] != RUNE_ERROR
    ensures Finds(lower, s, needle) <==> Occurs(lower, Runes(needle), Runes(s))
  {
    if Finds(lower, s, needle) {
      FoundIsThere(lower, s, needle);
    }
    if needle != [] && Occurs(lower, Runes(needle), Runes(s)) {
      var k: nat :| OccursAt(lower, Runes(needle), Runes(s), k);
      assert lower(Runes(s)[k + 0]) == Runes(needle)[0];
      ThereIsFound(lower, s, needle, k);
    }
  }

  /** The counterexample: the needle with its first rune replaced by the byte 0x80. */
  lemma MissedAtStrayByte(lower: rune -> rune, needle: seq<byte>)
    requires lower(RUNE_ERROR) == RUNE_ERROR && Lowercase(lower, needle)
    requires needle != [] && Runes(needle)[0] == RUNE_ERROR
    ensures var s := [0x80] + needle[Width(needle)..];
      Occurs(lower, Runes(needle), Runes(s)) && !Finds(lower, s, needle)
  {
    var s: seq<byte> := [0x80] + needle[Width(needle)..];
    assert s[1..] == needle[Width(needle)..];
    assert Runes(s) == Runes(needle);
    assert OccursAt(lower, Runes(needle), Runes(s), 0);
    forall i: nat
      ensures !FoundFrom(lower, s, needle, i)
    {
      if i < |s| && !Continuation(s[i]) {
        var k := StartsRune(s, i);
        RunesFrom(s, k);
        assert |Runes(s[i..])| == |Runes(s)| - k < |Runes(needle)|;
      }
    }
  }
}
