/**
 UTF-8 as Go's unicode/utf8 decodes it: the well-formed sequences of section 4 of RFC 3629,
 and U+FFFD of width one for every byte that starts none.
 */
module Utf8 {
  import opened Common

  type rune = int

  const RUNE_ERROR: rune := 0xFFFD
  const REPLACEMENT: seq<byte> := [0xEF, 0xBF, 0xBD]

  /** b & 0xC0 == 0x80. */
  predicate Continuation(b: byte) {
    0x80 <= b < 0xC0
  }

  /** The length of the well-formed sequence that s starts with, or 0. */
  function SequenceLength(s: seq<byte>): (n: nat)
    requires s != []
    ensures n <= |s| && n <= 4
    ensures forall k :: 1 <= k < n ==> Continuation(s[k])
    ensures n > 0 ==> !Continuation(s[0])
  {
    var b := s[0];
    if b < 0x80 then 1
    else if 0xC2 <= b <= 0xDF then
      if |s| >= 2 && Continuation(s[1]) then 2 else 0
    else if 0xE0 <= b <= 0xEF then
      var lo, hi := if b == 0xE0 then 0xA0 else 0x80, if b == 0xED then 0x9F else 0xBF;
      if |s| >= 3 && lo <= s[1] <= hi && Continuation(s[2]) then 3 else 0
    else if 0xF0 <= b <= 0xF4 then
      var lo, hi := if b == 0xF0 then 0x90 else 0x80, if b == 0xF4 then 0x8F else 0xBF;
      if |s| >= 4 && lo <= s[1] <= hi && Continuation(s[2]) && Continuation(s[3]) then 4 else 0
    else 0
  }

  /** utf8.DecodeRune's width. */
  function Width(s: seq<byte>): (n: nat)
    requires s != []
    ensures 1 <= n <= |s|
  {
    if SequenceLength(s) == 0 then 1 else SequenceLength(s)
  }

  /** utf8.DecodeRune's rune. */
  function FirstRune(s: seq<byte>): (r: rune)
    requires s != []
    ensures s[0] < 0x80 ==> r == s[0]
  {
    var n := SequenceLength(s);
    if n == 0 then RUNE_ERROR
    else if n == 1 then s[0]
    else if n == 2 then 64 * Bits(s[0], 0xC0) + Bits(s[1], 0x80)
    else if n == 3 then 4096 * Bits(s[0], 0xE0) + 64 * Bits(s[1], 0x80) + Bits(s[2], 0x80)
    else 262144 * Bits(s[0], 0xF0) + 4096 * Bits(s[1], 0x80) + 64 * Bits(s[2], 0x80) + Bits(s[3], 0x80)
  }

  /** The payload of a byte below its tag bits. */
  function Bits(b: byte, tag: int): int {
    b as int - tag
  }

  predicate Valid(s: seq<byte>) {
    s == [] || (SequenceLength(s) > 0 && Valid(s[SequenceLength(s)..]))
  }

  /** The runes a `range` over s yields. */
  function Runes(s: seq<byte>): (rs: seq<rune>)
    ensures s != [] ==> rs != []
  {
    if s == [] then [] else [FirstRune(s)] + Runes(s[Width(s)..])
  }

  /** The byte offset of the k-th rune of s. */
  function Offset(s: seq<byte>, k: nat): (i: nat)
    requires k <= |Runes(s)|
    ensures i <= |s|
  {
    if k == 0 then 0 else Width(s) + Offset(s[Width(s)..], k - 1)
  }

  /** One unfolding of the two. */
  lemma Unfold(s: seq<byte>)
    requires s != []
    ensures |Runes(s)| == 1 + |Runes(s[Width(s)..])| && Runes(s)[0] == FirstRune(s)
    ensures forall k: nat :: 0 < k <= |Runes(s)| ==> Runes(s)[k..] == Runes(s[Width(s)..])[k - 1..]
    ensures forall k: nat :: 0 < k <= |Runes(s)| ==> Offset(s, k) == Width(s) + Offset(s[Width(s)..], k - 1)
  {
    hide Width, FirstRune, SequenceLength;
  }

  lemma {:induction false} RunesFrom(s: seq<byte>, k: nat)
    requires k <= |Runes(s)|
    ensures Runes(s[Offset(s, k)..]) == Runes(s)[k..]
  {
    hide SequenceLength, FirstRune, Runes, Offset, Width;
    if k == 0 {
      OffsetZero(s);
      assert s[0..] == s && Runes(s)[0..] == Runes(s);
    } else {
      NoRunes();
      assert s != [];
      var rest := s[Width(s)..];
      Unfold(s);
      RunesFrom(rest, k - 1);
      assert s[Offset(s, k)..] == rest[Offset(rest, k - 1)..];
    }
  }

  lemma OffsetZero(s: seq<byte>)
    ensures Offset(s, 0) == 0
  {
  }

  /** Self-synchronization: a byte that continues nothing starts a rune, in any byte string. */
  lemma {:induction false} StartsRune(s: seq<byte>, i: nat) returns (k: nat)
    requires i < |s| && !Continuation(s[i])
    ensures k < |Runes(s)| && Offset(s, k) == i
  {
    hide SequenceLength, FirstRune, Runes, Offset;
    var n := Width(s);
    if i < n {
      k := 0;
      OffsetZero(s);
    } else {
      assert s[n..][i - n] == s[i];
      var k' := StartsRune(s[n..], i - n);
      Unfold(s);
      k := k' + 1;
    }
  }

  /** A rune that starts at a continuation byte is a stray byte and decodes to U+FFFD. */
  lemma {:induction false} StrayRune(s: seq<byte>, k: nat)
    requires k < |Runes(s)|
    ensures Offset(s, k) < |s|
    ensures Continuation(s[Offset(s, k)]) ==> Runes(s)[k] == RUNE_ERROR
    ensures Valid(s) ==> !Continuation(s[Offset(s, k)])
  {
    hide SequenceLength;
    if k > 0 {
      var rest := s[Width(s)..];
      StrayRune(rest, k - 1);
      assert s[Offset(s, k)] == rest[Offset(rest, k - 1)];
    }
  }

  lemma StartOfValid(v: seq<byte>)
    requires Valid(v) && v != []
    ensures !Continuation(v[0])
  {
  }

  lemma SequenceExtend(s: seq<byte>, t: seq<byte>)
    requires s != [] && SequenceLength(s) > 0
    ensures SequenceLength(s + t) == SequenceLength(s)
  {
  }

  lemma SequenceRestrict(s: seq<byte>, i: nat)
    requires s != [] && 0 < SequenceLength(s) && 0 < i <= |s| && (i < |s| ==> !Continuation(s[i]))
    ensures SequenceLength(s) <= i && SequenceLength(s[..i]) == SequenceLength(s)
  {
  }

  lemma {:induction false} ValidConcat(s: seq<byte>, t: seq<byte>)
    requires Valid(s) && Valid(t)
    ensures Valid(s + t)
  {
    hide SequenceLength, Valid;
    if s == [] {
      assert s + t == t;
    } else {
      var n := SequenceLength(s);
      ValidCons(s);
      ValidCons(s + t);
      ValidConcat(s[n..], t);
      SequenceExtend(s, t);
      assert (s + t)[n..] == s[n..] + t;
    }
  }

  lemma ValidCons(s: seq<byte>)
    requires s != []
    ensures Valid(s) <==> SequenceLength(s) > 0 && Valid(s[SequenceLength(s)..])
  {
    hide SequenceLength;
  }

  /** Cutting valid UTF-8 anywhere but before a continuation byte leaves two valid parts. */
  lemma {:induction false} ValidCut(s: seq<byte>, i: nat)
    requires Valid(s) && i <= |s| && (i < |s| ==> !Continuation(s[i]))
    ensures Valid(s[..i]) && Valid(s[i..])
  {
    if s == [] || i == 0 {
      assert s[..i] == [] && s[i..] == s;
    } else {
      hide SequenceLength;
      var n := SequenceLength(s);
      SequenceRestrict(s, i);
      ValidCut(s[n..], i - n);
      assert s[..i][n..] == s[n..][..i - n];
      assert s[i..] == s[n..][i - n..];
    }
  }

  /** What follows a valid part of valid UTF-8 is valid, so it does not begin inside a rune. */
  lemma {:induction false} ValidRest(s: seq<byte>, t: seq<byte>)
    requires Valid(s) && Valid(s + t)
    ensures Valid(t)
  {
    hide SequenceLength, Valid;
    if s == [] {
      assert s + t == t;
    } else {
      var n := SequenceLength(s);
      ValidCons(s);
      ValidCons(s + t);
      SequenceExtend(s, t);
      assert (s + t)[n..] == s[n..] + t;
      ValidRest(s[n..], t);
    }
  }

  /**
   In valid UTF-8 a prefix is valid, and so is the tail behind it, exactly if the cut is not before
   a continuation byte.
   */
  lemma CutIsValid(s: seq<byte>, i: nat)
    requires Valid(s) && i < |s|
    ensures Valid(s[..i]) <==> !Continuation(s[i])
    ensures Valid(s[i..]) <==> !Continuation(s[i])
  {
    hide SequenceLength, Valid;
    assert s == s[..i] + s[i..];
    if Valid(s[..i]) {
      ValidRest(s[..i], s[i..]);
    }
    if Valid(s[i..]) {
      StartOfValid(s[i..]);
    }
    if !Continuation(s[i]) {
      ValidCut(s, i);
    }
  }

  /** strings.ToValidUTF8 with U+FFFD: each run of invalid bytes becomes one replacement. */
  function ToValid(s: seq<byte>, afterInvalid: bool := false): (t: seq<byte>)
    ensures Valid(t)
    ensures Valid(s) ==> t == s
    ensures s != [] && !afterInvalid ==> t != []
  {
    if s == [] then []
    else if SequenceLength(s) == 0 then
      var t := ToValid(s[1..], true);
      if afterInvalid then t
      else
        assert (REPLACEMENT + t)[3..] == t;
        REPLACEMENT + t
    else
      var n := SequenceLength(s);
      var t := ToValid(s[n..], false);
      assert Valid(s[n..]) ==> s[..n] + t == s;
      assert (s[..n] + t)[n..] == t;
      assert SequenceLength(s[..n] + t) == n;
      s[..n] + t
  }

  /** A valid part in front stays as it is. */
  lemma {:induction false} ToValidKeeps(s: seq<byte>, t: seq<byte>)
    requires Valid(s) && s != []
    ensures ToValid(s + t, false) == s + ToValid(t, false) && ToValid(s + t, true) == s + ToValid(t, false)
  {
    hide SequenceLength, Valid, ToValid;
    var n := SequenceLength(s);
    ValidCons(s);
    SequenceExtend(s, t);
    ToValidCons(s + t, false);
    ToValidCons(s + t, true);
    assert (s + t)[n..] == s[n..] + t && (s + t)[..n] == s[..n] && s == s[..n] + s[n..];
    if s[n..] != [] {
      ToValidKeeps(s[n..], t);
    } else {
      assert s[n..] + t == t;
    }
  }

  lemma ToValidCons(s: seq<byte>, after: bool)
    requires s != []
    ensures var n := SequenceLength(s);
      ToValid(s, after) ==
      if n > 0 then s[..n] + ToValid(s[n..], false)
      else if after then ToValid(s[1..], true)
      else REPLACEMENT + ToValid(s[1..], true)
  {
    hide SequenceLength;
  }

  /** No byte of the first part starts a rune. */
  ghost predicate AllInvalid(bad: seq<byte>, t: seq<byte>) {
    forall i :: 0 <= i < |bad| ==> SequenceLength((bad + t)[i..]) == 0
  }

  /** A run of bytes that start no rune becomes one U+FFFD, however long it is. */
  lemma ToValidReplaces(bad: seq<byte>, t: seq<byte>)
    requires bad != [] && AllInvalid(bad, t) && (t == [] || SequenceLength(t) > 0)
    ensures ToValid(bad + t) == [0xEF, 0xBF, 0xBD] + ToValid(t)
  {
    hide SequenceLength, ToValid, Valid;
    RestInvalid(bad, t);
    ToValidCons(bad + t, false);
    assert (bad + t)[1..] == bad[1..] + t;
    RunSkipped(bad[1..], t);
  }

  lemma RestInvalid(bad: seq<byte>, t: seq<byte>)
    requires bad != [] && AllInvalid(bad, t)
    ensures SequenceLength(bad + t) == 0 && AllInvalid(bad[1..], t)
  {
    hide SequenceLength;
    assert (bad + t)[0..] == bad + t;
    forall i | 0 <= i < |bad[1..]|
      ensures SequenceLength((bad[1..] + t)[i..]) == 0
    {
      assert (bad[1..] + t)[i..] == (bad + t)[i + 1..];
    }
  }

  lemma {:induction false} RunSkipped(bad: seq<byte>, t: seq<byte>)
    requires AllInvalid(bad, t) && (t == [] || SequenceLength(t) > 0)
    ensures ToValid(bad + t, true) == ToValid(t, false)
  {
    if bad == [] {
      assert bad + t == t;
      if t == [] {
        assert ToValid(t, true) == ToValid(t, false);
      } else {
        ToValidCons(t, true);
        ToValidCons(t, false);
      }
    } else {
      hide SequenceLength, ToValid, Valid;
      RestInvalid(bad, t);
      ToValidCons(bad + t, true);
      assert (bad + t)[1..] == bad[1..] + t;
      RunSkipped(bad[1..], t);
    }
  }

  /** Runes that have an encoding: Unicode scalar values. */
  predicate Scalar(r: rune) {
    0 <= r < 0xD800 || 0xE000 <= r < 0x110000
  }

  /** utf8.AppendRune: anything but a scalar value is written as U+FFFD. */
  function EncodeRune(r: rune): (s: seq<byte>)
    ensures s != []
  {
    if !Scalar(r) then REPLACEMENT
    else if r < 0x80 then [r]
    else if r < 0x800 then [0xC0 + r / 64, 0x80 + r % 64]
    else if r < 0x10000 then [0xE0 + r / 4096, 0x80 + r / 64 % 64, 0x80 + r % 64]
    else [0xF0 + r / 262144, 0x80 + r / 4096 % 64, 0x80 + r / 64 % 64, 0x80 + r % 64]
  }

  function EncodeAll(rs: seq<rune>): seq<byte> {
    if rs == [] then [] else EncodeRune(rs[0]) + EncodeAll(rs[1..])
  }

  lemma DecodeEncoded(r: rune, rest: seq<byte>)
    requires Scalar(r)
    ensures FirstRune(EncodeRune(r) + rest) == r
    ensures SequenceLength(EncodeRune(r) + rest) == |EncodeRune(r)|
  {
    if r < 0x80 {
      assert (EncodeRune(r) + rest)[0] == r;
    } else if r < 0x800 {
      DecodeTwo(r, rest);
    } else if r < 0x10000 {
      DecodeThree(r, rest);
    } else {
      DecodeFour(r, rest);
    }
  }

  lemma DecodeTwo(r: rune, rest: seq<byte>)
    requires 0x80 <= r < 0x800
    ensures FirstRune(EncodeRune(r) + rest) == r && SequenceLength(EncodeRune(r) + rest) == |EncodeRune(r)|
  {
    var s := EncodeRune(r) + rest;
    Digits(r);
    assert s[0] == 0xC0 + r / 64 && s[1] == 0x80 + r % 64;
  }

  lemma DecodeThree(r: rune, rest: seq<byte>)
    requires 0x800 <= r < 0x10000 && Scalar(r)
    ensures FirstRune(EncodeRune(r) + rest) == r && SequenceLength(EncodeRune(r) + rest) == |EncodeRune(r)|
  {
    var s := EncodeRune(r) + rest;
    Digits(r);
    assert s[0] == 0xE0 + r / 4096 && s[1] == 0x80 + r / 64 % 64 && s[2] == 0x80 + r % 64;
    assert SequenceLength(s) == 3;
  }

  lemma DecodeFour(r: rune, rest: seq<byte>)
    requires 0x10000 <= r && Scalar(r)
    ensures FirstRune(EncodeRune(r) + rest) == r && SequenceLength(EncodeRune(r) + rest) == |EncodeRune(r)|
  {
    var s := EncodeRune(r) + rest;
    Digits(r);
    assert s[0] == 0xF0 + r / 262144 && s[1] == 0x80 + r / 4096 % 64;
    assert s[2] == 0x80 + r / 64 % 64 && s[3] == 0x80 + r % 64;
    assert SequenceLength(s) == 4;
  }

  /** The base-64 digits of a number. */
  lemma Digits(r: nat)
    ensures r == 64 * (r / 64) + r % 64
    ensures r == 4096 * (r / 4096) + 64 * (r / 64 % 64) + r % 64
    ensures r == 262144 * (r / 262144) + 4096 * (r / 4096 % 64) + 64 * (r / 64 % 64) + r % 64
  {
    var a := r / 64;
    var b := a / 64;
    assert r / 4096 == b by {
      assert r == 4096 * b + (64 * (a % 64) + r % 64);
    }
    assert r / 262144 == b / 64 by {
      assert r == 262144 * (b / 64) + (4096 * (b % 64) + 64 * (a % 64) + r % 64);
    }
  }

  /** Decoding what was encoded gives the runes back, as valid UTF-8. */
  lemma {:induction false} RoundTrip(rs: seq<rune>)
    requires forall k :: 0 <= k < |rs| ==> Scalar(rs[k])
    ensures Runes(EncodeAll(rs)) == rs && Valid(EncodeAll(rs))
  {
    if rs != [] {
      RoundTrip(rs[1..]);
      DecodeEncoded(rs[0], EncodeAll(rs[1..]));
      hide SequenceLength, FirstRune, EncodeRune;
      assert EncodeAll(rs)[|EncodeRune(rs[0])|..] == EncodeAll(rs[1..]);
    }
  }

  /** The digits of a number put together from base-64 digits. */
  lemma Undigits(w: nat, x: nat, y: nat, z: nat)
    requires x < 64 && y < 64 && z < 64
    ensures var r := 262144 * w + 4096 * x + 64 * y + z;
      r % 64 == z && r / 64 % 64 == y && r / 4096 % 64 == x && r / 262144 == w && r / 64 == 4096 * w + 64 * x + y
        && r / 4096 == 64 * w + x
  {
    var r := 262144 * w + 4096 * x + 64 * y + z;
    assert r / 64 == 4096 * w + 64 * x + y;
    assert r / 4096 == 64 * w + x;
  }

  /** Encoding what was decoded from a well-formed sequence gives its bytes back. */
  lemma EncodeDecoded(s: seq<byte>)
    requires s != []
    ensures Scalar(FirstRune(s))
    ensures SequenceLength(s) > 0 ==> EncodeRune(FirstRune(s)) == s[..SequenceLength(s)]
  {
    var n := SequenceLength(s);
    if n == 2 {
      EncodeTwo(s);
    } else if n == 3 {
      EncodeThree(s);
    } else if n == 4 {
      EncodeFour(s);
    }
  }

  lemma EncodeTwo(s: seq<byte>)
    requires s != [] && SequenceLength(s) == 2
    ensures Scalar(FirstRune(s)) && EncodeRune(FirstRune(s)) == s[..2]
  {
    Undigits(0, 0, s[0] - 0xC0, s[1] - 0x80);
  }

  lemma EncodeThree(s: seq<byte>)
    requires s != [] && SequenceLength(s) == 3
    ensures Scalar(FirstRune(s)) && EncodeRune(FirstRune(s)) == s[..3]
  {
    var x: int, y: int, z: int := s[0] - 0xE0, s[1] - 0x80, s[2] - 0x80;
    assert 0 <= x < 16 && 0 <= y < 64 && 0 <= z < 64 && (x == 0 ==> y >= 0x20) && (x == 13 ==> y < 0x20);
    assert FirstRune(s) == 4096 * x + 64 * y + z;
    hide SequenceLength, FirstRune;
    Undigits(0, x, y, z);
  }

  lemma EncodeFour(s: seq<byte>)
    requires s != [] && SequenceLength(s) == 4
    ensures Scalar(FirstRune(s)) && EncodeRune(FirstRune(s)) == s[..4]
  {
    var w: int, x: int, y: int, z: int := s[0] - 0xF0, s[1] - 0x80, s[2] - 0x80, s[3] - 0x80;
    assert 0 <= w <= 4 && 0 <= x < 64 && 0 <= y < 64 && 0 <= z < 64 && (w == 0 ==> x >= 0x10) && (w == 4 ==> x < 0x10);
    assert FirstRune(s) == 262144 * w + 4096 * x + 64 * y + z;
    hide SequenceLength, FirstRune;
    Undigits(w, x, y, z);
  }

  lemma EncodeCons(rs: seq<rune>)
    ensures rs == [] ==> EncodeAll(rs) == []
    ensures rs != [] ==> EncodeAll(rs) == EncodeRune(rs[0]) + EncodeAll(rs[1..])
  {
    hide EncodeRune;
  }

  lemma {:induction false} EncodeRunes(s: seq<byte>)
    requires Valid(s)
    ensures EncodeAll(Runes(s)) == s
  {
    hide SequenceLength, FirstRune, EncodeRune, Runes, EncodeAll, Valid;
    EncodeCons(Runes(s));
    if s == [] {
      NoRunes();
    } else {
      var n := SequenceLength(s);
      ValidCons(s);
      EncodeDecoded(s);
      EncodeRunes(s[n..]);
      RunesCons(s);
      assert Runes(s)[1..] == Runes(s[n..]);
      assert s == s[..n] + s[n..];
    }
  }

  lemma {:induction false} EncodeConcat(rs: seq<rune>, ts: seq<rune>)
    ensures EncodeAll(rs + ts) == EncodeAll(rs) + EncodeAll(ts)
  {
    hide EncodeRune, EncodeAll;
    EncodeCons(rs);
    if rs == [] {
      assert rs + ts == ts;
    } else {
      EncodeCons(rs + ts);
      EncodeConcat(rs[1..], ts);
      assert (rs + ts)[1..] == rs[1..] + ts;
    }
  }

  /** Decoding goes on behind a valid string as if it were not there. */
  lemma {:induction false} RunesConcat(s: seq<byte>, t: seq<byte>)
    requires Valid(s)
    ensures Runes(s + t) == Runes(s) + Runes(t)
  {
    hide SequenceLength, FirstRune, Runes;
    if s == [] {
      assert s + t == t;
      NoRunes();
    } else {
      var n := SequenceLength(s);
      RunesConcat(s[n..], t);
      FirstOfConcat(s, t);
      RunesCons(s);
      RunesCons(s + t);
      hide Valid;
      assert (s + t)[n..] == s[n..] + t;
    }
  }

  lemma NoRunes()
    ensures Runes([]) == []
  {
  }

  lemma RunesCons(s: seq<byte>)
    requires s != []
    ensures Runes(s) == [FirstRune(s)] + Runes(s[Width(s)..])
  {
  }

  lemma FirstOfConcat(s: seq<byte>, t: seq<byte>)
    requires s != [] && SequenceLength(s) > 0
    ensures SequenceLength(s + t) == SequenceLength(s) && FirstRune(s + t) == FirstRune(s)
  {
  }

  /** strings.ToLower, rune by rune. */
  function ToLower(lower: rune -> rune, s: seq<byte>): seq<byte> {
    if s == [] then [] else EncodeRune(lower(FirstRune(s))) + ToLower(lower, s[Width(s)..])
  }

  function Lowered(lower: rune -> rune, rs: seq<rune>): (ts: seq<rune>)
    ensures |ts| == |rs|
    ensures forall k :: 0 <= k < |rs| ==> ts[k] == lower(rs[k])
  {
    seq(|rs|, k requires 0 <= k < |rs| => lower(rs[k]))
  }

  /** The case mapping gives scalar values for scalar values. */
  ghost predicate ScalarValued(lower: rune -> rune) {
    forall r :: Scalar(r) ==> Scalar(lower(r))
  }

  /** The lowercased string is the encoding of the lowercased runes, and valid UTF-8 whatever the input. */
  lemma {:induction false} LoweredRunes(lower: rune -> rune, s: seq<byte>)
    ensures ToLower(lower, s) == EncodeAll(Lowered(lower, Runes(s)))
    ensures ScalarValued(lower) ==> Runes(ToLower(lower, s)) == Lowered(lower, Runes(s)) && Valid(ToLower(lower, s))
  {
    hide SequenceLength, FirstRune, EncodeRune;
    if s != [] {
      LoweredRunes(lower, s[Width(s)..]);
      assert Lowered(lower, Runes(s))[1..] == Lowered(lower, Runes(s[Width(s)..]));
    }
    AllScalar(s);
    if ScalarValued(lower) {
      RoundTrip(Lowered(lower, Runes(s)));
    }
  }

  lemma {:induction false} AllScalar(s: seq<byte>)
    ensures forall k :: 0 <= k < |Runes(s)| ==> Scalar(Runes(s)[k])
  {
    if s != [] {
      EncodeDecoded(s);
      hide SequenceLength, FirstRune;
      AllScalar(s[Width(s)..]);
    }
  }

  /** An ASCII byte that lowercasing keeps is found again in the lowercased string. */
  lemma {:induction false} KeptByLowering(lower: rune -> rune, s: seq<byte>, b: byte)
    requires b < 0x80 && lower(b) == b && b in s
    ensures b in ToLower(lower, s)
  {
    if s[0] == b {
      assert EncodeRune(b) == [b];
      assert ToLower(lower, s)[0] == b;
    } else {
      var i :| 0 <= i < |s| && s[i] == b;
      var n := Width(s);
      assert s[n..][i - n] == b;
      KeptByLowering(lower, s[n..], b);
    }
  }
}
