/** Signed decimal text: fmt's %d and strconv.ParseInt(s, 10, 64). */
module Decimal {
  import opened Common

  const MINUS: byte := 45
  const PLUS: byte := 43
  const MIN_INT64 := -0x8000_0000_0000_0000
  const MAX_INT64 := 0x7FFF_FFFF_FFFF_FFFF

  predicate IsInt64(n: int) {
    MIN_INT64 <= n <= MAX_INT64
  }

  predicate Digit(b: byte) {
    48 <= b <= 57
  }

  predicate AllDigits(s: seq<byte>) {
    forall i :: 0 <= i < |s| ==> Digit(s[i])
  }

  function PrintNat(n: nat): (s: seq<byte>)
    ensures s != [] && AllDigits(s)
  {
    if n < 10 then [48 + n] else PrintNat(n / 10) + [48 + n % 10]
  }

  function Print(n: int): seq<byte> {
    if n < 0 then [MINUS] + PrintNat(-n) else PrintNat(n)
  }

  function NatValue(s: seq<byte>): nat
    requires AllDigits(s)
  {
    if s == [] then 0 else NatValue(s[..|s| - 1]) * 10 + (s[|s| - 1] - 48)
  }

  function ParseInt64(s: seq<byte>): (r: Option<int>)
    ensures r.Some? ==> IsInt64(r.value)
  {
    if s == [] then None
    else
      var negative := s[0] == MINUS;
      var digits := if s[0] == MINUS || s[0] == PLUS then s[1..] else s;
      if digits == [] || !AllDigits(digits) then None
      else
        var n: int := if negative then 0 - NatValue(digits) else NatValue(digits);
        if IsInt64(n) then Some(n) else None
  }

  lemma {:induction false} NatRoundTrip(n: nat)
    ensures NatValue(PrintNat(n)) == n
  {
    if n >= 10 {
      var s := PrintNat(n);
      assert s[..|s| - 1] == PrintNat(n / 10);
      NatRoundTrip(n / 10);
    } else {
      assert PrintNat(n)[..0] == [];
    }
  }

  lemma RoundTrip(n: int)
    requires IsInt64(n)
    ensures ParseInt64(Print(n)) == Some(n)
  {
    NatRoundTrip(if n < 0 then -n else n);
    if n < 0 {
      assert Print(n)[1..] == PrintNat(-n);
    }
  }

  /** The text is an optional sign and at least one digit, of this value. */
  ghost predicate Spells(text: seq<byte>, n: int) {
    exists digits :: SpelledBy(text, n, digits)
  }

  predicate SpelledBy(text: seq<byte>, n: int, digits: seq<byte>) {
    && digits != [] && AllDigits(digits)
    && (if text == [MINUS] + digits then n == 0 - NatValue(digits)
        else (text == digits || text == [PLUS] + digits) && n == NatValue(digits))
  }

  /** Parsing accepts exactly the spellings of 64-bit integers, for what they spell. */
  lemma ParseExact(text: seq<byte>, n: int)
    ensures ParseInt64(text) == Some(n) <==> Spells(text, n) && IsInt64(n)
  {
    hide NatValue;
    if text != [] {
      var digits := if text[0] == MINUS || text[0] == PLUS then text[1..] else text;
      assert text[0] == MINUS || text[0] == PLUS ==> text == [text[0]] + digits;
      if ParseInt64(text) == Some(n) {
        assert SpelledBy(text, n, digits);
      }
      if Spells(text, n) {
        var ds :| SpelledBy(text, n, ds);
        assert Digit(ds[0]);
        assert ([MINUS] + ds)[1..] == ds && ([PLUS] + ds)[1..] == ds;
        assert ds == digits;
      }
    }
  }

  /** A few numbers as they are printed. */
  lemma Printed()
    ensures Print(0) == Ascii("0") && Print(907) == Ascii("907") && Print(-12) == Ascii("-12")
  {
    assert PrintNat(90) == [57, 48] && PrintNat(907) == [57, 48, 55] && PrintNat(12) == [49, 50];
  }

  /** The text before the first separator. */
  function Before(s: seq<byte>, sep: byte): (n: nat)
    ensures n <= |s| && sep !in s[..n]
    ensures n < |s| ==> s[n] == sep
  {
    if s == [] || s[0] == sep then 0
    else
      var n := Before(s[1..], sep) + 1;
      assert s[..n] == [s[0]] + s[1..][..n - 1];
      n
  }

  lemma {:induction false} BeforeUnique(a: seq<byte>, sep: byte, rest: seq<byte>)
    requires sep !in a
    ensures Before(a + [sep] + rest, sep) == |a|
  {
    if a != [] {
      BeforeUnique(a[1..], sep, rest);
      assert (a + [sep] + rest)[1..] == a[1..] + [sep] + rest;
    }
  }
}
