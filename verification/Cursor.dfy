/** Keyset pagination cursors: padded base64url over "nanoseconds,id" (api/internal/model/srvlog.go). */
module Base64Url {
  import opened Common

  const PAD: byte := 61

  type sextet = v: int | 0 <= v < 64

  /** The alphabet of section 5 of RFC 4648. */
  function Symbol(v: sextet): (c: byte)
    ensures Value(c) == Some(v) && c != PAD && c != 10 && c != 13
  {
    if v < 26 then 65 + v
    else if v < 52 then 97 + (v - 26)
    else if v < 62 then 48 + (v - 52)
    else if v == 62 then 45 else 95
  }

  function Value(c: byte): Option<sextet> {
    if 65 <= c <= 90 then Some(c - 65)
    else if 97 <= c <= 122 then Some(c - 97 + 26)
    else if 48 <= c <= 57 then Some(c - 48 + 52)
    else if c == 45 then Some(62)
    else if c == 95 then Some(63)
    else None
  }

  function Encode(s: seq<byte>): seq<byte> {
    if s == [] then []
    else
      var a := s[0];
      if |s| == 1 then [Symbol(a / 4), Symbol(a % 4 * 16), PAD, PAD]
      else
        var b := s[1];
        if |s| == 2 then [Symbol(a / 4), Symbol(a % 4 * 16 + b / 16), Symbol(b % 16 * 4), PAD]
        else
          var c := s[2];
          [Symbol(a / 4), Symbol(a % 4 * 16 + b / 16), Symbol(b % 16 * 4 + c / 64), Symbol(c % 64)] + Encode(s[3..])
  }

  /** Go's decoder skips line breaks anywhere. */
  function WithoutBreaks(s: seq<byte>): seq<byte> {
    if s == [] then []
    else if s[0] == 10 || s[0] == 13 then WithoutBreaks(s[1..])
    else [s[0]] + WithoutBreaks(s[1..])
  }

  function Decode(s: seq<byte>): Option<seq<byte>> {
    DecodeQuanta(WithoutBreaks(s))
  }

  /** Groups of four; padding only at the very end; unused trailing bits are not checked. */
  function DecodeQuanta(s: seq<byte>): Option<seq<byte>> {
    if s == [] then Some([])
    else if |s| < 4 then None
    else
      var v0, v1, v2, v3 := Value(s[0]), Value(s[1]), Value(s[2]), Value(s[3]);
      if v0.None? || v1.None? then None
      else
        var first := v0.value * 4 + v1.value / 16;
        if |s| == 4 && s[2] == PAD && s[3] == PAD then Some([first])
        else if v2.None? then None
        else
          var second := v1.value % 16 * 16 + v2.value / 4;
          if |s| == 4 && s[3] == PAD then Some([first, second])
          else if v3.None? then None
          else
            var rest := DecodeQuanta(s[4..]);
            if rest.None? then None else Some([first, second, v2.value % 4 * 64 + v3.value] + rest.value)
  }

  predicate NoBreaks(s: seq<byte>) {
    forall i :: 0 <= i < |s| ==> s[i] != 10 && s[i] != 13
  }

  lemma {:induction false} NothingToSkip(s: seq<byte>)
    requires NoBreaks(s)
    ensures WithoutBreaks(s) == s
  {
    if s != [] {
      NothingToSkip(s[1..]);
    }
  }

  lemma {:induction false} EncodeHasNoBreaks(s: seq<byte>)
    ensures NoBreaks(Encode(s))
  {
    if |s| >= 3 {
      EncodeHasNoBreaks(s[3..]);
    }
  }

  /** Three bytes in four sextets, and back. */
  lemma Repack(a: byte, b: byte, c: byte)
    ensures a / 4 * 4 + (a % 4 * 16 + b / 16) / 16 == a
    ensures (a % 4 * 16 + b / 16) % 16 * 16 + (b % 16 * 4 + c / 64) / 4 == b
    ensures (b % 16 * 4 + c / 64) % 4 * 64 + c % 64 == c
  {
  }

  lemma DecodeThree(s: seq<byte>, v0: sextet, v1: sextet, v2: sextet, v3: sextet)
    requires |s| >= 4 && s[2] != PAD && s[3] != PAD && DecodeQuanta(s[4..]).Some?
    requires Value(s[0]) == Some(v0) && Value(s[1]) == Some(v1) && Value(s[2]) == Some(v2) && Value(s[3]) == Some(v3)
    ensures DecodeQuanta(s) ==
      Some([v0 * 4 + v1 / 16, v1 % 16 * 16 + v2 / 4, v2 % 4 * 64 + v3] + DecodeQuanta(s[4..]).value)
  {
    hide Value;
  }

  lemma DecodePadded(v0: sextet, v1: sextet, v2: sextet)
    ensures DecodeQuanta([Symbol(v0), Symbol(v1), Symbol(v2), PAD]) == Some([v0 * 4 + v1 / 16, v1 % 16 * 16 + v2 / 4])
    ensures DecodeQuanta([Symbol(v0), Symbol(v1), PAD, PAD]) == Some([v0 * 4 + v1 / 16])
  {
    hide Symbol, Value;
  }

  lemma {:induction false} QuantaRoundTrip(s: seq<byte>)
    ensures DecodeQuanta(Encode(s)) == Some(s)
  {
    hide Symbol, Value, DecodeQuanta;
    if s == [] {
      EmptyDecodes();
    } else {
      var a, b, c := s[0], if |s| > 1 then s[1] else 0, if |s| > 2 then s[2] else 0;
      Repack(a, b, c);
      if |s| >= 3 {
        QuantaRoundTrip(s[3..]);
        assert Encode(s)[4..] == Encode(s[3..]);
        DecodeThree(Encode(s), a / 4, a % 4 * 16 + b / 16, b % 16 * 4 + c / 64, c % 64);
        assert s == [a, b, c] + s[3..];
      } else {
        DecodePadded(a / 4, a % 4 * 16 + b / 16, b % 16 * 4);
        assert s == if |s| == 2 then [a, b] else [a];
      }
    }
  }

  lemma EmptyDecodes()
    ensures DecodeQuanta([]) == Some([])
  {
  }

  lemma RoundTrip(s: seq<byte>)
    ensures Decode(Encode(s)) == Some(s)
  {
    EncodeHasNoBreaks(s);
    NothingToSkip(Encode(s));
    QuantaRoundTrip(s);
  }

  // ----- what is base64url text

  /** Whole groups of four symbols, the last of which may end in one or two padding characters. */
  ghost predicate IsText(s: seq<byte>) {
    var t := WithoutBreaks(s);
    |t| % 4 == 0 && exists pads: nat :: PaddedWith(t, pads)
  }

  ghost predicate PaddedWith(t: seq<byte>, pads: nat) {
    && pads <= 2 && pads <= |t|
    && (forall i :: 0 <= i < |t| - pads ==> Value(t[i]).Some?)
    && (forall i :: |t| - pads <= i < |t| ==> t[i] == PAD)
  }

  /** Decoding succeeds on exactly the base64url texts. */
  lemma DecodesExactlyText(s: seq<byte>)
    ensures Decode(s).Some? <==> IsText(s)
  {
    hide WithoutBreaks, DecodeQuanta;
    QuantaExactly(WithoutBreaks(s));
  }

  lemma {:induction false} QuantaExactly(t: seq<byte>)
    ensures DecodeQuanta(t).Some? <==> |t| % 4 == 0 && exists pads: nat :: PaddedWith(t, pads)
  {
    hide Value;
    if t == [] {
      assert PaddedWith(t, 0);
    } else if |t| >= 4 {
      PadHasNoValue();
      var rest := t[4..];
      QuantaExactly(rest);
      if |t| == 4 {
        LastQuantum(t);
      } else {
        InnerQuantum(t);
      }
    }
  }

  lemma PadHasNoValue()
    ensures Value(PAD).None?
  {
  }

  lemma LastQuantum(t: seq<byte>)
    requires |t| == 4 && Value(PAD).None?
    ensures DecodeQuanta(t).Some? <==> exists pads: nat :: PaddedWith(t, pads)
  {
    hide Value;
    assert t[4..] == [];
    if DecodeQuanta(t).Some? {
      assert PaddedWith(t, 0) || PaddedWith(t, 1) || PaddedWith(t, 2);
    }
    if pads: nat :| PaddedWith(t, pads) {
      assert DecodeQuanta(t).Some?;
    }
  }

  lemma InnerQuantum(t: seq<byte>)
    requires |t| > 4 && Value(PAD).None?
    requires DecodeQuanta(t[4..]).Some? <==> |t[4..]| % 4 == 0 && exists pads: nat :: PaddedWith(t[4..], pads)
    ensures DecodeQuanta(t).Some? <==> |t| % 4 == 0 && exists pads: nat :: PaddedWith(t, pads)
  {
    hide Value, DecodeQuanta, PaddedWith;
    QuantumUnfolds(t);
    if |t| % 4 == 0 {
      forall pads: nat
        ensures PaddedWith(t, pads) <==> PaddedWith(t[4..], pads) && FourSymbols(t)
      {
        PaddingBelow(t, pads);
      }
    }
  }

  predicate FourSymbols(t: seq<byte>) {
    |t| >= 4 && Value(t[0]).Some? && Value(t[1]).Some? && Value(t[2]).Some? && Value(t[3]).Some?
  }

  lemma PaddingBelow(t: seq<byte>, pads: nat)
    requires |t| >= 8
    ensures PaddedWith(t, pads) <==> PaddedWith(t[4..], pads) && FourSymbols(t)
  {
    hide Value;
    var rest := t[4..];
    assert forall i :: 0 <= i < |rest| ==> rest[i] == t[i + 4];
    if PaddedWith(rest, pads) && FourSymbols(t) {
      forall i | 0 <= i < |t| - pads
        ensures Value(t[i]).Some?
      {
        assert i >= 4 ==> t[i] == rest[i - 4];
      }
      forall i | |t| - pads <= i < |t|
        ensures t[i] == PAD
      {
        assert t[i] == rest[i - 4];
      }
    }
  }

  /** A group of four with more behind it. */
  lemma QuantumUnfolds(t: seq<byte>)
    requires |t| > 4
    ensures DecodeQuanta(t).Some? <==>
      FourSymbols(t) && DecodeQuanta(t[4..]).Some?
  {
    hide Value;
  }

  /** Vectors of section 10 of RFC 4648. */
  lemma Vectors()
    ensures Encode(Ascii("f")) == Ascii("Zg==") && Encode(Ascii("fo")) == Ascii("Zm8=")
    ensures Encode(Ascii("foo")) == Ascii("Zm9v")
  {
    assert Ascii("f") == [102] && Ascii("fo") == [102, 111] && Ascii("foo") == [102, 111, 111];
    assert Ascii("foo")[3..] == [];
  }

  /** The two symbols of the URL alphabet. */
  lemma UrlSymbols()
    ensures Encode([0xFB, 0xEF, 0xBE]) == Ascii("----") && Encode([0xFF, 0xFF, 0xFF]) == Ascii("____")
  {
    assert [0xFB, 0xEF, 0xBE][3..] == [] && [0xFF, 0xFF, 0xFF][3..] == [];
  }
}

module Cursors {
  import opened Common
  import Base64Url
  import Decimal

  datatype Cursor = Cursor(nanos: int, id: int)

  datatype Decoded = Ok(cursor: Cursor) | BadEncoding | BadFormat | BadTimestamp | BadId

  const COMMA: byte := 44

  function Encode(c: Cursor): seq<byte> {
    Base64Url.Encode(Decimal.Print(c.nanos) + [COMMA] + Decimal.Print(c.id))
  }

  function DecodeCursor(s: seq<byte>): (r: Decoded)
    ensures r.Ok? ==> Decimal.IsInt64(r.cursor.nanos) && Decimal.IsInt64(r.cursor.id)
  {
    var raw := Base64Url.Decode(s);
    if raw.None? then BadEncoding
    else
      var n := Decimal.Before(raw.value, COMMA);
      if n == |raw.value| then BadFormat
      else
        var nanos := Decimal.ParseInt64(raw.value[..n]);
        if nanos.None? then BadTimestamp
        else
          var id := Decimal.ParseInt64(raw.value[n + 1..]);
          if id.None? then BadId else Ok(Cursor(nanos.value, id.value))
  }

  /** Every cursor of a 64-bit timestamp and id survives the round trip. */
  lemma CursorRoundTrip(c: Cursor)
    requires Decimal.IsInt64(c.nanos) && Decimal.IsInt64(c.id)
    ensures DecodeCursor(Encode(c)) == Ok(c)
  {
    var nanos, id := Decimal.Print(c.nanos), Decimal.Print(c.id);
    var raw := nanos + [COMMA] + id;
    Base64Url.RoundTrip(raw);
    assert COMMA !in nanos;
    Decimal.BeforeUnique(nanos, COMMA, id);
    assert raw[..|nanos|] == nanos && raw[|nanos| + 1..] == id;
    Decimal.RoundTrip(c.nanos);
    Decimal.RoundTrip(c.id);
  }

  /** The decoded text is two integers separated by a comma. */
  ghost predicate TwoDecimals(raw: seq<byte>, c: Cursor, a: seq<byte>, b: seq<byte>) {
    raw == a + [COMMA] + b && COMMA !in a && Decimal.Spells(a, c.nanos) && Decimal.Spells(b, c.id)
  }

  /** A text decodes to a cursor if and only if it is base64url over two 64-bit decimals that spell it. */
  lemma DecodesExactly(s: seq<byte>, c: Cursor)
    ensures DecodeCursor(s) == Ok(c) <==>
      && Base64Url.IsText(s) && Base64Url.Decode(s).Some?
      && Decimal.IsInt64(c.nanos) && Decimal.IsInt64(c.id)
      && exists a, b :: TwoDecimals(Base64Url.Decode(s).value, c, a, b)
  {
    Base64Url.DecodesExactlyText(s);
    hide Base64Url.Decode, Base64Url.IsText, Decimal.Spells, Decimal.ParseInt64, Decimal.Before;
    if Base64Url.Decode(s).Some? {
      var raw := Base64Url.Decode(s).value;
      var n := Decimal.Before(raw, COMMA);
      if n < |raw| {
        var a, b := raw[..n], raw[n + 1..];
        Decimal.ParseExact(a, c.nanos);
        Decimal.ParseExact(b, c.id);
        if DecodeCursor(s) == Ok(c) {
          assert TwoDecimals(raw, c, a, b);
        }
      }
      if exists a, b :: TwoDecimals(raw, c, a, b) {
        var a, b :| TwoDecimals(raw, c, a, b);
        Decimal.BeforeUnique(a, COMMA, b);
        assert raw[..n] == a && raw[n + 1..] == b;
      }
    }
  }

  /** A cursor as it is encoded: "-1,42" in base64url. */
  lemma Encoded()
    ensures Encode(Cursor(-1, 42)) == Ascii("LTEsNDI=")
  {
    assert Decimal.PrintNat(4) == [52] && Decimal.PrintNat(42) == [52, 50] && Decimal.PrintNat(1) == [49];
    var raw: seq<byte> := [45, 49, 44, 52, 50];
    assert Decimal.Print(-1) + [COMMA] + Decimal.Print(42) == raw;
    hide Decimal.Print;
    assert raw[3..] == [52, 50];
    assert Base64Url.Encode([52, 50]) == [78, 68, 73, 61];
    assert Base64Url.Encode(raw) == [76, 84, 69, 115] + [78, 68, 73, 61];
  }
}
