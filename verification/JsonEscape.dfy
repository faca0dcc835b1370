/**
 The in-place rewrite of NUL escapes in raw JSON before it reaches Postgres
 (api/internal/handler/applog_ingest.go, `replaceNULEscapes`), against the escape tokens of
 section 7 of RFC 8259.
 */
module JsonEscape {
  import opened Common

  const BACKSLASH: byte := 92
  const LETTER_U: byte := 117
  const REPLACEMENT_ESCAPE: seq<byte> := [92, 117, 102, 102, 102, 100]

  // ----- escape tokens

  /** A byte outside any escape, a two-character escape, or a `u` escape with four hex digits. */
  datatype Token = Plain(b: byte) | Short(c: byte) | Unicode(a: byte, b: byte, c: byte, d: byte)

  predicate HexDigit(b: byte) {
    48 <= b <= 57 || 65 <= b <= 70 || 97 <= b <= 102
  }

  predicate WellFormed(t: Token) {
    match t
    case Plain(b) => b != BACKSLASH
    case Short(c) => c in {34, 92, 47, 98, 102, 110, 114, 116}
    case Unicode(a, b, c, d) => HexDigit(a) && HexDigit(b) && HexDigit(c) && HexDigit(d)
  }

  function Spell(t: Token): seq<byte> {
    match t
    case Plain(b) => [b]
    case Short(c) => [BACKSLASH, c]
    case Unicode(a, b, c, d) => [BACKSLASH, LETTER_U, a, b, c, d]
  }

  function Text(ts: seq<Token>): seq<byte> {
    if ts == [] then [] else Spell(ts[0]) + Text(ts[1..])
  }

  /** The token at the start of s, if there is one. */
  function FirstToken(s: seq<byte>): (t: Option<Token>)
    requires s != []
    ensures t.Some? ==> WellFormed(t.value) && |Spell(t.value)| <= |s| && s[..|Spell(t.value)|] == Spell(t.value)
  {
    if s[0] != BACKSLASH then Some(Plain(s[0]))
    else if |s| >= 2 && WellFormed(Short(s[1])) then Some(Short(s[1]))
    else if |s| >= 6 && s[1] == LETTER_U && WellFormed(Unicode(s[2], s[3], s[4], s[5])) then
      Some(Unicode(s[2], s[3], s[4], s[5]))
    else None
  }

  /** The escape tokenization of a text; None when some escape is malformed, so the text is not JSON. */
  function Tokenize(s: seq<byte>): Option<seq<Token>> {
    if s == [] then Some([])
    else
      var t := FirstToken(s);
      if t.None? then None
      else
        var rest := Tokenize(s[|Spell(t.value)|..]);
        if rest.None? then None else Some([t.value] + rest.value)
  }

  /** Exactly the NUL escapes change. */
  function Swap(t: Token): Token {
    if t == Unicode(48, 48, 48, 48) then Unicode(102, 102, 102, 100) else t
  }

  function SwapAll(ts: seq<Token>): (r: seq<Token>)
    ensures |r| == |ts|
    ensures forall i :: 0 <= i < |ts| ==> r[i] == Swap(ts[i])
  {
    if ts == [] then [] else [Swap(ts[0])] + SwapAll(ts[1..])
  }

  // ----- the rewrite

  predicate AtNulEscape(s: seq<byte>) {
    |s| >= 6 && s[0] == 92 && s[1] == 117 && s[2] == 48 && s[3] == 48 && s[4] == 48 && s[5] == 48
  }

  /** What the scan leaves behind. */
  function Rewritten(s: seq<byte>): (r: seq<byte>)
    ensures |r| == |s|
  {
    if |s| < 2 then s
    else if s[0] != BACKSLASH then [s[0]] + Rewritten(s[1..])
    else if AtNulEscape(s) then REPLACEMENT_ESCAPE + Rewritten(s[6..])
    else s[..2] + Rewritten(s[2..])
  }

  lemma RewrittenPlain(s: seq<byte>)
    requires s != [] && s[0] != BACKSLASH
    ensures Rewritten(s) == [s[0]] + Rewritten(s[1..])
  {
    if |s| == 1 {
      assert s[1..] == [] && s == [s[0]];
    }
  }

  lemma RewrittenEscape(s: seq<byte>)
    requires |s| >= 2 && s[0] == BACKSLASH
    ensures AtNulEscape(s) ==> Rewritten(s) == REPLACEMENT_ESCAPE + Rewritten(s[6..])
    ensures !AtNulEscape(s) ==> Rewritten(s) == s[..2] + Rewritten(s[2..])
  {
  }

  lemma {:induction false} PlainPrefix(p: seq<byte>, s: seq<byte>)
    requires BACKSLASH !in p
    ensures Rewritten(p + s) == p + Rewritten(s)
  {
    hide Rewritten;
    if p == [] {
      assert p + s == s;
    } else {
      PlainPrefix(p[1..], s);
      RewrittenPlain(p + s);
      assert (p + s)[1..] == p[1..] + s;
    }
  }

  /** The text from an escape on, before and after the scan has looked at that escape. */
  lemma EscapeStep(before: seq<byte>, after: seq<byte>)
    requires |before| >= 2 && before[0] == BACKSLASH
    requires after == if AtNulEscape(before) then REPLACEMENT_ESCAPE + before[6..] else before
    ensures after[..2] + Rewritten(after[2..]) == Rewritten(before)
  {
    hide Rewritten;
    RewrittenEscape(before);
    if AtNulEscape(before) {
      assert after[2..] == [102, 102, 102, 100] + before[6..];
      PlainPrefix([102, 102, 102, 100], before[6..]);
    }
  }

  method ReplaceNulEscapes(raw: array<byte>)
    modifies raw
    ensures raw[..] == Rewritten(old(raw[..]))
  {
    var i := 0;
    assert raw[0..] == raw[..];
    while i < raw.Length - 1
      invariant 0 <= i <= raw.Length
      invariant raw[..i] + Rewritten(raw[i..]) == Rewritten(old(raw[..]))
    {
      hide Rewritten;
      ghost var done, rest := raw[..i], raw[i..];
      if raw[i] != BACKSLASH {
        RewrittenPlain(rest);
        assert raw[..i + 1] == done + [raw[i]] && raw[i + 1..] == rest[1..];
        Regroup(done, [raw[i]], Rewritten(rest[1..]));
        i := i + 1;
        continue;
      }
      if AtNulEscape(raw[i..]) {
        OverwriteEscape(raw, i);
      }
      EscapeStep(rest, raw[i..]);
      assert raw[..i + 2] == done + raw[i..][..2] && raw[i + 2..] == raw[i..][2..];
      Regroup(done, raw[i..][..2], Rewritten(raw[i..][2..]));
      i := i + 2;
    }
    assert raw[..] == raw[..i] + raw[i..];
  }

  lemma Regroup(a: seq<byte>, b: seq<byte>, c: seq<byte>)
    ensures (a + b) + c == a + (b + c)
  {
  }

  /** Writes the replacement escape over the six bytes at i. */
  method OverwriteEscape(raw: array<byte>, i: nat)
    requires i + 6 <= raw.Length
    modifies raw
    ensures raw[..i] == old(raw[..i]) && raw[i..] == REPLACEMENT_ESCAPE + old(raw[i + 6..])
  {
    raw[i], raw[i + 1], raw[i + 2], raw[i + 3], raw[i + 4], raw[i + 5] := 92, 117, 102, 102, 102, 100;
  }

  // ----- the rewrite on tokens

  lemma FirstSpelled(t: Token, rest: seq<byte>)
    requires WellFormed(t)
    ensures FirstToken(Spell(t) + rest) == Some(t)
  {
  }

  lemma {:induction false} SpelledOut(ts: seq<Token>)
    requires forall i :: 0 <= i < |ts| ==> WellFormed(ts[i])
    ensures Tokenize(Text(ts)) == Some(ts)
  {
    hide FirstToken, Spell;
    if ts != [] {
      SpelledOut(ts[1..]);
      FirstSpelled(ts[0], Text(ts[1..]));
      SpellNonEmpty(ts[0]);
      assert Text(ts)[|Spell(ts[0])|..] == Text(ts[1..]);
      assert [ts[0]] + ts[1..] == ts;
    }
  }

  lemma SpellNonEmpty(t: Token)
    ensures Spell(t) != []
  {
  }

  /** One token in front is rewritten on its own. */
  lemma TokenRewritten(t: Token, rest: seq<byte>)
    requires WellFormed(t)
    ensures Rewritten(Spell(t) + rest) == Spell(Swap(t)) + Rewritten(rest)
  {
    hide Rewritten;
    var s := Spell(t) + rest;
    match t
    case Plain(b) =>
      PlainPrefix([b], rest);
    case Short(c) =>
      RewrittenEscape(s);
      assert s[2..] == rest && s[..2] == Spell(t);
    case Unicode(a, b, c, d) =>
      RewrittenEscape(s);
      assert s[6..] == rest && s[2..] == [a, b, c, d] + rest && s[..2] == [BACKSLASH, LETTER_U];
      PlainPrefix([a, b, c, d], rest);
  }

  lemma {:induction false} TokensRewritten(ts: seq<Token>)
    requires forall i :: 0 <= i < |ts| ==> WellFormed(ts[i])
    ensures Rewritten(Text(ts)) == Text(SwapAll(ts))
  {
    hide Spell, Swap;
    if ts != [] {
      TokensRewritten(ts[1..]);
      TokenRewritten(ts[0], Text(ts[1..]));
      assert SwapAll(ts)[1..] == SwapAll(ts[1..]);
    }
  }

  lemma {:induction false} TokensOf(s: seq<byte>)
    requires Tokenize(s).Some?
    ensures Text(Tokenize(s).value) == s
    ensures forall t :: t in Tokenize(s).value ==> WellFormed(t)
  {
    hide FirstToken, Spell, WellFormed;
    if s != [] {
      var t := FirstToken(s).value;
      SpellNonEmpty(t);
      TokensOf(s[|Spell(t)|..]);
      assert s == Spell(t) + s[|Spell(t)|..];
      assert Tokenize(s).value[1..] == Tokenize(s[|Spell(t)|..]).value;
    }
  }

  /**
   On any text whose escapes are those of JSON: the token structure stays, exactly the NUL
   escapes become U+FFFD escapes, and none is left.
   */
  lemma OnlyNulEscapesChange(s: seq<byte>)
    requires Tokenize(s).Some?
    ensures Tokenize(Rewritten(s)) == Some(SwapAll(Tokenize(s).value))
    ensures Unicode(48, 48, 48, 48) !in SwapAll(Tokenize(s).value)
  {
    var ts := Tokenize(s).value;
    TokensOf(s);
    TokensRewritten(ts);
    SpelledOut(SwapAll(ts));
  }

  /** Doing it twice is doing it once, on any bytes at all. */
  lemma {:induction false} Idempotent(s: seq<byte>)
    ensures Rewritten(Rewritten(s)) == Rewritten(s)
  {
    if |s| >= 2 {
      hide Rewritten;
      var r := Rewritten(s);
      if s[0] != BACKSLASH {
        Idempotent(s[1..]);
        RewrittenPlain(s);
        RewrittenPlain(r);
        assert r[1..] == Rewritten(s[1..]);
      } else if AtNulEscape(s) {
        Idempotent(s[6..]);
        RewrittenEscape(s);
        RewrittenEscape(r);
        PlainPrefix([102, 102, 102, 100], Rewritten(s[6..]));
        assert r[2..] == [102, 102, 102, 100] + Rewritten(s[6..]);
      } else {
        Idempotent(s[2..]);
        RewrittenEscape(s);
        StillNoNul(s);
        RewrittenEscape(r);
        assert r[2..] == Rewritten(s[2..]);
      }
    }
  }

  /** The rewrite never writes a zero digit. */
  lemma {:induction false} ZerosWereThere(s: seq<byte>, k: nat)
    requires k < |s| && Rewritten(s)[k] == 48
    ensures s[k] == 48
  {
    if |s| >= 2 {
      if s[0] != BACKSLASH {
        if k > 0 { ZerosWereThere(s[1..], k - 1); }
      } else if AtNulEscape(s) {
        if k >= 6 { ZerosWereThere(s[6..], k - 6); }
      } else if k >= 2 {
        ZerosWereThere(s[2..], k - 2);
      }
    }
  }

  lemma StillNoNul(s: seq<byte>)
    requires |s| >= 2 && s[0] == BACKSLASH && !AtNulEscape(s)
    ensures !AtNulEscape(Rewritten(s))
  {
    var r := Rewritten(s);
    assert r[..2] == s[..2];
    forall k: nat | k < |s| && r[k] == 48
      ensures s[k] == 48
    {
      ZerosWereThere(s, k);
    }
  }
}
