/**
 What the shipper puts into an entry (pkg/logshipper/handler.go, `setDefaults`, `Handle`,
 `truncateMsg`, `shortenSource`).
 */
module ShipperEntry {
  import opened Common
  import opened Utf8
  import Decimal
  import ShipperBatch

  const MAX_MSG_BYTES := 64 * 1024
  const MAX_ATTRS_BYTES := 64 * 1024
  const MAX_SERVICE_BYTES := 128
  const MAX_COMPONENT_BYTES := 128
  const MAX_HOST_BYTES := 256
  const MAX_SOURCE_BYTES := 256

  /** "…[truncated]" */
  const TRUNCATION_SUFFIX: seq<byte> := [0xE2, 0x80, 0xA6, 91, 116, 114, 117, 110, 99, 97, 116, 101, 100, 93]
  /** "…" */
  const SOURCE_CUT_PREFIX: seq<byte> := [0xE2, 0x80, 0xA6]
  /** "(empty)" */
  const EMPTY_MSG_PLACEHOLDER: seq<byte> := [40, 101, 109, 112, 116, 121, 41]
  /** `{"_attrs_dropped_bytes":` */
  const DROPPED_PREFIX: seq<byte> := [123, 34, 95, 97, 116, 116, 114, 115, 95, 100, 114, 111, 112, 112, 101, 100, 95,
    98, 121, 116, 101, 115, 34, 58]

  // ----- configuration

  datatype Endpoint = Unparsable | Parsed(scheme: string, host: string)

  datatype RawConfig = RawConfig(endpoint: Endpoint, service: seq<byte>, component: seq<byte>, host: seq<byte>,
    batchSize: int)

  datatype Settings = Settings(service: seq<byte>, component: seq<byte>, host: seq<byte>, batchSize: int)

  datatype ConfigError = NoService | ServiceTooLong | ComponentTooLong | BadEndpoint | NoHost | HostTooLong

  datatype Configured = Accepted(settings: Settings) | Refused(error: ConfigError)

  /** `setDefaults`; `hostname` is os.Hostname's answer, None when it fails. */
  function SetDefaults(c: RawConfig, hostname: Option<seq<byte>>): (r: Configured)
    ensures r.Accepted? ==>
      && 1 <= r.settings.batchSize <= 1000
      && Valid(r.settings.service) && 1 <= |r.settings.service| <= 128
      && Valid(r.settings.component) && |r.settings.component| <= 128
      && Valid(r.settings.host) && 1 <= |r.settings.host| <= 256
    ensures r.Accepted? <==>
      && c.service != [] && |ToValid(c.service)| <= 128 && |ToValid(c.component)| <= 128
      && c.endpoint.Parsed? && c.endpoint.scheme in {"http", "https"} && c.endpoint.host != ""
      && (c.host != [] || (hostname.Some? && hostname.value != []))
      && |ToValid(if c.host != [] then c.host else hostname.value)| <= 256
    ensures r.Accepted? ==>
      && r.settings.service == ToValid(c.service) && r.settings.component == ToValid(c.component)
      && r.settings.host == ToValid(if c.host != [] then c.host else hostname.value)
      && (1 <= c.batchSize <= 1000 ==> r.settings.batchSize == c.batchSize)
    ensures r.Accepted? && Valid(c.service) && Valid(c.component) ==>
      r.settings.service == c.service && r.settings.component == c.component
    ensures r.Accepted? && c.host != [] && Valid(c.host) ==> r.settings.host == c.host
  {
    var service, component := ToValid(c.service), ToValid(c.component);
    if service == [] then Refused(NoService)
    else if |service| > MAX_SERVICE_BYTES then Refused(ServiceTooLong)
    else if |component| > MAX_COMPONENT_BYTES then Refused(ComponentTooLong)
    else if c.endpoint.Unparsable? || c.endpoint.scheme !in {"http", "https"} || c.endpoint.host == ""
    then Refused(BadEndpoint)
    else if c.host == [] && (hostname.None? || hostname.value == []) then Refused(NoHost)
    else
      var host := ToValid(if c.host == [] then hostname.value else c.host);
      if |host| > MAX_HOST_BYTES then Refused(HostTooLong)
      else Accepted(Settings(service, component, host, ShipperBatch.EffectiveBatchSize(c.batchSize)))
  }

  // ----- truncation

  /** The last position at or before `at` that does not split a rune. */
  function CutBack(s: seq<byte>, at: nat): (cut: nat)
    requires at < |s|
    ensures cut <= at
    ensures cut > 0 ==> !Continuation(s[cut])
    ensures forall j :: cut < j <= at ==> Continuation(s[j])
  {
    if at == 0 || !Continuation(s[at]) then at else CutBack(s, at - 1)
  }

  /** The first position at or after `at` that does not split a rune. */
  function CutForward(s: seq<byte>, at: nat): (cut: nat)
    requires at <= |s|
    ensures at <= cut <= |s|
    ensures cut < |s| ==> !Continuation(s[cut])
    ensures forall j :: at <= j < cut ==> Continuation(s[j])
    decreases |s| - at
  {
    if at == |s| || !Continuation(s[at]) then at else CutForward(s, at + 1)
  }

  function Truncated(msg: seq<byte>): seq<byte> {
    var v := ToValid(msg);
    if |v| <= MAX_MSG_BYTES then v else v[..CutBack(v, MAX_MSG_BYTES - |TRUNCATION_SUFFIX|)] + TRUNCATION_SUFFIX
  }

  function Shortened(source: seq<byte>): seq<byte> {
    var v := ToValid(source);
    if |v| <= MAX_SOURCE_BYTES then v
    else SOURCE_CUT_PREFIX + v[CutForward(v, |v| - (MAX_SOURCE_BYTES - |SOURCE_CUT_PREFIX|))..]
  }

  method TruncateMsg(msg: seq<byte>) returns (r: seq<byte>)
    ensures r == Truncated(msg)
  {
    var v := ToValid(msg);
    if |v| <= MAX_MSG_BYTES {
      return v;
    }
    var cut := MAX_MSG_BYTES - |TRUNCATION_SUFFIX|;
    while cut > 0 && Continuation(v[cut])
      invariant 0 <= cut < |v|
      invariant CutBack(v, cut) == CutBack(v, MAX_MSG_BYTES - |TRUNCATION_SUFFIX|)
    {
      cut := cut - 1;
    }
    return v[..cut] + TRUNCATION_SUFFIX;
  }

  method ShortenSource(source: seq<byte>) returns (r: seq<byte>)
    ensures r == Shortened(source)
  {
    hide ToValid, Valid, CutForward;
    var v := ToValid(source);
    if |v| <= MAX_SOURCE_BYTES {
      return v;
    }
    var cut := SkipRune(v, |v| - (MAX_SOURCE_BYTES - |SOURCE_CUT_PREFIX|));
    return SOURCE_CUT_PREFIX + v[cut..];
  }

  /** The loop of `shortenSource`. */
  method SkipRune(v: seq<byte>, start: nat) returns (cut: nat)
    requires start <= |v|
    ensures cut == CutForward(v, start)
  {
    hide CutForward;
    cut := start;
    while cut < |v| && Continuation(v[cut])
      invariant 0 <= cut <= |v|
      invariant CutForward(v, cut) == CutForward(v, start)
    {
      CutForwardStep(v, cut);
      cut := cut + 1;
    }
    CutForwardStep(v, cut);
  }

  lemma CutForwardStep(s: seq<byte>, at: nat)
    requires at <= |s|
    ensures CutForward(s, at) == if at == |s| || !Continuation(s[at]) then at else CutForward(s, at + 1)
  {
  }

  lemma MarkersValid()
    ensures Valid(TRUNCATION_SUFFIX) && Valid(SOURCE_CUT_PREFIX)
  {
    var ascii := TRUNCATION_SUFFIX[3..];
    AsciiValid(ascii);
    assert SOURCE_CUT_PREFIX[3..] == [];
  }

  lemma {:induction false} AsciiValid(s: seq<byte>)
    requires forall i :: 0 <= i < |s| ==> s[i] < 0x80
    ensures Valid(s)
  {
    if s != [] {
      AsciiValid(s[1..]);
    }
  }

  /** A shipped message is valid UTF-8 within the cap, non-empty if the record's is, and cut at a rune boundary. */
  lemma TruncatedFits(msg: seq<byte>)
    ensures Valid(Truncated(msg)) && |Truncated(msg)| <= MAX_MSG_BYTES
    ensures msg != [] ==> Truncated(msg) != []
    ensures |ToValid(msg)| > MAX_MSG_BYTES ==>
      exists cut: nat ::
        cut <= MAX_MSG_BYTES && Truncated(msg) == ToValid(msg)[..cut] + TRUNCATION_SUFFIX && Valid(ToValid(msg)[..cut])
  {
    hide SequenceLength, Valid, ToValid;
    var v := ToValid(msg);
    if |v| > MAX_MSG_BYTES {
      var cut := CutBack(v, MAX_MSG_BYTES - |TRUNCATION_SUFFIX|);
      StartOfValid(v);
      ValidCut(v, cut);
      MarkersValid();
      ValidConcat(v[..cut], TRUNCATION_SUFFIX);
    }
  }

  lemma ShortenedFits(source: seq<byte>)
    ensures Valid(Shortened(source)) && |Shortened(source)| <= MAX_SOURCE_BYTES
  {
    hide SequenceLength, Valid, ToValid;
    var v := ToValid(source);
    if |v| > MAX_SOURCE_BYTES {
      var cut := CutForward(v, |v| - (MAX_SOURCE_BYTES - |SOURCE_CUT_PREFIX|));
      ValidCut(v, cut);
      MarkersValid();
      ValidConcat(SOURCE_CUT_PREFIX, v[cut..]);
    }
  }

  // ----- what the cuts keep

  /** The longest prefix of whole runes within the limit. */
  ghost predicate LongestPrefix(v: seq<byte>, limit: nat, cut: nat) {
    cut <= limit < |v| && Valid(v[..cut]) && forall c :: cut < c <= limit ==> !Valid(v[..c])
  }

  /** The longest tail of whole runes within the limit. */
  ghost predicate LongestTail(v: seq<byte>, limit: nat, from: nat) {
    && |v| - limit <= from <= |v| && Valid(v[from..])
    && forall f: nat :: |v| - limit <= f < from ==> !Valid(v[f..])
  }

  /** A message within 65536 bytes ships whole; a longer one as the longest prefix that leaves room for the marker. */
  lemma MessageCarried(msg: seq<byte>)
    ensures Valid(msg) && |msg| <= 65536 ==> Truncated(msg) == msg
    ensures |ToValid(msg)| <= 65536 ==> Truncated(msg) == ToValid(msg)
    ensures |ToValid(msg)| > 65536 ==>
      exists cut: nat :: LongestPrefix(ToValid(msg), 65536 - 14, cut)
        && Truncated(msg) == ToValid(msg)[..cut] + (EncodeRune(0x2026) + Ascii("[truncated]"))
  {
    hide SequenceLength, Valid, ToValid;
    var v := ToValid(msg);
    assert TRUNCATION_SUFFIX == EncodeRune(0x2026) + Ascii("[truncated]");
    if |v| > 65536 {
      var cut := CutBack(v, 65522);
      StartOfValid(v);
      CutIsValid(v, cut);
      forall c | cut < c <= 65522
        ensures !Valid(v[..c])
      {
        CutIsValid(v, c);
      }
      assert LongestPrefix(v, 65522, cut);
    }
  }

  /** A source within 256 bytes ships whole; a longer one as the marker and the longest tail that fits behind it. */
  lemma SourceCarried(source: seq<byte>)
    ensures Valid(source) && |source| <= 256 ==> Shortened(source) == source
    ensures |ToValid(source)| <= 256 ==> Shortened(source) == ToValid(source)
    ensures |ToValid(source)| > 256 ==>
      exists from: nat :: LongestTail(ToValid(source), 256 - 3, from)
        && Shortened(source) == EncodeRune(0x2026) + ToValid(source)[from..]
  {
    hide SequenceLength, Valid, ToValid;
    var v := ToValid(source);
    assert SOURCE_CUT_PREFIX == EncodeRune(0x2026);
    if |v| > 256 {
      var from := CutForward(v, |v| - 253);
      ValidCut(v, from);
      forall f: nat | |v| - 253 <= f < from
        ensures !Valid(v[f..])
      {
        CutIsValid(v, f);
      }
      assert LongestTail(v, 253, from);
    }
  }

  // ----- entries

  /** What json.Marshal made of the attributes; on an error the payload is the `_encode_error` stub. */
  datatype AttrsResult = NoAttrs | Marshaled(raw: seq<byte>) | Failed(stub: seq<byte>)

  /** A record as `Handle` sees it; `source` is file:line when AddSource is set and the record has a PC. */
  datatype Record = Record(time: Option<int>, level: int, message: seq<byte>, source: Option<seq<byte>>,
    attrs: AttrsResult)

  /** An entry as it is shipped and decoded again; `time` is None for the zero time. */
  datatype Entry = Entry(
    time: Option<int>, level: string, msg: seq<byte>, service: seq<byte>, component: seq<byte>,
    host: seq<byte>, source: seq<byte>, attrs: seq<byte>)

  function LevelString(level: int): string {
    if level >= 12 then "FATAL"
    else if level >= 8 then "ERROR"
    else if level >= 4 then "WARN"
    else if level >= 0 then "INFO"
    else "DEBUG"
  }

  const ENCODE_ERROR_PREFIX: seq<byte> := [123, 34, 95, 101, 110, 99, 111, 100, 101, 95, 101, 114, 114, 111, 114, 34,
    58, 34]
  const ENCODE_ERROR_SUFFIX: seq<byte> := [34, 125]

  /** The `_encode_error` stub around an error text, as it stands in a JSON string. */
  function ErrorStub(text: seq<byte>): seq<byte> {
    ENCODE_ERROR_PREFIX + text + ENCODE_ERROR_SUFFIX
  }

  function DroppedStub(size: nat): seq<byte> {
    DROPPED_PREFIX + Decimal.Print(size) + [125]
  }

  /** `Handle`'s entry for a record at a given (non-zero) time. */
  function BuildEntry(s: Settings, r: Record, now: int): Entry {
    Entry(
      if r.time.None? then Some(now) else r.time,
      LevelString(r.level),
      Truncated(if r.message == [] then EMPTY_MSG_PLACEHOLDER else r.message),
      s.service, s.component, s.host,
      if r.source.None? then [] else Shortened(r.source.value),
      match r.attrs
      case NoAttrs => []
      case Failed(stub) => stub
      case Marshaled(raw) => if |raw| > MAX_ATTRS_BYTES then DroppedStub(|raw|) else raw)
  }

  /** The entry carries the record and the settings. */
  lemma EntryCarriesRecord(s: Settings, r: Record, now: int)
    ensures var e := BuildEntry(s, r, now);
      && e.time == Some(if r.time.Some? then r.time.value else now)
      && e.service == s.service && e.component == s.component && e.host == s.host
    ensures var e := BuildEntry(s, r, now);
      && (e.level == "DEBUG" <==> r.level < 0) && (e.level == "INFO" <==> 0 <= r.level <= 3)
      && (e.level == "WARN" <==> 4 <= r.level <= 7) && (e.level == "ERROR" <==> 8 <= r.level <= 11)
      && (e.level == "FATAL" <==> r.level >= 12)
    ensures var e := BuildEntry(s, r, now);
      && (r.message == [] ==> e.msg == Ascii("(empty)"))
      && (r.message != [] ==> e.msg == Truncated(r.message))
      && (r.message != [] && Valid(r.message) && |r.message| <= 65536 ==> e.msg == r.message)
      && (r.source.None? ==> e.source == [])
      && (r.source.Some? ==> e.source == Shortened(r.source.value))
      && (r.source.Some? && Valid(r.source.value) && |r.source.value| <= 256 ==> e.source == r.source.value)
    ensures var attrs := BuildEntry(s, r, now).attrs;
      match r.attrs
      case NoAttrs => attrs == []
      case Failed(stub) => attrs == stub
      case Marshaled(raw) =>
        if |raw| <= 65536 then attrs == raw
        else attrs == Ascii("{\"_attrs_dropped_bytes\":") + Decimal.Print(|raw|) + Ascii("}")
  {
    hide Valid, ToValid, Truncated, Shortened, Decimal.Print, LevelString;
    LevelBands(r.level);
    if r.message == [] {
      PlaceholderCarried();
    } else {
      MessageCarried(r.message);
    }
    if r.source.Some? {
      SourceCarried(r.source.value);
    }
    if r.attrs.Marshaled? {
      DroppedStubSpelled(|r.attrs.raw|);
    }
  }

  lemma LevelBands(level: int)
    ensures var name := LevelString(level);
      && (name == "DEBUG" <==> level < 0) && (name == "INFO" <==> 0 <= level <= 3)
      && (name == "WARN" <==> 4 <= level <= 7) && (name == "ERROR" <==> 8 <= level <= 11)
      && (name == "FATAL" <==> level >= 12)
  {
  }

  lemma DroppedStubSpelled(size: nat)
    ensures DroppedStub(size) == Ascii("{\"_attrs_dropped_bytes\":") + Decimal.Print(size) + Ascii("}")
  {
    hide Decimal.Print;
    assert DROPPED_PREFIX == Ascii("{\"_attrs_dropped_bytes\":") && [125] == Ascii("}");
  }

  lemma PlaceholderCarried()
    ensures Truncated(EMPTY_MSG_PLACEHOLDER) == Ascii("(empty)")
  {
    hide Truncated, ToValid, Valid;
    assert EMPTY_MSG_PLACEHOLDER == Ascii("(empty)");
    AsciiValid(EMPTY_MSG_PLACEHOLDER);
    MessageCarried(EMPTY_MSG_PLACEHOLDER);
  }

  /** The stub for attributes that did not marshal, spelled out. */
  lemma ErrorStubSpelled(text: seq<byte>)
    ensures ErrorStub(text) == Ascii("{\"_encode_error\":\"") + text + Ascii("\"}")
  {
    assert ENCODE_ERROR_PREFIX == Ascii("{\"_encode_error\":\"") && ENCODE_ERROR_SUFFIX == Ascii("\"}");
  }

  function Pow10(k: nat): nat {
    if k == 0 then 1 else 10 * Pow10(k - 1)
  }

  lemma {:induction false} PrintedLength(n: nat, k: nat)
    requires k >= 1 && n < Pow10(k)
    ensures |Decimal.PrintNat(n)| <= k
  {
    if n >= 10 {
      assert n / 10 < Pow10(k - 1);
      PrintedLength(n / 10, k - 1);
    }
  }

  /** The stub that replaces oversized attributes is small, for every length a Go slice can have. */
  lemma StubFits(size: nat)
    requires Decimal.IsInt64(size)
    ensures |DroppedStub(size)| <= 44
  {
    assert Pow10(19) == 10000000000000000000 by {
      assert Pow10(4) == 10000;
      assert Pow10(8) == 100000000;
      assert Pow10(12) == 1000000000000;
      assert Pow10(16) == 10000000000000000;
    }
    PrintedLength(size, 19);
  }
}
