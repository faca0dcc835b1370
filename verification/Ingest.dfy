/**
 The ingest endpoint's acceptance of a batch (api/internal/handler/applog_ingest.go, `Ingest`),
 and its agreement with the shipper.
 */
module Ingest {
  import opened Common
  import opened ShipperEntry
  import opened ShipperBatch
  import ShipperProtocol
  import Decimal
  import Utf8

  const MAX_BATCH_SIZE := 1000
  const MAX_BODY_SIZE := 5 * 1024 * 1024
  const MAX_SERVICE_LEN := 128
  const MAX_COMPONENT_LEN := 128
  const MAX_HOST_LEN := 256
  const MAX_SOURCE_LEN := 256
  const MAX_MSG_LEN := 64 * 1024
  const MAX_ATTRS_LEN := 64 * 1024

  datatype Fault =
    | NoTimestamp | NoLevel | BadLevel | NoMsg | MsgTooLong | ServiceMissing | ServiceOverLimit
    | ComponentOverLimit | HostMissing | HostOverLimit | SourceOverLimit | AttrsOverLimit

  datatype Answer = BodyTooLarge | EmptyBatch | BatchTooLarge | ValidationFailed(faults: seq<(nat, Fault)>)
    | Accept(logs: seq<Entry>)

  const ALIASES: map<string, string> := map[
    "TRACE" := "DEBUG", "D" := "DEBUG", "NOTICE" := "INFO", "I" := "INFO", "WARNING" := "WARN", "W" := "WARN",
    "ERR" := "ERROR", "E" := "ERROR", "CRITICAL" := "FATAL", "CRIT" := "FATAL", "EMERG" := "FATAL",
    "ALERT" := "FATAL", "SEVERE" := "FATAL", "PANIC" := "FATAL"]

  const CANONICAL: set<string> := {"DEBUG", "INFO", "WARN", "ERROR", "FATAL"}

  /** `model.NormalizeLevel`; `upper` stands for strings.ToUpper. */
  function NormalizeLevel(upper: string -> string, level: string): (r: Option<string>)
    ensures r.Some? ==> r.value in CANONICAL
  {
    var u := upper(level);
    if u in CANONICAL then Some(u)
    else if u in ALIASES then Some(ALIASES[u])
    else None
  }

  function When(c: bool, f: Fault): seq<Fault> {
    if c then [f] else []
  }

  /** The faults of one entry, in the order they are reported. */
  function Faults(upper: string -> string, e: Entry): seq<Fault> {
    EventFaults(upper, e) + OriginFaults(e) + PayloadFaults(e)
  }

  function EventFaults(upper: string -> string, e: Entry): seq<Fault> {
    When(e.time.None?, NoTimestamp)
    + (if e.level == "" then [NoLevel] else When(NormalizeLevel(upper, e.level).None?, BadLevel))
    + (if e.msg == [] then [NoMsg] else When(|e.msg| > MAX_MSG_LEN, MsgTooLong))
  }

  function OriginFaults(e: Entry): seq<Fault> {
    (if e.service == [] then [ServiceMissing] else When(|e.service| > MAX_SERVICE_LEN, ServiceOverLimit))
    + When(|e.component| > MAX_COMPONENT_LEN, ComponentOverLimit)
    + (if e.host == [] then [HostMissing] else When(|e.host| > MAX_HOST_LEN, HostOverLimit))
  }

  function PayloadFaults(e: Entry): seq<Fault> {
    When(|e.source| > MAX_SOURCE_LEN, SourceOverLimit) + When(|e.attrs| > MAX_ATTRS_LEN, AttrsOverLimit)
  }

  function Normalized(upper: string -> string, e: Entry): Entry {
    var n := NormalizeLevel(upper, e.level);
    if e.level != "" && n.Some? then e.(level := n.value) else e
  }

  function Indexed(i: nat, faults: seq<Fault>): (r: seq<(nat, Fault)>)
    ensures |r| == |faults|
  {
    seq(|faults|, k requires 0 <= k < |faults| => (i, faults[k]))
  }

  function BatchFaults(upper: string -> string, logs: seq<Entry>): seq<(nat, Fault)> {
    if logs == [] then []
    else
      var n := |logs| - 1;
      BatchFaults(upper, logs[..n]) + Indexed(n, Faults(upper, logs[n]))
  }

  /** The report names exactly the faults of each entry, under its position. */
  lemma {:induction false} BatchFaultsExact(upper: string -> string, logs: seq<Entry>, i: nat, f: Fault)
    ensures (i, f) in BatchFaults(upper, logs) <==> i < |logs| && f in Faults(upper, logs[i])
  {
    hide Faults;
    if logs != [] {
      var n := |logs| - 1;
      BatchFaultsExact(upper, logs[..n], i, f);
      var fs := Faults(upper, logs[n]);
      if i == n && f in fs {
        var k :| 0 <= k < |fs| && fs[k] == f;
        assert Indexed(n, fs)[k] == (i, f);
      }
    }
  }

  /** The handler's decision on a decoded batch: every fault of every entry is collected, levels are normalized. */
  method Judge(upper: string -> string, bodySize: nat, logs: seq<Entry>) returns (answer: Answer)
    ensures answer.BodyTooLarge? <==> bodySize > 5242880
    ensures answer.EmptyBatch? <==> bodySize <= 5242880 && logs == []
    ensures answer.BatchTooLarge? <==> bodySize <= 5242880 && |logs| > 1000
    ensures answer.ValidationFailed? ==> answer.faults == BatchFaults(upper, logs) != []
    ensures answer.Accept? <==>
      bodySize <= 5242880 && 0 < |logs| <= 1000
        && forall i :: 0 <= i < |logs| ==> Faults(upper, logs[i]) == []
    ensures answer.Accept? ==> |answer.logs| == |logs| && forall i :: 0 <= i < |logs| ==>
      && NormalizeLevel(upper, logs[i].level).Some?
      && answer.logs[i] == logs[i].(level := NormalizeLevel(upper, logs[i].level).value)
  {
    hide Faults;
    if bodySize > MAX_BODY_SIZE {
      return BodyTooLarge;
    }
    if |logs| == 0 {
      return EmptyBatch;
    }
    if |logs| > MAX_BATCH_SIZE {
      return BatchTooLarge;
    }
    var faults, out := [], logs;
    for i := 0 to |logs|
      invariant |out| == |logs| && out[i..] == logs[i..]
      invariant faults == BatchFaults(upper, logs[..i])
      invariant faults == [] <==> forall k :: 0 <= k < i ==> Faults(upper, logs[k]) == []
      invariant forall k :: 0 <= k < i ==> out[k] == Normalized(upper, logs[k])
    {
      assert logs[..i + 1][..i] == logs[..i];
      faults := faults + Indexed(i, Faults(upper, logs[i]));
      out := out[i := Normalized(upper, logs[i])];
    }
    assert logs[..|logs|] == logs;
    if faults != [] {
      return ValidationFailed(faults);
    }
    forall i | 0 <= i < |logs|
      ensures NormalizeLevel(upper, logs[i].level).Some?
      ensures out[i] == logs[i].(level := NormalizeLevel(upper, logs[i].level).value)
    {
      FaultlessLevel(upper, logs[i]);
    }
    return Accept(out);
  }

  lemma FaultlessLevel(upper: string -> string, e: Entry)
    requires Faults(upper, e) == []
    ensures NormalizeLevel(upper, e.level).Some?
    ensures Normalized(upper, e) == e.(level := NormalizeLevel(upper, e.level).value)
  {
    Faultless(upper, e);
  }

  /** What each fault stands for. */
  predicate Cause(upper: string -> string, e: Entry, f: Fault) {
    match f
    case NoTimestamp => e.time.None?
    case NoLevel => e.level == ""
    case BadLevel => e.level != "" && NormalizeLevel(upper, e.level).None?
    case NoMsg => e.msg == []
    case MsgTooLong => |e.msg| > 65536
    case ServiceMissing => e.service == []
    case ServiceOverLimit => |e.service| > 128
    case ComponentOverLimit => |e.component| > 128
    case HostMissing => e.host == []
    case HostOverLimit => |e.host| > 256
    case SourceOverLimit => |e.source| > 256
    case AttrsOverLimit => |e.attrs| > 65536
  }

  /** Each fault is reported exactly for its own cause. */
  lemma FaultsExact(upper: string -> string, e: Entry, f: Fault)
    ensures f in Faults(upper, e) <==> Cause(upper, e, f)
  {
    hide NormalizeLevel, EventFaults, OriginFaults, PayloadFaults;
    EventFaultsExact(upper, e, f);
    OriginFaultsExact(e, f);
    PayloadFaultsExact(e, f);
  }

  lemma EventFaultsExact(upper: string -> string, e: Entry, f: Fault)
    ensures f in EventFaults(upper, e) <==>
      (f.NoTimestamp? || f.NoLevel? || f.BadLevel? || f.NoMsg? || f.MsgTooLong?) && Cause(upper, e, f)
  {
    hide NormalizeLevel;
  }

  lemma OriginFaultsExact(e: Entry, f: Fault)
    ensures f in OriginFaults(e) <==>
      || (f.ServiceMissing? && e.service == []) || (f.ServiceOverLimit? && |e.service| > 128)
      || (f.ComponentOverLimit? && |e.component| > 128)
      || (f.HostMissing? && e.host == []) || (f.HostOverLimit? && |e.host| > 256)
  {
  }

  lemma PayloadFaultsExact(e: Entry, f: Fault)
    ensures f in PayloadFaults(e) <==>
      (f.SourceOverLimit? && |e.source| > 256) || (f.AttrsOverLimit? && |e.attrs| > 65536)
  {
  }

  /** An entry without faults is one that meets every limit. */
  lemma Faultless(upper: string -> string, e: Entry)
    ensures Faults(upper, e) == [] <==>
      && e.time.Some? && e.level != "" && NormalizeLevel(upper, e.level).Some?
      && 0 < |e.msg| <= 65536 && 0 < |e.service| <= 128 && |e.component| <= 128
      && 0 < |e.host| <= 256 && |e.source| <= 256 && |e.attrs| <= 65536
  {
  }

  /** Which level names the endpoint takes, and for what. */
  lemma LevelNames(upper: string -> string, level: string)
    ensures var r, u := NormalizeLevel(upper, level), upper(level);
      && (r == Some("DEBUG") <==> u in {"DEBUG", "TRACE", "D"})
      && (r == Some("INFO") <==> u in {"INFO", "NOTICE", "I"})
      && (r == Some("WARN") <==> u in {"WARN", "WARNING", "W"})
      && (r == Some("ERROR") <==> u in {"ERROR", "ERR", "E"})
      && (r == Some("FATAL") <==> u in {"FATAL", "CRITICAL", "CRIT", "EMERG", "ALERT", "SEVERE", "PANIC"})
  {
  }

  // ----- agreement with the shipper

  /** The one way a shipped entry can be refused: the attributes failed to marshal and the stub itself is too long. */
  predicate StubTooLong(r: Record) {
    r.attrs.Failed? && |r.attrs.stub| > MAX_ATTRS_LEN
  }

  /** Go lengths are 64-bit. */
  predicate Representable(r: Record) {
    r.attrs.Marshaled? ==> Decimal.IsInt64(|r.attrs.raw|)
  }

  /** strings.ToUpper leaves the canonical names alone. */
  ghost predicate KeepsCanonical(upper: string -> string) {
    forall l :: l in CANONICAL ==> upper(l) == l
  }

  /** A Go string through JSON: each byte that starts no rune comes back as U+FFFD, three bytes long. */
  function Recoded(s: seq<byte>): seq<byte> {
    Utf8.EncodeAll(Utf8.Runes(s))
  }

  /** The entry as the endpoint decodes it; the attributes travel as raw JSON. */
  function Coerced(e: Entry): Entry {
    e.(msg := Recoded(e.msg), service := Recoded(e.service), component := Recoded(e.component),
       host := Recoded(e.host), source := Recoded(e.source))
  }

  /** Without replacing invalid bytes first, a message within the cap can be refused: it grows threefold on the way. */
  lemma {:induction false} InvalidBytesGrow(n: nat)
    ensures |Recoded(seq(n, i => 0xFF))| == 3 * n
  {
    var s: seq<byte> := seq(n, i => 0xFF);
    if n > 0 {
      assert s[1..] == seq(n - 1, i => 0xFF);
      assert Utf8.Width(s) == 1 && Utf8.FirstRune(s) == Utf8.RUNE_ERROR;
      assert Utf8.Runes(s)[1..] == Utf8.Runes(s[1..]);
      InvalidBytesGrow(n - 1);
    }
  }

  lemma UnsanitizedRefused(upper: string -> string, e: Entry)
    requires e.msg == seq(MAX_MSG_LEN, i => 0xFF)
    ensures |e.msg| <= MAX_MSG_LEN && MsgTooLong in Faults(upper, Coerced(e))
  {
    hide Utf8.EncodeAll, Utf8.Runes;
    InvalidBytesGrow(MAX_MSG_LEN);
  }

  /** What `Handle` builds is valid UTF-8 in every string field, so JSON carries it unchanged. */
  lemma CarriedUnchanged(c: RawConfig, hostname: Option<seq<byte>>, r: Record, now: int)
    requires SetDefaults(c, hostname).Accepted?
    ensures var e := BuildEntry(SetDefaults(c, hostname).settings, r, now); Coerced(e) == e
  {
    hide SetDefaults, Truncated, Shortened, DroppedStub, Utf8.Valid, Utf8.EncodeAll, Utf8.Runes, LevelString;
    var e := BuildEntry(SetDefaults(c, hostname).settings, r, now);
    TruncatedFits(if r.message == [] then EMPTY_MSG_PLACEHOLDER else r.message);
    if r.source.Some? {
      ShortenedFits(r.source.value);
    } else {
      NothingValid();
    }
    Utf8.EncodeRunes(e.msg);
    Utf8.EncodeRunes(e.service);
    Utf8.EncodeRunes(e.component);
    Utf8.EncodeRunes(e.host);
    Utf8.EncodeRunes(e.source);
  }

  lemma NothingValid()
    ensures Utf8.Valid([])
  {
  }

  /** An entry that meets every limit but perhaps that on attributes. */
  lemma OnlyAttributes(upper: string -> string, e: Entry)
    requires e.time.Some? && e.level != "" && NormalizeLevel(upper, e.level).Some?
    requires 0 < |e.msg| <= MAX_MSG_LEN && 0 < |e.service| <= MAX_SERVICE_LEN && |e.component| <= MAX_COMPONENT_LEN
    requires 0 < |e.host| <= MAX_HOST_LEN && |e.source| <= MAX_SOURCE_LEN
    ensures Faults(upper, e) == When(|e.attrs| > MAX_ATTRS_LEN, AttrsOverLimit)
  {
  }

  /**
   For every accepted configuration and every record, the entry as the endpoint decodes it passes
   all per-entry checks, unless it carries an over-long `_encode_error` stub, and then that is its
   one fault.
   */
  lemma EntryAgreement(upper: string -> string, c: RawConfig, hostname: Option<seq<byte>>, r: Record, now: int)
    requires SetDefaults(c, hostname).Accepted? && KeepsCanonical(upper) && Representable(r)
    ensures Faults(upper, Coerced(BuildEntry(SetDefaults(c, hostname).settings, r, now))) ==
      if StubTooLong(r) then [AttrsOverLimit] else []
  {
    hide SetDefaults, BuildEntry, Faults, NormalizeLevel, KeepsCanonical, Coerced;
    CarriedUnchanged(c, hostname, r, now);
    BuiltWithinLimits(upper, c, hostname, r, now);
    OnlyAttributes(upper, BuildEntry(SetDefaults(c, hostname).settings, r, now));
  }

  lemma BuiltWithinLimits(upper: string -> string, c: RawConfig, hostname: Option<seq<byte>>, r: Record, now: int)
    requires SetDefaults(c, hostname).Accepted? && KeepsCanonical(upper) && Representable(r)
    ensures var e := BuildEntry(SetDefaults(c, hostname).settings, r, now);
      && e.time.Some? && e.level != "" && NormalizeLevel(upper, e.level).Some?
      && 0 < |e.msg| <= MAX_MSG_LEN && 0 < |e.service| <= MAX_SERVICE_LEN && |e.component| <= MAX_COMPONENT_LEN
      && 0 < |e.host| <= MAX_HOST_LEN && |e.source| <= MAX_SOURCE_LEN
      && (|e.attrs| > MAX_ATTRS_LEN <==> StubTooLong(r))
  {
    hide SetDefaults, Truncated, Shortened, DroppedStub, Utf8.Valid, NormalizeLevel, LevelString, KeepsCanonical;
    hide StubTooLong;
    AttributesWithin(SetDefaults(c, hostname).settings, r, now);
    LevelAgreement(upper, r.level);
    TruncatedFits(if r.message == [] then EMPTY_MSG_PLACEHOLDER else r.message);
    if r.source.Some? {
      ShortenedFits(r.source.value);
    }
  }

  lemma AttributesWithin(s: Settings, r: Record, now: int)
    requires Representable(r)
    ensures |BuildEntry(s, r, now).attrs| > MAX_ATTRS_LEN <==> StubTooLong(r)
  {
    hide Truncated, Shortened, DroppedStub, LevelString;
    if r.attrs.Marshaled? {
      StubFits(|r.attrs.raw|);
    }
  }

  /** The stub around an error text is refused exactly when the text has more than 65516 bytes. */
  lemma LongErrorRefused(upper: string -> string, c: RawConfig, hostname: Option<seq<byte>>, r: Record, now: int,
                         text: seq<byte>)
    requires SetDefaults(c, hostname).Accepted? && KeepsCanonical(upper) && r.attrs == Failed(ErrorStub(text))
    ensures Faults(upper, Coerced(BuildEntry(SetDefaults(c, hostname).settings, r, now))) == [] <==> |text| <= 65516
  {
    hide SetDefaults, Faults, BuildEntry, KeepsCanonical, Coerced;
    EntryAgreement(upper, c, hostname, r, now);
  }

  /** A record that is refused: an error text of 65517 letters, which JSON leaves as it is. */
  lemma StubCanBeTooLong()
    ensures StubTooLong(Record(None, 0, [], None, Failed(ErrorStub(seq(65517, i => 120)))))
  {
    var text: seq<byte> := seq(65517, i => 120);
    assert |ErrorStub(text)| == 65517 + 20;
  }

  /** Every slog level ships under a name the endpoint takes as it is. */
  lemma LevelAgreement(upper: string -> string, level: int)
    requires KeepsCanonical(upper)
    ensures LevelString(level) != "" && NormalizeLevel(upper, LevelString(level)) == Some(LevelString(level))
  {
    assert LevelString(level) in CANONICAL;
  }

  const REQUEST_BYTE_LIMIT := 4 * 1024 * 1024

  /** The endpoint decodes e from what `Handle` built for a record under these settings. */
  ghost predicate DecodedFrom(s: Settings, r: Record, now: int, e: Entry) {
    Representable(r) && e == Coerced(BuildEntry(s, r, now))
  }

  /** What encoding/json does to an entry that it can encode. */
  ghost predicate JsonCarries(decode: seq<byte> -> Entry, encode: Entry -> Option<seq<byte>>) {
    forall e :: encode(e).Some? ==> decode(encode(e).value) == Coerced(e)
  }

  ghost predicate BuiltFor(s: Settings, r: Record, now: int, encode: Entry -> Option<seq<byte>>,
      encoded: Option<seq<byte>>) {
    Representable(r) && encoded == encode(BuildEntry(s, r, now))
  }

  /** The calls of a run push the encodings of what `Handle` builds, for any records. */
  ghost predicate PushesEntries(s: Settings, encode: Entry -> Option<seq<byte>>, steps: seq<ShipperProtocol.Step>) {
    forall j :: 0 <= j < |steps| && steps[j].Push? ==> exists r, now :: BuiltFor(s, r, now, encode, steps[j].encoded)
  }

  /** The endpoint has nothing to say against the entry but an over-long stub of the record it came from. */
  ghost predicate Passes(upper: string -> string, s: Settings, r: Record, now: int, e: Entry) {
    DecodedFrom(s, r, now, e) && Faults(upper, e) == if StubTooLong(r) then [AttrsOverLimit] else []
  }

  /**
   In every run of the shipper under an accepted configuration and the default request limit,
   whatever the records, the interleaving and the answers: no request is refused for its body, its
   size or its emptiness, and no entry in it for any field, but for over-long `_encode_error` stubs.
   */
  lemma RequestsPass(upper: string -> string, c: RawConfig, hostname: Option<seq<byte>>, bufferSize: nat,
                     states: seq<ShipperProtocol.State>, steps: seq<ShipperProtocol.Step>, i: nat,
                     r: Request, encode: Entry -> Option<seq<byte>>, decode: seq<byte> -> Entry)
    requires SetDefaults(c, hostname).Accepted? && KeepsCanonical(upper) && JsonCarries(decode, encode)
    requires ShipperProtocol.IsRun(DefaultSetup(SetDefaults(c, hostname).settings, bufferSize), states, steps)
    requires PushesEntries(SetDefaults(c, hostname).settings, encode, steps)
    requires i < |states| && r in states[i].loop.requests
    ensures |Body(r.entries)| <= 4194304 <= MAX_BODY_SIZE && 0 < |r.entries| <= MAX_BATCH_SIZE
    ensures forall e :: e in r.entries ==>
      exists rec, now :: Passes(upper, SetDefaults(c, hostname).settings, rec, now, decode(e.json))
  {
    var s := SetDefaults(c, hostname).settings;
    var su := DefaultSetup(s, bufferSize);
    ShipperProtocol.DeliveryGuarantees(su, states, steps, i);
    hide SetDefaults, Faults, BuildEntry, DecodedFrom, KeepsCanonical, Passes;
    var ok := iset b: seq<byte> | exists rec, now :: DecodedFrom(s, rec, now, decode(b));
    PushedDecode(s, encode, decode, ok, steps);
    ShipperProtocol.OnlyWhatWasPushed(su, ok, states, steps, i);
    forall e | e in r.entries
      ensures exists rec, now :: Passes(upper, s, rec, now, decode(e.json))
    {
      var rec, now :| DecodedFrom(s, rec, now, decode(e.json));
      DecodedPasses(upper, c, hostname, rec, now, decode(e.json));
    }
  }

  function DefaultSetup(s: Settings, bufferSize: nat): ShipperProtocol.Setup {
    ShipperProtocol.Setup(Config(s.batchSize, REQUEST_BYTE_LIMIT), bufferSize)
  }

  lemma PushedDecode(s: Settings, encode: Entry -> Option<seq<byte>>, decode: seq<byte> -> Entry,
                     ok: iset<seq<byte>>, steps: seq<ShipperProtocol.Step>)
    requires JsonCarries(decode, encode) && PushesEntries(s, encode, steps)
    requires ok == iset b: seq<byte> | exists r, now :: DecodedFrom(s, r, now, decode(b))
    ensures forall j :: 0 <= j < |steps| && steps[j].Push? && steps[j].encoded.Some? ==> steps[j].encoded.value in ok
  {
    hide BuildEntry, Coerced;
    forall j | 0 <= j < |steps| && steps[j].Push? && steps[j].encoded.Some?
      ensures steps[j].encoded.value in ok
    {
      var r, now :| BuiltFor(s, r, now, encode, steps[j].encoded);
      assert DecodedFrom(s, r, now, decode(encode(BuildEntry(s, r, now)).value));
    }
  }

  lemma DecodedPasses(upper: string -> string, c: RawConfig, hostname: Option<seq<byte>>, r: Record, now: int, e: Entry)
    ensures SetDefaults(c, hostname).Accepted? && KeepsCanonical(upper) ==>
      var s := SetDefaults(c, hostname).settings;
      DecodedFrom(s, r, now, e) ==> Passes(upper, s, r, now, e)
  {
    hide SetDefaults, Faults, BuildEntry, KeepsCanonical, Coerced;
    if SetDefaults(c, hostname).Accepted? && KeepsCanonical(upper) && Representable(r) {
      EntryAgreement(upper, c, hostname, r, now);
    }
  }
}
