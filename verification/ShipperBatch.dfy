/**
 The log shipper's batching state and the atomic moves its loop is made of
 (pkg/logshipper/handler.go, `loop` and `send`).

 An entry's id is its position in the order in which entries entered the channel, so
 "in enqueue order" is "with increasing ids". The request history stands for what the
 ingest endpoint saw; `failed` lists the ids behind the SendFailed counter.
 */
module ShipperBatch {
  import opened Common

  /** An entry on the channel; `encoded` is None when json.Marshal fails on it. */
  datatype LogEntry = LogEntry(id: nat, encoded: Option<seq<byte>>)

  /** An entry of a batch, encoded once. */
  datatype RawEntry = RawEntry(id: nat, json: seq<byte>)

  /** What one POST came to: no usable response, or a status code. */
  datatype Answer = TransportError | Status(code: int)

  datatype Request = Request(entries: seq<RawEntry>, answer: Answer)

  datatype Config = Config(batchSize: int, maxRequestBytes: int)

  datatype Loop = Loop(
    batch: seq<RawEntry>,
    batchBytes: int,
    retry: seq<RawEntry>,
    draining: bool,
    sendFailed: nat,
    taken: nat,
    requests: seq<Request>,
    failed: seq<nat>)

  const MAX_BATCH_ENTRIES := 1000
  const DEFAULT_BATCH_SIZE := 100
  const COMMA: byte := 44
  const REQUEST_PREFIX: seq<byte> := [123, 34, 108, 111, 103, 115, 34, 58, 91]
  const REQUEST_SUFFIX: seq<byte> := [93, 125]
  const EMPTY_REQUEST_BYTES := |REQUEST_PREFIX| + |REQUEST_SUFFIX|

  const INITIAL_LOOP := Loop([], EMPTY_REQUEST_BYTES, [], false, 0, 0, [], [])

  /** Only 2xx is a delivery. */
  predicate Delivered(a: Answer) {
    a.Status? && 200 <= a.code < 300
  }

  predicate Retryable(a: Answer) {
    match a
    case TransportError => true
    case Status(code) => code in {401, 408, 429} || code < 400 || code >= 500
  }

  // ----- answers by their codes

  /** The ingest API took the batch. */
  predicate Took(a: Answer) {
    a.Status? && 200 <= a.code <= 299
  }

  /** It refused this payload, and would again: a 4xx other than 401, 408 and 429. */
  predicate Rejects(a: Answer) {
    a.Status? && 400 <= a.code <= 499 && a.code != 401 && a.code != 408 && a.code != 429
  }

  /** The code's two tests of an answer sort it into taken, rejected, and worth a retry. */
  lemma AnswersByCode(a: Answer)
    ensures Delivered(a) <==> Took(a)
    ensures Retryable(a) <==> !Rejects(a)
    ensures !Took(a) && !Rejects(a) <==>
      a.TransportError? || a.code < 200 || 300 <= a.code < 400 || a.code in {401, 408, 429} || a.code >= 500
  {
  }

  /** The batch size after `setDefaults`. */
  function EffectiveBatchSize(requested: int): (n: int)
    ensures 1 <= n <= MAX_BATCH_ENTRIES
    ensures 1 <= requested <= 1000 ==> n == requested
    ensures requested <= 0 ==> n == 100
    ensures requested > 1000 ==> n == 1000
  {
    var n := if requested <= 0 then DEFAULT_BATCH_SIZE else requested;
    if n > MAX_BATCH_ENTRIES then MAX_BATCH_ENTRIES else n
  }

  // ----- request bodies

  function Joined(entries: seq<RawEntry>): seq<byte> {
    if |entries| == 0 then []
    else if |entries| == 1 then entries[0].json
    else Joined(entries[..|entries| - 1]) + [COMMA] + entries[|entries| - 1].json
  }

  function Body(entries: seq<RawEntry>): seq<byte> {
    REQUEST_PREFIX + Joined(entries) + REQUEST_SUFFIX
  }

  function JsonBytes(entries: seq<RawEntry>): nat {
    if |entries| == 0 then 0 else JsonBytes(entries[..|entries| - 1]) + |entries[|entries| - 1].json|
  }

  lemma {:induction false} JoinedSnoc(entries: seq<RawEntry>, e: RawEntry)
    ensures Joined(entries + [e]) == if entries == [] then e.json else Joined(entries) + [COMMA] + e.json
    ensures JsonBytes(entries + [e]) == JsonBytes(entries) + |e.json|
  {
    assert (entries + [e])[..|entries|] == entries;
  }

  /** A request body, spelled out entry by entry. */
  lemma BodySpelled(entries: seq<RawEntry>, e: RawEntry)
    ensures Body([e]) == Ascii("{\"logs\":[") + e.json + Ascii("]}")
    ensures entries != [] ==>
      Body(entries + [e]) == Body(entries)[..|Body(entries)| - 2] + Ascii(",") + e.json + Ascii("]}")
  {
    assert REQUEST_PREFIX == Ascii("{\"logs\":[") && REQUEST_SUFFIX == Ascii("]}") && [COMMA] == Ascii(",");
    JoinedSnoc(entries, e);
    hide Joined;
    var body := Body(entries);
    assert body[..|body| - 2] == REQUEST_PREFIX + Joined(entries);
  }

  lemma {:induction false} BodyLength(entries: seq<RawEntry>)
    requires entries != []
    ensures |Body(entries)| == EMPTY_REQUEST_BYTES + |entries| - 1 + JsonBytes(entries)
  {
    var front, last := entries[..|entries| - 1], entries[|entries| - 1];
    assert entries == front + [last];
    JoinedSnoc(front, last);
    if front != [] {
      BodyLength(front);
    }
  }

  /** `send`'s body assembly: the size reserved up front is the size written. */
  method BuildBody(entries: seq<RawEntry>) returns (body: seq<byte>, size: int)
    requires entries != []
    ensures body == Body(entries)
    ensures size == |body|
  {
    size := EMPTY_REQUEST_BYTES + |entries| - 1;
    for i := 0 to |entries|
      invariant size == EMPTY_REQUEST_BYTES + |entries| - 1 + JsonBytes(entries[..i])
    {
      hide Joined, JsonBytes;
      assert entries[..i + 1] == entries[..i] + [entries[i]];
      JoinedSnoc(entries[..i], entries[i]);
      size := size + |entries[i].json|;
    }
    assert entries[..|entries|] == entries;
    body := REQUEST_PREFIX;
    for i := 0 to |entries|
      invariant body == REQUEST_PREFIX + Joined(entries[..i])
    {
      hide Joined, JsonBytes;
      assert entries[..i + 1] == entries[..i] + [entries[i]];
      JoinedSnoc(entries[..i], entries[i]);
      if i > 0 {
        body := body + [COMMA];
      }
      body := body + entries[i].json;
    }
    body := body + REQUEST_SUFFIX;
    BodyLength(entries);
  }

  // ----- the moves of the loop

  function Ids(entries: seq<RawEntry>): (ids: seq<nat>)
    ensures |ids| == |entries|
  {
    seq(|entries|, i requires 0 <= i < |entries| => entries[i].id)
  }

  function WaitingIds(waiting: seq<LogEntry>): (ids: seq<nat>)
    ensures |ids| == |waiting|
  {
    seq(|waiting|, i requires 0 <= i < |waiting| => waiting[i].id)
  }

  /** Resends the retained batch; a second failure gives it up. */
  function SendRetry(l: Loop, a: Answer): Loop {
    var sent := l.(requests := l.requests + [Request(l.retry, a)], retry := []);
    if Delivered(a) then sent else GiveUp(sent, l.retry)
  }

  /** Sends the current batch; a retryable failure retains it, a rejection gives it up. */
  function SendBatch(l: Loop, a: Answer): Loop {
    var sent := ClearBatch(l.(requests := l.requests + [Request(l.batch, a)]));
    if Delivered(a) then sent
    else if Retryable(a) then sent.(retry := l.batch)
    else GiveUp(sent, l.batch)
  }

  /** Leaves the batch for the next flush without sending it. */
  function Postpone(l: Loop): Loop {
    ClearBatch(l).(retry := l.batch)
  }

  function ClearBatch(l: Loop): Loop {
    l.(batch := [], batchBytes := EMPTY_REQUEST_BYTES)
  }

  function GiveUp(l: Loop, entries: seq<RawEntry>): Loop {
    l.(sendFailed := l.sendFailed + |entries|, failed := l.failed + Ids(entries))
  }

  /** Drops the entry in hand: it does not encode, or fits no request. */
  function RejectEntry(l: Loop): Loop {
    l.(sendFailed := l.sendFailed + 1, failed := l.failed + [l.taken], taken := l.taken + 1)
  }

  function Append(l: Loop, raw: RawEntry): Loop {
    l.(batch := l.batch + [raw],
       batchBytes := l.batchBytes + (if l.batch != [] then 1 else 0) + |raw.json|,
       taken := l.taken + 1)
  }

  /** The drain's context expired: what is held and what waits on the channel counts as failed. */
  function Abandon(l: Loop, waiting: seq<LogEntry>): Loop {
    l.(sendFailed := l.sendFailed + |l.batch| + |l.retry| + |waiting|,
       failed := l.failed + Ids(l.batch) + Ids(l.retry) + WaitingIds(waiting),
       batch := [], batchBytes := EMPTY_REQUEST_BYTES, retry := [],
       taken := l.taken + |waiting|)
  }

  /** The drain's last act: a batch retained by the final flush has no later flush. */
  function GiveUpRetry(l: Loop): Loop {
    GiveUp(l, l.retry).(retry := [])
  }

  predicate Fits(cfg: Config, json: seq<byte>) {
    EMPTY_REQUEST_BYTES + |json| <= cfg.maxRequestBytes
  }

  predicate NeedsFlush(cfg: Config, l: Loop, json: seq<byte>) {
    l.batch != [] && l.batchBytes + 1 + |json| > cfg.maxRequestBytes
  }

  // ----- what every move keeps

  /** The ids of acknowledged entries, in request order. */
  function Acked(requests: seq<Request>): seq<nat> {
    if requests == [] then []
    else
      var last := requests[|requests| - 1];
      Acked(requests[..|requests| - 1]) + (if Delivered(last.answer) then Ids(last.entries) else [])
  }

  /** In how many requests an id appears. */
  function Sends(requests: seq<Request>, id: nat): nat {
    if requests == [] then 0
    else
      Sends(requests[..|requests| - 1], id) + (if id in Ids(requests[|requests| - 1].entries) then 1 else 0)
  }

  lemma HistorySnoc(requests: seq<Request>, r: Request)
    ensures Acked(requests + [r]) == if Delivered(r.answer) then Acked(requests) + Ids(r.entries) else Acked(requests)
    ensures forall id: nat :: Sends(requests + [r], id) == Sends(requests, id) + (if id in Ids(r.entries) then 1 else 0)
  {
    assert (requests + [r])[..|requests|] == requests;
  }

  /** A batch the server can be sent. */
  ghost predicate Sendable(cfg: Config, entries: seq<RawEntry>) {
    && 0 < |entries| <= cfg.batchSize
    && |Body(entries)| <= cfg.maxRequestBytes
  }

  /** Every request is non-empty and within both limits, and so is what is retained. */
  ghost predicate Bounded(cfg: Config, l: Loop) {
    && (forall r :: r in l.requests ==> Sendable(cfg, r.entries))
    && (l.batch != [] ==> Sendable(cfg, l.batch))
    && (l.retry != [] ==> Sendable(cfg, l.retry))
    && l.batchBytes == |Body(l.batch)|
  }

  /** Acknowledged, then retained, then batched: one increasing run of ids. */
  ghost predicate Ordered(l: Loop) {
    Increasing(Run(l)) && AllBelow(Run(l), l.taken)
  }

  ghost function Run(l: Loop): seq<nat> {
    Acked(l.requests) + Ids(l.retry) + Ids(l.batch)
  }

  /** Every id taken so far is acknowledged, failed, retained or batched, and only one of these. */
  ghost predicate Accounted(l: Loop) {
    && Partition(Acked(l.requests), l.failed, Ids(l.retry), Ids(l.batch), l.taken)
    && l.sendFailed == |l.failed|
  }

  ghost predicate Partition(acked: seq<nat>, failed: seq<nat>, retry: seq<nat>, batch: seq<nat>, taken: nat) {
    && |acked| + |failed| + |retry| + |batch| == taken
    && forall id: nat ::
         Count(acked, id) + Count(failed, id) + Count(retry, id) + Count(batch, id) == if id < taken then 1 else 0
  }

  /** At most two sends each: none for a batched entry, at most one for a retained one. */
  ghost predicate SentTwiceAtMost(l: Loop) {
    forall id: nat ::
      && Sends(l.requests, id) <= 2
      && (id in Ids(l.retry) ==> Sends(l.requests, id) <= 1)
      && (id in Ids(l.batch) || id >= l.taken ==> Sends(l.requests, id) == 0)
  }

  ghost predicate Inv(cfg: Config, l: Loop) {
    Bounded(cfg, l) && Ordered(l) && Accounted(l) && SentTwiceAtMost(l)
  }

  lemma InitialInv(cfg: Config)
    ensures Inv(cfg, INITIAL_LOOP)
  {
  }

  lemma SendRetryInv(cfg: Config, l: Loop, a: Answer)
    requires Inv(cfg, l) && l.retry != []
    ensures Inv(cfg, SendRetry(l, a))
  {
    SendRetryOrdered(l, a);
    SendRetryAccounted(l, a);
    SendRetrySends(l, a);
  }

  lemma SendRetryOrdered(l: Loop, a: Answer)
    requires Ordered(l)
    ensures Ordered(SendRetry(l, a))
  {
    var l' := SendRetry(l, a);
    HistorySnoc(l.requests, Request(l.retry, a));
    hide Acked, Sends, Delivered, Increasing, AllBelow;
    DropMiddle(Acked(l.requests), Ids(l.retry), Ids(l.batch), l.taken);
    assert Ids(l'.retry) == [] && Ids(l'.batch) == Ids(l.batch);
    assert Run(l') == if Delivered(a) then Run(l) else Acked(l.requests) + Ids(l.batch);
  }

  lemma SendRetryAccounted(l: Loop, a: Answer)
    requires Accounted(l)
    ensures Accounted(SendRetry(l, a))
  {
    HistorySnoc(l.requests, Request(l.retry, a));
    NoIds();
    RetryMoves(Acked(l.requests), l.failed, Ids(l.retry), Ids(l.batch), l.taken);
  }

  lemma SendRetrySends(l: Loop, a: Answer)
    requires SentTwiceAtMost(l) && Ordered(l)
    ensures SentTwiceAtMost(SendRetry(l, a))
  {
    HistorySnoc(l.requests, Request(l.retry, a));
    RunDisjoint(Acked(l.requests), Ids(l.retry), Ids(l.batch), l.taken);
  }

  lemma SendBatchInv(cfg: Config, l: Loop, a: Answer)
    requires Inv(cfg, l) && l.retry == [] && l.batch != []
    ensures Inv(cfg, SendBatch(l, a))
  {
    NoIds();
    SendBatchOrdered(l, a);
    SendBatchAccounted(l, a);
    SendBatchSends(l, a);
  }

  lemma SendBatchOrdered(l: Loop, a: Answer)
    requires Ordered(l) && l.retry == []
    ensures Ordered(SendBatch(l, a))
  {
    var l' := SendBatch(l, a);
    HistorySnoc(l.requests, Request(l.batch, a));
    if Delivered(a) || Retryable(a) {
      assert Run(l') == Run(l);
    } else {
      AckedOrdered(l);
      assert Run(l') == Acked(l.requests);
    }
  }

  lemma SendBatchAccounted(l: Loop, a: Answer)
    requires Accounted(l) && l.retry == []
    ensures Accounted(SendBatch(l, a))
  {
    HistorySnoc(l.requests, Request(l.batch, a));
    NoIds();
    BatchMoves(Acked(l.requests), l.failed, Ids(l.batch), l.taken);
  }

  lemma SendBatchSends(l: Loop, a: Answer)
    requires SentTwiceAtMost(l) && Ordered(l)
    ensures SentTwiceAtMost(SendBatch(l, a))
  {
    HistorySnoc(l.requests, Request(l.batch, a));
    assert forall x :: x in Ids(l.batch) ==> x in Run(l);
  }

  lemma AckedOrdered(l: Loop)
    requires Ordered(l)
    ensures Increasing(Acked(l.requests)) && AllBelow(Acked(l.requests), l.taken)
  {
    var acked := Acked(l.requests);
    assert acked == Run(l)[..|acked|];
    assert forall x :: x in acked ==> x in Run(l);
  }

  lemma PostponeInv(cfg: Config, l: Loop)
    requires Inv(cfg, l) && l.retry == []
    ensures Inv(cfg, Postpone(l))
  {
    NoIds();
    assert Run(Postpone(l)) == Run(l);
  }

  lemma RejectEntryInv(cfg: Config, l: Loop)
    requires Inv(cfg, l)
    ensures Inv(cfg, RejectEntry(l))
  {
    OneMore(Acked(l.requests), l.failed, Ids(l.retry), Ids(l.batch), l.taken);
  }

  lemma AppendInv(cfg: Config, l: Loop, raw: RawEntry)
    requires Inv(cfg, l) && raw.id == l.taken && |l.batch| < cfg.batchSize
    requires Fits(cfg, raw.json) && !NeedsFlush(cfg, l, raw.json)
    ensures Inv(cfg, Append(l, raw))
  {
    JoinedSnoc(l.batch, raw);
    var l' := Append(l, raw);
    assert Bounded(cfg, l');
    hide Bounded;
    assert Ids(l'.batch) == Ids(l.batch) + [raw.id];
    hide Ids;
    AppendOrdered(l, raw);
    hide Ordered;
    OneMore(Acked(l.requests), l.failed, Ids(l.retry), Ids(l.batch), l.taken);
  }

  lemma AppendOrdered(l: Loop, raw: RawEntry)
    requires Ordered(l) && raw.id == l.taken
    ensures Ordered(Append(l, raw))
  {
    var l' := Append(l, raw);
    assert Ids(l'.batch) == Ids(l.batch) + [raw.id];
    hide Ids, Acked;
    assert Run(l') == Run(l) + [l.taken];
    assert forall i :: 0 <= i < |Run(l)| ==> Run(l)[i] in Run(l);
  }

  lemma GiveUpRetryInv(cfg: Config, l: Loop)
    requires Inv(cfg, l)
    ensures Inv(cfg, GiveUpRetry(l))
  {
    NoIds();
    assert Run(GiveUpRetry(l)) == Acked(l.requests) + Ids(l.batch);
    DropMiddle(Acked(l.requests), Ids(l.retry), Ids(l.batch), l.taken);
    RetryMoves(Acked(l.requests), l.failed, Ids(l.retry), Ids(l.batch), l.taken);
  }

  /** Entries waiting on the channel carry the next ids in order. */
  ghost predicate Consecutive(waiting: seq<LogEntry>, from: nat) {
    forall i :: 0 <= i < |waiting| ==> waiting[i].id == from + i
  }

  lemma AbandonInv(cfg: Config, l: Loop, waiting: seq<LogEntry>)
    requires Inv(cfg, l) && Consecutive(waiting, l.taken)
    ensures Inv(cfg, Abandon(l, waiting))
  {
    NoIds();
    AckedOrdered(l);
    assert Run(Abandon(l, waiting)) == Acked(l.requests);
    AbandonAccounted(l, waiting);
  }

  lemma AbandonAccounted(l: Loop, waiting: seq<LogEntry>)
    requires Accounted(l) && Consecutive(waiting, l.taken)
    ensures Accounted(Abandon(l, waiting))
  {
    NoIds();
    AllFail(Acked(l.requests), l.failed, Ids(l.retry), Ids(l.batch), l.taken, WaitingIds(waiting));
  }

  // ----- facts about runs of ids

  lemma NoIds()
    ensures Ids([]) == [] && Joined([]) == []
  {
  }

  lemma CountsConcat(s: seq<nat>, t: seq<nat>)
    ensures forall id: nat :: Count(s + t, id) == Count(s, id) + Count(t, id)
  {
    forall id: nat {
      CountConcat(s, t, id);
    }
  }

  lemma RetryMoves(acked: seq<nat>, failed: seq<nat>, retry: seq<nat>, batch: seq<nat>, taken: nat)
    requires Partition(acked, failed, retry, batch, taken)
    ensures Partition(acked + retry, failed, [], batch, taken)
    ensures Partition(acked, failed + retry, [], batch, taken)
  {
    CountsConcat(acked, retry);
    CountsConcat(failed, retry);
  }

  lemma BatchMoves(acked: seq<nat>, failed: seq<nat>, batch: seq<nat>, taken: nat)
    requires Partition(acked, failed, [], batch, taken)
    ensures Partition(acked + batch, failed, [], [], taken)
    ensures Partition(acked, failed + batch, [], [], taken)
  {
    CountsConcat(acked, batch);
    CountsConcat(failed, batch);
  }

  lemma OneMore(acked: seq<nat>, failed: seq<nat>, retry: seq<nat>, batch: seq<nat>, taken: nat)
    requires Partition(acked, failed, retry, batch, taken)
    ensures Partition(acked, failed + [taken], retry, batch, taken + 1)
    ensures Partition(acked, failed, retry, batch + [taken], taken + 1)
  {
    CountsConcat(failed, [taken]);
    CountsConcat(batch, [taken]);
  }

  lemma AllFail(acked: seq<nat>, failed: seq<nat>, retry: seq<nat>, batch: seq<nat>, taken: nat, rest: seq<nat>)
    requires Partition(acked, failed, retry, batch, taken)
    requires forall i :: 0 <= i < |rest| ==> rest[i] == taken + i
    ensures Partition(acked, failed + batch + retry + rest, [], [], taken + |rest|)
  {
    CountsConcat(failed, batch);
    CountsConcat(failed + batch, retry);
    CountsConcat(failed + batch + retry, rest);
    forall id: nat {
      CountConsecutive(rest, taken, id);
    }
  }

  lemma DropMiddle(a: seq<nat>, b: seq<nat>, c: seq<nat>, bound: nat)
    requires Increasing(a + b + c) && AllBelow(a + b + c, bound)
    ensures Increasing(a + c) && AllBelow(a + c, bound)
  {
    var s, t := a + b + c, a + c;
    assert forall i :: 0 <= i < |t| ==> t[i] == s[if i < |a| then i else i + |b|];
    forall x | x in t
      ensures x < bound
    {
      var i :| 0 <= i < |t| && t[i] == x;
      assert s[if i < |a| then i else i + |b|] in s;
    }
  }

  lemma RunDisjoint(a: seq<nat>, b: seq<nat>, c: seq<nat>, bound: nat)
    requires Increasing(a + b + c) && AllBelow(a + b + c, bound)
    ensures forall x :: x in b ==> x !in a && x !in c && x < bound
  {
    var s := a + b + c;
    forall x | x in b
      ensures x !in a && x !in c && x < bound
    {
      var j :| 0 <= j < |b| && b[j] == x;
      assert s[|a| + j] == x && x in s;
      assert forall i :: 0 <= i < |a| ==> s[i] == a[i];
      assert forall i :: 0 <= i < |c| ==> s[|a| + |b| + i] == c[i];
    }
  }

  // ----- a whole flush

  /** One flush: the k-th request of the run is answered by net(k). */
  function Flush(l: Loop, net: nat -> Answer): Loop {
    var answer := net(|l.requests|);
    var l1 := if l.retry != [] then SendRetry(l, answer) else l;
    var endpointFailing := l.retry != [] && !Delivered(answer) && Retryable(answer);
    if l1.batch == [] then l1
    else if endpointFailing && !l1.draining then Postpone(l1)
    else SendBatch(l1, net(|l1.requests|))
  }

  lemma FlushInv(cfg: Config, l: Loop, net: nat -> Answer)
    requires Inv(cfg, l)
    ensures Inv(cfg, Flush(l, net))
    ensures Flush(l, net).batch == [] && Flush(l, net).taken == l.taken && Flush(l, net).draining == l.draining
    ensures l.requests <= Flush(l, net).requests
    ensures |Flush(l, net).requests| <= |l.requests| + 2
  {
    hide Inv;
    var answer := net(|l.requests|);
    var l1 := if l.retry != [] then SendRetry(l, answer) else l;
    if l.retry != [] {
      SendRetryInv(cfg, l, answer);
    }
    if l1.batch != [] {
      PostponeInv(cfg, l1);
      SendBatchInv(cfg, l1, net(|l1.requests|));
    }
  }

  /** `add`: reject, or make room, append, and flush a full batch. */
  function Add(cfg: Config, l: Loop, e: LogEntry, net: nat -> Answer): Loop {
    if e.encoded.None? || !Fits(cfg, e.encoded.value) then RejectEntry(l)
    else
      var room := if NeedsFlush(cfg, l, e.encoded.value) then Flush(l, net) else l;
      var full := Append(room, RawEntry(e.id, e.encoded.value));
      if |full.batch| >= cfg.batchSize then Flush(full, net) else full
  }

  lemma AddInv(cfg: Config, l: Loop, e: LogEntry, net: nat -> Answer)
    requires Inv(cfg, l) && e.id == l.taken && |l.batch| < cfg.batchSize
    ensures Inv(cfg, Add(cfg, l, e, net))
    ensures |Add(cfg, l, e, net).batch| < cfg.batchSize
    ensures Add(cfg, l, e, net).taken == l.taken + 1 && Add(cfg, l, e, net).draining == l.draining
    ensures l.requests <= Add(cfg, l, e, net).requests
  {
    hide Inv, Flush;
    if e.encoded.None? || !Fits(cfg, e.encoded.value) {
      RejectEntryInv(cfg, l);
    } else {
      FlushInv(cfg, l, net);
      var room := if NeedsFlush(cfg, l, e.encoded.value) then Flush(l, net) else l;
      AppendInv(cfg, room, RawEntry(e.id, e.encoded.value));
      FlushInv(cfg, Append(room, RawEntry(e.id, e.encoded.value)), net);
    }
  }

  /** Going into the drain changes nothing that is counted. */
  lemma DrainingInv(cfg: Config, l: Loop)
    requires Inv(cfg, l)
    ensures Inv(cfg, l.(draining := true))
  {
  }

  // ----- a whole drain

  /** `drain`: the k-th check of the shutdown context finds expired(k). */
  function Drain(cfg: Config, l: Loop, ch: seq<LogEntry>, net: nat -> Answer, expired: nat -> bool, checks: nat): Loop
    decreases |ch|
  {
    if expired(checks) then Abandon(l, ch)
    else if ch == [] then GiveUpRetry(Flush(l, net))
    else Drain(cfg, Add(cfg, l, ch[0], net), ch[1..], net, expired, checks + 1)
  }

  /** However the drain ends, everything that was waiting is taken and nothing is held back. */
  lemma {:induction false} DrainInv(
      cfg: Config, l: Loop, ch: seq<LogEntry>, net: nat -> Answer, expired: nat -> bool, checks: nat)
    requires Inv(cfg, l) && |l.batch| < cfg.batchSize && Consecutive(ch, l.taken)
    ensures var l' := Drain(cfg, l, ch, net, expired, checks);
      && Inv(cfg, l') && l'.batch == [] && l'.retry == [] && l'.draining == l.draining
      && l'.taken == l.taken + |ch| && l.requests <= l'.requests
    decreases |ch|
  {
    hide Inv, Flush, Add;
    if expired(checks) {
      AbandonInv(cfg, l, ch);
    } else if ch == [] {
      FlushInv(cfg, l, net);
      GiveUpRetryInv(cfg, Flush(l, net));
    } else {
      AddInv(cfg, l, ch[0], net);
      DrainInv(cfg, Add(cfg, l, ch[0], net), ch[1..], net, expired, checks + 1);
    }
  }

  // ----- consequences

  lemma FatesAddUp(cfg: Config, l: Loop)
    requires Inv(cfg, l)
    ensures l.taken == |Acked(l.requests)| + l.sendFailed + |l.retry| + |l.batch|
  {
  }

  lemma RetainedBounded(cfg: Config, l: Loop)
    requires Inv(cfg, l) && cfg.batchSize >= 0
    ensures |l.batch| + |l.retry| <= 2 * cfg.batchSize
  {
  }

  /** Each taken id is in exactly one place: acknowledged, failed, retained, or batched. */
  lemma ExactlyOneFate(cfg: Config, l: Loop, id: nat)
    requires Inv(cfg, l) && id < l.taken
    ensures id in Acked(l.requests) <==> !(id in l.failed || id in Ids(l.retry) || id in Ids(l.batch))
    ensures id in l.failed ==> id !in Ids(l.retry) && id !in Ids(l.batch)
    ensures id in Ids(l.retry) ==> id !in Ids(l.batch)
  {
    CountMember(Acked(l.requests), id);
    CountMember(l.failed, id);
    CountMember(Ids(l.retry), id);
    CountMember(Ids(l.batch), id);
  }
}
