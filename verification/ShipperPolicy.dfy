/**
 The retry policy of `flush` (pkg/logshipper/handler.go): what one flush decides about each
 entry, and two concrete cases of a single attempt.
 */
module ShipperPolicy {
  import opened Common
  import opened ShipperBatch

  /** The guard under which a flush sets the batch aside unsent. */
  predicate SetsAside(l: Loop, net: nat -> Answer) {
    var a := net(|l.requests|);
    l.retry != [] && !Took(a) && !Rejects(a) && !l.draining
  }

  /** The answer that decides about the batch when it is sent. */
  function BatchAnswer(l: Loop, net: nat -> Answer): Answer {
    net(|l.requests| + if l.retry != [] then 1 else 0)
  }

  ghost predicate Retained(l: Loop, id: nat) {
    id in Ids(l.retry)
  }

  /** Sending a batch judges each of its entries, after exactly one send. */
  lemma SendVerdict(cfg: Config, l: Loop, a: Answer, id: nat)
    requires Inv(cfg, l) && l.retry == [] && id in Ids(l.batch)
    ensures Sends(SendBatch(l, a).requests, id) == 1
    ensures id in Acked(SendBatch(l, a).requests) <==> Took(a)
    ensures Retained(SendBatch(l, a), id) <==> !Took(a) && !Rejects(a)
    ensures id in SendBatch(l, a).failed <==> Rejects(a)
  {
    AnswersByCode(a);
    var l' := SendBatch(l, a);
    assert Sends(l.requests, id) == 0 && id < l.taken by {
      assert id in Run(l);
    }
    SendBatchInv(cfg, l, a);
    HistorySnoc(l.requests, Request(l.batch, a));
    ExactlyOneFate(cfg, l', id);
  }

  /** What one flush does to an entry of the batch: set aside unsent, or sent once and judged. */
  lemma BatchVerdict(cfg: Config, l: Loop, net: nat -> Answer, id: nat)
    requires Inv(cfg, l) && id in Ids(l.batch)
    ensures Sends(Flush(l, net).requests, id) == if SetsAside(l, net) then 0 else 1
    ensures SetsAside(l, net) ==> Retained(Flush(l, net), id)
    ensures !SetsAside(l, net) ==>
      var l', a := Flush(l, net), BatchAnswer(l, net);
      && (id in Acked(l'.requests) <==> a.Status? && 200 <= a.code <= 299)
      && (id in l'.failed <==> a.Status? && 400 <= a.code <= 499 && a.code !in {401, 408, 429})
      && (Retained(l', id) <==>
          a.TransportError? || a.code < 200 || 300 <= a.code <= 399 || a.code in {401, 408, 429} || a.code >= 500)
  {
    hide Inv, Acked, Sends, Delivered, Retryable;
    var a := net(|l.requests|);
    AnswersByCode(a);
    AnswersByCode(BatchAnswer(l, net));
    var l1 := if l.retry != [] then SendRetry(l, a) else l;
    if l.retry != [] {
      SendRetryInv(cfg, l, a);
    }
    NotSentYet(cfg, l1, id);
    SendVerdict(cfg, l1, BatchAnswer(l, net), id);
  }

  lemma NotSentYet(cfg: Config, l: Loop, id: nat)
    requires Inv(cfg, l) && id in Ids(l.batch)
    ensures Sends(l.requests, id) == 0
  {
  }

  /** What one flush does to a retained entry: it is resent, and that is final. */
  lemma RetryVerdict(cfg: Config, l: Loop, net: nat -> Answer, id: nat)
    requires Inv(cfg, l) && Retained(l, id)
    ensures Sends(Flush(l, net).requests, id) == Sends(l.requests, id) + 1
    ensures id in Acked(Flush(l, net).requests) <==> Took(net(|l.requests|))
    ensures id in Flush(l, net).failed <==> !Took(net(|l.requests|))
  {
    hide Inv, Acked, Sends;
    AnswersByCode(net(|l.requests|));
    ResendVerdict(cfg, l, net(|l.requests|), id);
    Untouched(SendRetry(l, net(|l.requests|)), BatchAnswer(l, net), id);
  }

  lemma ResendVerdict(cfg: Config, l: Loop, a: Answer, id: nat)
    requires Inv(cfg, l) && Retained(l, id)
    ensures id !in Ids(l.batch)
    ensures Sends(SendRetry(l, a).requests, id) == Sends(l.requests, id) + 1
    ensures id in Acked(SendRetry(l, a).requests) <==> Delivered(a)
    ensures id in SendRetry(l, a).failed <==> !Delivered(a)
  {
    SendRetryInv(cfg, l, a);
    HistorySnoc(l.requests, Request(l.retry, a));
    RunDisjoint(Acked(l.requests), Ids(l.retry), Ids(l.batch), l.taken);
    ExactlyOneFate(cfg, l, id);
  }

  /** Sending the batch does not concern an entry outside it. */
  lemma Untouched(l: Loop, a: Answer, id: nat)
    requires id !in Ids(l.batch)
    ensures Sends(SendBatch(l, a).requests, id) == Sends(l.requests, id)
    ensures id in Acked(SendBatch(l, a).requests) <==> id in Acked(l.requests)
    ensures id in SendBatch(l, a).failed <==> id in l.failed
  {
    HistorySnoc(l.requests, Request(l.batch, a));
  }

  /**
   Of the entries given up by the second of two flushes in a row, exactly those not set aside by the
   first were sent twice. Whole runs, and the other ways to be given up, are in `ShipperRetry`.
   */
  lemma AfterTwoFlushes(cfg: Config, l: Loop, net: nat -> Answer, id: nat)
    requires Inv(cfg, l) && id in Ids(l.batch) && Retained(Flush(l, net), id)
    requires id in Flush(Flush(l, net), net).failed
    ensures Sends(Flush(Flush(l, net), net).requests, id) == 2 <==> !SetsAside(l, net)
  {
    hide Inv, Acked, Sends, Flush;
    FlushInv(cfg, l, net);
    BatchVerdict(cfg, l, net, id);
    RetryVerdict(cfg, Flush(l, net), net, id);
  }

  /** A concrete run with batches of one: an endpoint that answers 503 loses the second entry after a single send. */
  lemma OnlyOneAttempt()
    ensures
      var net := (k: nat) => Status(503);
      var first := Flush(Append(INITIAL_LOOP, RawEntry(0, [123, 125])), net);
      var second := Flush(Append(first, RawEntry(1, [123, 125])), net);
      1 in Flush(second, net).failed && Sends(Flush(second, net).requests, 1) == 1
  {
    hide Inv, Flush, Acked, Sends;
    var cfg, net := Config(1, 1000), (k: nat) => Status(503);
    var e0, e1 := RawEntry(0, [123, 125]), RawEntry(1, [123, 125]);
    InitialInv(cfg);
    AppendInv(cfg, INITIAL_LOOP, e0);
    var l := Append(INITIAL_LOOP, e0);
    assert Ids(l.batch)[0] == 0;
    FlushInv(cfg, l, net);
    BatchVerdict(cfg, l, net, 0);
    var first := Flush(l, net);
    AppendInv(cfg, first, e1);
    var l1 := Append(first, e1);
    assert Ids(l1.batch)[0] == 1;
    FlushInv(cfg, l1, net);
    BatchVerdict(cfg, l1, net, 1);
    RetryVerdict(cfg, Flush(l1, net), net, 1);
  }

  /**
   Another: the drain's last flush fails with 503, and its entry, never set aside, is given up
   after a single send.
   */
  lemma OnlyOneAttemptAtTheEnd()
    ensures
      var net := (k: nat) => Status(503);
      var l := Append(INITIAL_LOOP.(draining := true), RawEntry(0, [123, 125]));
      var out := GiveUpRetry(Flush(l, net));
      !SetsAside(l, net) && 0 in out.failed && Sends(out.requests, 0) == 1
  {
    hide Inv, Flush, Acked, Sends;
    var cfg, net, e := Config(1, 1000), (k: nat) => Status(503), RawEntry(0, [123, 125]);
    InitialInv(cfg);
    DrainingInv(cfg, INITIAL_LOOP);
    AppendInv(cfg, INITIAL_LOOP.(draining := true), e);
    var l := Append(INITIAL_LOOP.(draining := true), e);
    assert Ids(l.batch)[0] == 0;
    BatchVerdict(cfg, l, net, 0);
  }
}
