/** The shipper's background loop as an object: `flush`, `add` and `drain` update its fields in place. */
module ShipperLoop {
  import opened Common
  import opened ShipperBatch

  /** What went over the wire: each request's body is made of its entries. */
  ghost predicate Wire(requests: seq<Request>, posted: seq<seq<byte>>) {
    |posted| == |requests| && forall i :: 0 <= i < |requests| ==> posted[i] == Body(requests[i].entries)
  }

  class Shipper {
    const cfg: Config
    /** The answer the endpoint gives to each request, by position; any answers at all. */
    const net: nat -> Answer
    /** What each check of the shutdown context finds, by position. */
    const expired: nat -> bool

    var batch: seq<RawEntry>
    var batchBytes: int
    var retry: seq<RawEntry>
    var draining: bool
    var sendFailed: nat
    var ch: seq<LogEntry>
    /** The requests, by the entries in them and their answers. */
    var requests: seq<Request>
    /** The bodies as they were posted. */
    var posted: seq<seq<byte>>
    ghost var taken: nat
    ghost var failed: seq<nat>

    ghost function State(): Loop
      reads this
    {
      Loop(batch, batchBytes, retry, draining, sendFailed, taken, requests, failed)
    }

    ghost predicate Valid()
      reads this
    {
      && 1 <= cfg.batchSize
      && Inv(cfg, State())
      && |batch| < cfg.batchSize
      && Consecutive(ch, taken)
      && Wire(requests, posted)
    }

    constructor (cfg: Config, net: nat -> Answer, expired: nat -> bool)
      requires 1 <= cfg.batchSize
      ensures this.cfg == cfg && this.net == net && this.expired == expired
      ensures Valid() && State() == INITIAL_LOOP && ch == [] && posted == []
    {
      this.cfg, this.net, this.expired := cfg, net, expired;
      batch, batchBytes, retry, draining := [], EMPTY_REQUEST_BYTES, [], false;
      sendFailed, ch, requests, posted, taken, failed := 0, [], [], [], 0, [];
      new;
      InitialInv(cfg);
    }

    /** Posts one request: the body is assembled and the endpoint answers. */
    method Send(entries: seq<RawEntry>) returns (answer: Answer)
      requires entries != [] && Wire(requests, posted)
      modifies this`requests, this`posted
      ensures answer == net(|old(requests)|)
      ensures requests == old(requests) + [Request(entries, answer)]
      ensures posted == old(posted) + [Body(entries)] && Wire(requests, posted)
    {
      hide Body;
      var body, _ := BuildBody(entries);
      answer := net(|requests|);
      posted := posted + [body];
      requests := requests + [Request(entries, answer)];
    }

    /** The first half of a flush; says whether the endpoint is failing. */
    method ResendRetained() returns (endpointFailing: bool)
      requires Wire(requests, posted)
      modifies this`retry, this`sendFailed, this`requests, this`posted, this`failed
      ensures Wire(requests, posted)
      ensures var l, a := old(State()), net(|old(requests)|);
        && State() == (if l.retry != [] then SendRetry(l, a) else l)
        && endpointFailing == (l.retry != [] && !Delivered(a) && Retryable(a))
    {
      hide Wire, Delivered, Retryable, Ids;
      endpointFailing := false;
      if |retry| > 0 {
        var answer := Send(retry);
        if !Delivered(answer) {
          sendFailed, failed := sendFailed + |retry|, failed + Ids(retry);
          endpointFailing := Retryable(answer);
        }
        retry := [];
      }
    }

    /** The second half. */
    method SendOrPostpone(endpointFailing: bool)
      requires retry == [] && Wire(requests, posted)
      modifies this`batch, this`batchBytes, this`retry, this`sendFailed, this`requests, this`posted, this`failed
      ensures Wire(requests, posted)
      ensures var l := old(State());
        State() ==
        if l.batch == [] then l
        else if endpointFailing && !l.draining then Postpone(l)
        else SendBatch(l, net(|l.requests|))
    {
      hide Wire, Delivered, Retryable, Ids;
      if |batch| == 0 {
        return;
      }
      if endpointFailing && !draining {
        retry := batch;
      } else {
        var answer := Send(batch);
        if !Delivered(answer) {
          if Retryable(answer) {
            retry := batch;
          } else {
            sendFailed, failed := sendFailed + |batch|, failed + Ids(batch);
          }
        }
      }
      batch, batchBytes := [], EMPTY_REQUEST_BYTES;
    }

    method Flush()
      requires Inv(cfg, State()) && Wire(requests, posted)
      modifies this`batch, this`batchBytes, this`retry, this`sendFailed, this`requests, this`posted, this`failed
      ensures State() == ShipperBatch.Flush(old(State()), net)
      ensures Inv(cfg, State()) && batch == [] && Wire(requests, posted)
    {
      hide Inv, Wire, Delivered, Retryable, SendBatch, Postpone;
      FlushInv(cfg, State(), net);
      var endpointFailing := ResendRetained();
      SendOrPostpone(endpointFailing);
    }

    /** Takes the next entry off the channel and adds it to the batch. */
    method Add()
      requires Valid() && ch != []
      modifies this
      ensures ch == old(ch)[1..]
      ensures State() == ShipperBatch.Add(cfg, old(State()), old(ch)[0], net)
      ensures Valid()
    {
      hide Inv, Wire, ShipperBatch.Flush;
      var entry := ch[0];
      AddInv(cfg, State(), entry, net);
      ch := ch[1..];
      if entry.encoded.None? || !Fits(cfg, entry.encoded.value) {
        sendFailed, failed, taken := sendFailed + 1, failed + [taken], taken + 1;
        return;
      }
      var raw := RawEntry(entry.id, entry.encoded.value);
      FlushInv(cfg, State(), net);
      if |batch| > 0 && batchBytes + 1 + |raw.json| > cfg.maxRequestBytes {
        Flush();
      }
      AppendInv(cfg, State(), raw);
      if |batch| > 0 {
        batchBytes := batchBytes + 1;
      }
      batch, batchBytes, taken := batch + [raw], batchBytes + |raw.json|, taken + 1;
      if |batch| >= cfg.batchSize {
        Flush();
      }
    }

    /**
     The shutdown drain: it ends, and then every entry that was on the channel, batched or
     retained is either acknowledged or counted in SendFailed, whether or not the context expired.
     */
    method Drain()
      requires Valid()
      modifies this
      ensures Inv(cfg, State()) && draining && batch == [] && retry == [] && Wire(requests, posted)
      ensures taken == old(taken) + |old(ch)|
      ensures old(requests) <= requests
      ensures old(taken) + |old(ch)| == |Acked(requests)| + sendFailed
      ensures State() == ShipperBatch.Drain(cfg, old(State()).(draining := true), old(ch), net, expired, 0)
    {
      hide Inv, Wire, ShipperBatch.Flush, ShipperBatch.Add, Acked;
      DrainingInv(cfg, State());
      ShipperBatch.DrainInv(cfg, State().(draining := true), ch, net, expired, 0);
      FatesAddUp(cfg, ShipperBatch.Drain(cfg, State().(draining := true), ch, net, expired, 0));
      draining := true;
      var checks := 0;
      while true
        invariant Valid()
        invariant ShipperBatch.Drain(cfg, State(), ch, net, expired, checks) ==
          ShipperBatch.Drain(cfg, old(State()).(draining := true), old(ch), net, expired, 0)
        decreases |ch|
      {
        if expired(checks) {
          AbandonAll();
          return;
        }
        checks := checks + 1;
        if ch != [] {
          Add();
        } else {
          Finish();
          return;
        }
      }
    }

    /** The context has expired: nothing more is sent. */
    method AbandonAll()
      modifies this`batch, this`batchBytes, this`retry, this`sendFailed, this`failed, this`taken
      ensures State() == Abandon(old(State()), ch)
    {
      hide Ids, WaitingIds;
      var unsent := |batch| + |retry| + |ch|;
      failed := failed + Ids(batch) + Ids(retry) + WaitingIds(ch);
      sendFailed, taken := sendFailed + unsent, taken + |ch|;
      batch, batchBytes, retry := [], EMPTY_REQUEST_BYTES, [];
    }

    /** The channel is empty: a last flush, and what it retains has no later one. */
    method Finish()
      requires Inv(cfg, State()) && Wire(requests, posted)
      modifies this`batch, this`batchBytes, this`retry, this`sendFailed, this`requests, this`posted, this`failed
      ensures State() == GiveUpRetry(ShipperBatch.Flush(old(State()), net)) && Wire(requests, posted)
    {
      hide Inv, Wire, Ids, ShipperBatch.Flush;
      Flush();
      sendFailed, failed := sendFailed + |retry|, failed + Ids(retry);
      retry := [];
    }
  }
}
