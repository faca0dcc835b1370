/**
 What the shipper decides about each record, and exactly when, over every interleaving
 (pkg/logshipper/handler.go): why a call drops its record, why an entry is rejected, when the
 batch is flushed, and what an expired shutdown context stops.
 */
module ShipperDecisions {
  import opened Common
  import opened ShipperBatch
  import opened ShipperProtocol

  // ----- why a call drops its record

  /** The step at which a call finds that it has to drop: the barrier, the flag, or a full channel. */
  predicate Turns(su: Setup, s: State, step: Step, t: nat) {
    match step
    case TryRLock(u) => u == t && (s.barrier.WriterWaiting? || s.barrier.WriterHolds?)
    case CheckClosing(u) => u == t && s.closing
    case Push(u, _) => u == t && |s.ch| >= su.bufferSize
    case _ => false
  }

  /** The step at which its record becomes the last entry of the channel. */
  predicate Enqueues(su: Setup, s: State, step: Step, s': State, t: nat) {
    && step.Push? && step.call == t && |s.ch| < su.bufferSize
    && s'.ch == s.ch + [LogEntry(|s.pushedBy|, step.encoded)]
  }

  ghost predicate TurnedAway(su: Setup, states: seq<State>, steps: seq<Step>, n: nat, t: nat)
    requires |states| == |steps| + 1 && n <= |steps|
  {
    exists j :: 0 <= j < n && Turns(su, states[j], steps[j], t)
  }

  ghost predicate Enqueued(su: Setup, states: seq<State>, steps: seq<Step>, n: nat, t: nat)
    requires |states| == |steps| + 1 && n <= |steps|
  {
    exists j :: 0 <= j < n && Enqueues(su, states[j], steps[j], states[j + 1], t)
  }

  /** The call has dropped its record or is about to. */
  predicate Drops(s: State, t: nat) {
    t in s.droppedBy || (t in s.calls && s.calls[t].Dropping?)
  }

  lemma DecisionStep(su: Setup, s: State, step: Step, t: nat)
    requires CallInv(s) && Enabled(su, s, step)
    ensures Drops(Next(su, s, step), t) <==> Drops(s, t) || Turns(su, s, step, t)
    ensures t in Next(su, s, step).pushedBy <==> t in s.pushedBy || Enqueues(su, s, step, Next(su, s, step), t)
  {
    hide Fits, NeedsFlush, Delivered, Retryable, NoDuplicates;
  }

  lemma {:induction false} RunDecisions(su: Setup, states: seq<State>, steps: seq<Step>, n: nat, t: nat)
    requires IsRun(su, states, steps) && n <= |steps|
    ensures Drops(states[n], t) <==> TurnedAway(su, states, steps, n, t)
    ensures t in states[n].pushedBy <==> Enqueued(su, states, steps, n, t)
  {
    hide Next, Enabled, LoopInv, BarrierInv, CallInv, Turns, Enqueues, Drops;
    if n == 0 {
      NothingDecided(t);
    } else {
      RunDecisions(su, states, steps, n - 1, t);
      RunInv(su, states, steps, n - 1);
      DecisionStep(su, states[n - 1], steps[n - 1], t);
    }
  }

  lemma NothingDecided(t: nat)
    ensures !Drops(Init(), t) && t !in Init().pushedBy
  {
  }

  /**
   A call that is done dropped its record if and only if it found a writer at the barrier, found the
   handler closing, or found the channel holding bufferSize entries; any other call's record became
   the last entry of the channel.
   */
  lemma WhyDropped(su: Setup, states: seq<State>, steps: seq<Step>, n: nat, t: nat)
    requires IsRun(su, states, steps) && n <= |steps| && t in DecidedCalls(states[n])
    ensures t in states[n].droppedBy <==> TurnedAway(su, states, steps, n, t)
    ensures t !in states[n].droppedBy <==> Enqueued(su, states, steps, n, t)
  {
    RunDecisions(su, states, steps, n, t);
    RunInv(su, states, steps, n);
    hide LoopInv, BarrierInv, Turns, Enqueues;
    DistinctParts(states[n].pushedBy, states[n].droppedBy);
  }

  // ----- what becomes of the entry in hand

  /** The size of the request these entries would make. */
  function RequestSize(entries: seq<RawEntry>): nat {
    |Body(entries)|
  }

  /**
   The entry in hand is rejected if and only if it did not encode or makes a request over the limit
   on its own; the batch is flushed first if and only if the two together would be over it.
   */
  lemma EntryInHand(su: Setup, states: seq<State>, steps: seq<Step>, n: nat)
    requires IsRun(su, states, steps) && n < |steps| && steps[n].Encode?
    ensures states[n].pc.InHand?
    ensures var s, s', e := states[n], states[n + 1], states[n].pc.entry;
      var rejected := e.encoded.None? || RequestSize([RawEntry(e.id, e.encoded.value)]) > su.cfg.maxRequestBytes;
      if rejected then
        s'.loop == s.loop.(
          failed := s.loop.failed + [e.id], sendFailed := s.loop.sendFailed + 1, taken := s.loop.taken + 1)
      else
        var raw := RawEntry(e.id, e.encoded.value);
        && s'.loop == s.loop
        && s'.pc ==
           if s.loop.batch != [] && RequestSize(s.loop.batch + [raw]) > su.cfg.maxRequestBytes
           then FlushRetry(ThenAppend(raw)) else Appending(raw)
  {
    RunInv(su, states, steps, n);
    var s := states[n];
    assert s.loop.batchBytes == |Body(s.loop.batch)|;
    hide Inv, BarrierInv, CallInv, PcInv, Body;
    if s.pc.entry.encoded.Some? {
      var raw := RawEntry(s.pc.entry.id, s.pc.entry.encoded.value);
      SizeOfOne(raw);
      SizeOfMore(s.loop.batch, raw);
    }
  }

  lemma SizeOfOne(raw: RawEntry)
    ensures |Body([raw])| == EMPTY_REQUEST_BYTES + |raw.json|
  {
  }

  lemma SizeOfMore(batch: seq<RawEntry>, raw: RawEntry)
    ensures |Body(batch + [raw])| == |Body(batch)| + (if batch != [] then 1 else 0) + |raw.json|
  {
    JoinedSnoc(batch, raw);
    hide Joined;
    if batch == [] {
      NoIds();
    }
  }

  /** Appending makes the batch one longer, and is followed by a flush if and only if that fills it. */
  lemma FlushedWhenFull(su: Setup, states: seq<State>, steps: seq<Step>, n: nat)
    requires IsRun(su, states, steps) && n < |steps| && steps[n].AppendEntry?
    ensures states[n].pc.Appending?
    ensures states[n + 1].loop.batch == states[n].loop.batch + [states[n].pc.raw]
    ensures |states[n + 1].loop.batch| <= su.cfg.batchSize
    ensures states[n + 1].pc.FlushRetry? <==> |states[n + 1].loop.batch| == su.cfg.batchSize
  {
    RunInv(su, states, steps, n);
    hide Inv, BarrierInv, CallInv, QueueInv;
  }

  // ----- the end

  /** Once the loop has exited nothing about it changes any more. */
  lemma {:induction false} ExitIsFinal(su: Setup, states: seq<State>, steps: seq<Step>, i: nat, j: nat)
    requires IsRun(su, states, steps) && i <= j < |states| && states[i].pc.Exited?
    ensures states[j].pc.Exited? && states[j].loop == states[i].loop
    decreases j
  {
    if i < j {
      ExitIsFinal(su, states, steps, i, j - 1);
      ExitStep(su, states[j - 1], steps[j - 1]);
    }
  }

  lemma ExitStep(su: Setup, s: State, step: Step)
    requires s.pc.Exited? && Enabled(su, s, step)
    ensures Next(su, s, step).pc.Exited? && Next(su, s, step).loop == s.loop
  {
  }

  /**
   When the drain finds its context expired, no request is sent from then on, and all that is left
   counts as failed.
   */
  lemma NothingAfterExpiry(su: Setup, states: seq<State>, steps: seq<Step>, i: nat, j: nat)
    requires IsRun(su, states, steps) && i < j < |states| && steps[i] == CheckContext(true)
    ensures states[j].loop.requests == states[i].loop.requests
    ensures states[j].loop.sendFailed ==
      states[i].loop.sendFailed + |states[i].loop.batch| + |states[i].loop.retry| + |states[i].ch|
  {
    ExitIsFinal(su, states, steps, i + 1, j);
  }
}
