/**
 How often an entry is sent before it is given up, over every interleaving of the shipper
 (pkg/logshipper/handler.go). The documentation of `SendFailed` promises one retry after every
 failure that is not a rejection; here is exactly when an entry gets it.
 */
module ShipperRetry {
  import opened Common
  import opened ShipperBatch
  import opened ShipperProtocol

  /**
   What happened to one entry: the answer to its batch, whether its batch was set aside unsent,
   the answer to the resend, and whether the loop ended while it was retained.
   */
  datatype Trace = Trace(tried: Option<Answer>, postponed: bool, resent: Option<Answer>, leftOver: bool)

  const NOTHING_YET := Trace(None, false, None, false)

  /** The guard under which a flush sets the batch aside. */
  predicate Postpones(s: State) {
    s.pc.FlushBatch? && s.pc.endpointFailing && !s.loop.draining
  }

  function Observe(t: Trace, s: State, step: Step, id: nat): Trace {
    match step
    case SendOrPostpone(a) =>
      if id !in Ids(s.loop.batch) then t
      else if Postpones(s) then t.(postponed := true)
      else t.(tried := Some(a))
    case ResendRetry(a) => if id in Ids(s.loop.retry) then t.(resent := Some(a)) else t
    case CheckContext(expired) => if expired && id in Ids(s.loop.retry) then t.(leftOver := true) else t
    case Finish => if id in Ids(s.loop.retry) then t.(leftOver := true) else t
    case _ => t
  }

  /** The trace of an entry over the first n steps of a run. */
  function TraceOf(states: seq<State>, steps: seq<Step>, n: nat, id: nat): Trace
    requires |states| == |steps| + 1 && n < |states|
  {
    if n == 0 then NOTHING_YET else Observe(TraceOf(states, steps, n - 1, id), states[n - 1], steps[n - 1], id)
  }

  /** A failure that is not a rejection: no response, or any status but a 2xx and the rejecting 4xx. */
  predicate FailedForNow(a: Answer) {
    a.TransportError? || a.code < 200 || 300 <= a.code <= 399 || a.code in {401, 408, 429} || a.code >= 500
  }

  /** Retained by a flush, for either reason. */
  predicate WasRetained(t: Trace) {
    t.postponed || (t.tried.Some? && FailedForNow(t.tried.value))
  }

  function Sent(o: Option<Answer>): nat {
    if o.Some? then 1 else 0
  }

  /** The trace explains how often the entry was sent and where it is. */
  ghost predicate Explained(requests: seq<Request>, retry: seq<RawEntry>, batch: seq<RawEntry>, taken: nat, t: Trace,
      id: nat) {
    && Sends(requests, id) == Sent(t.tried) + Sent(t.resent)
    && !(t.tried.Some? && t.postponed)
    && (t.resent.Some? || t.leftOver ==> WasRetained(t))
    && !(t.resent.Some? && t.leftOver)
    && (id in Ids(retry) <==> WasRetained(t) && t.resent.None? && !t.leftOver)
    && (id in Ids(batch) || id >= taken ==> t == NOTHING_YET)
  }

  lemma Resent(l: Loop, t: Trace, id: nat, a: Answer)
    requires Ordered(l) && Explained(l.requests, l.retry, l.batch, l.taken, t, id)
    ensures Explained(l.requests + [Request(l.retry, a)], [], l.batch, l.taken,
                      if id in Ids(l.retry) then t.(resent := Some(a)) else t, id)
  {
    HistorySnoc(l.requests, Request(l.retry, a));
    RunDisjoint(Acked(l.requests), Ids(l.retry), Ids(l.batch), l.taken);
    NoIds();
  }

  lemma BatchSent(l: Loop, t: Trace, id: nat, a: Answer)
    requires Ordered(l) && l.retry == [] && Explained(l.requests, l.retry, l.batch, l.taken, t, id)
    ensures Explained(l.requests + [Request(l.batch, a)], if FailedForNow(a) then l.batch else [], [], l.taken,
                      if id in Ids(l.batch) then t.(tried := Some(a)) else t, id)
  {
    HistorySnoc(l.requests, Request(l.batch, a));
    BatchBelow(l, id);
    NoIds();
  }

  lemma BatchPostponed(l: Loop, t: Trace, id: nat)
    requires Ordered(l) && l.retry == [] && Explained(l.requests, l.retry, l.batch, l.taken, t, id)
    ensures Explained(l.requests, l.batch, [], l.taken, if id in Ids(l.batch) then t.(postponed := true) else t, id)
  {
    BatchBelow(l, id);
    NoIds();
  }

  lemma BatchBelow(l: Loop, id: nat)
    requires Ordered(l)
    ensures id in Ids(l.batch) ==> id < l.taken
  {
    assert id in Ids(l.batch) ==> id in Run(l);
  }

  lemma Appended(l: Loop, t: Trace, id: nat, raw: RawEntry)
    requires raw.id == l.taken && Explained(l.requests, l.retry, l.batch, l.taken, t, id)
    ensures Explained(l.requests, l.retry, l.batch + [raw], l.taken + 1, t, id)
  {
    assert Ids(l.batch + [raw]) == Ids(l.batch) + [raw.id];
  }

  /** The shutdown context expired: the retained batch is left over, the rest was never sent. */
  lemma LeftBehind(l: Loop, t: Trace, id: nat, more: nat)
    requires Explained(l.requests, l.retry, l.batch, l.taken, t, id)
    ensures Explained(l.requests, [], [], l.taken + more, if id in Ids(l.retry) then t.(leftOver := true) else t, id)
    ensures l.batch == [] ==>
      Explained(l.requests, [], l.batch, l.taken, if id in Ids(l.retry) then t.(leftOver := true) else t, id)
  {
    NoIds();
  }

  lemma ExplainedStep(su: Setup, s: State, step: Step, t: Trace, id: nat)
    requires LoopInv(su, s) && Enabled(su, s, step)
    requires Explained(s.loop.requests, s.loop.retry, s.loop.batch, s.loop.taken, t, id)
    ensures var l := Next(su, s, step).loop;
      Explained(l.requests, l.retry, l.batch, l.taken, Observe(t, s, step, id), id)
  {
    hide Explained, Ordered, Bounded, Accounted, SentTwiceAtMost, Fits, NeedsFlush, Delivered, Retryable;
    var l := s.loop;
    match step
    case ResendRetry(a) => if l.retry != [] { Resent(l, t, id, a); } else { NoIds(); }
    case SendOrPostpone(a) =>
      if l.batch == [] {
        NoIds();
      } else if Postpones(s) {
        BatchPostponed(l, t, id);
      } else {
        AnswersByCode(a);
        BatchSent(l, t, id, a);
      }
    case Encode => OneRejected(l, t, id);
    case AppendEntry => Appended(l, t, id, s.pc.raw);
    case CheckContext(expired) => LeftBehind(l, t, id, |s.ch|);
    case Finish => LeftBehind(l, t, id, 0);
    case _ =>
  }

  lemma OneRejected(l: Loop, t: Trace, id: nat)
    requires Explained(l.requests, l.retry, l.batch, l.taken, t, id)
    ensures Explained(l.requests, l.retry, l.batch, l.taken + 1, t, id)
  {
  }

  // ----- the end of the loop

  /** The drain's flushes set nothing aside, so what its last flush retained has been sent. */
  ghost predicate DrainInv(s: State, t: Trace, id: nat) {
    && (InDrain(s.pc) ==> s.loop.draining)
    && (s.pc.Finishing? && id in Ids(s.loop.retry) ==> !t.postponed)
  }

  lemma DrainStep(su: Setup, s: State, step: Step, t: Trace, id: nat)
    requires LoopInv(su, s) && Enabled(su, s, step) && DrainInv(s, t, id)
    requires Explained(s.loop.requests, s.loop.retry, s.loop.batch, s.loop.taken, t, id)
    ensures DrainInv(Next(su, s, step), Observe(t, s, step, id), id)
  {
    hide Inv, QueueInv, Fits, NeedsFlush, Sends;
    NoIds();
  }

  lemma {:induction false} RunExplained(su: Setup, states: seq<State>, steps: seq<Step>, n: nat, id: nat)
    requires IsRun(su, states, steps) && n < |states|
    ensures var l, t := states[n].loop, TraceOf(states, steps, n, id);
      Explained(l.requests, l.retry, l.batch, l.taken, t, id) && DrainInv(states[n], t, id)
  {
    if n > 0 {
      hide Explained, DrainInv, LoopInv, BarrierInv, CallInv, Next, Enabled, Observe;
      RunExplained(su, states, steps, n - 1, id);
      RunInv(su, states, steps, n - 1);
      ExplainedStep(su, states[n - 1], steps[n - 1], TraceOf(states, steps, n - 1, id), id);
      DrainStep(su, states[n - 1], steps[n - 1], TraceOf(states, steps, n - 1, id), id);
    }
  }

  // ----- how often an entry was sent

  /** The answer to the first request an entry was in. */
  function FirstAnswer(t: Trace): Option<Answer> {
    if t.tried.Some? then t.tried else t.resent
  }

  /**
   An entry whose first send failed without a rejection, and which is no longer retained, was sent
   a second time if and only if its batch had not been set aside unsent and the loop did not end,
   by finishing or by an expired context, while it was retained.
   */
  lemma SecondAttempt(su: Setup, states: seq<State>, steps: seq<Step>, n: nat, id: nat)
    requires IsRun(su, states, steps) && n < |states| && id !in Ids(states[n].loop.retry)
    requires FirstAnswer(TraceOf(states, steps, n, id)).Some?
      && FailedForNow(FirstAnswer(TraceOf(states, steps, n, id)).value)
    ensures var t := TraceOf(states, steps, n, id);
      Sends(states[n].loop.requests, id) == if t.postponed || t.leftOver then 1 else 2
  {
    RunExplained(su, states, steps, n, id);
  }

  /** When an entry is given up, by which step, and after how many sends. */
  lemma SendsWhenGivenUp(su: Setup, states: seq<State>, steps: seq<Step>, n: nat, id: nat)
    requires IsRun(su, states, steps) && n < |steps|
    requires id in states[n + 1].loop.failed && id !in states[n].loop.failed
    ensures var s, t, sends := states[n], TraceOf(states, steps, n, id), Sends(states[n + 1].loop.requests, id);
      match steps[n]
      case Encode => sends == 0
      case SendOrPostpone(a) => Rejects(a) && sends == 1
      case ResendRetry(a) => !Took(a) && sends == if t.postponed then 1 else 2
      case CheckContext(expired) => expired && sends == if id in Ids(s.loop.retry) && !t.postponed then 1 else 0
      case Finish => !t.postponed && sends == 1
      case _ => false
  {
    RunExplained(su, states, steps, n, id);
    RunExplained(su, states, steps, n + 1, id);
    RunInv(su, states, steps, n);
    GivenUpBy(su, states[n], steps[n], id);
  }

  /** Which entries a step gives up. */
  lemma GivenUpBy(su: Setup, s: State, step: Step, id: nat)
    requires LoopInv(su, s) && Enabled(su, s, step) && id in Next(su, s, step).loop.failed && id !in s.loop.failed
    ensures match step
      case Encode => id == s.loop.taken
      case SendOrPostpone(a) => id in Ids(s.loop.batch) && !Postpones(s) && Rejects(a)
      case ResendRetry(a) => id in Ids(s.loop.retry) && !Took(a)
      case CheckContext(expired) => expired
        && (id in Ids(s.loop.retry) || id in Ids(s.loop.batch) || id >= s.loop.taken)
      case Finish => id in Ids(s.loop.retry)
      case _ => false
  {
    hide Inv, PcInv, Fits, NeedsFlush, Delivered, Retryable;
    match step
    case CheckContext(expired) =>
      assert id in WaitingIds(s.ch) ==> id >= s.loop.taken;
    case SendOrPostpone(a) => AnswersByCode(a);
    case ResendRetry(a) => AnswersByCode(a);
    case _ =>
  }
}
