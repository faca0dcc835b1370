/**
 Every interleaving of `Handle` callers, the `Shutdown` barrier and the background loop
 (pkg/logshipper/handler.go). Each step is one atomic action: a lock operation, an atomic
 load or store, a channel operation, or one request and its answer.
 */
module ShipperProtocol {
  import opened Common
  import opened ShipperBatch

  /** Where a `Handle` call stands; `held` says whether it holds the read lock. */
  datatype Call =
    | Locked              // TryRLock succeeded; `closing` not looked at yet
    | Building            // saw closing == false; builds its entry, then pushes
    | Dropping(held: bool)
    | Leaving(held: bool) // pushed or counted as dropped; about to unlock and return
    | Returned

  /** `Shutdown`'s one-time part and its barrier goroutine. */
  datatype Barrier = Open | ClosingSet | WriterWaiting | WriterHolds | WriterDone | DoneClosed

  /** What the loop goes on with after a flush. */
  datatype Resume = NextRound | ThenAppend(raw: RawEntry) | ThenFinish

  datatype LoopPc =
    | Top
    | Selecting
    | InHand(entry: LogEntry)
    | Appending(raw: RawEntry)
    | FlushRetry(next: Resume)
    | FlushBatch(endpointFailing: bool, next: Resume)
    | DrainTop
    | Finishing
    | Exited

  datatype State = State(
    calls: map<nat, Call>,
    closing: bool,
    barrier: Barrier,
    ch: seq<LogEntry>,
    pushedBy: seq<nat>,      // the calls that pushed, in channel order: entry i came from pushedBy[i]
    droppedBy: seq<nat>,     // the calls that dropped their record
    dropped: nat,            // the Dropped counter
    pc: LoopPc,
    loop: Loop)

  datatype Setup = Setup(cfg: Config, bufferSize: nat)

  datatype Step =
    | TryRLock(call: nat)
    | CheckClosing(call: nat)
    | Push(call: nat, encoded: Option<seq<byte>>)
    | CountDrop(call: nat)
    | Return(call: nat)
    | SetClosing
    | AskForWriteLock
    | TakeWriteLock
    | ReleaseWriteLock
    | CloseDone
    | CheckDone
    | Receive
    | Tick
    | Wake
    | Encode
    | AppendEntry
    | ResendRetry(answer: Answer)
    | SendOrPostpone(answer: Answer)
    | CheckContext(expired: bool)
    | Finish

  function Init(): State {
    State(map[], false, Open, [], [], [], 0, Top, INITIAL_LOOP)
  }

  predicate HoldsLock(c: Call) {
    c.Locked? || c.Building? || ((c.Dropping? || c.Leaving?) && c.held)
  }

  predicate NoReaders(s: State) {
    forall t :: t in s.calls ==> !HoldsLock(s.calls[t])
  }

  predicate Enabled(su: Setup, s: State, step: Step) {
    match step
    case TryRLock(t) => t !in s.calls
    case CheckClosing(t) => t in s.calls && s.calls[t].Locked?
    case Push(t, _) => t in s.calls && s.calls[t].Building?
    case CountDrop(t) => t in s.calls && s.calls[t].Dropping?
    case Return(t) => t in s.calls && s.calls[t].Leaving?
    case SetClosing => s.barrier.Open?
    case AskForWriteLock => s.barrier.ClosingSet?
    case TakeWriteLock => s.barrier.WriterWaiting? && NoReaders(s)
    case ReleaseWriteLock => s.barrier.WriterHolds?
    case CloseDone => s.barrier.WriterDone?
    case CheckDone => s.pc.Top?
    case Receive => (s.pc.Selecting? || s.pc.DrainTop?) && s.ch != []
    case Tick => s.pc.Selecting?
    case Wake => s.pc.Selecting? && s.barrier.DoneClosed?
    case Encode => s.pc.InHand?
    case AppendEntry => s.pc.Appending?
    case ResendRetry(_) => s.pc.FlushRetry?
    case SendOrPostpone(_) => s.pc.FlushBatch?
    case CheckContext(expired) => s.pc.DrainTop? && (expired || s.ch == [])
    case Finish => s.pc.Finishing?
  }

  /** The state after an enabled step. */
  function Next(su: Setup, s: State, step: Step): State
    requires Enabled(su, s, step)
  {
    match step
    case TryRLock(t) =>
      // A waiting or holding writer makes TryRLock fail.
      var c := if s.barrier.WriterWaiting? || s.barrier.WriterHolds? then Dropping(false) else Locked;
      s.(calls := s.calls[t := c])
    case CheckClosing(t) =>
      s.(calls := s.calls[t := if s.closing then Dropping(true) else Building])
    case Push(t, encoded) =>
      if |s.ch| < su.bufferSize then
        s.(ch := s.ch + [LogEntry(|s.pushedBy|, encoded)],
           pushedBy := s.pushedBy + [t],
           calls := s.calls[t := Leaving(true)])
      else s.(calls := s.calls[t := Dropping(true)])
    case CountDrop(t) =>
      s.(dropped := s.dropped + 1, droppedBy := s.droppedBy + [t], calls := s.calls[t := Leaving(s.calls[t].held)])
    case Return(t) => s.(calls := s.calls[t := Returned])
    case SetClosing => s.(closing := true, barrier := ClosingSet)
    case AskForWriteLock => s.(barrier := WriterWaiting)
    case TakeWriteLock => s.(barrier := WriterHolds)
    case ReleaseWriteLock => s.(barrier := WriterDone)
    case CloseDone => s.(barrier := DoneClosed)
    case CheckDone =>
      if s.barrier.DoneClosed? then s.(pc := DrainTop, loop := s.loop.(draining := true))
      else s.(pc := Selecting)
    case Receive => s.(pc := InHand(s.ch[0]), ch := s.ch[1..])
    case Tick => s.(pc := FlushRetry(NextRound))
    case Wake => s.(pc := Top)
    case Encode =>
      var e := s.pc.entry;
      if e.encoded.None? || !Fits(su.cfg, e.encoded.value) then
        s.(loop := RejectEntry(s.loop), pc := Round(s.loop))
      else
        var raw := RawEntry(e.id, e.encoded.value);
        s.(pc := if NeedsFlush(su.cfg, s.loop, raw.json) then FlushRetry(ThenAppend(raw)) else Appending(raw))
    case AppendEntry =>
      var l := Append(s.loop, s.pc.raw);
      s.(loop := l, pc := if |l.batch| >= su.cfg.batchSize then FlushRetry(NextRound) else Round(l))
    case ResendRetry(a) =>
      if s.loop.retry == [] then s.(pc := FlushBatch(false, s.pc.next))
      else s.(loop := SendRetry(s.loop, a), pc := FlushBatch(!Delivered(a) && Retryable(a), s.pc.next))
    case SendOrPostpone(a) =>
      var l :=
        if s.loop.batch == [] then s.loop
        else if s.pc.endpointFailing && !s.loop.draining then Postpone(s.loop)
        else SendBatch(s.loop, a);
      s.(loop := l, pc := After(s.pc.next, l))
    case CheckContext(expired) =>
      if expired then s.(loop := Abandon(s.loop, s.ch), pc := Exited)
      else s.(pc := FlushRetry(ThenFinish))
    case Finish => s.(loop := GiveUpRetry(s.loop), pc := Exited)
  }

  function Round(l: Loop): LoopPc {
    if l.draining then DrainTop else Top
  }

  function After(next: Resume, l: Loop): LoopPc {
    match next
    case NextRound => Round(l)
    case ThenAppend(raw) => Appending(raw)
    case ThenFinish => Finishing
  }

  // ----- the barrier

  /** Once the write lock was granted, no call is between its closing check and its push. */
  ghost predicate BarrierInv(s: State) {
    && (s.closing <==> !s.barrier.Open?)
    && (s.barrier.WriterHolds? ==> NoReaders(s))
    && (s.barrier.WriterHolds? || s.barrier.WriterDone? || s.barrier.DoneClosed? ==>
          forall t :: t in s.calls ==> !s.calls[t].Building?)
    && (s.loop.draining || InDrain(s.pc) ==> s.barrier.DoneClosed?)
  }

  predicate InDrain(pc: LoopPc) {
    pc.DrainTop? || pc.Finishing? || pc.Exited? || ((pc.FlushRetry? || pc.FlushBatch?) && pc.next.ThenFinish?)
  }

  lemma BarrierStep(su: Setup, s: State, step: Step)
    requires BarrierInv(s) && Enabled(su, s, step)
    ensures BarrierInv(Next(su, s, step))
  {
  }

  // ----- what became of each call

  predicate Decided(c: Call) {
    c.Leaving? || c.Returned?
  }

  /** Each decided call either pushed one entry or was counted as dropped once, never both. */
  ghost predicate CallInv(s: State) {
    CallsMatch(s.calls, s.pushedBy, s.droppedBy) && s.dropped == |s.droppedBy|
  }

  ghost predicate CallsMatch(calls: map<nat, Call>, pushed: seq<nat>, dropped: seq<nat>) {
    && (forall t :: t in pushed || t in dropped ==> t in calls && Decided(calls[t]))
    && (forall t :: t in calls && Decided(calls[t]) ==> t in pushed || t in dropped)
    && NoDuplicates(pushed + dropped)
  }

  lemma CallStep(su: Setup, s: State, step: Step)
    requires CallInv(s) && Enabled(su, s, step)
    ensures CallInv(Next(su, s, step))
  {
    hide CallsMatch;
    var s' := Next(su, s, step);
    match step
    case Push(t, _) =>
      if |s.ch| < su.bufferSize {
        CallDecides(s.calls, s.pushedBy, s.droppedBy, t, Leaving(true));
      } else {
        CallMoves(s.calls, s.pushedBy, s.droppedBy, t, Dropping(true));
      }
    case CountDrop(t) => CallDecides(s.calls, s.pushedBy, s.droppedBy, t, Leaving(s.calls[t].held));
    case TryRLock(t) => CallMoves(s.calls, s.pushedBy, s.droppedBy, t, s'.calls[t]);
    case CheckClosing(t) => CallMoves(s.calls, s.pushedBy, s.droppedBy, t, s'.calls[t]);
    case Return(t) => CallMoves(s.calls, s.pushedBy, s.droppedBy, t, Returned);
    case _ =>
  }

  lemma CallMoves(calls: map<nat, Call>, pushed: seq<nat>, dropped: seq<nat>, t: nat, c: Call)
    requires CallsMatch(calls, pushed, dropped) && (Decided(c) <==> t in calls && Decided(calls[t]))
    ensures CallsMatch(calls[t := c], pushed, dropped)
  {
  }

  lemma CallDecides(calls: map<nat, Call>, pushed: seq<nat>, dropped: seq<nat>, t: nat, c: Call)
    requires CallsMatch(calls, pushed, dropped) && t in calls && !Decided(calls[t]) && Decided(c)
    ensures CallsMatch(calls[t := c], pushed + [t], dropped) && CallsMatch(calls[t := c], pushed, dropped + [t])
  {
    InsertDistinct(pushed, dropped, t);
    InsertDistinct(pushed + dropped, [], t);
    assert (pushed + dropped + [t]) + [] == pushed + (dropped + [t]);
    assert (pushed + dropped) + [] == pushed + dropped;
  }

  // ----- the loop's bookkeeping against the channel

  /** The entry received but not yet batched or rejected. */
  function Pending(pc: LoopPc): Option<nat> {
    match pc
    case InHand(e) => Some(e.id)
    case Appending(raw) => Some(raw.id)
    case FlushRetry(ThenAppend(raw)) => Some(raw.id)
    case FlushBatch(_, ThenAppend(raw)) => Some(raw.id)
    case _ => None
  }

  function Held(pc: LoopPc): nat {
    if Pending(pc).Some? then 1 else 0
  }

  /** Received entries, the one in hand, and the channel are consecutive and cover everything pushed. */
  ghost predicate QueueInv(su: Setup, s: State) {
    && |s.ch| <= su.bufferSize
    && (Pending(s.pc).Some? ==> Pending(s.pc).value == s.loop.taken)
    && if s.pc.Exited? then s.loop.taken == |s.pushedBy|
       else
         && Consecutive(s.ch, s.loop.taken + Held(s.pc))
         && s.loop.taken + Held(s.pc) + |s.ch| == |s.pushedBy|
  }

  /** How full the batch is, and what has been checked, at each point of the loop. */
  ghost predicate PcInv(su: Setup, s: State) {
    && |s.loop.batch| <= su.cfg.batchSize
    && (!(s.pc.FlushRetry? || s.pc.FlushBatch?) ==> |s.loop.batch| < su.cfg.batchSize)
    && (s.pc.FlushBatch? ==> s.loop.retry == [])
    && (s.pc.Appending? ==> Fits(su.cfg, s.pc.raw.json) && !NeedsFlush(su.cfg, s.loop, s.pc.raw.json))
    && ((s.pc.FlushRetry? || s.pc.FlushBatch?) && s.pc.next.ThenAppend? ==> Fits(su.cfg, s.pc.next.raw.json))
    && (s.pc.Finishing? || s.pc.Exited? ==> s.loop.batch == [])
    && (s.pc.Exited? ==> s.loop.retry == [])
    && (s.pc.Finishing? || ((s.pc.FlushRetry? || s.pc.FlushBatch?) && s.pc.next.ThenFinish?) ==> s.ch == [])
  }

  ghost predicate LoopInv(su: Setup, s: State) {
    1 <= su.cfg.batchSize && Inv(su.cfg, s.loop) && QueueInv(su, s) && PcInv(su, s)
  }

  lemma LoopInvStep(su: Setup, s: State, step: Step)
    requires LoopInv(su, s) && BarrierInv(s) && Enabled(su, s, step)
    ensures Inv(su.cfg, Next(su, s, step).loop)
  {
    hide Inv;
    match step
    case CheckDone => DrainingInv(su.cfg, s.loop);
    case Encode => RejectEntryInv(su.cfg, s.loop);
    case AppendEntry => AppendInv(su.cfg, s.loop, s.pc.raw);
    case ResendRetry(a) => if s.loop.retry != [] { SendRetryInv(su.cfg, s.loop, a); }
    case SendOrPostpone(a) =>
      PostponeInv(su.cfg, s.loop);
      if s.loop.batch != [] { SendBatchInv(su.cfg, s.loop, a); }
    case CheckContext(expired) => AbandonInv(su.cfg, s.loop, s.ch);
    case Finish => GiveUpRetryInv(su.cfg, s.loop);
    case _ =>
  }

  lemma QueueStep(su: Setup, s: State, step: Step)
    requires LoopInv(su, s) && BarrierInv(s) && Enabled(su, s, step)
    ensures QueueInv(su, Next(su, s, step))
  {
    match step
    case Push(t, encoded) => QueuePush(su, s, t, encoded);
    case Receive => QueueReceive(su, s);
    case _ =>
      hide BarrierInv;
      QueueRest(su, s, step);
  }

  lemma QueuePush(su: Setup, s: State, t: nat, encoded: Option<seq<byte>>)
    requires LoopInv(su, s) && BarrierInv(s) && Enabled(su, s, Push(t, encoded))
    ensures QueueInv(su, Next(su, s, Push(t, encoded)))
  {
    hide Inv, Consecutive;
    assert !s.pc.Exited?;
    ConsecutiveSnoc(s.ch, s.loop.taken + Held(s.pc), LogEntry(|s.pushedBy|, encoded));
  }

  lemma QueueReceive(su: Setup, s: State)
    requires LoopInv(su, s) && Enabled(su, s, Receive)
    ensures QueueInv(su, Next(su, s, Receive))
  {
    hide Inv, Consecutive;
    ConsecutiveRest(s.ch, s.loop.taken);
  }

  lemma QueueRest(su: Setup, s: State, step: Step)
    requires LoopInv(su, s) && Enabled(su, s, step) && !step.Push? && !step.Receive?
    ensures QueueInv(su, Next(su, s, step))
  {
    hide Inv, Fits, NeedsFlush, Delivered, Retryable, Consecutive;
  }

  lemma ConsecutiveSnoc(ch: seq<LogEntry>, from: nat, e: LogEntry)
    requires Consecutive(ch, from)
    ensures e.id == from + |ch| ==> Consecutive(ch + [e], from)
  {
  }

  lemma ConsecutiveRest(ch: seq<LogEntry>, from: nat)
    requires ch != []
    ensures Consecutive(ch, from) ==> ch[0].id == from && Consecutive(ch[1..], from + 1)
  {
  }

  lemma PcStep(su: Setup, s: State, step: Step)
    requires LoopInv(su, s) && BarrierInv(s) && Enabled(su, s, step)
    ensures PcInv(su, Next(su, s, step))
  {
    hide Inv;
  }

  // ----- whole runs

  ghost predicate IsRun(su: Setup, states: seq<State>, steps: seq<Step>) {
    && 1 <= su.cfg.batchSize
    && |states| == |steps| + 1
    && states[0] == Init()
    && forall i ::
      0 <= i < |steps| ==> Enabled(su, states[i], steps[i]) && states[i + 1] == Next(su, states[i], steps[i])
  }

  ghost predicate FullInv(su: Setup, s: State) {
    BarrierInv(s) && CallInv(s) && LoopInv(su, s)
  }

  lemma {:induction false} RunInv(su: Setup, states: seq<State>, steps: seq<Step>, i: nat)
    requires IsRun(su, states, steps) && i < |states|
    ensures FullInv(su, states[i])
  {
    if i == 0 {
      InitialInv(su.cfg);
    } else {
      hide Inv, BarrierInv, CallInv, QueueInv, PcInv, Next;
      RunInv(su, states, steps, i - 1);
      var s, step := states[i - 1], steps[i - 1];
      BarrierStep(su, s, step);
      CallStep(su, s, step);
      LoopInvStep(su, s, step);
      QueueStep(su, s, step);
      PcStep(su, s, step);
    }
  }

  /** No interleaving pushes an entry once `done` is closed. */
  lemma {:induction false} NoPushAfterDone(su: Setup, states: seq<State>, steps: seq<Step>, i: nat, j: nat)
    requires IsRun(su, states, steps) && i <= j < |states|
    requires states[i].barrier.DoneClosed?
    ensures states[j].barrier.DoneClosed? && states[j].pushedBy == states[i].pushedBy
  {
    if i < j {
      NoPushAfterDone(su, states, steps, i, j - 1);
      RunInv(su, states, steps, j - 1);
      hide LoopInv, CallInv, BarrierInv, Next;
      NoPushStep(su, states[j - 1], steps[j - 1]);
    }
  }

  lemma NoPushStep(su: Setup, s: State, step: Step)
    requires BarrierInv(s) && s.barrier.DoneClosed? && Enabled(su, s, step)
    ensures Next(su, s, step).barrier.DoneClosed? && Next(su, s, step).pushedBy == s.pushedBy
  {
  }

  ghost function DecidedCalls(s: State): set<nat> {
    set t | t in s.calls && Decided(s.calls[t])
  }

  /**
   In every state of every run: a call that pushed or dropped is in exactly one of the
   counters or still on its way, and the numbers add up.
   */
  lemma CallsAddUp(su: Setup, states: seq<State>, steps: seq<Step>, i: nat)
    requires IsRun(su, states, steps) && i < |states|
    ensures var s := states[i]; var l := s.loop;
      && |DecidedCalls(s)| == s.dropped + |s.pushedBy|
      && l.taken == |Acked(l.requests)| + l.sendFailed + |l.retry| + |l.batch|
      && |s.pushedBy| == l.taken + if s.pc.Exited? then 0 else Held(s.pc) + |s.ch|
  {
    RunInv(su, states, steps, i);
    hide Inv;
    var s := states[i];
    FatesAddUp(su.cfg, s.loop);
    DistinctCardinality(s.pushedBy + s.droppedBy);
    assert DecidedCalls(s) == Elements(s.pushedBy + s.droppedBy);
  }

  /**
   Once the loop has exited, every call that has pushed or dropped is counted: dropped,
   acknowledged, or failed, even if the shutdown context expired in mid-drain.
   */
  lemma NothingLost(su: Setup, states: seq<State>, steps: seq<Step>, i: nat)
    requires IsRun(su, states, steps) && i < |states| && states[i].pc.Exited?
    ensures |DecidedCalls(states[i])| ==
      states[i].dropped + |Acked(states[i].loop.requests)| + states[i].loop.sendFailed
  {
    CallsAddUp(su, states, steps, i);
    RunInv(su, states, steps, i);
  }

  /** ... and call by call: exactly one of the three happened to it. */
  lemma OneFatePerCall(su: Setup, states: seq<State>, steps: seq<Step>, i: nat, t: nat)
    requires IsRun(su, states, steps) && i < |states| && states[i].pc.Exited?
    requires t in DecidedCalls(states[i])
    ensures t in states[i].droppedBy ==> t !in states[i].pushedBy
    ensures t !in states[i].droppedBy ==>
      exists id: nat :: id < |states[i].pushedBy| && states[i].pushedBy[id] == t
        && (id in Acked(states[i].loop.requests) <==> id !in states[i].loop.failed)
  {
    RunInv(su, states, steps, i);
    hide Inv, QueueInv, Consecutive;
    var s := states[i];
    DistinctParts(s.pushedBy, s.droppedBy);
    if t !in s.droppedBy {
      var id: nat :| id < |s.pushedBy| && s.pushedBy[id] == t;
      assert id < s.loop.taken by { CallsAddUp(su, states, steps, i); }
      ExactlyOneFate(su.cfg, s.loop, id);
    }
  }

  /**
   In every state of every run and under any answers: acknowledged entries are in enqueue
   order without repetition, no entry is in more than two requests, none is both acknowledged
   and failed, at most two batches are retained, and every request is within the limits.
   */
  lemma DeliveryGuarantees(su: Setup, states: seq<State>, steps: seq<Step>, i: nat)
    requires IsRun(su, states, steps) && i < |states|
    ensures Increasing(Acked(states[i].loop.requests))
    ensures forall id: nat :: Sends(states[i].loop.requests, id) <= 2
    ensures forall id: nat :: id in Acked(states[i].loop.requests) ==> id !in states[i].loop.failed
    ensures |states[i].loop.batch| + |states[i].loop.retry| <= 2 * su.cfg.batchSize
    ensures forall r :: r in states[i].loop.requests ==> Sendable(su.cfg, r.entries)
  {
    RunInv(su, states, steps, i);
    var l := states[i].loop;
    AckedOrdered(l);
    RetainedBounded(su.cfg, l);
    forall id: nat | id in Acked(l.requests)
      ensures id !in l.failed
    {
      ExactlyOneFate(su.cfg, l, id);
    }
  }

  // ----- where the bytes come from

  ghost predicate AllIn(entries: seq<RawEntry>, ok: iset<seq<byte>>) {
    forall e :: e in entries ==> e.json in ok
  }

  /** Every encoded entry anywhere in the shipper is one of these. */
  ghost predicate Only(ok: iset<seq<byte>>, s: State) {
    OnlyWaiting(ok, s.ch) && OnlyInHand(ok, s.pc) && OnlyInLoop(ok, s.loop)
  }

  ghost predicate OnlyWaiting(ok: iset<seq<byte>>, ch: seq<LogEntry>) {
    forall e :: e in ch && e.encoded.Some? ==> e.encoded.value in ok
  }

  ghost predicate OnlyInHand(ok: iset<seq<byte>>, pc: LoopPc) {
    && (pc.InHand? && pc.entry.encoded.Some? ==> pc.entry.encoded.value in ok)
    && (pc.Appending? ==> pc.raw.json in ok)
    && ((pc.FlushRetry? || pc.FlushBatch?) && pc.next.ThenAppend? ==> pc.next.raw.json in ok)
  }

  ghost predicate OnlyInLoop(ok: iset<seq<byte>>, l: Loop) {
    AllIn(l.batch, ok) && AllIn(l.retry, ok) && forall r :: r in l.requests ==> AllIn(r.entries, ok)
  }

  lemma OnlyStep(su: Setup, ok: iset<seq<byte>>, s: State, step: Step)
    requires Only(ok, s) && Enabled(su, s, step)
    requires step.Push? && step.encoded.Some? ==> step.encoded.value in ok
    ensures Only(ok, Next(su, s, step))
  {
    OnlyWaitingStep(su, ok, s, step);
    OnlyLoopStep(su, ok, s, step);
    hide OnlyWaiting, OnlyInLoop, OnlyInHand, Next, Enabled;
  }

  lemma OnlyWaitingStep(su: Setup, ok: iset<seq<byte>>, s: State, step: Step)
    requires Only(ok, s) && Enabled(su, s, step)
    requires step.Push? && step.encoded.Some? ==> step.encoded.value in ok
    ensures OnlyWaiting(ok, Next(su, s, step).ch) && OnlyInHand(ok, Next(su, s, step).pc)
  {
    hide Fits, NeedsFlush, Delivered, Retryable, Ids, WaitingIds, OnlyInLoop;
  }

  lemma OnlyLoopStep(su: Setup, ok: iset<seq<byte>>, s: State, step: Step)
    requires Only(ok, s) && Enabled(su, s, step)
    ensures OnlyInLoop(ok, Next(su, s, step).loop)
  {
    hide Fits, NeedsFlush, Delivered, Retryable, Ids, WaitingIds, AllIn, OnlyWaiting;
    AllInNone(ok);
    match step
    case AppendEntry => AllInMore(s.loop.batch, s.pc.raw, ok);
    case _ =>
  }

  lemma AllInNone(ok: iset<seq<byte>>)
    ensures AllIn([], ok)
  {
  }

  lemma AllInMore(entries: seq<RawEntry>, raw: RawEntry, ok: iset<seq<byte>>)
    requires AllIn(entries, ok) && raw.json in ok
    ensures AllIn(entries + [raw], ok)
  {
  }

  /** Nothing is sent but what `Handle` calls pushed. */
  lemma {:induction false} OnlyWhatWasPushed(su: Setup, ok: iset<seq<byte>>, states: seq<State>, steps: seq<Step>,
      i: nat)
    requires IsRun(su, states, steps) && i < |states|
    requires forall j :: 0 <= j < |steps| && steps[j].Push? && steps[j].encoded.Some? ==> steps[j].encoded.value in ok
    ensures Only(ok, states[i])
  {
    if i > 0 {
      hide Only, Next, Enabled;
      OnlyWhatWasPushed(su, ok, states, steps, i - 1);
      OnlyStep(su, ok, states[i - 1], steps[i - 1]);
    }
  }
}
