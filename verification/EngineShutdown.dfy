/**
 Engine shutdown (api/internal/notification/engine.go): the suppressor with its callbacks and the
 dispatch channel.
 */
module EngineShutdown {
  import Sup = Suppressor

  datatype Phase = Running | Draining | StopReturned | ChannelClosed

  /**
   `sent` holds the in-flight callbacks that are past their send; `panicked` is a send on the closed
   channel; `handed` and `worked` count the jobs that callbacks had for the queue and those workers took.
   */
  datatype State = State(
    sup: Sup.State, sent: set<nat>, phase: Phase, queue: seq<nat>,
    handed: nat, worked: nat, dropped: nat, panicked: bool)

  datatype Step =
    | Suppress(step: Sup.Step)
    | Dispatch(token: nat, hasChannels: bool)
    | CallbackReturns(token: nat)
    | BeginStop
    | StopReturns
    | CloseChannel
    | Work

  function Init(now: int): State {
    State(Sup.Init(now), {}, Running, [], 0, 0, 0, false)
  }

  predicate Enabled(s: State, step: Step) {
    match step
    case Suppress(st) => !st.Stop? && !st.FinishCallback? && Sup.Enabled(s.sup, st)
    case Dispatch(token, _) => token in s.sup.inflight && token !in s.sent
    case CallbackReturns(token) => token in s.sup.inflight && token in s.sent
    case BeginStop => s.phase.Running?
    case StopReturns => s.phase.Draining? && s.sup.inflight == {}
    case CloseChannel => s.phase.StopReturned?
    case Work => s.queue != []
  }

  function Next(buffer: nat, s: State, step: Step): State
    requires Enabled(s, step)
  {
    match step
    case Suppress(st) => s.(sup := Sup.Next(s.sup, st))
    case Dispatch(token, hasChannels) =>
      var s1 := s.(sent := s.sent + {token});
      if !hasChannels then s1
      else if s.phase.ChannelClosed? then s1.(handed := s.handed + 1, panicked := true)
      else if |s.queue| < buffer then s1.(handed := s.handed + 1, queue := s.queue + [token])
      else s1.(handed := s.handed + 1, dropped := s.dropped + 1)
    case CallbackReturns(token) => s.(sup := Sup.Next(s.sup, Sup.FinishCallback(token)), sent := s.sent - {token})
    case BeginStop => s.(sup := Sup.Next(s.sup, Sup.Stop), phase := Draining)
    case StopReturns => s.(phase := StopReturned)
    case CloseChannel => s.(phase := ChannelClosed)
    case Work => s.(queue := s.queue[1..], worked := s.worked + 1)
  }

  ghost predicate Inv(s: State) {
    && (s.sup.stopped <==> !s.phase.Running?)
    && (s.phase.StopReturned? || s.phase.ChannelClosed? ==> s.sup.inflight == {})
    && !s.panicked
  }

  lemma InvStep(buffer: nat, s: State, step: Step)
    requires Inv(s) && Enabled(s, step)
    ensures Inv(Next(buffer, s, step))
  {
    hide Sup.FingerprintKey, Sup.TrimForDigest, Sup.RuleCount;
  }

  ghost predicate IsRun(buffer: nat, states: seq<State>, steps: seq<Step>) {
    && |states| == |steps| + 1
    && states[0] == Init(states[0].sup.now)
    && forall i ::
      0 <= i < |steps| ==> Enabled(states[i], steps[i]) && states[i + 1] == Next(buffer, states[i], steps[i])
  }

  lemma {:induction false} RunInv(buffer: nat, states: seq<State>, steps: seq<Step>, i: nat)
    requires IsRun(buffer, states, steps) && i < |states|
    ensures Inv(states[i])
  {
    if i > 0 {
      hide Next, Enabled, Inv;
      RunInv(buffer, states, steps, i - 1);
      InvStep(buffer, states[i - 1], steps[i - 1]);
    }
  }

  lemma {:induction false} PhaseStays(buffer: nat, states: seq<State>, steps: seq<Step>, i: nat, j: nat)
    requires IsRun(buffer, states, steps) && i <= j < |states|
    requires states[i].phase.StopReturned? || states[i].phase.ChannelClosed?
    ensures states[j].phase.StopReturned? || states[j].phase.ChannelClosed?
  {
    if i < j {
      PhaseStays(buffer, states, steps, i, j - 1);
    }
  }

  /** No interleaving sends on the closed dispatch channel, and no callback runs once Stop has returned. */
  lemma NoSendAfterClose(buffer: nat, states: seq<State>, steps: seq<Step>, i: nat, j: nat)
    requires IsRun(buffer, states, steps) && i <= j < |steps|
    ensures !states[j].panicked
    ensures states[i].phase.StopReturned? || states[i].phase.ChannelClosed? ==>
      !steps[j].Dispatch? && !steps[j].CallbackReturns? && states[j].sup.inflight == {}
  {
    RunInv(buffer, states, steps, j);
    if states[i].phase.StopReturned? || states[i].phase.ChannelClosed? {
      PhaseStays(buffer, states, steps, i, j);
    }
  }

  // ----- the dispatch queue

  ghost predicate QueueInv(buffer: nat, s: State) {
    |s.queue| <= buffer && s.handed == |s.queue| + s.worked + s.dropped
  }

  lemma {:induction false} RunQueue(buffer: nat, states: seq<State>, steps: seq<Step>, i: nat)
    requires IsRun(buffer, states, steps) && i < |states|
    ensures QueueInv(buffer, states[i])
  {
    if i > 0 {
      RunQueue(buffer, states, steps, i - 1);
      RunInv(buffer, states, steps, i - 1);
      QueueStep(buffer, states[i - 1], steps[i - 1]);
    }
  }

  lemma QueueStep(buffer: nat, s: State, step: Step)
    requires Inv(s) && QueueInv(buffer, s) && Enabled(s, step)
    ensures QueueInv(buffer, Next(buffer, s, step))
  {
    hide Sup.Next, Sup.Enabled;
  }

  /**
   In every run a callback with channels to notify queues its job behind the others, or drops it and
   counts it, the latter exactly when the queue is full; jobs handed over are queued, worked on or dropped.
   */
  lemma DropsOnlyWhenFull(buffer: nat, states: seq<State>, steps: seq<Step>, i: nat)
    requires IsRun(buffer, states, steps) && i < |steps|
    ensures states[i].handed == |states[i].queue| + states[i].worked + states[i].dropped && |states[i].queue| <= buffer
    ensures steps[i].Dispatch? && steps[i].hasChannels ==>
      && states[i + 1].handed == states[i].handed + 1
      && (|states[i].queue| == buffer <==> states[i + 1].dropped == states[i].dropped + 1)
      && (|states[i].queue| < buffer <==> states[i + 1].queue == states[i].queue + [steps[i].token])
    ensures states[i + 1].dropped != states[i].dropped ==>
      steps[i].Dispatch? && steps[i].hasChannels && |states[i].queue| == buffer
  {
    RunQueue(buffer, states, steps, i);
    RunInv(buffer, states, steps, i);
    hide Sup.Next, Sup.Enabled;
  }
}
