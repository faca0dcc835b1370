/** What the broker decides about each message and each subscriber, and exactly when (api/internal/broker/broker.go). */
module BrokerOrder {
  import opened Common
  import opened ClientCounts
  import opened Broker

  // ----- messages

  /** The step offers a subscription a message that its filter matches. */
  predicate OffersTo(matches: (int, Message) -> bool, s: State, step: Step, h: Handle) {
    && step.Offer? && step.h == h && h in s.subs && step.broadcast < |s.begun|
    && matches(s.subs[h].filter, s.begun[step.broadcast])
  }

  /** The messages offered to a subscription while fewer than 512 were queued, in the order of the offers. */
  function Kept(matches: (int, Message) -> bool, states: seq<State>, steps: seq<Step>, n: nat, h: Handle): seq<Message>
    requires |states| == |steps| + 1 && n <= |steps|
  {
    if n == 0 then []
    else
      var s, step := states[n - 1], steps[n - 1];
      Kept(matches, states, steps, n - 1, h)
      + (if OffersTo(matches, s, step, h) && |s.subs[h].ch| < 512 then [s.begun[step.broadcast]] else [])
  }

  /** Those offered while 512 were queued. */
  function Missed(
      matches: (int, Message) -> bool, states: seq<State>, steps: seq<Step>, n: nat, h: Handle): seq<Message>
    requires |states| == |steps| + 1 && n <= |steps|
  {
    if n == 0 then []
    else
      var s, step := states[n - 1], steps[n - 1];
      Missed(matches, states, steps, n - 1, h)
      + (if OffersTo(matches, s, step, h) && |s.subs[h].ch| >= 512 then [s.begun[step.broadcast]] else [])
  }

  /** Everything that went into a channel: what was taken out and what is still there. */
  function Through(s: State, h: Handle): seq<Message> {
    if h in s.subs then s.subs[h].consumed + s.subs[h].ch else []
  }

  function DroppedFor(s: State, h: Handle): seq<Message> {
    if h in s.subs then s.subs[h].dropped else []
  }

  lemma OrderStep(matches: (int, Message) -> bool, s: State, step: Step, h: Handle)
    requires ConnectionInv(s) && Enabled(s, step)
    ensures var offered := OffersTo(matches, s, step, h);
      && Through(Next(matches, s, step), h) ==
         Through(s, h) + (if offered && |s.subs[h].ch| < 512 then [s.begun[step.broadcast]] else [])
      && DroppedFor(Next(matches, s, step), h) ==
         DroppedFor(s, h) + (if offered && |s.subs[h].ch| >= 512 then [s.begun[step.broadcast]] else [])
  {
    hide ConnectionInv, Inc, Dec, Get, Refused;
    if h in s.subs {
      KnownHandle(s, h);
    }
    if step == Consume(h) {
      var sub := s.subs[h];
      assert (sub.consumed + [sub.ch[0]]) + sub.ch[1..] == sub.consumed + sub.ch;
    }
  }

  /**
   In every run, what a subscription has received and what is queued for it are, in this order, the
   matching messages offered to it while it had room; what was dropped for it are the others.
   */
  lemma {:induction false} FirstInFirstOut(
      matches: (int, Message) -> bool, states: seq<State>, steps: seq<Step>, n: nat, h: Handle)
    requires IsRun(matches, states, steps) && n <= |steps|
    ensures Through(states[n], h) == Kept(matches, states, steps, n, h)
    ensures DroppedFor(states[n], h) == Missed(matches, states, steps, n, h)
  {
    hide Inv, Next, Enabled, Through, DroppedFor;
    if n == 0 {
      NothingThrough(h);
    } else {
      FirstInFirstOut(matches, states, steps, n - 1, h);
      RunInv(matches, states, steps, n - 1);
      Connected(matches, states[n - 1]);
      OrderStep(matches, states[n - 1], steps[n - 1], h);
    }
  }

  lemma NothingThrough(h: Handle)
    ensures Through(Init(), h) == [] && DroppedFor(Init(), h) == []
  {
  }

  lemma Connected(matches: (int, Message) -> bool, s: State)
    requires Inv(matches, s)
    ensures ConnectionInv(s)
  {
  }

  // ----- subscribers

  /** A subscription is refused if and only if 1000 are live, or 20 of the same non-empty client key. */
  lemma RefusedExactlyAtLimits(
      matches: (int, Message) -> bool, states: seq<State>, steps: seq<Step>, i: nat, filter: int, key: string)
    requires IsRun(matches, states, steps) && i < |steps| && steps[i] == Subscribe(filter, key)
    ensures var s, s' := states[i], states[i + 1];
      if |s.live| >= 1000 || (key != "" && |Of(s.live, KeyOf(), key)| >= 20) then s' == s
      else
        && s'.live == s.live + {Handle(s.created, key)} && |s'.live| == |s.live| + 1
        && s'.subs == s.subs[Handle(s.created, key) := Subscription(filter, [], [], [], [], 0, |s.begun|)]
  {
    RunInv(matches, states, steps, i);
    var s := states[i];
    Connected(matches, s);
    if key != "" {
      GetExact(s.live, KeyOf(), s.byClient, key);
    }
    assert Handle(s.created, key) !in s.live;
    hide Inv, ConnectionInv, Exact, Inc, Of;
  }
}
