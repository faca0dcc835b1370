/** Per-client connection counts, as `Subscribe` and `decClientLocked` keep them. */
module ClientCounts {

  ghost function Of<T>(live: set<T>, keyOf: T -> string, key: string): set<T> {
    set x | x in live && keyOf(x) == key
  }

  /** One entry per non-empty key with live subscriptions, holding their number. */
  ghost predicate Exact<T>(live: set<T>, keyOf: T -> string, byClient: map<string, int>) {
    forall key ::
      && (key in byClient <==> key != "" && Of(live, keyOf, key) != {})
      && (key in byClient ==> byClient[key] == |Of(live, keyOf, key)|)
  }

  function Get(byClient: map<string, int>, key: string): int {
    if key in byClient then byClient[key] else 0
  }

  function Inc(byClient: map<string, int>, key: string): map<string, int> {
    if key == "" then byClient else byClient[key := Get(byClient, key) + 1]
  }

  function Dec(byClient: map<string, int>, key: string): map<string, int> {
    if key == "" then byClient
    else if Get(byClient, key) <= 1 then byClient - {key}
    else byClient[key := Get(byClient, key) - 1]
  }

  lemma IncWithin(byClient: map<string, int>, key: string, cap: int)
    requires key != "" ==> Get(byClient, key) < cap
    requires forall k :: k in byClient ==> byClient[k] <= cap
    ensures forall k :: k in Inc(byClient, key) ==> Inc(byClient, key)[k] <= cap
  {
  }

  lemma GetExact<T>(live: set<T>, keyOf: T -> string, byClient: map<string, int>, key: string)
    requires Exact(live, keyOf, byClient) && key != ""
    ensures Get(byClient, key) == |Of(live, keyOf, key)|
  {
  }

  lemma IncExact<T>(live: set<T>, keyOf: T -> string, byClient: map<string, int>, x: T)
    requires Exact(live, keyOf, byClient) && x !in live
    ensures Exact(live + {x}, keyOf, Inc(byClient, keyOf(x)))
  {
    forall key
      ensures Of(live + {x}, keyOf, key) == if key == keyOf(x) then Of(live, keyOf, key) + {x} else Of(live, keyOf, key)
    {
    }
    assert x !in Of(live, keyOf, keyOf(x));
  }

  lemma DecExact<T>(live: set<T>, keyOf: T -> string, byClient: map<string, int>, x: T)
    requires Exact(live, keyOf, byClient) && x in live
    ensures Exact(live - {x}, keyOf, Dec(byClient, keyOf(x)))
  {
    forall key
      ensures Of(live - {x}, keyOf, key) == if key == keyOf(x) then Of(live, keyOf, key) - {x} else Of(live, keyOf, key)
    {
    }
    var mine := Of(live, keyOf, keyOf(x));
    assert x in mine;
    assert |mine - {x}| == |mine| - 1;
  }
}

/**
 The SSE broker (api/internal/broker/broker.go): every interleaving of subscriptions,
 broadcasts, consumers and shutdown. Broadcasts hold the read lock and offer their message
 to one subscriber at a time; the other operations hold the write lock.
 */
module Broker {
  import opened Common
  import opened ClientCounts

  const SUBSCRIPTION_BUFFER := 512
  const MAX_SUBSCRIBERS := 1000
  const MAX_SUBSCRIBERS_PER_CLIENT := 20

  /** A broadcast event; `number` counts broadcasts in the order they began. */
  datatype Message = Message(id: int, data: seq<byte>, number: nat)

  /** A subscription pointer. */
  datatype Handle = Handle(index: nat, key: string)

  /**
   `accepted` and `dropped` record every message offered; `closes` counts closings; `since` is the
   first broadcast it can see.
   */
  datatype Subscription = Subscription(
    filter: int, ch: seq<Message>, consumed: seq<Message>, accepted: seq<Message>, dropped: seq<Message>,
    closes: nat, since: nat)

  datatype State = State(
    subs: map<Handle, Subscription>, created: nat, live: set<Handle>, byClient: map<string, int>,
    begun: seq<Message>, active: map<nat, set<Handle>>, sentAfterClose: bool)

  datatype Step =
    | Subscribe(filter: int, key: string)
    | Unsubscribe(h: Handle)
    | Shutdown
    | BeginBroadcast(id: int, data: seq<byte>)
    | Offer(broadcast: nat, h: Handle)
    | EndBroadcast(broadcast: nat)
    | Consume(h: Handle)

  function Init(): State {
    State(map[], 0, {}, map[], [], map[], false)
  }

  predicate NoReaders(s: State) {
    s.active == map[]
  }

  predicate Enabled(s: State, step: Step) {
    match step
    case Subscribe(_, _) => NoReaders(s)
    case Unsubscribe(h) => NoReaders(s) && h in s.subs
    case Shutdown => NoReaders(s)
    case BeginBroadcast(_, _) => true
    case Offer(b, h) => b in s.active && h in s.active[b] && h in s.subs && b < |s.begun|
    case EndBroadcast(b) => b in s.active && s.active[b] == {}
    case Consume(h) => h in s.subs && s.subs[h].ch != []
  }

  function KeyOf(): Handle -> string {
    (h: Handle) => h.key
  }

  predicate Refused(s: State, key: string) {
    |s.live| >= MAX_SUBSCRIBERS || (key != "" && Get(s.byClient, key) >= MAX_SUBSCRIBERS_PER_CLIENT)
  }

  function Close(sub: Subscription): Subscription {
    sub.(closes := sub.closes + 1)
  }

  /** `matches` stands for the filters' Matches. */
  function Next(matches: (int, Message) -> bool, s: State, step: Step): State
    requires Enabled(s, step)
  {
    match step
    case Subscribe(filter, key) =>
      if Refused(s, key) then s
      else
        var h := Handle(s.created, key);
        s.(subs := s.subs[h := Subscription(filter, [], [], [], [], 0, |s.begun|)], created := s.created + 1,
           live := s.live + {h}, byClient := Inc(s.byClient, key))
    case Unsubscribe(h) =>
      if h !in s.live then s
      else
        s.(live := s.live - {h}, subs := s.subs[h := Close(s.subs[h])], byClient := Dec(s.byClient, h.key))
    case Shutdown =>
      s.(live := {}, byClient := map[],
         subs := map h | h in s.subs :: if h in s.live then Close(s.subs[h]) else s.subs[h])
    case BeginBroadcast(id, data) =>
      s.(begun := s.begun + [Message(id, data, |s.begun|)], active := s.active[|s.begun| := s.live])
    case Offer(b, h) =>
      var sub, msg := s.subs[h], s.begun[b];
      var s1 := s.(active := s.active[b := s.active[b] - {h}]);
      if !matches(sub.filter, msg) then s1
      else s1.(subs := s.subs[h := OfferTo(sub, msg)], sentAfterClose := s.sentAfterClose || (sub.closes > 0))
    case EndBroadcast(b) => s.(active := s.active - {b})
    case Consume(h) =>
      var sub := s.subs[h];
      s.(subs := s.subs[h := sub.(ch := sub.ch[1..], consumed := sub.consumed + [sub.ch[0]])])
  }

  /** The non-blocking send: a full buffer drops the message. */
  function OfferTo(sub: Subscription, msg: Message): Subscription {
    if |sub.ch| < SUBSCRIPTION_BUFFER then sub.(ch := sub.ch + [msg], accepted := sub.accepted + [msg])
    else sub.(dropped := sub.dropped + [msg])
  }

  // ----- connections

  /** Counts are exact, both limits hold, and running broadcasts only know live subscriptions. */
  ghost predicate ConnectionInv(s: State) {
    && (forall h :: h in s.subs ==> h.index < s.created)
    && s.live <= s.subs.Keys
    && (forall h :: h in s.subs ==> s.subs[h].closes == if h in s.live then 0 else 1)
    && Exact(s.live, KeyOf(), s.byClient)
    && |s.live| <= MAX_SUBSCRIBERS
    && (forall key :: key in s.byClient ==> s.byClient[key] <= MAX_SUBSCRIBERS_PER_CLIENT)
    && (forall b :: b in s.active ==> b < |s.begun| && s.active[b] <= s.live)
    && !s.sentAfterClose
  }

  lemma ConnectionStep(matches: (int, Message) -> bool, s: State, step: Step)
    requires ConnectionInv(s) && Enabled(s, step)
    ensures ConnectionInv(Next(matches, s, step))
  {
    hide Exact;
    match step
    case Subscribe(filter, key) => SubscribeConnections(matches, s, filter, key);
    case Unsubscribe(h) => UnsubscribeConnections(matches, s, h);
    case Shutdown => ShutdownConnections(matches, s);
    case _ =>
  }

  lemma SubscribeConnections(matches: (int, Message) -> bool, s: State, filter: int, key: string)
    requires ConnectionInv(s) && NoReaders(s)
    ensures ConnectionInv(Next(matches, s, Subscribe(filter, key)))
  {
    hide Exact, Inc, Get;
    if !Refused(s, key) {
      var h := Handle(s.created, key);
      assert h !in s.subs && h !in s.live;
      assert |s.live + {h}| == |s.live| + 1;
      IncExact(s.live, KeyOf(), s.byClient, h);
      IncWithin(s.byClient, key, MAX_SUBSCRIBERS_PER_CLIENT);
    }
  }

  lemma UnsubscribeConnections(matches: (int, Message) -> bool, s: State, h: Handle)
    requires ConnectionInv(s) && NoReaders(s) && h in s.subs
    ensures ConnectionInv(Next(matches, s, Unsubscribe(h)))
  {
    hide Exact;
    if h in s.live {
      DecExact(s.live, KeyOf(), s.byClient, h);
      assert Next(matches, s, Unsubscribe(h)).subs.Keys == s.subs.Keys;
    }
  }

  lemma ShutdownConnections(matches: (int, Message) -> bool, s: State)
    requires ConnectionInv(s) && NoReaders(s)
    ensures ConnectionInv(Next(matches, s, Shutdown))
  {
    hide Exact;
    NoneExact(KeyOf());
    var s' := Next(matches, s, Shutdown);
    assert s'.subs.Keys == s.subs.Keys;
  }

  lemma NoneExact<T>(keyOf: T -> string)
    ensures Exact<T>({}, keyOf, map[])
  {
    forall key
      ensures Of<T>({}, keyOf, key) == {}
    {
    }
  }

  // ----- deliveries

  predicate Pending(s: State, h: Handle, b: nat) {
    b in s.active && h in s.active[b]
  }

  /** Everything ever offered to a subscription. */
  function Offered(sub: Subscription): seq<Message> {
    sub.accepted + sub.dropped
  }

  /** A subscription was offered each message at most once, only matching ones it could see, and holds them in order. */
  ghost predicate DeliveryInv(matches: (int, Message) -> bool, s: State, h: Handle)
    requires h in s.subs
  {
    var sub := s.subs[h];
    && |sub.ch| <= SUBSCRIPTION_BUFFER && sub.since <= |s.begun|
    && sub.accepted == sub.consumed + sub.ch
    && NoDuplicates(Offered(sub))
    && (forall m :: m in Offered(sub) ==>
          && m.number < |s.begun| && s.begun[m.number] == m && sub.since <= m.number
          && matches(sub.filter, m) && !Pending(s, h, m.number))
    && (forall b: nat :: Pending(s, h, b) ==> sub.since <= b)
  }

  /** While it is open, a subscription misses no matching broadcast: it is pending, accepted, or dropped and counted. */
  ghost predicate CompleteInv(matches: (int, Message) -> bool, s: State, h: Handle)
    requires h in s.subs
  {
    var sub := s.subs[h];
    h in s.live ==> forall b: nat :: sub.since <= b < |s.begun| && matches(sub.filter, s.begun[b]) ==>
      Pending(s, h, b) || s.begun[b] in Offered(sub)
  }

  ghost predicate NumberedInv(s: State) {
    forall b :: 0 <= b < |s.begun| ==> s.begun[b].number == b
  }

  lemma DeliveryStep(matches: (int, Message) -> bool, s: State, step: Step, h: Handle)
    requires ConnectionInv(s) && NumberedInv(s) && Enabled(s, step) && h in Next(matches, s, step).subs
    requires h in s.subs ==> DeliveryInv(matches, s, h) && CompleteInv(matches, s, h)
    ensures DeliveryInv(matches, Next(matches, s, step), h) && CompleteInv(matches, Next(matches, s, step), h)
  {
    hide Inc, Dec, Get, Refused, DeliveryInv, CompleteInv, ConnectionInv, NumberedInv;
    var s' := Next(matches, s, step);
    match step
    case Subscribe(_, _) =>
      if h in s.subs {
        assert h.index < s.created by { KnownHandle(s, h); }
        Undisturbed(matches, s, s', h);
      } else {
        NewSubscription(matches, s', h);
      }
    case Offer(b, g) =>
      if g == h { OfferDelivery(matches, s, b, h); } else { Undisturbed(matches, s, s', h); }
    case BeginBroadcast(id, data) => BeginDelivery(matches, s, id, data, h);
    case Consume(g) =>
      if g == h { ConsumeDelivery(matches, s, h); } else { Undisturbed(matches, s, s', h); }
    case _ => Undisturbed(matches, s, s', h);
  }

  lemma KnownHandle(s: State, h: Handle)
    requires ConnectionInv(s) && h in s.subs
    ensures h.index < s.created
  {
  }

  lemma Undisturbed(matches: (int, Message) -> bool, s: State, s': State, h: Handle)
    requires h in s.subs && DeliveryInv(matches, s, h) && CompleteInv(matches, s, h)
    requires h in s'.subs && s'.subs[h].(closes := 0) == s.subs[h].(closes := 0) && (h in s'.live ==> h in s.live)
    requires s'.begun == s.begun && forall x: nat :: Pending(s', h, x) <==> Pending(s, h, x)
    ensures DeliveryInv(matches, s', h) && CompleteInv(matches, s', h)
  {
  }

  lemma NewSubscription(matches: (int, Message) -> bool, s: State, h: Handle)
    requires h in s.subs && s.active == map[]
    requires s.subs[h] == Subscription(s.subs[h].filter, [], [], [], [], 0, |s.begun|)
    ensures DeliveryInv(matches, s, h) && CompleteInv(matches, s, h)
  {
  }

  lemma ConsumeDelivery(matches: (int, Message) -> bool, s: State, h: Handle)
    requires h in s.subs && s.subs[h].ch != [] && DeliveryInv(matches, s, h) && CompleteInv(matches, s, h)
    ensures var s' := Next(matches, s, Consume(h)); DeliveryInv(matches, s', h) && CompleteInv(matches, s', h)
  {
    var s' := Next(matches, s, Consume(h));
    assert forall x: nat :: Pending(s', h, x) <==> Pending(s, h, x);
    assert s.subs[h].consumed + s.subs[h].ch == (s.subs[h].consumed + [s.subs[h].ch[0]]) + s.subs[h].ch[1..];
  }

  lemma BeginDelivery(matches: (int, Message) -> bool, s: State, id: int, data: seq<byte>, h: Handle)
    requires ConnectionInv(s) && NumberedInv(s) && h in s.subs && DeliveryInv(matches, s, h)
      && CompleteInv(matches, s, h)
    ensures var s' := Next(matches, s, BeginBroadcast(id, data));
      DeliveryInv(matches, s', h) && CompleteInv(matches, s', h)
  {
    hide Exact;
    var s' := Next(matches, s, BeginBroadcast(id, data));
    assert forall x: nat :: Pending(s', h, x) <==> if x == |s.begun| then h in s.live else Pending(s, h, x);
    hide ConnectionInv;
  }

  lemma OfferDelivery(matches: (int, Message) -> bool, s: State, b: nat, h: Handle)
    requires NumberedInv(s) && Enabled(s, Offer(b, h))
    requires DeliveryInv(matches, s, h) && CompleteInv(matches, s, h)
    ensures DeliveryInv(matches, Next(matches, s, Offer(b, h)), h)
      && CompleteInv(matches, Next(matches, s, Offer(b, h)), h)
  {
    var sub, msg, s' := s.subs[h], s.begun[b], Next(matches, s, Offer(b, h));
    assert Pending(s, h, b) && msg !in Offered(sub);
    AddedOnce(sub.accepted, sub.dropped, msg);
    assert forall x: nat :: Pending(s', h, x) <==> x != b && Pending(s, h, x);
    assert forall m :: m in Offered(s'.subs[h]) ==> m in Offered(sub) || m == msg;
  }

  lemma AddedOnce<T>(a: seq<T>, b: seq<T>, x: T)
    requires NoDuplicates(a + b) && x !in a + b
    ensures NoDuplicates((a + [x]) + b) && NoDuplicates(a + (b + [x]))
  {
    InsertDistinct(a, b, x);
    InsertDistinct(a + b, [], x);
    assert (a + b) + [] == a + b && ((a + b) + [x]) + [] == a + (b + [x]);
  }

  // ----- whole runs

  ghost predicate IsRun(matches: (int, Message) -> bool, states: seq<State>, steps: seq<Step>) {
    && |states| == |steps| + 1
    && states[0] == Init()
    && forall i ::
      0 <= i < |steps| ==> Enabled(states[i], steps[i]) && states[i + 1] == Next(matches, states[i], steps[i])
  }

  ghost predicate Inv(matches: (int, Message) -> bool, s: State) {
    && ConnectionInv(s) && NumberedInv(s)
    && forall h :: h in s.subs ==> DeliveryInv(matches, s, h) && CompleteInv(matches, s, h)
  }

  lemma InvStep(matches: (int, Message) -> bool, s: State, step: Step)
    requires Inv(matches, s) && Enabled(s, step)
    ensures Inv(matches, Next(matches, s, step))
  {
    var s' := Next(matches, s, step);
    assert NumberedInv(s') by { NumberedStep(matches, s, step); }
    hide ConnectionInv, NumberedInv, DeliveryInv, CompleteInv, Next, Enabled;
    ConnectionStep(matches, s, step);
    forall h | h in s'.subs
      ensures DeliveryInv(matches, s', h) && CompleteInv(matches, s', h)
    {
      DeliveryStep(matches, s, step, h);
    }
  }

  lemma NumberedStep(matches: (int, Message) -> bool, s: State, step: Step)
    requires NumberedInv(s) && Enabled(s, step)
    ensures NumberedInv(Next(matches, s, step))
  {
  }

  lemma InitInv(matches: (int, Message) -> bool)
    ensures Inv(matches, Init())
  {
    NoneExact(KeyOf());
  }

  lemma {:induction false} RunInv(matches: (int, Message) -> bool, states: seq<State>, steps: seq<Step>, i: nat)
    requires IsRun(matches, states, steps) && i < |states|
    ensures Inv(matches, states[i])
  {
    hide Inv, Next, Enabled;
    if i == 0 {
      InitInv(matches);
    } else {
      RunInv(matches, states, steps, i - 1);
      InvStep(matches, states[i - 1], steps[i - 1]);
    }
  }

  /**
   In every reachable state: connection counts are exact and limited, channels are closed once and
   never sent to after.
   */
  lemma ConnectionsSafe(matches: (int, Message) -> bool, states: seq<State>, steps: seq<Step>, i: nat)
    requires IsRun(matches, states, steps) && i < |states|
    ensures forall key :: key in states[i].byClient ==>
      states[i].byClient[key] == |Of(states[i].live, KeyOf(), key)|
        && 0 < states[i].byClient[key] <= MAX_SUBSCRIBERS_PER_CLIENT
    ensures forall h :: h in states[i].live && h.key != "" ==> h.key in states[i].byClient
    ensures |states[i].live| <= MAX_SUBSCRIBERS
    ensures forall h :: h in states[i].subs ==> states[i].subs[h].closes <= 1
    ensures !states[i].sentAfterClose
  {
    RunInv(matches, states, steps, i);
    var s := states[i];
    forall h | h in s.live && h.key != ""
      ensures h.key in s.byClient
    {
      assert h in Of(s.live, KeyOf(), h.key);
    }
  }

  /** The matching broadcasts whose turn at this subscription has come. */
  ghost function Due(matches: (int, Message) -> bool, s: State, h: Handle): set<Message>
    requires h in s.subs
  {
    set m | m in s.begun && s.subs[h].since <= m.number && matches(s.subs[h].filter, m) && !Pending(s, h, m.number)
  }

  /** Per open subscription: matching broadcasts = consumed + queued + dropped, and the queue is bounded. */
  lemma DeliveriesAddUp(matches: (int, Message) -> bool, states: seq<State>, steps: seq<Step>, i: nat, h: Handle)
    requires IsRun(matches, states, steps) && i < |states| && h in states[i].live
    ensures h in states[i].subs
    ensures var sub := states[i].subs[h];
      && |Due(matches, states[i], h)| == |sub.consumed| + |sub.ch| + |sub.dropped|
      && |sub.ch| <= SUBSCRIPTION_BUFFER
  {
    RunInv(matches, states, steps, i);
    var s := states[i];
    var sub := s.subs[h];
    hide Exact;
    DistinctCardinality(Offered(sub));
    assert DeliveryInv(matches, s, h) && CompleteInv(matches, s, h);
    assert Due(matches, s, h) == Elements(Offered(sub)) by {
      forall m | m in Due(matches, s, h)
        ensures m in Offered(sub)
      {
        var b :| 0 <= b < |s.begun| && s.begun[b] == m;
      }
    }
  }

  // ----- one broadcast from beginning to end

  /** The state after these steps, if each is enabled in its turn. */
  function Play(matches: (int, Message) -> bool, s: State, steps: seq<Step>): Option<State> {
    if steps == [] then Some(s)
    else
      var before := Play(matches, s, steps[..|steps| - 1]);
      var last := steps[|steps| - 1];
      if before.Some? && Enabled(before.value, last) then Some(Next(matches, before.value, last)) else None
  }

  lemma PlaySnoc(matches: (int, Message) -> bool, s: State, steps: seq<Step>, step: Step)
    ensures var mid := Play(matches, s, steps);
      mid.Some? && Enabled(mid.value, step) ==> Play(matches, s, steps + [step]) == Some(Next(matches, mid.value, step))
  {
    hide Enabled, Next;
    assert (steps + [step])[..|steps|] == steps;
  }

  function OfferSteps(b: nat, order: seq<Handle>): (steps: seq<Step>)
    ensures |steps| == |order|
  {
    seq(|order|, i requires 0 <= i < |order| => Offer(b, order[i]))
  }

  /** One broadcast that reaches the subscribers in this order. */
  function BroadcastSteps(s: State, id: int, data: seq<byte>, order: seq<Handle>): seq<Step> {
    [BeginBroadcast(id, data)] + OfferSteps(|s.begun|, order) + [EndBroadcast(|s.begun|)]
  }

  /** Those of some subscriptions that want the message were offered it. */
  function OfferedTo(
      matches: (int, Message) -> bool, subs: map<Handle, Subscription>, some: set<Handle>, msg: Message)
    : map<Handle, Subscription>
  {
    map h | h in subs :: if h in some && matches(subs[h].filter, msg) then OfferTo(subs[h], msg) else subs[h]
  }

  /** What a whole broadcast comes to. */
  function Broadcasted(matches: (int, Message) -> bool, s: State, msg: Message): State {
    s.(begun := s.begun + [msg], subs := OfferedTo(matches, s.subs, s.live, msg))
  }

  /** In the middle of it: some subscribers have had their turn. */
  function Midway(matches: (int, Message) -> bool, s: State, msg: Message, some: set<Handle>): State {
    s.(begun := s.begun + [msg], active := map[|s.begun| := s.live - some],
       subs := OfferedTo(matches, s.subs, some, msg))
  }

  /** Live subscriptions have open channels. */
  ghost predicate LiveOpen(s: State) {
    !s.sentAfterClose && forall h :: h in s.live ==> h in s.subs && s.subs[h].closes == 0
  }

  lemma MidwayStep(matches: (int, Message) -> bool, s: State, msg: Message, some: set<Handle>, h: Handle)
    requires h in s.live && h !in some && h in s.subs && s.subs[h].closes == 0 && !s.sentAfterClose
    ensures var mid := Midway(matches, s, msg, some);
      Enabled(mid, Offer(|s.begun|, h))
        && Next(matches, mid, Offer(|s.begun|, h)) == Midway(matches, s, msg, some + {h})
  {
    var mid, b := Midway(matches, s, msg, some), |s.begun|;
    assert mid.active[b] - {h} == s.live - (some + {h});
    assert mid.active[b := mid.active[b] - {h}] == map[b := s.live - (some + {h})];
    var after := OfferedTo(matches, s.subs, some + {h}, msg);
    if matches(s.subs[h].filter, msg) {
      assert mid.subs[h := OfferTo(mid.subs[h], msg)] == after;
    } else {
      assert mid.subs == after;
    }
  }

  lemma {:induction false} OffersPlayed(matches: (int, Message) -> bool, s: State, msg: Message, order: seq<Handle>)
    requires NoReaders(s) && LiveOpen(s) && msg.number == |s.begun|
    requires NoDuplicates(order) && forall h :: h in order ==> h in s.live
    ensures Play(matches, s, [BeginBroadcast(msg.id, msg.data)] + OfferSteps(|s.begun|, order)) ==
      Some(Midway(matches, s, msg, Elements(order)))
  {
    hide Next, Enabled, Midway, Play;
    var begin := BeginBroadcast(msg.id, msg.data);
    if order == [] {
      BeginPlayed(matches, s, msg);
      assert [begin] + OfferSteps(|s.begun|, order) == [begin] && Elements(order) == {};
    } else {
      var front, h := order[..|order| - 1], order[|order| - 1];
      OffersPlayed(matches, s, msg, front);
      MidwayStep(matches, s, msg, Elements(front), h);
      assert Elements(order) == Elements(front) + {h};
      PlaySnoc(matches, s, [begin] + OfferSteps(|s.begun|, front), Offer(|s.begun|, h));
      assert [begin] + OfferSteps(|s.begun|, order) == [begin] + OfferSteps(|s.begun|, front) + [Offer(|s.begun|, h)];
    }
  }

  lemma BeginPlayed(matches: (int, Message) -> bool, s: State, msg: Message)
    requires NoReaders(s) && msg.number == |s.begun|
    ensures Play(matches, s, [BeginBroadcast(msg.id, msg.data)]) == Some(Midway(matches, s, msg, {}))
  {
    var begin := BeginBroadcast(msg.id, msg.data);
    PlaySnoc(matches, s, [], begin);
    assert [] + [begin] == [begin];
    assert OfferedTo(matches, s.subs, {}, msg) == s.subs && s.live - {} == s.live;
  }

  /** In whatever order it reaches the subscribers, a broadcast that nothing interrupts comes to the same. */
  lemma BroadcastPlayed(matches: (int, Message) -> bool, s: State, msg: Message, order: seq<Handle>)
    requires NoReaders(s) && LiveOpen(s) && msg.number == |s.begun|
    requires NoDuplicates(order) && Elements(order) == s.live
    ensures Play(matches, s, BroadcastSteps(s, msg.id, msg.data, order)) == Some(Broadcasted(matches, s, msg))
  {
    var b, steps := |s.begun|, [BeginBroadcast(msg.id, msg.data)] + OfferSteps(|s.begun|, order);
    OffersPlayed(matches, s, msg, order);
    var mid := Midway(matches, s, msg, s.live);
    assert mid.active[b] == {} && mid.active - {b} == map[];
    PlaySnoc(matches, s, steps, EndBroadcast(b));
  }
}
