/**
 The broker as an object: its operations update the subscriber set, the counts and the channels in
 place, and are proved to be the steps of the machine in `Broker`.
 */
module BrokerObject {
  import opened Common
  import opened ClientCounts
  import B = Broker

  /** The ghost fields record what was consumed, accepted and dropped, and the first broadcast it can see. */
  class Subscription {
    const filter: int
    const clientKey: string
    var ch: seq<B.Message>
    var closed: bool
    ghost const handle: B.Handle
    ghost var consumed: seq<B.Message>
    ghost var accepted: seq<B.Message>
    ghost var dropped: seq<B.Message>
    ghost const since: nat

    ghost function View(): B.Subscription
      reads this
    {
      B.Subscription(filter, ch, consumed, accepted, dropped, if closed then 1 else 0, since)
    }

    constructor (filter: int, clientKey: string, ghost index: nat, ghost since: nat)
      ensures this.filter == filter && this.clientKey == clientKey && !closed
      ensures handle == B.Handle(index, clientKey)
      ensures View() == B.Subscription(filter, [], [], [], [], 0, since)
    {
      this.filter, this.clientKey := filter, clientKey;
      ch, closed := [], false;
      handle, this.since := B.Handle(index, clientKey), since;
      consumed, accepted, dropped := [], [], [];
    }

    /** The stream takes the next message off the channel. */
    method Receive() returns (msg: B.Message)
      requires ch != []
      modifies this`ch, this`consumed
      ensures msg == old(ch)[0]
      ensures View() == old(View()).(ch := old(ch)[1..], consumed := old(consumed) + [msg])
    {
      msg := ch[0];
      ch, consumed := ch[1..], consumed + [msg];
    }

    /** One turn of the broadcast loop. */
    method Serve(wanted: bool, msg: B.Message) returns (drop: bool)
      modifies this`ch, this`accepted, this`dropped
      ensures View() == Served(old(View()), wanted, msg)
        && drop == (wanted && |old(View()).ch| >= B.SUBSCRIPTION_BUFFER)
    {
      drop := false;
      if wanted {
        drop := Offer(msg);
      }
    }

    /** The non-blocking send. */
    method Offer(msg: B.Message) returns (drop: bool)
      modifies this`ch, this`accepted, this`dropped
      ensures View() == B.OfferTo(old(View()), msg) && drop == (|old(ch)| >= B.SUBSCRIPTION_BUFFER)
    {
      drop := |ch| >= B.SUBSCRIPTION_BUFFER;
      if drop {
        dropped := dropped + [msg];
      } else {
        ch, accepted := ch + [msg], accepted + [msg];
      }
    }
  }

  /** A subscription after a broadcast. */
  function Served(sub: B.Subscription, wanted: bool, msg: B.Message): B.Subscription {
    if wanted then B.OfferTo(sub, msg) else sub
  }

  datatype Refusal = TooManySubscribers | TooManyClientSubscribers

  ghost function KeyOf(): Subscription -> string {
    (s: Subscription) => s.clientKey
  }

  ghost function Handles(subs: set<Subscription>): set<B.Handle> {
    set s | s in subs :: s.handle
  }

  /** Distinct subscriptions have distinct handles. */
  lemma {:induction false} HandleCount(subs: set<Subscription>)
    requires forall s, t :: s in subs && t in subs && s.handle == t.handle ==> s == t
    ensures |Handles(subs)| == |subs|
  {
    if subs != {} {
      var s :| s in subs;
      HandleCount(subs - {s});
      assert Handles(subs) == Handles(subs - {s}) + {s.handle};
    }
  }

  class Broker {
    /** What the filters' Matches decides. */
    const matches: (int, B.Message) -> bool
    var subscribers: set<Subscription>
    var byClient: map<string, int>
    var drops: nat
    /** Every subscription ever made, and every broadcast. */
    ghost var registry: map<B.Handle, Subscription>
    ghost var created: nat
    ghost var begun: seq<B.Message>

    ghost function Views(): map<B.Handle, B.Subscription>
      reads this, registry.Values
    {
      map h | h in registry :: registry[h].View()
    }

    /** The machine's state, between operations. */
    ghost function State(): B.State
      reads this, registry.Values
    {
      B.State(Views(), created, Handles(subscribers), byClient, begun, map[], false)
    }

    ghost predicate Valid()
      reads this, registry.Values
    {
      && Filed(registry, created, subscribers)
      && Tidy(Views(), Handles(subscribers))
      && Counted(subscribers, byClient)
    }

    constructor (matches: (int, B.Message) -> bool)
      ensures Valid() && State() == B.Init() && drops == 0 && this.matches == matches
    {
      this.matches := matches;
      subscribers, byClient, drops := {}, map[], 0;
      registry, created, begun := map[], 0, [];
      new;
      B.NoneExact(KeyOf());
    }

    twostate lemma ViewAdded(new sub: Subscription)
      requires registry == old(registry)[sub.handle := sub] && sub.handle !in old(registry)
      requires forall h :: h in old(registry) ==> unchanged(old(registry)[h])
      ensures Views() == old(Views())[sub.handle := sub.View()]
    {
    }

    twostate lemma ViewsClosed()
      requires registry == old(registry) && Filed(registry, old(created), old(subscribers))
      requires Tidy(old(Views()), old(Handles(subscribers)))
      requires forall s :: s in registry.Values ==>
        s.View() == if s in old(subscribers) then old(s.View()).(closes := 1) else old(s.View())
      ensures Views() == ClosedAll(old(Views()), old(Handles(subscribers)))
    {
      hide Tidy, Filed, Handles, Subscription.View;
      FiledAll(registry, old(created), old(subscribers));
      TidyNone(old(Views()), old(Handles(subscribers)));
    }

    twostate lemma ViewsOffered(msg: B.Message)
      requires registry == old(registry) && subscribers == old(subscribers) && Filed(registry, created, subscribers)
      requires Tidy(old(Views()), Handles(subscribers))
      requires forall s :: s in registry.Values ==>
        && s.View() == (if s in subscribers then Served(old(s.View()), matches(s.filter, msg), msg) else old(s.View()))
        && old(s.View()).filter == s.filter
      ensures Views() == B.OfferedTo(matches, old(Views()), Handles(subscribers), msg)
      ensures Tidy(Views(), Handles(subscribers))
    {
      hide Tidy, Filed, Handles, Subscription.View, B.OfferTo;
      FiledAll(registry, created, subscribers);
      TidyOffered(matches, old(Views()), Handles(subscribers), msg);
    }

    method Subscribe(filter: int, clientKey: string) returns (sub: Subscription?, refusal: Option<Refusal>)
      requires Valid()
      modifies this
      ensures Valid() && State() == B.Next(matches, old(State()), B.Subscribe(filter, clientKey))
      ensures refusal == Some(TooManySubscribers) <==> |old(subscribers)| >= B.MAX_SUBSCRIBERS
      ensures refusal == Some(TooManyClientSubscribers) <==>
        |old(subscribers)| < B.MAX_SUBSCRIBERS && clientKey != "" &&
        |Of(old(subscribers), KeyOf(), clientKey)| >= B.MAX_SUBSCRIBERS_PER_CLIENT
      ensures refusal.Some? ==> sub == null
      ensures refusal.None? ==>
        sub != null && fresh(sub) && subscribers == old(subscribers) + {sub} && sub.filter == filter
          && sub.clientKey == clientKey && sub.ch == []
    {
      hide B.Next, Inc, Views, Filed, Tidy, Handles;
      SubscribeNext(matches, State(), filter, clientKey);
      FiledAll(registry, created, subscribers);
      if |subscribers| >= B.MAX_SUBSCRIBERS {
        return null, Some(TooManySubscribers);
      }
      if clientKey != "" {
        GetExact(subscribers, KeyOf(), byClient, clientKey);
        hide Exact;
        if Get(byClient, clientKey) >= B.MAX_SUBSCRIBERS_PER_CLIENT {
          return null, Some(TooManyClientSubscribers);
        }
      }
      hide Counted, Of;
      sub := Admit(filter, clientKey);
      refusal := None;
    }

    /** The part of `Subscribe` behind the limits. */
    method Admit(filter: int, clientKey: string) returns (sub: Subscription)
      requires Valid() && |subscribers| < B.MAX_SUBSCRIBERS
      requires clientKey != "" ==> Get(byClient, clientKey) < B.MAX_SUBSCRIBERS_PER_CLIENT
      modifies this`subscribers, this`byClient, this`registry, this`created
      ensures Valid() && fresh(sub) && sub.filter == filter && sub.clientKey == clientKey && sub.ch == []
      ensures subscribers == old(subscribers) + {sub} && byClient == Inc(old(byClient), clientKey)
        && created == old(created) + 1
      ensures var h := B.Handle(old(created), clientKey);
        && Views() == old(Views())[h := B.Subscription(filter, [], [], [], [], 0, |begun|)]
        && Handles(subscribers) == old(Handles(subscribers)) + {h}
    {
      hide Inc, Get, Counted, Filed, Tidy, Views, Handles;
      sub := new Subscription(filter, clientKey, created, |begun|);
      CountedMore(subscribers, byClient, sub);
      FiledMore(registry, created, subscribers, sub);
      TidyMore(Views(), Handles(subscribers), sub.handle, sub.View());
      subscribers := subscribers + {sub};
      byClient := Inc(byClient, clientKey);
      registry, created := registry[sub.handle := sub], created + 1;
      ViewAdded(sub);
    }

    /** Safe to call again, and after Shutdown: a subscription is removed and its channel closed at most once. */
    method Unsubscribe(sub: Subscription)
      requires Valid() && sub.handle in registry && registry[sub.handle] == sub
      modifies this`subscribers, this`byClient, sub`closed
      ensures Valid() && State() == B.Next(matches, old(State()), B.Unsubscribe(sub.handle))
      ensures subscribers == old(subscribers) - {sub}
      ensures sub.closed && (sub !in old(subscribers) ==> byClient == old(byClient))
    {
      hide Counted, Filed, Tidy, B.Next, Dec;
      UnsubscribeNext(matches, State(), sub.handle);
      FiledHandle(registry, created, subscribers, sub);
      TidyAt(Views(), Handles(subscribers), sub.handle);
      if sub !in subscribers {
        return;
      }
      CountedLess(subscribers, byClient, sub);
      TidyLess(Views(), Handles(subscribers), sub.handle);
      subscribers := subscribers - {sub};
      sub.closed := true;
      byClient := Dec(byClient, sub.clientKey);
      assert Views() == old(Views())[sub.handle := B.Close(old(sub.View()))];
    }

    method Shutdown()
      requires Valid()
      modifies this`subscribers, this`byClient, subscribers`closed
      ensures Valid() && State() == B.Next(matches, old(State()), B.Shutdown)
      ensures subscribers == {} && forall s :: s in old(subscribers) ==> s.closed && s.ch == old(s.ch)
    {
      hide Counted, Filed, Tidy, B.Next, Views, Handles;
      ghost var before := State();
      while subscribers != {}
        invariant subscribers <= old(subscribers)
        invariant forall s :: s in old(subscribers) ==> s.closed == (old(s.closed) || s !in subscribers)
        decreases subscribers
      {
        var sub :| sub in subscribers;
        sub.closed := true;
        subscribers := subscribers - {sub};
      }
      byClient := map[];
      NoneCounted();
      ShutdownNext(matches, before);
      FiledAll(registry, created, old(subscribers));
      NoHandles();
      TidyNone(before.subs, before.live);
      ViewsClosed();
    }

    /**
     Offers the message to every subscriber whose filter matches; a full buffer counts a drop instead.
     In the machine that is the beginning of the broadcast, one offer per subscriber in any order, and its end.
     */
    method Broadcast(msg: B.Message)
      requires Valid() && msg.number == |begun|
      modifies this`drops, this`begun, subscribers`ch, subscribers`accepted, subscribers`dropped
      ensures Valid() && State() == B.Broadcasted(matches, old(State()), msg)
      ensures forall order :: NoDuplicates(order) && Elements(order) == Handles(subscribers) ==>
        B.Play(matches, old(State()), B.BroadcastSteps(old(State()), msg.id, msg.data, order)) == Some(State())
      ensures drops == old(drops) + |set s | s in subscribers && matches(s.filter, msg)
        && |old(s.ch)| >= B.SUBSCRIPTION_BUFFER|
    {
      hide Counted, Filed, Tidy, Served, Views, Handles, B.OfferedTo, B.Play, B.BroadcastSteps;
      ghost var before := State();
      AllOpen();
      assert Full(msg) == set s | s in subscribers && matches(s.filter, msg) && |s.ch| >= B.SUBSCRIPTION_BUFFER;
      OfferAll(msg);
      begun := begun + [msg];
      ViewsOffered(msg);
      forall order | NoDuplicates(order) && Elements(order) == before.live
        ensures B.Play(matches, before, B.BroadcastSteps(before, msg.id, msg.data, order)) == Some(State())
      {
        B.BroadcastPlayed(matches, before, msg, order);
      }
    }

    lemma AllOpen()
      requires Valid()
      ensures B.LiveOpen(State())
    {
      hide Counted;
    }

    /** The subscribers that want the message and have no room for it. */
    ghost function Full(msg: B.Message): set<Subscription>
      reads this, subscribers
    {
      set s | s in subscribers && matches(s.filter, msg) && |s.View().ch| >= B.SUBSCRIPTION_BUFFER
    }

    lemma FullMeans(msg: B.Message)
      ensures Full(msg) <= subscribers
      ensures forall s ::
        s in subscribers ==> (s in Full(msg) <==> matches(s.filter, msg) && |s.View().ch| >= B.SUBSCRIPTION_BUFFER)
    {
    }

    /** The loop of `Broadcast`. */
    method OfferAll(msg: B.Message)
      modifies this`drops, subscribers`ch, subscribers`accepted, subscribers`dropped
      ensures forall s :: s in subscribers ==> s.View() == Served(old(s.View()), matches(s.filter, msg), msg)
      ensures drops == old(drops) + |old(Full(msg))|
    {
      hide Served, Subscription.View, Full, Done;
      var left := subscribers;
      ghost var full := Full(msg);
      FullMeans(msg);
      DoneEnds(full, left);
      while left != {}
        invariant left <= subscribers
        invariant forall s :: s in left ==> s.View() == old(s.View())
        invariant forall s ::
          s in subscribers && s !in left ==> s.View() == Served(old(s.View()), matches(s.filter, msg), msg)
        invariant drops == old(drops) + Done(full, left)
        decreases left
      {
        var sub :| sub in left;
        DoneOne(full, left, sub);
        assert sub in full <==> matches(sub.filter, msg) && |old(sub.View()).ch| >= B.SUBSCRIPTION_BUFFER;
        left := left - {sub};
        var drop := sub.Serve(matches(sub.filter, msg), msg);
        if drop {
          drops := drops + 1;
        }
      }
      DoneEnds(full, left);
    }
  }

  // ----- the counts, and the machine's steps, as values

  /** Subscriptions are filed under their own handles. */
  ghost predicate Filed(registry: map<B.Handle, Subscription>, created: nat, subscribers: set<Subscription>) {
    && (forall h :: h in registry ==> registry[h].handle == h && h.key == registry[h].clientKey && h.index < created)
    && (forall s :: s in subscribers ==> s.handle in registry && registry[s.handle] == s)
  }

  lemma NoHandles()
    ensures Handles({}) == {}
  {
  }

  lemma FiledAll(registry: map<B.Handle, Subscription>, created: nat, subscribers: set<Subscription>)
    requires Filed(registry, created, subscribers)
    ensures forall h ::
      h in registry ==> registry[h].handle == h && (h in Handles(subscribers) <==> registry[h] in subscribers)
    ensures forall s :: s in subscribers ==> s.handle in registry && registry[s.handle] == s
    ensures |Handles(subscribers)| == |subscribers| && Filed(registry, created, {})
  {
    HandleCount(subscribers);
  }

  lemma FiledMore(registry: map<B.Handle, Subscription>, created: nat, subscribers: set<Subscription>, s: Subscription)
    requires Filed(registry, created, subscribers) && s.handle == B.Handle(created, s.clientKey)
    ensures s.handle !in registry && Filed(registry[s.handle := s], created + 1, subscribers + {s})
    ensures Handles(subscribers + {s}) == Handles(subscribers) + {s.handle}
  {
  }

  lemma FiledHandle(registry: map<B.Handle, Subscription>, created: nat, subscribers: set<Subscription>,
      s: Subscription)
    requires Filed(registry, created, subscribers) && s.handle in registry && registry[s.handle] == s
    ensures s.handle in Handles(subscribers) <==> s in subscribers
    ensures s.handle.key == s.clientKey && Filed(registry, created, subscribers - {s})
    ensures Handles(subscribers - {s}) == Handles(subscribers) - {s.handle}
  {
  }

  /** A channel is closed exactly when its subscription is gone, and never over-full. */
  ghost predicate Tidy(views: map<B.Handle, B.Subscription>, live: set<B.Handle>) {
    forall h :: h in views ==> views[h].closes == (if h in live then 0 else 1) && |views[h].ch| <= B.SUBSCRIPTION_BUFFER
  }

  lemma TidyAt(views: map<B.Handle, B.Subscription>, live: set<B.Handle>, h: B.Handle)
    requires Tidy(views, live) && h in views
    ensures views[h].closes == if h in live then 0 else 1
  {
  }

  lemma TidyMore(views: map<B.Handle, B.Subscription>, live: set<B.Handle>, h: B.Handle, sub: B.Subscription)
    requires Tidy(views, live) && sub.closes == 0 && sub.ch == []
    ensures Tidy(views[h := sub], live + {h})
  {
  }

  lemma TidyLess(views: map<B.Handle, B.Subscription>, live: set<B.Handle>, h: B.Handle)
    requires Tidy(views, live) && h in views && h in live
    ensures Tidy(views[h := B.Close(views[h])], live - {h})
  {
  }

  ghost function ClosedAll(views: map<B.Handle, B.Subscription>, live: set<B.Handle>): map<B.Handle, B.Subscription> {
    map h | h in views :: if h in live then B.Close(views[h]) else views[h]
  }

  lemma TidyNone(views: map<B.Handle, B.Subscription>, live: set<B.Handle>)
    requires Tidy(views, live)
    ensures Tidy(ClosedAll(views, live), {})
    ensures forall h :: h in views ==> views[h].closes == if h in live then 0 else 1
  {
  }

  lemma TidyOffered(
      matches: (int, B.Message) -> bool, views: map<B.Handle, B.Subscription>, live: set<B.Handle>, msg: B.Message)
    requires Tidy(views, live)
    ensures Tidy(B.OfferedTo(matches, views, live, msg), live)
  {
  }

  ghost predicate Counted(subscribers: set<Subscription>, byClient: map<string, int>) {
    && Exact(subscribers, KeyOf(), byClient)
    && |subscribers| <= B.MAX_SUBSCRIBERS
    && (forall key :: key in byClient ==> byClient[key] <= B.MAX_SUBSCRIBERS_PER_CLIENT)
  }

  lemma CountedMore(subscribers: set<Subscription>, byClient: map<string, int>, s: Subscription)
    requires Counted(subscribers, byClient) && s !in subscribers && |subscribers| < B.MAX_SUBSCRIBERS
    requires s.clientKey != "" ==> Get(byClient, s.clientKey) < B.MAX_SUBSCRIBERS_PER_CLIENT
    ensures Counted(subscribers + {s}, Inc(byClient, s.clientKey))
  {
    hide Exact, Inc, Get;
    IncExact(subscribers, KeyOf(), byClient, s);
    IncWithin(byClient, s.clientKey, B.MAX_SUBSCRIBERS_PER_CLIENT);
  }

  lemma CountedLess(subscribers: set<Subscription>, byClient: map<string, int>, s: Subscription)
    requires Counted(subscribers, byClient) && s in subscribers
    ensures Counted(subscribers - {s}, Dec(byClient, s.clientKey))
  {
    hide Exact;
    DecExact(subscribers, KeyOf(), byClient, s);
  }

  lemma NoneCounted()
    ensures Counted({}, map[])
  {
    B.NoneExact(KeyOf());
  }

  lemma SubscribeNext(matches: (int, B.Message) -> bool, s: B.State, filter: int, key: string)
    requires B.NoReaders(s)
    ensures var h := B.Handle(s.created, key);
      B.Next(matches, s, B.Subscribe(filter, key)) ==
      if |s.live| >= B.MAX_SUBSCRIBERS || (key != "" && Get(s.byClient, key) >= B.MAX_SUBSCRIBERS_PER_CLIENT) then s
      else s.(subs := s.subs[h := B.Subscription(filter, [], [], [], [], 0, |s.begun|)], created := s.created + 1,
              live := s.live + {h}, byClient := Inc(s.byClient, key))
  {
  }

  lemma UnsubscribeNext(matches: (int, B.Message) -> bool, s: B.State, h: B.Handle)
    requires B.NoReaders(s) && h in s.subs
    ensures B.Next(matches, s, B.Unsubscribe(h)) ==
      if h !in s.live then s
      else s.(live := s.live - {h}, subs := s.subs[h := B.Close(s.subs[h])], byClient := Dec(s.byClient, h.key))
  {
  }

  lemma ShutdownNext(matches: (int, B.Message) -> bool, s: B.State)
    requires B.NoReaders(s)
    ensures B.Next(matches, s, B.Shutdown) == s.(live := {}, byClient := map[], subs := ClosedAll(s.subs, s.live))
  {
  }

  /** How many of some have been dealt with. */
  ghost function Done<T>(some: set<T>, left: set<T>): nat {
    |some - left|
  }

  lemma DoneEnds<T>(some: set<T>, left: set<T>)
    ensures some <= left ==> Done(some, left) == 0
    ensures left == {} ==> Done(some, left) == |some|
  {
    assert some <= left ==> some - left == {};
    assert left == {} ==> some - left == some;
  }

  lemma DoneOne<T>(some: set<T>, left: set<T>, x: T)
    requires x in left
    ensures Done(some, left - {x}) == Done(some, left) + if x in some then 1 else 0
  {
    assert some - (left - {x}) == if x in some then (some - left) + {x} else some - left;
  }
}
