/**
 One SSE connection (api/internal/handler/sse_stream.go): subscribe, then backfill from the
 store, then stream live events, interleaved with everything the broker does meanwhile.
 */
module SseStream {
  import opened Common
  import opened ClientCounts
  import B = Broker

  /** The store's answer to the backfill query, as event ids in the store's order. */
  datatype Answer = QueryFailed | Rows(ids: seq<int>)

  datatype Stage =
    | Connecting
    | Subscribed
    | Backfilling(rows: seq<int>, next: nat)
    | Live
    | Ended

  /**
   `answered` is what the store answered; `back` and `live` are the ids written in the two parts;
   `high` is what backfill returned; `backfillFailed` says that a write failed during backfill.
   */
  datatype State = State(
    broker: B.State, me: B.Handle, stage: Stage,
    answered: Option<Answer>, back: seq<int>, live: seq<int>, high: int, backfillFailed: bool)

  datatype Step =
    | BrokerStep(step: B.Step)
    | Connect(filter: int, key: string)
    | Query(answer: Answer)
    | WriteRow(marshals: bool, ok: bool)
    | FinishBackfill
    | Receive(ok: bool)
    | End

  function Init(): State {
    State(B.Init(), B.Handle(0, ""), Connecting, None, [], [], 0, false)
  }

  /** What backfill returns when it has nothing better: the resume position, or 0. */
  function Floor(lastEventID: int): int {
    if lastEventID > 0 then lastEventID else 0
  }

  ghost predicate Ascending(ids: seq<int>) {
    forall i, j :: 0 <= i < j < |ids| ==> ids[i] < ids[j]
  }

  ghost predicate Descending(ids: seq<int>) {
    forall i, j :: 0 <= i < j < |ids| ==> ids[i] > ids[j]
  }

  /** The documented order of the store's lists: `since` ascending above the position, `recent` descending. */
  ghost predicate StoreContract(lastEventID: int, answer: Answer) {
    answer.Rows? ==>
      if lastEventID > 0 then Ascending(answer.ids) && forall i :: 0 <= i < |answer.ids| ==> answer.ids[i] > lastEventID
      else Descending(answer.ids)
  }

  function Reverse(ids: seq<int>): (r: seq<int>)
    ensures |r| == |ids|
    ensures forall i :: 0 <= i < |ids| ==> r[i] == ids[|ids| - 1 - i]
  {
    seq(|ids|, i requires 0 <= i < |ids| => ids[|ids| - 1 - i])
  }

  /** Rows are written oldest first. */
  function Order(lastEventID: int, ids: seq<int>): seq<int> {
    if lastEventID > 0 then ids else Reverse(ids)
  }

  /** `run` holds its subscription: nobody else receives from it or gives it up. */
  predicate Open(s: State) {
    s.stage.Subscribed? || s.stage.Backfilling? || s.stage.Live?
  }

  ghost predicate Enabled(lastEventID: int, s: State, step: Step) {
    match step
    case BrokerStep(st) => B.Enabled(s.broker, st) && (Open(s) ==> st != B.Consume(s.me) && st != B.Unsubscribe(s.me))
    case Connect(_, _) => s.stage.Connecting? && B.NoReaders(s.broker)
    case Query(answer) => s.stage.Subscribed? && StoreContract(lastEventID, answer)
    case WriteRow(_, _) => s.stage.Backfilling? && s.stage.next < |s.stage.rows|
    case FinishBackfill => s.stage.Backfilling? && s.stage.next == |s.stage.rows| && s.stage.rows != []
    case Receive(_) => s.stage.Live? && s.me in s.broker.subs && s.broker.subs[s.me].ch != []
    case End => s.stage.Live?
  }

  ghost function Next(matches: (int, B.Message) -> bool, lastEventID: int, s: State, step: Step): State
    requires Enabled(lastEventID, s, step)
  {
    match step
    case BrokerStep(st) => s.(broker := B.Next(matches, s.broker, st))
    case Connect(filter, key) =>
      var b := B.Next(matches, s.broker, B.Subscribe(filter, key));
      if B.Refused(s.broker, key) then s.(stage := Ended)
      else s.(broker := b, me := B.Handle(s.broker.created, key), stage := Subscribed)
    case Query(answer) =>
      if answer.QueryFailed? || answer.ids == []
      then s.(answered := Some(answer), stage := Live, high := Floor(lastEventID))
      else s.(answered := Some(answer), stage := Backfilling(Order(lastEventID, answer.ids), 0))
    case WriteRow(marshals, ok) =>
      var rows, n := s.stage.rows, s.stage.next;
      if !marshals then s.(stage := Backfilling(rows, n + 1))
      else if ok then s.(stage := Backfilling(rows, n + 1), back := s.back + [rows[n]])
      else s.(stage := Live, high := Floor(lastEventID), backfillFailed := true)
    case FinishBackfill => s.(stage := Live, high := s.stage.rows[|s.stage.rows| - 1])
    case Receive(ok) =>
      var msg, b := s.broker.subs[s.me].ch[0], B.Next(matches, s.broker, B.Consume(s.me));
      if msg.id <= s.high then s.(broker := b)
      else if ok then s.(broker := b, live := s.live + [msg.id])
      else s.(broker := b, stage := Ended)
    case End => s.(stage := Ended)
  }

  /** The ids of the messages above the high-water mark. */
  function Above(ms: seq<B.Message>, high: int): seq<int> {
    if ms == [] then []
    else Above(ms[..|ms| - 1], high) + (if ms[|ms| - 1].id > high then [ms[|ms| - 1].id] else [])
  }

  lemma AboveSnoc(ms: seq<B.Message>, m: B.Message, high: int)
    ensures Above(ms + [m], high) == if m.id > high then Above(ms, high) + [m.id] else Above(ms, high)
  {
    assert (ms + [m])[..|ms|] == ms;
  }

  /** Everything written before the first failed write. */
  function Clean(s: State): seq<int> {
    s.back + (if s.backfillFailed then [] else s.live)
  }

  // ----- the stream's invariant

  ghost predicate BackInv(lastEventID: int, s: State) {
    && Ascending(s.back)
    && (lastEventID > 0 ==> forall i :: 0 <= i < |s.back| ==> s.back[i] > lastEventID)
    && (s.stage.Connecting? || s.stage.Subscribed? ==> s.back == [])
    && (s.stage.Backfilling? ==>
          && s.stage.next <= |s.stage.rows| && Ascending(s.stage.rows)
          && (lastEventID > 0 ==> forall i :: 0 <= i < |s.stage.rows| ==> s.stage.rows[i] > lastEventID)
          && (s.back != [] ==> s.stage.next > 0 && s.back[|s.back| - 1] <= s.stage.rows[s.stage.next - 1]))
    && ((s.stage.Live? || s.stage.Ended?) && !s.backfillFailed ==>
      forall i :: 0 <= i < |s.back| ==> s.back[i] <= s.high)
    && (lastEventID > 0 && (s.stage.Live? || s.live != []) ==> s.high >= lastEventID)
    && (s.stage.Connecting? || s.stage.Subscribed? || s.stage.Backfilling? ==> !s.backfillFailed)
  }

  lemma BackStep(matches: (int, B.Message) -> bool, lastEventID: int, s: State, step: Step)
    requires BackInv(lastEventID, s) && Enabled(lastEventID, s, step)
    ensures BackInv(lastEventID, Next(matches, lastEventID, s, step))
  {
    hide B.Next, B.Enabled, B.Refused;
    match step
    case Query(answer) => QueryBack(matches, lastEventID, s, answer);
    case WriteRow(marshals, ok) => WriteBack(matches, lastEventID, s, marshals, ok);
    case FinishBackfill => FinishBack(matches, lastEventID, s);
    case _ => hide StoreContract, Ascending;
  }

  lemma QueryBack(matches: (int, B.Message) -> bool, lastEventID: int, s: State, answer: Answer)
    requires BackInv(lastEventID, s) && Enabled(lastEventID, s, Query(answer))
    ensures BackInv(lastEventID, Next(matches, lastEventID, s, Query(answer)))
  {
    hide B.Next, B.Enabled, B.Refused;
  }

  lemma WriteBack(matches: (int, B.Message) -> bool, lastEventID: int, s: State, marshals: bool, ok: bool)
    requires BackInv(lastEventID, s) && Enabled(lastEventID, s, WriteRow(marshals, ok))
    ensures BackInv(lastEventID, Next(matches, lastEventID, s, WriteRow(marshals, ok)))
  {
    hide B.Next, B.Enabled, B.Refused, StoreContract;
  }

  lemma FinishBack(matches: (int, B.Message) -> bool, lastEventID: int, s: State)
    requires BackInv(lastEventID, s) && Enabled(lastEventID, s, FinishBackfill)
    ensures BackInv(lastEventID, Next(matches, lastEventID, s, FinishBackfill))
  {
    hide B.Next, B.Enabled, B.Refused, StoreContract;
  }

  /** What the mark has to do with the store's answer. */
  ghost predicate MarkInv(lastEventID: int, s: State) {
    && (s.stage.Backfilling? ==>
          && s.answered.Some? && s.answered.value.Rows? && s.answered.value.ids != []
          && s.stage.rows == Order(lastEventID, s.answered.value.ids))
    && (s.stage.Live? ==> s.answered.Some? && MarkFor(lastEventID, s.answered.value, s.backfillFailed, s.high))
  }

  /** The client's position (or 0) if there were no rows or not all were written, else the newest row. */
  ghost predicate MarkFor(lastEventID: int, answer: Answer, failed: bool, high: int) {
    if failed || answer.QueryFailed? || answer.ids == [] then high == if lastEventID > 0 then lastEventID else 0
    else high in answer.ids && forall x :: x in answer.ids ==> x <= high
  }

  lemma MarkStep(matches: (int, B.Message) -> bool, lastEventID: int, s: State, step: Step)
    requires BackInv(lastEventID, s) && MarkInv(lastEventID, s) && Enabled(lastEventID, s, step)
    ensures MarkInv(lastEventID, Next(matches, lastEventID, s, step))
  {
    hide B.Next, B.Enabled, B.Refused;
    match step
    case FinishBackfill =>
      var ids, rows := s.answered.value.ids, s.stage.rows;
      NewestRow(lastEventID, ids);
    case _ =>
  }

  lemma NewestRow(lastEventID: int, ids: seq<int>)
    requires ids != [] && Ascending(Order(lastEventID, ids))
    ensures var rows := Order(lastEventID, ids); var newest := rows[|rows| - 1];
      newest in ids && forall x :: x in ids ==> x <= newest
  {
    var rows := Order(lastEventID, ids);
    var n := |ids|;
    assert rows[n - 1] == ids[n - 1] || rows[n - 1] == ids[0];
    forall x | x in ids
      ensures x <= rows[n - 1]
    {
      var i :| 0 <= i < n && ids[i] == x;
      assert rows[i] == x || rows[n - 1 - i] == x;
    }
  }

  /** What the connection has taken off its channel. */
  function Received(b: B.State, me: B.Handle): seq<B.Message> {
    if me in b.subs then b.subs[me].consumed else []
  }

  /** The live part is what was received above the mark, in order; nothing is received before the backfill is over. */
  ghost predicate LiveInv(s: State) {
    && (Open(s) ==> s.me in s.broker.subs)
    && (s.stage.Connecting? ==> s.live == [])
    && (s.stage.Subscribed? || s.stage.Backfilling? ==> s.live == [] && Received(s.broker, s.me) == [])
    && (s.stage.Live? ==> s.live == Above(Received(s.broker, s.me), s.high))
    && (s.stage.Ended? ==> s.live <= Above(Received(s.broker, s.me), s.high))
  }

  lemma LiveStep(matches: (int, B.Message) -> bool, lastEventID: int, s: State, step: Step)
    requires LiveInv(s) && B.ConnectionInv(s.broker) && Enabled(lastEventID, s, step)
    ensures LiveInv(Next(matches, lastEventID, s, step))
  {
    hide B.ConnectionInv, B.Next, B.Refused, Received, Order;
    match step
    case BrokerStep(st) => OthersLeaveReceived(matches, s.broker, st, s.me, s.high);
    case Connect(filter, key) => if !B.Refused(s.broker, key) { NothingReceivedYet(matches, s.broker, filter, key); }
    case Receive(_) => ReceivesNext(matches, s.broker, s.me, s.high);
    case Query(_) => assert Above([], Floor(lastEventID)) == [];
    case _ =>
  }

  lemma NothingReceivedYet(matches: (int, B.Message) -> bool, b: B.State, filter: int, key: string)
    requires B.NoReaders(b) && !B.Refused(b, key)
    ensures var b', me := B.Next(matches, b, B.Subscribe(filter, key)), B.Handle(b.created, key);
      me in b'.subs && Received(b', me) == []
  {
    hide Inc;
  }

  lemma ReceivesNext(matches: (int, B.Message) -> bool, b: B.State, me: B.Handle, high: int)
    requires me in b.subs && b.subs[me].ch != []
    ensures var b', msg := B.Next(matches, b, B.Consume(me)), b.subs[me].ch[0];
      me in b'.subs
        && Above(Received(b', me), high) == Above(Received(b, me), high) + if msg.id > high then [msg.id] else []
  {
    AboveSnoc(b.subs[me].consumed, b.subs[me].ch[0], high);
  }

  /** A broker step that is not the connection's own receive leaves what it received alone; its own only adds. */
  lemma OthersLeaveReceived(matches: (int, B.Message) -> bool, b: B.State, st: B.Step, me: B.Handle, high: int)
    requires B.ConnectionInv(b) && B.Enabled(b, st)
    ensures me in b.subs ==> me in B.Next(matches, b, st).subs
    ensures st != B.Consume(me) && me in b.subs ==> Received(B.Next(matches, b, st), me) == Received(b, me)
    ensures Above(Received(b, me), high) <= Above(Received(B.Next(matches, b, st), me), high)
  {
    hide B.ConnectionInv, Above, Inc, Dec, B.Refused;
    if me in b.subs {
      B.KnownHandle(b, me);
    }
    if st == B.Consume(me) {
      ReceivesNext(matches, b, me, high);
    } else if me !in b.subs {
      NothingAbove(high);
    }
  }

  lemma NothingAbove(high: int)
    ensures Above([], high) == []
  {
  }

  // ----- backfill itself

  /** The rows that can be marshalled. */
  function Marshalled(marshals: int -> bool, rows: seq<int>): seq<int> {
    if rows == [] then []
    else
      var n := |rows| - 1;
      Marshalled(marshals, rows[..n]) + (if marshals(rows[n]) then [rows[n]] else [])
  }

  lemma MarshalledSnoc(marshals: int -> bool, rows: seq<int>, k: nat)
    requires k < |rows|
    ensures Marshalled(marshals, rows[..k + 1]) ==
      Marshalled(marshals, rows[..k]) + (if marshals(rows[k]) then [rows[k]] else [])
  {
    assert rows[..k + 1][..k] == rows[..k];
  }

  /** Leaving rows out keeps their order and the bounds they obey. */
  lemma {:induction false} MarshalledOrder(marshals: int -> bool, rows: seq<int>)
    requires Ascending(rows)
    ensures Ascending(Marshalled(marshals, rows))
    ensures forall x :: x in Marshalled(marshals, rows) <==> x in rows && marshals(x)
  {
    if rows != [] {
      var n := |rows| - 1;
      var front := Marshalled(marshals, rows[..n]);
      MarshalledOrder(marshals, rows[..n]);
      assert forall i :: 0 <= i < |front| ==> front[i] in front;
      assert rows == rows[..n] + [rows[n]];
    }
  }

  /** The response writer; `accepts(k)` says whether its k-th write goes through. */
  class Sink {
    const accepts: nat -> bool
    var written: seq<int>
    var writes: nat

    constructor (accepts: nat -> bool)
      ensures this.accepts == accepts && written == [] && writes == 0
    {
      this.accepts := accepts;
      written, writes := [], 0;
    }

    method WriteEvent(id: int) returns (ok: bool)
      modifies this
      ensures writes == old(writes) + 1 && ok == accepts(old(writes))
      ensures written == if ok then old(written) + [id] else old(written)
    {
      ok := accepts(writes);
      writes := writes + 1;
      if ok {
        written := written + [id];
      }
    }
  }

  /** From `start` writes on, the first `done` rows were written in order, except those that do not marshal. */
  ghost predicate Wrote(marshals: int -> bool, accepts: nat -> bool, rows: seq<int>, done: nat, before: seq<int>,
      start: nat, written: seq<int>, writes: nat) {
    && done <= |rows|
    && written == before + Marshalled(marshals, rows[..done])
    && writes == start + |Marshalled(marshals, rows[..done])|
    && forall k :: start <= k < writes ==> accepts(k)
  }

  lemma WroteNext(marshals: int -> bool, accepts: nat -> bool, rows: seq<int>, done: nat, before: seq<int>,
      start: nat, written: seq<int>, writes: nat)
    requires Wrote(marshals, accepts, rows, done, before, start, written, writes) && done < |rows|
    ensures !marshals(rows[done]) ==> Wrote(marshals, accepts, rows, done + 1, before, start, written, writes)
    ensures marshals(rows[done]) && accepts(writes) ==>
      Wrote(marshals, accepts, rows, done + 1, before, start, written + [rows[done]], writes + 1)
  {
    MarshalledSnoc(marshals, rows, done);
  }

  /**
   Writes the rows oldest first, leaving out those that do not marshal and stopping at the first
   failed write. `done` is how many rows it got through; the mark is the newest row exactly when it
   got through all of them.
   */
  method Backfill(sink: Sink, lastEventID: int, answer: Answer, marshals: int -> bool) returns (high: int, done: nat)
    modifies sink
    ensures var rows := if answer.Rows? then Order(lastEventID, answer.ids) else [];
      && done <= |rows|
      && (done == |rows| ==>
            && Wrote(marshals, sink.accepts, rows, done, old(sink.written), old(sink.writes), sink.written, sink.writes)
            && high == if rows == [] then Floor(lastEventID) else rows[|rows| - 1])
      && (done < |rows| ==>
            && sink.writes > 0 && !sink.accepts(sink.writes - 1) && marshals(rows[done])
            && Wrote(marshals, sink.accepts, rows, done, old(sink.written), old(sink.writes), sink.written,
              sink.writes - 1)
            && high == Floor(lastEventID))
  {
    if answer.QueryFailed? {
      return Floor(lastEventID), 0;
    }
    ghost var rows := Order(lastEventID, answer.ids);
    done := 0;
    assert Wrote(marshals, sink.accepts, rows, 0, sink.written, sink.writes, sink.written, sink.writes);
    hide Wrote;
    if lastEventID > 0 {
      while done < |answer.ids|
        invariant done <= |answer.ids|
        invariant Wrote(marshals, sink.accepts, rows, done, old(sink.written), old(sink.writes), sink.written,
          sink.writes)
      {
        WroteNext(marshals, sink.accepts, rows, done, old(sink.written), old(sink.writes), sink.written, sink.writes);
        if marshals(answer.ids[done]) {
          var ok := sink.WriteEvent(answer.ids[done]);
          if !ok {
            return lastEventID, done;
          }
        }
        done := done + 1;
      }
      high := if |answer.ids| > 0 then answer.ids[|answer.ids| - 1] else lastEventID;
    } else {
      var i := |answer.ids| - 1;
      while i >= 0
        invariant -1 <= i < |answer.ids| && done == |answer.ids| - 1 - i
        invariant Wrote(marshals, sink.accepts, rows, done, old(sink.written), old(sink.writes), sink.written,
          sink.writes)
      {
        WroteNext(marshals, sink.accepts, rows, done, old(sink.written), old(sink.writes), sink.written, sink.writes);
        if marshals(answer.ids[i]) {
          var ok := sink.WriteEvent(answer.ids[i]);
          if !ok {
            return 0, done;
          }
        }
        i, done := i - 1, done + 1;
      }
      high := if |answer.ids| > 0 then answer.ids[0] else 0;
    }
  }

  /** The machine's row steps do what one turn of the loops above does. */
  lemma StepsLikeBackfill(matches: (int, B.Message) -> bool, lastEventID: int, s: State, marshals: int -> bool,
      accepts: nat -> bool, start: nat, writes: nat)
    requires s.stage.Backfilling? && s.stage.next < |s.stage.rows|
    requires Wrote(marshals, accepts, s.stage.rows, s.stage.next, [], start, s.back, writes)
    ensures var rows, n := s.stage.rows, s.stage.next;
      var s' := Next(matches, lastEventID, s, WriteRow(marshals(rows[n]), accepts(writes)));
      if marshals(rows[n]) && !accepts(writes) then s'.stage.Live? && s'.back == s.back && s'.high == Floor(lastEventID)
      else
        && s'.stage == Backfilling(rows, n + 1)
        && Wrote(marshals, accepts, rows, n + 1, [], start, s'.back, writes + if marshals(rows[n]) then 1 else 0)
  {
    hide B.Next, B.Enabled, B.Refused;
    WroteNext(marshals, accepts, s.stage.rows, s.stage.next, [], start, s.back, writes);
    hide Wrote;
  }

  /** What backfill may write is ascending, within the mark when it got through, and after the position on resume. */
  lemma BackfillWithinMark(marshals: int -> bool, lastEventID: int, ids: seq<int>, done: nat)
    requires StoreContract(lastEventID, Rows(ids)) && done <= |ids|
    ensures var rows := Order(lastEventID, ids);
      && Ascending(Marshalled(marshals, rows[..done]))
      && (forall x :: x in Marshalled(marshals, rows[..done]) ==> x <= rows[|rows| - 1])
      && (lastEventID > 0 ==> forall x :: x in Marshalled(marshals, rows[..done]) ==> x > lastEventID)
  {
    var rows := Order(lastEventID, ids);
    assert Ascending(rows);
    MarshalledOrder(marshals, rows[..done]);
    forall x | x in Marshalled(marshals, rows[..done])
      ensures x <= rows[|rows| - 1] && (lastEventID > 0 ==> x > lastEventID)
    {
      var k :| 0 <= k < done && rows[k] == x;
    }
  }

  // ----- whole runs

  ghost predicate IsRun(matches: (int, B.Message) -> bool, lastEventID: int, states: seq<State>, steps: seq<Step>) {
    && |states| == |steps| + 1
    && states[0] == Init()
    && forall i :: 0 <= i < |steps| ==>
      Enabled(lastEventID, states[i], steps[i]) && states[i + 1] == Next(matches, lastEventID, states[i], steps[i])
  }

  ghost predicate Inv(matches: (int, B.Message) -> bool, lastEventID: int, s: State) {
    BackInv(lastEventID, s) && MarkInv(lastEventID, s) && LiveInv(s) && B.Inv(matches, s.broker)
  }

  /** Whatever the connection does, the broker it shares takes one of its own steps or none. */
  lemma BrokerMoves(matches: (int, B.Message) -> bool, lastEventID: int, s: State, step: Step)
    requires B.Inv(matches, s.broker) && Enabled(lastEventID, s, step)
    ensures B.Inv(matches, Next(matches, lastEventID, s, step).broker)
  {
    hide B.Inv, B.Next, B.Refused;
    match step
    case BrokerStep(st) => B.InvStep(matches, s.broker, st);
    case Connect(filter, key) => B.InvStep(matches, s.broker, B.Subscribe(filter, key));
    case Receive(_) => B.InvStep(matches, s.broker, B.Consume(s.me));
    case _ =>
  }

  lemma {:induction false} RunInv(matches: (int, B.Message) -> bool, lastEventID: int, states: seq<State>,
      steps: seq<Step>, i: nat)
    requires IsRun(matches, lastEventID, states, steps) && i < |states|
    ensures Inv(matches, lastEventID, states[i])
  {
    hide BackInv, MarkInv, LiveInv, B.Inv, Enabled, Next;
    if i == 0 {
      B.InitInv(matches);
      InitInv(matches, lastEventID);
    } else {
      RunInv(matches, lastEventID, states, steps, i - 1);
      var s, step := states[i - 1], steps[i - 1];
      Connections(matches, s.broker);
      BackStep(matches, lastEventID, s, step);
      MarkStep(matches, lastEventID, s, step);
      LiveStep(matches, lastEventID, s, step);
      BrokerMoves(matches, lastEventID, s, step);
    }
  }

  lemma InitInv(matches: (int, B.Message) -> bool, lastEventID: int)
    ensures BackInv(lastEventID, Init()) && MarkInv(lastEventID, Init()) && LiveInv(Init()) && Init().broker == B.Init()
  {
  }

  lemma Connections(matches: (int, B.Message) -> bool, b: B.State)
    requires B.Inv(matches, b)
    ensures B.ConnectionInv(b)
  {
  }

  // ----- whose subscription it is

  /** The connection's subscription is the one its own Connect step made, with the filter and key it was given. */
  ghost predicate MadeBy(states: seq<State>, steps: seq<Step>, i: nat, j: nat)
    requires |states| == |steps| + 1 && i < |states| && states[i].me in states[i].broker.subs
  {
    var s, sub := states[i], states[i].broker.subs[states[i].me];
    && j < i && steps[j] == Connect(sub.filter, s.me.key)
    && sub.since == |states[j].broker.begun| && s.me.index == states[j].broker.created
  }

  /** In every run, an open connection sees what it asked for, from the moment it subscribed. */
  lemma {:induction false} OwnSubscription(
      matches: (int, B.Message) -> bool, lastEventID: int, states: seq<State>, steps: seq<Step>, i: nat)
    requires IsRun(matches, lastEventID, states, steps) && i < |states| && Open(states[i])
    ensures states[i].me in states[i].broker.subs && exists j: nat :: MadeBy(states, steps, i, j)
  {
    hide Inv, Next, Enabled, Open;
    RunInv(matches, lastEventID, states, steps, i);
    OpenHolds(matches, lastEventID, states[i]);
    if i == 0 {
      NotOpenYet();
    } else {
      var s, step := states[i - 1], steps[i - 1];
      RunInv(matches, lastEventID, states, steps, i - 1);
      OpenHolds(matches, lastEventID, s);
      if Open(s) {
        OwnSubscription(matches, lastEventID, states, steps, i - 1);
        var j: nat :| MadeBy(states, steps, i - 1, j);
        StaysMine(matches, lastEventID, s, step);
        assert MadeBy(states, steps, i, j);
      } else {
        ConnectMakesMine(matches, lastEventID, s, step);
        assert MadeBy(states, steps, i, i - 1);
      }
    }
  }

  lemma NotOpenYet()
    ensures !Open(Init())
  {
  }

  lemma OpenHolds(matches: (int, B.Message) -> bool, lastEventID: int, s: State)
    requires Inv(matches, lastEventID, s)
    ensures B.ConnectionInv(s.broker) && (Open(s) ==> s.me in s.broker.subs)
  {
    hide BackInv, MarkInv;
    Connections(matches, s.broker);
  }

  lemma StaysMine(matches: (int, B.Message) -> bool, lastEventID: int, s: State, step: Step)
    requires B.ConnectionInv(s.broker) && Enabled(lastEventID, s, step) && Open(s) && s.me in s.broker.subs
    ensures var s' := Next(matches, lastEventID, s, step);
      && s'.me == s.me && s.me in s'.broker.subs
      && s'.broker.subs[s.me].filter == s.broker.subs[s.me].filter
      && s'.broker.subs[s.me].since == s.broker.subs[s.me].since
  {
    hide B.ConnectionInv, B.Next, B.Refused, Order;
    match step
    case BrokerStep(st) => KeepsTerms(matches, s.broker, st, s.me);
    case Receive(_) => KeepsTerms(matches, s.broker, B.Consume(s.me), s.me);
    case _ =>
  }

  /** No broker step changes the filter of a subscription or where it begins. */
  lemma KeepsTerms(matches: (int, B.Message) -> bool, b: B.State, st: B.Step, h: B.Handle)
    requires B.ConnectionInv(b) && B.Enabled(b, st) && h in b.subs
    ensures var b' := B.Next(matches, b, st);
      h in b'.subs && b'.subs[h].filter == b.subs[h].filter && b'.subs[h].since == b.subs[h].since
  {
    hide B.ConnectionInv, Inc, Dec, B.Refused;
    B.KnownHandle(b, h);
  }

  lemma ConnectMakesMine(matches: (int, B.Message) -> bool, lastEventID: int, s: State, step: Step)
    requires Enabled(lastEventID, s, step) && !Open(s) && Open(Next(matches, lastEventID, s, step))
    ensures step.Connect?
    ensures var s' := Next(matches, lastEventID, s, step);
      && s'.me == B.Handle(s.broker.created, step.key) && s'.me in s'.broker.subs
      && s'.broker.subs[s'.me].filter == step.filter && s'.broker.subs[s'.me].since == |s.broker.begun|
  {
    hide Inc, Dec, Get, Order;
  }

  // ----- what the client sees

  /** No two broadcasts carry the same event id. */
  ghost predicate DistinctIds(begun: seq<B.Message>) {
    forall i, j :: 0 <= i < j < |begun| ==> begun[i].id != begun[j].id
  }

  /** Above keeps exactly the ids over the mark, and keeps them apart when they are apart. */
  lemma {:induction false} AboveMembers(ms: seq<B.Message>, high: int)
    ensures forall x :: x in Above(ms, high) <==> x > high && exists i :: 0 <= i < |ms| && ms[i].id == x
    ensures DistinctIds(ms) ==> NoDuplicates(Above(ms, high))
  {
    if ms != [] {
      var rest, last := ms[..|ms| - 1], ms[|ms| - 1];
      AboveMembers(rest, high);
      assert forall i :: 0 <= i < |rest| ==> rest[i] == ms[i];
      assert last == ms[|rest|];
      if DistinctIds(ms) {
        assert DistinctIds(rest);
        assert forall k :: 0 <= k < |Above(rest, high)| ==> Above(rest, high)[k] in Above(rest, high);
        assert last.id !in Above(rest, high);
      }
    }
  }

  lemma ReceivedDistinct(matches: (int, B.Message) -> bool, b: B.State, me: B.Handle)
    requires B.Inv(matches, b) && DistinctIds(b.begun)
    ensures DistinctIds(Received(b, me))
  {
    if me in b.subs {
      assert B.DeliveryInv(matches, b, me);
      hide B.Inv;
      var sub := b.subs[me];
      var got := sub.consumed;
      forall i, j | 0 <= i < j < |got|
        ensures got[i].id != got[j].id
      {
        assert B.Offered(sub)[i] == got[i] && B.Offered(sub)[j] == got[j];
        assert got[i] in B.Offered(sub) && got[j] in B.Offered(sub);
      }
    }
  }

  /**
   In every interleaving, when no id is broadcast twice, the ids written before the first failed
   write are pairwise distinct, and on resume they all lie after the client's position.
   */
  lemma NothingTwice(matches: (int, B.Message) -> bool, lastEventID: int, states: seq<State>, steps: seq<Step>, i: nat)
    requires IsRun(matches, lastEventID, states, steps) && i < |states| && DistinctIds(states[i].broker.begun)
    ensures NoDuplicates(Clean(states[i]))
    ensures lastEventID > 0 ==> forall x :: x in Clean(states[i]) ==> x > lastEventID
  {
    RunInv(matches, lastEventID, states, steps, i);
    var s := states[i];
    ReceivedDistinct(matches, s.broker, s.me);
    hide B.Inv;
    var all := Above(Received(s.broker, s.me), s.high);
    AboveMembers(Received(s.broker, s.me), s.high);
    assert s.live <= all;
    forall k | 0 <= k < |s.live|
      ensures s.live[k] > s.high
    {
      assert s.live[k] == all[k] && all[k] in all;
    }
  }

  /** Where a matching broadcast above the mark is, while the connection is open. */
  ghost predicate Accounted(s: State, b: nat)
    requires s.me in s.broker.subs && b < |s.broker.begun|
  {
    var sub, msg := s.broker.subs[s.me], s.broker.begun[b];
    B.Pending(s.broker, s.me, b) || msg.id in s.live || msg in sub.ch || msg in sub.dropped
  }

  /** Newer than the client's position and than every row the store answered with. */
  ghost predicate News(lastEventID: int, answer: Answer, id: int) {
    && id > (if lastEventID > 0 then lastEventID else 0)
    && (answer.Rows? ==> forall x :: x in answer.ids ==> id > x)
  }

  /**
   While the stream is open, every matching event broadcast since the subscription with an id above
   the mark, so every one newer than the client's position and the rows of the backfill, is about to
   be offered, written, buffered, or dropped and counted; and what was written live was broadcast,
   matches, and lies above the mark.
   */
  lemma NothingMissed(matches: (int, B.Message) -> bool, lastEventID: int, states: seq<State>, steps: seq<Step>, i: nat)
    requires IsRun(matches, lastEventID, states, steps) && i < |states|
    requires states[i].stage.Live? && states[i].me in states[i].broker.live
    ensures states[i].me in states[i].broker.subs && states[i].answered.Some?
    ensures MarkFor(lastEventID, states[i].answered.value, states[i].backfillFailed, states[i].high)
    ensures var s := states[i]; var sub := s.broker.subs[s.me];
      && (forall b: nat ::
            && sub.since <= b < |s.broker.begun| && matches(sub.filter, s.broker.begun[b])
            && (s.broker.begun[b].id > s.high || News(lastEventID, s.answered.value, s.broker.begun[b].id)) ==>
              Accounted(s, b))
      && (forall x :: x in s.live ==> x > s.high && CameFrom(matches, s, x))
  {
    RunInv(matches, lastEventID, states, steps, i);
    var s := states[i];
    MyDelivery(matches, s);
    hide B.Inv, BackInv, B.DeliveryInv, B.CompleteInv, Accounted, CameFrom, Above;
    forall b: nat | && s.broker.subs[s.me].since <= b < |s.broker.begun|
                    && matches(s.broker.subs[s.me].filter, s.broker.begun[b])
                    && (s.broker.begun[b].id > s.high || News(lastEventID, s.answered.value, s.broker.begun[b].id))
      ensures Accounted(s, b)
    {
      AboveIsAccounted(matches, s, b);
    }
    forall x | x in s.live
      ensures x > s.high && CameFrom(matches, s, x)
    {
      LiveCameFrom(matches, s, x);
    }
  }

  lemma MyDelivery(matches: (int, B.Message) -> bool, s: State)
    requires B.Inv(matches, s.broker) && s.me in s.broker.subs
    ensures B.DeliveryInv(matches, s.broker, s.me) && B.CompleteInv(matches, s.broker, s.me)
  {
    hide B.DeliveryInv, B.CompleteInv, B.ConnectionInv, B.NumberedInv;
  }

  lemma AboveIsAccounted(matches: (int, B.Message) -> bool, s: State, b: nat)
    requires s.me in s.broker.subs && s.me in s.broker.live && s.live == Above(s.broker.subs[s.me].consumed, s.high)
    requires B.DeliveryInv(matches, s.broker, s.me) && B.CompleteInv(matches, s.broker, s.me)
    requires s.broker.subs[s.me].since <= b < |s.broker.begun| && s.broker.begun[b].id > s.high
    requires matches(s.broker.subs[s.me].filter, s.broker.begun[b])
    ensures Accounted(s, b)
  {
    var sub, msg := s.broker.subs[s.me], s.broker.begun[b];
    AboveMembers(sub.consumed, s.high);
    if msg in sub.consumed {
      assert msg.id in s.live;
    }
  }

  lemma LiveCameFrom(matches: (int, B.Message) -> bool, s: State, x: int)
    requires s.me in s.broker.subs && s.live == Above(s.broker.subs[s.me].consumed, s.high) && x in s.live
    requires B.DeliveryInv(matches, s.broker, s.me)
    ensures x > s.high && CameFrom(matches, s, x)
  {
    var sub := s.broker.subs[s.me];
    AboveMembers(sub.consumed, s.high);
    var k :| 0 <= k < |sub.consumed| && sub.consumed[k].id == x;
    var m := sub.consumed[k];
    assert m in B.Offered(sub);
    assert s.broker.begun[m.number].id == x;
  }

  /** A broadcast since the subscription that its filter matches had this id. */
  ghost predicate CameFrom(matches: (int, B.Message) -> bool, s: State, id: int)
    requires s.me in s.broker.subs
  {
    var sub := s.broker.subs[s.me];
    exists b: nat ::
      sub.since <= b < |s.broker.begun| && s.broker.begun[b].id == id && matches(sub.filter, s.broker.begun[b])
  }
}
