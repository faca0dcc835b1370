/**
 The two layers of the shipper are one: a flush, an add and a drain of the loop are sequences of
 steps of the interleaved protocol, so what holds of every run holds of them.
 */
module ShipperSteps {
  import opened Common
  import opened ShipperBatch
  import P = ShipperProtocol

  /** The state after these steps, if each is enabled in its turn. */
  function Play(su: P.Setup, s: P.State, steps: seq<P.Step>): Option<P.State>
    decreases |steps|
  {
    if steps == [] then Some(s)
    else if P.Enabled(su, s, steps[0]) then Play(su, P.Next(su, s, steps[0]), steps[1..])
    else None
  }

  lemma {:induction false} PlayConcat(su: P.Setup, s: P.State, a: seq<P.Step>, b: seq<P.Step>)
    requires Play(su, s, a).Some?
    ensures Play(su, s, a + b) == Play(su, Play(su, s, a).value, b)
    decreases |a|
  {
    hide P.Enabled, P.Next;
    if a == [] {
      assert a + b == b;
    } else {
      PlayConcat(su, P.Next(su, s, a[0]), a[1..], b);
      assert (a + b)[1..] == a[1..] + b;
    }
  }

  lemma PlayOne(su: P.Setup, s: P.State, step: P.Step)
    requires P.Enabled(su, s, step)
    ensures Play(su, s, [step]) == Some(P.Next(su, s, step))
  {
    hide P.Enabled, P.Next;
    assert [step][1..] == [];
  }

  /** Steps played from the end of a run make a longer run. */
  lemma {:induction false} PlayExtendsRun(su: P.Setup, states: seq<P.State>, steps: seq<P.Step>, more: seq<P.Step>)
    returns (states': seq<P.State>)
    requires P.IsRun(su, states, steps) && Play(su, states[|steps|], more).Some?
    ensures P.IsRun(su, states', steps + more) && states'[|steps| + |more|] == Play(su, states[|steps|], more).value
    ensures states <= states'
    decreases |more|
  {
    hide P.Enabled, P.Next;
    if more == [] {
      states' := states;
      assert steps + more == steps;
    } else {
      var longer := states + [P.Next(su, states[|steps|], more[0])];
      states' := PlayExtendsRun(su, longer, steps + [more[0]], more[1..]);
      assert steps + [more[0]] + more[1..] == steps + more;
    }
  }

  // ----- a flush

  function FlushSteps(l: Loop, net: nat -> Answer): seq<P.Step> {
    var answer := net(|l.requests|);
    var l1 := if l.retry != [] then SendRetry(l, answer) else l;
    [P.ResendRetry(answer), P.SendOrPostpone(net(|l1.requests|))]
  }

  lemma FlushIsSteps(su: P.Setup, s: P.State, net: nat -> Answer)
    requires s.pc.FlushRetry?
    ensures var l := Flush(s.loop, net);
      Play(su, s, FlushSteps(s.loop, net)) == Some(s.(loop := l, pc := P.After(s.pc.next, l)))
  {
    hide Delivered, Retryable, Ids;
    var steps := FlushSteps(s.loop, net);
    var mid := P.Next(su, s, steps[0]);
    PlayOne(su, s, steps[0]);
    PlayOne(su, mid, steps[1]);
    assert steps == [steps[0]] + [steps[1]];
    PlayConcat(su, s, [steps[0]], [steps[1]]);
  }

  /** A tick of the flush timer is a whole flush. */
  lemma TickIsFlush(su: P.Setup, s: P.State, net: nat -> Answer)
    requires s.pc.Selecting?
    ensures var l := Flush(s.loop, net);
      Play(su, s, [P.Tick] + FlushSteps(s.loop, net)) == Some(s.(loop := l, pc := P.Round(l)))
  {
    hide Flush, FlushSteps, Play;
    PlayOne(su, s, P.Tick);
    PlayConcat(su, s, [P.Tick], FlushSteps(s.loop, net));
    FlushIsSteps(su, P.Next(su, s, P.Tick), net);
  }

  // ----- an add

  function AddSteps(cfg: Config, l: Loop, e: LogEntry, net: nat -> Answer): seq<P.Step> {
    if e.encoded.None? || !Fits(cfg, e.encoded.value) then [P.Encode]
    else
      var makeRoom := NeedsFlush(cfg, l, e.encoded.value);
      var room := if makeRoom then Flush(l, net) else l;
      [P.Encode] + (if makeRoom then FlushSteps(l, net) else [])
      + AppendSteps(cfg, room, RawEntry(e.id, e.encoded.value), net)
  }

  function AppendSteps(cfg: Config, l: Loop, raw: RawEntry, net: nat -> Answer): seq<P.Step> {
    var full := Append(l, raw);
    [P.AppendEntry] + (if |full.batch| >= cfg.batchSize then FlushSteps(full, net) else [])
  }

  /** From the entry in hand to the next round of the loop. */
  lemma AddIsSteps(su: P.Setup, s: P.State, net: nat -> Answer)
    requires s.pc.InHand?
    ensures var l := Add(su.cfg, s.loop, s.pc.entry, net);
      Play(su, s, AddSteps(su.cfg, s.loop, s.pc.entry, net)) == Some(s.(loop := l, pc := P.Round(l)))
  {
    hide Flush, FlushSteps, Append, Play;
    var e := s.pc.entry;
    PlayOne(su, s, P.Encode);
    if e.encoded.Some? && Fits(su.cfg, e.encoded.value) {
      var raw := RawEntry(e.id, e.encoded.value);
      var s1 := P.Next(su, s, P.Encode);
      var makeRoom := NeedsFlush(su.cfg, s.loop, raw.json);
      var flush1 := if makeRoom then FlushSteps(s.loop, net) else [];
      var room := if makeRoom then Flush(s.loop, net) else s.loop;
      var s2 := s.(loop := room, pc := P.Appending(raw));
      PlayConcat(su, s, [P.Encode], flush1);
      if makeRoom { FlushIsSteps(su, s1, net); } else { PlayNone(su, s1); }
      assert Play(su, s, [P.Encode] + flush1) == Some(s2);
      AppendIsSteps(su, s2, net);
      PlayConcat(su, s, [P.Encode] + flush1, AppendSteps(su.cfg, room, raw, net));
      assert AddSteps(su.cfg, s.loop, e, net) == [P.Encode] + flush1 + AppendSteps(su.cfg, room, raw, net);
    }
  }

  lemma PlayNone(su: P.Setup, s: P.State)
    ensures Play(su, s, []) == Some(s)
  {
  }

  lemma AppendIsSteps(su: P.Setup, s: P.State, net: nat -> Answer)
    requires s.pc.Appending?
    ensures var full := Append(s.loop, s.pc.raw);
      var l := if |full.batch| >= su.cfg.batchSize then Flush(full, net) else full;
      Play(su, s, AppendSteps(su.cfg, s.loop, s.pc.raw, net)) == Some(s.(loop := l, pc := P.Round(l)))
  {
    hide Flush, FlushSteps, Play;
    var full, s1 := Append(s.loop, s.pc.raw), P.Next(su, s, P.AppendEntry);
    PlayOne(su, s, P.AppendEntry);
    if |full.batch| >= su.cfg.batchSize {
      PlayConcat(su, s, [P.AppendEntry], FlushSteps(full, net));
      FlushIsSteps(su, s1, net);
    } else {
      assert [P.AppendEntry] + [] == [P.AppendEntry];
    }
  }

  // ----- a drain

  function DrainSteps(
      cfg: Config, l: Loop, ch: seq<LogEntry>, net: nat -> Answer, expired: nat -> bool, checks: nat): seq<P.Step>
    decreases |ch|
  {
    if expired(checks) then [P.CheckContext(true)]
    else if ch == [] then [P.CheckContext(false)] + FlushSteps(l, net) + [P.Finish]
    else
      [P.Receive] + AddSteps(cfg, l, ch[0], net)
      + DrainSteps(cfg, Add(cfg, l, ch[0], net), ch[1..], net, expired, checks + 1)
  }

  /** From the top of the drain to the exit of the loop, with what `drain` leaves behind. */
  lemma {:induction false} DrainIsSteps(su: P.Setup, s: P.State, net: nat -> Answer, expired: nat -> bool, checks: nat)
    requires s.pc.DrainTop? && s.loop.draining
    ensures var end := Play(su, s, DrainSteps(su.cfg, s.loop, s.ch, net, expired, checks));
      && end.Some?
      && end.value == s.(pc := P.Exited, ch := end.value.ch,
                         loop := Drain(su.cfg, s.loop, s.ch, net, expired, checks))
    decreases |s.ch|
  {
    hide Flush, Add, FlushSteps, AddSteps, Play, Abandon;
    if expired(checks) {
      PlayOne(su, s, P.CheckContext(true));
    } else if s.ch == [] {
      var s1 := P.Next(su, s, P.CheckContext(false));
      PlayOne(su, s, P.CheckContext(false));
      PlayConcat(su, s, [P.CheckContext(false)], FlushSteps(s.loop, net));
      FlushIsSteps(su, s1, net);
      var s2 := s1.(loop := Flush(s.loop, net), pc := P.Finishing);
      PlayOne(su, s2, P.Finish);
      PlayConcat(su, s, [P.CheckContext(false)] + FlushSteps(s.loop, net), [P.Finish]);
    } else {
      var s1 := P.Next(su, s, P.Receive);
      PlayOne(su, s, P.Receive);
      PlayConcat(su, s, [P.Receive], AddSteps(su.cfg, s.loop, s.ch[0], net));
      AddIsSteps(su, s1, net);
      KeepsDraining(su.cfg, s.loop, s.ch[0], net);
      var l := Add(su.cfg, s.loop, s.ch[0], net);
      var s2 := s1.(loop := l, pc := P.DrainTop);
      DrainIsSteps(su, s2, net, expired, checks + 1);
      PlayConcat(su, s, [P.Receive] + AddSteps(su.cfg, s.loop, s.ch[0], net),
                 DrainSteps(su.cfg, l, s.ch[1..], net, expired, checks + 1));
    }
  }

  lemma KeepsDraining(cfg: Config, l: Loop, e: LogEntry, net: nat -> Answer)
    ensures Add(cfg, l, e, net).draining == l.draining
  {
    hide Fits, NeedsFlush, Flush;
    FlushKeepsDraining(l, net);
    if e.encoded.Some? {
      var room := if NeedsFlush(cfg, l, e.encoded.value) then Flush(l, net) else l;
      FlushKeepsDraining(Append(room, RawEntry(e.id, e.encoded.value)), net);
    }
  }

  lemma FlushKeepsDraining(l: Loop, net: nat -> Answer)
    ensures Flush(l, net).draining == l.draining
  {
    hide Delivered, Retryable, Ids;
  }
}
