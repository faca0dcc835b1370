/**
 Whole runs of the suppressor: every interleaving of `Record`, timer firings, flushes and `Stop`
 (api/internal/notification/suppressor.go).
 */
module SuppressorRuns {
  import opened Common
  import opened Suppressor
  import opened SuppressorHistory
  import opened SuppressorRate

  ghost predicate IsRun(states: seq<State>, steps: seq<Step>) {
    && |states| == |steps| + 1
    && states[0] == Init(states[0].now)
    && forall i :: 0 <= i < |steps| ==> Enabled(states[i], steps[i]) && states[i + 1] == Next(states[i], steps[i])
  }

  lemma {:induction false} RunInv(states: seq<State>, steps: seq<Step>, i: nat)
    requires IsRun(states, steps) && i < |states|
    ensures TimerInv(states[i]) && CountInv(states[i]) && FiredInv(states[i])
  {
    if i > 0 {
      hide TimerInv, CountInv, FiredInv, Next, Enabled;
      RunInv(states, steps, i - 1);
      TimerStep(states[i - 1], steps[i - 1]);
      CountStep(states[i - 1], steps[i - 1]);
      FiredStep(states[i - 1], steps[i - 1]);
    } else {
      NoKeys();
    }
  }

  /**
   Every live fingerprint has exactly one outstanding timer, armed by the same incarnation and
   for its current phase; so a timer that is still out never acts on a fingerprint that was
   closed and created again, although the flushes do not check.
   */
  lemma NoStaleTimers(states: seq<State>, steps: seq<Step>, i: nat)
    requires IsRun(states, steps) && i < |states|
    ensures forall k :: k in states[i].fps ==> HasTimer(states[i], k)
    ensures !states[i].stopped ==> forall id :: id in states[i].timers ==>
      var t := states[i].timers[id];
      t.key in states[i].fps && states[i].fps[t.key].timer == id
        && t.born == states[i].fps[t.key].born && t.kind == states[i].fps[t.key].phase
  {
    RunInv(states, steps, i);
    hide CountInv, FiredInv;
    assert forall k :: k in states[i].fps ==> HasTimer(states[i], k);
  }

  /** The per-rule counters are exact, and both caps hold, in every state. */
  lemma CapsHold(states: seq<State>, steps: seq<Step>, i: nat, rule: int)
    requires IsRun(states, steps) && i < |states|
    ensures RuleCount(states[i], rule) == |Live(states[i], rule)| <= MAX_FINGERPRINTS_PER_RULE
    ensures |states[i].fps| <= MAX_FINGERPRINTS_GLOBAL
  {
    RunInv(states, steps, i);
  }

  lemma {:induction false} RunHistory(states: seq<State>, steps: seq<Step>, i: nat, k: Key)
    requires IsRun(states, steps) && i < |states|
    ensures HistoryInv(states[i], k)
  {
    if i > 0 {
      hide HistoryInv, TimerInv, CountInv, FiredInv, Next, Enabled;
      RunHistory(states, steps, i - 1, k);
      RunInv(states, steps, i - 1);
      HistoryStep(states[i - 1], steps[i - 1], k);
    }
  }

  // ----- which events are accepted

  /** Record takes the event in: the key is tracked, or fewer than 10000 keys of its rule and 50000 in all are. */
  ghost predicate Accepts(s: State, step: Step, k: Key) {
    && step.RecordEvent?
    && FingerprintKey(step.event.rule, step.event.group) == k
    && !s.stopped
    && (k in s.fps || (|Live(s, step.event.rule)| < 10000 && |s.fps| < 50000))
  }

  /** The capacity test, by the keys that are live. */
  lemma CapacityByCount(s: State, rule: int)
    requires CountInv(s)
    ensures AtCapacity(s, rule) <==> |Live(s, rule)| >= 10000 || |s.fps| >= 50000
  {
    hide RuleOf;
  }

  /** The accepted events of a key among the first i steps, with their times. */
  ghost function Accepted(states: seq<State>, steps: seq<Step>, k: Key, i: nat): seq<Mark>
    requires |states| == |steps| + 1 && i <= |steps|
  {
    if i == 0 then []
    else
      var s, step := states[i - 1], steps[i - 1];
      Accepted(states, steps, k, i - 1) + (if Accepts(s, step, k) then [Recorded(step.event.payload, s.now)] else [])
  }

  /** The recorded events of a history. */
  function RecordsOf(h: seq<Mark>): seq<Mark> {
    if h == [] then [] else RecordsOf(h[..|h| - 1]) + (if h[|h| - 1].Recorded? then [h[|h| - 1]] else [])
  }

  lemma {:induction false} RecordsLength(h: seq<Mark>)
    ensures |RecordsOf(h)| == Records(h)
  {
    if h != [] {
      RecordsLength(h[..|h| - 1]);
    }
  }

  lemma RecordsSnoc(h: seq<Mark>, m: Mark)
    ensures RecordsOf(h + [m]) == RecordsOf(h) + if m.Recorded? then [m] else []
  {
    assert (h + [m])[..|h|] == h;
  }

  lemma RecordsStep(s: State, step: Step, k: Key)
    requires CountInv(s) && Enabled(s, step)
    ensures RecordsOf(History(Next(s, step), k)) ==
      RecordsOf(History(s, k)) + if Accepts(s, step, k) then [Recorded(step.event.payload, s.now)] else []
  {
    hide FingerprintKey, TrimForDigest, RuleCount, RecordsOf, CountInv, Live;
    var h := History(s, k);
    match step
    case RecordEvent(e) =>
      CapacityByCount(s, e.rule);
      hide AtCapacity;
      var one, alert := Recorded(e.payload, s.now), Emitted(Alert(e.payload, 1), s.now);
      RecordsSnoc(h, one);
      RecordsSnoc(h + [one], alert);
      assert h + [one, alert] == h + [one] + [alert];
    case Flush(id) => FlushRecordsNothing(s, id, k);
    case _ =>
  }

  lemma FlushRecordsNothing(s: State, id: nat, k: Key)
    requires id in s.timers
    ensures RecordsOf(History(RunTimer(s, id), k)) == RecordsOf(History(s, k))
  {
    hide FingerprintKey, TrimForDigest, RuleCount, RecordsOf;
    var t, h := s.timers[id], History(s, k);
    if t.key == k && k in s.fps {
      var f := s.fps[k];
      RecordsSnoc(h, Closed);
      RecordsSnoc(h, Emitted(Alert(f.first, f.count), s.now));
      RecordsSnoc(h, Emitted(Digest(f.last, f.count, f.currentSilence), s.now));
    }
  }

  lemma {:induction false} RecordsAreAccepted(states: seq<State>, steps: seq<Step>, i: nat, k: Key)
    requires IsRun(states, steps) && i <= |steps|
    ensures RecordsOf(History(states[i], k)) == Accepted(states, steps, k, i)
  {
    if i > 0 {
      hide Next, RecordsOf, Accepts, Enabled, TimerInv, CountInv, FiredInv;
      RecordsAreAccepted(states, steps, i - 1, k);
      RunInv(states, steps, i - 1);
      RecordsStep(states[i - 1], steps[i - 1], k);
    }
  }

  /**
   Until Stop, an event for a key that is not tracked leaves no trace if and only if 10000 keys of
   its rule or 50000 keys in all are live.
   */
  lemma RefusedExactlyAtCapacity(states: seq<State>, steps: seq<Step>, i: nat)
    requires IsRun(states, steps) && i < |steps| && steps[i].RecordEvent? && !states[i].stopped
    requires FingerprintKey(steps[i].event.rule, steps[i].event.group) !in states[i].fps
    ensures var k := FingerprintKey(steps[i].event.rule, steps[i].event.group);
      History(states[i + 1], k) == History(states[i], k) <==>
        |Live(states[i], steps[i].event.rule)| >= 10000 || |states[i].fps| >= 50000
  {
    RunInv(states, steps, i);
    var s, e := states[i], steps[i].event;
    CapacityByCount(s, e.rule);
    hide TimerInv, CountInv, FiredInv, FingerprintKey, TrimForDigest, RuleCount, Live, AtCapacity;
    var h := History(s, FingerprintKey(e.rule, e.group));
    assert forall ext :: |ext| > 0 ==> |h + ext| > |h|;
  }

  /**
   Until Stop: what a key's history records are its accepted events, in order and with their times;
   their number is what its emissions reported plus what is pending in its fingerprint; and each
   emission is right for its place (Shape).
   */
  lemma NothingSwallowed(states: seq<State>, steps: seq<Step>, i: nat, k: Key)
    requires IsRun(states, steps) && i <= |steps| && !states[i].stopped
    ensures Shape(History(states[i], k))
    ensures RecordsOf(History(states[i], k)) == Accepted(states, steps, k, i)
    ensures |Accepted(states, steps, k, i)|
         == Reported(History(states[i], k)) + (if k in states[i].fps then states[i].fps[k].count else 0)
  {
    hide Accepted, Shape, Records, RecordsOf, Reported;
    RecordsAreAccepted(states, steps, i, k);
    RecordsLength(History(states[i], k));
    RunHistory(states, steps, i, k);
    GoodShape(History(states[i], k), FpOf(states[i], k));
    Conservation(History(states[i], k));
  }

  lemma {:induction false} RunRate(states: seq<State>, steps: seq<Step>, i: nat, k: Key, base: int, max: int)
    requires IsRun(states, steps) && i < |states| && base > 0 && max > 0
    requires forall j :: 0 <= j < |steps| ==> KeepsWindows(steps[j], k, base, max)
    ensures RateInv(states[i], k, base, max)
  {
    if i > 0 {
      hide RateInv, TimerInv, CountInv, FiredInv, Next, Enabled, KeepsWindows;
      RunRate(states, steps, i - 1, k, base, max);
      RunInv(states, steps, i - 1);
      RateStep(states[i - 1], steps[i - 1], k, base, max);
    }
  }

  /**
   A key whose rule keeps the same positive windows decides at most 1 + T / min(base, max)
   notifications in any span T, across closing and reopening; its digests report windows of
   base, then min((n + 1) * base, max) after n digests.
   */
  lemma NotificationRate(states: seq<State>, steps: seq<Step>, s: nat, k: Key, base: int, max: int, i: nat, j: nat,
      span: nat)
    requires IsRun(states, steps) && s < |states| && base > 0 && max > 0
    requires forall j :: 0 <= j < |steps| ==> KeepsWindows(steps[j], k, base, max)
    requires i <= j < |EmitTimes(History(states[s], k))|
    requires EmitTimes(History(states[s], k))[j] - EmitTimes(History(states[s], k))[i] <= span
    ensures j - i + 1 <= 1 + span / Min(base, max)
    ensures WindowsReported(History(states[s], k), base, max)
  {
    hide EmitTimes;
    RunRate(states, steps, s, k, base, max);
    RateBound(states[s], k, base, max, i, j, span);
  }
}
