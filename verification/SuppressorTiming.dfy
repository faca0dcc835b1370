/**
 When the suppressor decides (api/internal/notification/suppressor.go): timers are armed for
 exactly their windows.
 */
module SuppressorTiming {
  import opened Common
  import opened Suppressor
  import opened SuppressorHistory
  import opened SuppressorRate
  import opened SuppressorRuns

  /** When the event or emission was that the current window began with. */
  function Since(h: seq<Mark>, fp: Fingerprint): int {
    var n := Trailing(h);
    if fp.phase.Coalescing? then (if 0 < n then h[|h| - n].time else 0)
    else if n < |h| && h[|h| - n - 1].Emitted? then h[|h| - n - 1].time else 0
  }

  function WindowOf(fp: Fingerprint): int {
    if fp.phase.Coalescing? then fp.coalesce else fp.currentSilence
  }

  /** The timer is due exactly one window after the window began. */
  ghost predicate OnTime(h: seq<Mark>, fp: Fingerprint, deadline: int) {
    deadline == Since(h, fp) + WindowOf(fp)
  }

  lemma RecordedOnTime(h: seq<Mark>, fp: Fingerprint, deadline: int, m: Mark, fp': Fingerprint)
    requires OnTime(h, fp, deadline) && Linked(h, Some(fp)) && m.Recorded?
    requires fp' == fp.(count := fp'.count, last := fp'.last)
    ensures OnTime(h + [m], fp', deadline)
  {
    TrailingSnoc(h, m);
    hide Trailing;
    var n := Trailing(h);
    assert n < |h| ==> (h + [m])[|h| - n - 1] == h[|h| - n - 1];
    assert n > 0 ==> (h + [m])[|h| - n] == h[|h| - n];
  }

  lemma OpenedOnTime(h: seq<Mark>, fp: Fingerprint, m: Mark)
    requires fp.phase.Coalescing? && m.Recorded? && Trailing(h) == 0
    ensures OnTime(h + [m], fp, m.time + fp.coalesce)
  {
    TrailingSnoc(h, m);
  }

  lemma EmittedOnTime(h: seq<Mark>, fp: Fingerprint, m: Mark)
    requires fp.phase.Silenced? && m.Emitted?
    ensures OnTime(h + [m], fp, m.time + fp.currentSilence)
  {
    TrailingSnoc(h, m);
  }

  ghost predicate DeadlineInv(s: State, k: Key) {
    !s.stopped && k in s.fps && s.fps[k].timer in s.timers ==>
      OnTime(History(s, k), s.fps[k], s.timers[s.fps[k].timer].deadline)
  }

  lemma DeadlineStep(s: State, step: Step, k: Key)
    requires TimerInv(s) && HistoryInv(s, k) && DeadlineInv(s, k) && Enabled(s, step)
    ensures DeadlineInv(Next(s, step), k)
  {
    hide OnTime, Record, RunTimer, HistoryInv;
    match step
    case RecordEvent(e) => RecordDeadline(s, e, k);
    case Flush(id) => FlushDeadline(s, id, k);
    case _ =>
  }

  lemma RecordDeadline(s: State, e: Event, k: Key)
    requires TimerInv(s) && HistoryInv(s, k) && DeadlineInv(s, k)
    ensures DeadlineInv(Record(s, e), k)
  {
    hide FingerprintKey, AtCapacity, TimerInv, HistoryInv, DeadlineInv, Accumulate, OpenCoalescing, OpenSilenced;
    if k != FingerprintKey(e.rule, e.group) {
      hide Record;
      DeadlineElsewhere(s, e, k);
    } else if !s.stopped {
      if k in s.fps {
        AccumulateDeadline(s, e.payload, k);
      } else if !AtCapacity(s, e.rule) {
        OpenDeadline(s, e, k);
      }
    }
  }

  lemma DeadlineElsewhere(s: State, e: Event, k: Key)
    requires TimerInv(s) && DeadlineInv(s, k) && k != FingerprintKey(e.rule, e.group)
    ensures DeadlineInv(Record(s, e), k)
  {
    if k in s.fps {
      assert HasTimer(s, k) && TimerKnown(s, s.fps[k].timer);
    }
    hide FingerprintKey, AtCapacity, TimerInv, DeadlineInv, Accumulate, OpenCoalescing, OpenSilenced;
    var key := FingerprintKey(e.rule, e.group);
    if !s.stopped && key in s.fps {
      AccumulateElsewhere(s, key, e.payload, k);
    } else if !s.stopped && !AtCapacity(s, e.rule) {
      OpenElsewhere(s, key, e, k);
    }
  }

  lemma AccumulateElsewhere(s: State, key: Key, p: Payload, k: Key)
    requires DeadlineInv(s, k) && key in s.fps && key != k
    ensures DeadlineInv(Accumulate(s, key, p), k)
  {
    hide TrimForDigest, OnTime;
  }

  lemma OpenElsewhere(s: State, key: Key, e: Event, k: Key)
    requires DeadlineInv(s, k) && key != k
    requires k in s.fps ==> s.fps[k].timer < s.nextTimer && s.fps[k].timer in s.timers
    ensures DeadlineInv(OpenCoalescing(s, key, e), k) && DeadlineInv(OpenSilenced(s, key, e), k)
  {
    hide TrimForDigest, RuleCount, OnTime;
  }

  lemma AccumulateDeadline(s: State, p: Payload, k: Key)
    requires HistoryInv(s, k) && DeadlineInv(s, k) && !s.stopped && k in s.fps
    ensures DeadlineInv(Accumulate(s, k, p), k)
  {
    hide TrimForDigest, OnTime, Linked, Shape;
    if s.fps[k].timer in s.timers {
      var f := s.fps[k];
      var f' := f.(count := f.count + 1, last := TrimForDigest(p));
      RecordedOnTime(History(s, k), f, s.timers[f.timer].deadline, Recorded(p, s.now), f');
    }
  }

  lemma OpenDeadline(s: State, e: Event, k: Key)
    requires HistoryInv(s, k) && !s.stopped && k !in s.fps
    ensures DeadlineInv(OpenCoalescing(s, k, e), k)
    ensures DeadlineInv(OpenSilenced(s, k, e), k)
  {
    hide OnTime, TrimForDigest, RuleCount, Shape;
    var h := History(s, k);
    var one, alert := Recorded(e.payload, s.now), Emitted(Alert(e.payload, 1), s.now);
    NothingPending(h);
    hide Linked, Trailing;
    OpenedOnTime(h, OpenCoalescing(s, k, e).fps[k], one);
    EmittedOnTime(h + [one], OpenSilenced(s, k, e).fps[k], alert);
    assert h + [one, alert] == h + [one] + [alert];
  }

  lemma NothingPending(h: seq<Mark>)
    requires Linked(h, None)
    ensures Trailing(h) == 0
  {
  }

  lemma FlushDeadline(s: State, id: nat, k: Key)
    requires TimerInv(s) && DeadlineInv(s, k) && id in s.timers
    ensures DeadlineInv(RunTimer(s, id), k)
  {
    hide OnTime, FingerprintKey, TrimForDigest, RuleCount;
    var t, h := s.timers[id], History(s, k);
    if k in s.fps {
      assert HasTimer(s, k) && TimerKnown(s, s.fps[k].timer);
    }
    if !s.stopped && t.key == k {
      assert k in s.fps && s.fps[k].timer == id;
      hide TimerInv, TimerKnown;
      var f, s' := s.fps[k], RunTimer(s, id);
      if f.phase.Coalescing? {
        EmittedOnTime(h, s'.fps[k], Emitted(Alert(f.first, f.count), s.now));
      } else if f.count > 0 {
        EmittedOnTime(h, s'.fps[k], Emitted(Digest(f.last, f.count, f.currentSilence), s.now));
      }
    }
  }

  lemma NothingYet(now: int, k: Key, c: int)
    ensures DeadlineInv(Init(now), k) && WaitInv(Init(now), k, c)
  {
    hide OnTime, AlertWaited;
  }

  lemma {:induction false} RunDeadline(states: seq<State>, steps: seq<Step>, i: nat, k: Key)
    requires IsRun(states, steps) && i < |states|
    ensures DeadlineInv(states[i], k)
  {
    hide HistoryInv, DeadlineInv, TimerInv, CountInv, FiredInv, Next, Enabled;
    if i == 0 {
      NothingYet(states[0].now, k, 0);
    } else {
      RunDeadline(states, steps, i - 1, k);
      RunInv(states, steps, i - 1);
      RunHistory(states, steps, i - 1, k);
      DeadlineStep(states[i - 1], steps[i - 1], k);
    }
  }

  /**
   In every run, a fingerprint's timer is due exactly one window after the window began: coalescing,
   `coalesce` after the first event since it was clean; silenced, the current silence after its last
   emission.
   */
  lemma TimersAreExact(states: seq<State>, steps: seq<Step>, i: nat, k: Key)
    requires IsRun(states, steps) && i < |states| && k in states[i].fps
    ensures states[i].fps[k].timer in states[i].timers
    ensures var h, fp := History(states[i], k), states[i].fps[k];
      var n, deadline := fp.count, states[i].timers[fp.timer].deadline;
      && n <= |h| && (forall j :: |h| - n <= j < |h| ==> h[j].Recorded?)
      && (fp.phase.Coalescing? ==> 0 < n && deadline == h[|h| - n].time + fp.coalesce)
      && (fp.phase.Silenced? ==>
          n < |h| && h[|h| - n - 1].Emitted? && deadline == h[|h| - n - 1].time + fp.currentSilence)
  {
    hide TimerInv, CountInv, FiredInv, HistoryInv, DeadlineInv, Next, Enabled, OnTime, Linked, Trailing;
    RunDeadline(states, steps, i, k);
    RunInv(states, steps, i);
    RunHistory(states, steps, i, k);
    LiveTimer(states[i], k);
    ExactWindow(History(states[i], k), states[i].fps[k], states[i].timers[states[i].fps[k].timer].deadline);
  }

  lemma LiveTimer(s: State, k: Key)
    requires TimerInv(s) && HistoryInv(s, k) && DeadlineInv(s, k) && k in s.fps
    ensures s.fps[k].timer in s.timers && Linked(History(s, k), Some(s.fps[k]))
    ensures OnTime(History(s, k), s.fps[k], s.timers[s.fps[k].timer].deadline)
  {
    hide Shape, OnTime, Linked, TimerKnown;
    assert HasTimer(s, k);
  }

  lemma ExactWindow(h: seq<Mark>, fp: Fingerprint, deadline: int)
    requires OnTime(h, fp, deadline) && Linked(h, Some(fp))
    ensures var n := fp.count;
      && n <= |h| && (forall j :: |h| - n <= j < |h| ==> h[j].Recorded?)
      && (fp.phase.Coalescing? ==> 0 < n && deadline == h[|h| - n].time + fp.coalesce)
      && (fp.phase.Silenced? ==>
          n < |h| && h[|h| - n - 1].Emitted? && deadline == h[|h| - n - 1].time + fp.currentSilence)
  {
    hide TrimForDigest;
  }

  // ----- coalesced alerts

  /** The key's events all come with this coalesce window. */
  predicate KeepsCoalesce(step: Step, k: Key, c: int) {
    step.RecordEvent? && FingerprintKey(step.event.rule, step.event.group) == k ==> step.event.coalesce == c
  }

  /** Every alert was decided `c` or more after the first event it reports, and at once if there is no window. */
  ghost predicate AlertsWait(h: seq<Mark>, c: int) {
    forall i :: 0 <= i < |h| && h[i].Emitted? && h[i].emission.Alert? ==> AlertWaited(h[..i], h[i].time, c)
  }

  ghost predicate AlertWaited(before: seq<Mark>, time: int, c: int) {
    var n := Trailing(before);
    0 < n && if c > 0 then time >= before[|before| - n].time + c else time == before[|before| - n].time
  }

  lemma WaitSnoc(h: seq<Mark>, m: Mark, c: int)
    requires AlertsWait(h, c) && (m.Emitted? && m.emission.Alert? ==> AlertWaited(h, m.time, c))
    ensures AlertsWait(h + [m], c)
  {
    hide AlertWaited;
    forall i | 0 <= i < |h + [m]| && (h + [m])[i].Emitted? && (h + [m])[i].emission.Alert?
      ensures AlertWaited((h + [m])[..i], (h + [m])[i].time, c)
    {
      assert (h + [m])[..i] == if i < |h| then h[..i] else h;
    }
  }

  ghost predicate WaitInv(s: State, k: Key, c: int) {
    && AlertsWait(History(s, k), c)
    && (!s.stopped && k in s.fps ==> s.fps[k].coalesce == c && (s.fps[k].phase.Coalescing? ==> c > 0))
  }

  lemma WaitStep(s: State, step: Step, k: Key, c: int)
    requires TimerInv(s) && FiredInv(s) && HistoryInv(s, k) && DeadlineInv(s, k) && WaitInv(s, k, c)
    requires Enabled(s, step) && KeepsCoalesce(step, k, c)
    ensures WaitInv(Next(s, step), k, c)
  {
    hide AlertsWait, Record, RunTimer, HistoryInv, DeadlineInv;
    match step
    case RecordEvent(e) => RecordWait(s, e, k, c);
    case Flush(id) => FlushWait(s, id, k, c);
    case _ =>
  }

  lemma RecordWait(s: State, e: Event, k: Key, c: int)
    requires HistoryInv(s, k) && WaitInv(s, k, c) && KeepsCoalesce(RecordEvent(e), k, c)
    ensures WaitInv(Record(s, e), k, c)
  {
    hide FingerprintKey, AtCapacity, HistoryInv, WaitInv, Accumulate, OpenCoalescing, OpenSilenced;
    var key := FingerprintKey(e.rule, e.group);
    if !s.stopped && key in s.fps {
      AccumulateWait(s, key, e.payload, k, c);
    } else if !s.stopped && !AtCapacity(s, e.rule) {
      OpenWait(s, key, e, k, c);
    }
  }

  lemma AccumulateWait(s: State, key: Key, p: Payload, k: Key, c: int)
    requires WaitInv(s, k, c) && key in s.fps
    ensures WaitInv(Accumulate(s, key, p), k, c)
  {
    hide AlertsWait, TrimForDigest;
    WaitSnoc(History(s, k), Recorded(p, s.now), c);
  }

  lemma OpenWait(s: State, key: Key, e: Event, k: Key, c: int)
    requires HistoryInv(s, k) && WaitInv(s, k, c) && key !in s.fps && !s.stopped && (key == k ==> e.coalesce == c)
    ensures e.coalesce > 0 ==> WaitInv(OpenCoalescing(s, key, e), k, c)
    ensures e.coalesce <= 0 ==> WaitInv(OpenSilenced(s, key, e), k, c)
  {
    hide AlertsWait, TrimForDigest, RuleCount, Shape;
    if key == k {
      var h, one, alert := History(s, k), Recorded(e.payload, s.now), Emitted(Alert(e.payload, 1), s.now);
      NothingPending(h);
      hide Linked;
      TrailingSnoc(h, one);
      WaitSnoc(h, one, c);
      if c <= 0 {
        WaitSnoc(h + [one], alert, c);
        assert h + [one, alert] == h + [one] + [alert];
      }
    }
  }

  lemma FlushWait(s: State, id: nat, k: Key, c: int)
    requires TimerInv(s) && FiredInv(s) && HistoryInv(s, k) && DeadlineInv(s, k) && WaitInv(s, k, c)
    requires id in s.timers && s.timers[id].fired
    ensures WaitInv(RunTimer(s, id), k, c)
  {
    hide AlertsWait, FingerprintKey, TrimForDigest, RuleCount, Shape;
    var t, h := s.timers[id], History(s, k);
    if !s.stopped && t.key == k {
      assert k in s.fps && s.fps[k].timer == id && HasTimer(s, k);
      hide TimerInv;
      var f := s.fps[k];
      WaitSnoc(h, Closed, c);
      WaitSnoc(h, Emitted(Digest(f.last, f.count, f.currentSilence), s.now), c);
      if f.phase.Coalescing? {
        WaitSnoc(h, Emitted(Alert(f.first, f.count), s.now), c);
      }
    }
  }

  lemma {:induction false} RunWait(states: seq<State>, steps: seq<Step>, i: nat, k: Key, c: int)
    requires IsRun(states, steps) && i < |states|
    requires forall j :: 0 <= j < |steps| ==> KeepsCoalesce(steps[j], k, c)
    ensures WaitInv(states[i], k, c)
  {
    hide HistoryInv, DeadlineInv, TimerInv, CountInv, FiredInv, WaitInv, Next, Enabled, KeepsCoalesce;
    if i == 0 {
      NothingYet(states[0].now, k, c);
    } else {
      RunWait(states, steps, i - 1, k, c);
      RunInv(states, steps, i - 1);
      RunHistory(states, steps, i - 1, k);
      RunDeadline(states, steps, i - 1, k);
      WaitStep(states[i - 1], steps[i - 1], k, c);
    }
  }

  /**
   A key whose rule keeps the same coalesce window c alerts no earlier than c after the first event
   the alert reports, and at the very time of that event when there is no window.
   */
  lemma AlertsCoalesce(states: seq<State>, steps: seq<Step>, i: nat, k: Key, c: int, at: nat)
    requires IsRun(states, steps) && i < |states|
    requires forall j :: 0 <= j < |steps| ==> KeepsCoalesce(steps[j], k, c)
    requires at < |History(states[i], k)| && History(states[i], k)[at].Emitted?
    requires History(states[i], k)[at].emission.Alert?
    ensures var h := History(states[i], k);
      var first := at - h[at].emission.count;
      && 0 <= first < at && (forall j :: first <= j < at ==> h[j].Recorded?)
      && if c > 0 then h[at].time >= h[first].time + c else h[at].time == h[first].time
  {
    hide KeepsCoalesce, Next, Enabled, Good, Shape, AlertsWait;
    RunWait(states, steps, i, k, c);
    RunHistory(states, steps, i, k);
    AlertAt(History(states[i], k), at, c);
  }

  lemma AlertAt(h: seq<Mark>, at: nat, c: int)
    requires Shape(h) && AlertsWait(h, c) && at < |h| && h[at].Emitted? && h[at].emission.Alert?
    ensures var first := at - h[at].emission.count;
      && 0 <= first < at && (forall j :: first <= j < at ==> h[j].Recorded?)
      && if c > 0 then h[at].time >= h[first].time + c else h[at].time == h[first].time
  {
    var before := h[..at];
    assert MarkOk(before, h[at]) && AlertWaited(before, h[at].time, c);
    hide Shape, AlertsWait, TrimForDigest;
    assert forall j :: 0 <= j < at ==> before[j] == h[j];
  }

  // ----- what the history records

  /** A step's marks are of its own time; an event leaves a record of itself, alone or with the alert at once. */
  lemma HistoryGrows(s: State, step: Step, k: Key)
    requires Enabled(s, step)
    ensures var h, h' := History(s, k), History(Next(s, step), k);
      match step
      case RecordEvent(e) =>
        var one := Recorded(e.payload, s.now);
        || h' == h
        || (FingerprintKey(e.rule, e.group) == k
            && (h' == h + [one] || h' == h + [one, Emitted(Alert(e.payload, 1), s.now)]))
      case Flush(_) => h' == h || h' == h + [Closed] || exists e :: h' == h + [Emitted(e, s.now)]
      case _ => h' == h
  {
    hide FingerprintKey, TrimForDigest, RuleCount, AtCapacity;
    match step
    case Flush(id) => FlushGrows(s, id, k);
    case _ =>
  }

  lemma FlushGrows(s: State, id: nat, k: Key)
    requires id in s.timers
    ensures var h, h' := History(s, k), History(RunTimer(s, id), k);
      h' == h || h' == h + [Closed] || exists e :: h' == h + [Emitted(e, s.now)]
  {
    hide FingerprintKey, TrimForDigest, RuleCount;
    var t, h, s' := s.timers[id], History(s, k), RunTimer(s, id);
    if !s.stopped && t.key == k && k in s.fps {
      var f := s.fps[k];
      if t.kind.Coalescing? {
        assert History(s', k) == h + [Emitted(Alert(f.first, f.count), s.now)];
      } else if f.count > 0 {
        assert History(s', k) == h + [Emitted(Digest(f.last, f.count, f.currentSilence), s.now)];
      }
    }
  }
}
