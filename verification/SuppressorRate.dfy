/** The silence windows of the suppressor and the bound they put on how often one key notifies. */
module SuppressorRate {
  import opened Common
  import opened Suppressor
  import opened SuppressorHistory

  /** The window after n digests: the base, then growing linearly up to the maximum. */
  function Window(base: int, max: int, n: nat): int {
    if n == 0 then base else Min((n + 1) * base, max)
  }

  function Min(a: int, b: int): int {
    if a <= b then a else b
  }

  lemma WindowGrows(base: int, max: int, n: nat)
    requires base > 0 && max > 0
    ensures Window(base, max, n + 1) == Min(Window(base, max, n) + base, max)
    ensures Window(base, max, n) >= Min(base, max)
  {
    assert (n + 2) * base == (n + 1) * base + base;
    assert (n + 1) * base >= base;
  }

  /** Digests since the incarnation began. */
  function Digests(h: seq<Mark>): nat {
    if h == [] || h[|h| - 1].Closed? then 0
    else Digests(h[..|h| - 1]) + (if h[|h| - 1].Emitted? && h[|h| - 1].emission.Digest? then 1 else 0)
  }

  /** When emissions were decided. */
  function EmitTimes(h: seq<Mark>): seq<int> {
    if h == [] then []
    else EmitTimes(h[..|h| - 1]) + (if h[|h| - 1].Emitted? then [h[|h| - 1].time] else [])
  }

  lemma RateSnoc(h: seq<Mark>, m: Mark)
    ensures EmitTimes(h + [m]) == if m.Emitted? then EmitTimes(h) + [m.time] else EmitTimes(h)
    ensures Digests(h + [m]) ==
      if m.Closed? then 0 else if m.Emitted? && m.emission.Digest? then Digests(h) + 1 else Digests(h)
  {
    assert (h + [m])[..|h|] == h;
  }

  ghost predicate Spaced(times: seq<int>, gap: int) {
    forall i :: 0 < i < |times| ==> times[i] >= times[i - 1] + gap
  }

  /** Everything happened at least `gap` before `bound`. */
  ghost predicate Settled(times: seq<int>, gap: int, bound: int) {
    forall i :: 0 <= i < |times| ==> times[i] + gap <= bound
  }

  /** Every digest reports the window it closes. */
  ghost predicate WindowsReported(h: seq<Mark>, base: int, max: int) {
    forall i :: 0 <= i < |h| && h[i].Emitted? && h[i].emission.Digest? ==>
      h[i].emission.window == Window(base, max, Digests(h[..i]))
  }

  lemma WindowsSnoc(h: seq<Mark>, m: Mark, base: int, max: int)
    requires WindowsReported(h, base, max)
    requires m.Emitted? && m.emission.Digest? ==> m.emission.window == Window(base, max, Digests(h))
    ensures WindowsReported(h + [m], base, max)
  {
    forall i | 0 <= i < |h + [m]| && (h + [m])[i].Emitted? && (h + [m])[i].emission.Digest?
      ensures (h + [m])[i].emission.window == Window(base, max, Digests((h + [m])[..i]))
    {
      assert (h + [m])[..i] == if i < |h| then h[..i] else h;
    }
  }

  /** A fired timer's deadline has passed. */
  ghost predicate FiredInv(s: State) {
    forall id :: id in s.timers && s.timers[id].fired ==> s.timers[id].deadline <= s.now
  }

  lemma FiredStep(s: State, step: Step)
    requires FiredInv(s) && Enabled(s, step)
    ensures FiredInv(Next(s, step))
  {
    hide FingerprintKey, TrimForDigest;
  }

  /** The earliest moment at which a key may emit again. */
  ghost function Earliest(s: State, k: Key): int {
    if k in s.fps && s.fps[k].phase.Silenced? && s.fps[k].timer in s.timers
    then s.timers[s.fps[k].timer].deadline else s.now
  }

  /** For one key whose windows never change: spacing so far, and enough left to wait. */
  ghost predicate Paced(h: seq<Mark>, fp: Option<Fingerprint>, earliest: int, base: int, max: int) {
    && Spaced(EmitTimes(h), Min(base, max))
    && WindowsReported(h, base, max)
    && Settled(EmitTimes(h), Min(base, max), earliest)
    && (fp.None? || fp.value.phase.Coalescing? ==> Digests(h) == 0)
    && (fp.Some? ==>
          && fp.value.baseSilence == base && fp.value.maxSilence == max
          && fp.value.currentSilence == Window(base, max, Digests(h)))
  }

  lemma PacedRecord(h: seq<Mark>, fp: Option<Fingerprint>, earliest: int, base: int, max: int, p: Payload,
      time: int, f: Fingerprint)
    requires Paced(h, fp, earliest, base, max)
    requires fp.Some? ==> f == fp.value.(count := f.count, last := f.last)
    requires fp.None? ==> f.baseSilence == f.currentSilence == base && f.maxSilence == max
    ensures Paced(h + [Recorded(p, time)], Some(f), earliest, base, max)
  {
    hide EmitTimes, Digests, WindowsReported, Spaced, Settled;
    RateSnoc(h, Recorded(p, time));
    WindowsSnoc(h, Recorded(p, time), base, max);
  }

  lemma PacedEmit(h: seq<Mark>, f: Fingerprint, earliest: int, base: int, max: int, e: Emission, now: int,
      f': Fingerprint)
    requires Paced(h, Some(f), earliest, base, max) && earliest <= now && base > 0 && max > 0
    requires e.Alert? ==> Digests(h) == 0 && f'.currentSilence == f.currentSilence
    requires e.Digest? ==> e.window == f.currentSilence && f'.currentSilence == NextSilence(f)
    requires f'.phase.Silenced? && f'.baseSilence == base && f'.maxSilence == max
    ensures Paced(h + [Emitted(e, now)], Some(f'), now + f'.currentSilence, base, max)
  {
    hide EmitTimes, Digests, WindowsReported, Window;
    RateSnoc(h, Emitted(e, now));
    WindowsSnoc(h, Emitted(e, now), base, max);
    WindowGrows(base, max, Digests(h));
    WindowGrows(base, max, Digests(h) + 1);
  }

  lemma PacedClose(h: seq<Mark>, f: Fingerprint, earliest: int, base: int, max: int, now: int)
    requires Paced(h, Some(f), earliest, base, max) && earliest <= now
    ensures Paced(h + [Closed], None, now, base, max)
  {
    hide EmitTimes, Digests, WindowsReported, Window;
    RateSnoc(h, Closed);
    WindowsSnoc(h, Closed, base, max);
  }

  ghost predicate RateInv(s: State, k: Key, base: int, max: int) {
    && Spaced(EmitTimes(History(s, k)), Min(base, max))
    && WindowsReported(History(s, k), base, max)
    && (!s.stopped ==> Paced(History(s, k), FpOf(s, k), Earliest(s, k), base, max))
  }

  /** The key's events all come with these windows. */
  predicate KeepsWindows(step: Step, k: Key, base: int, max: int) {
    step.RecordEvent? && FingerprintKey(step.event.rule, step.event.group) == k ==>
      step.event.silence == base && step.event.silenceMax == max
  }

  lemma RateStep(s: State, step: Step, k: Key, base: int, max: int)
    requires TimerInv(s) && FiredInv(s) && RateInv(s, k, base, max) && Enabled(s, step)
    requires base > 0 && max > 0 && KeepsWindows(step, k, base, max)
    ensures RateInv(Next(s, step), k, base, max)
  {
    hide WindowsReported, Spaced, Window, EmitTimes, Digests, Record, RunTimer;
    match step
    case RecordEvent(e) => RecordRate(s, e, k, base, max);
    case Flush(id) => FlushRate(s, id, k, base, max);
    case _ =>
  }

  lemma RecordRate(s: State, e: Event, k: Key, base: int, max: int)
    requires TimerInv(s) && RateInv(s, k, base, max) && base > 0 && max > 0
    requires KeepsWindows(RecordEvent(e), k, base, max)
    ensures RateInv(Record(s, e), k, base, max)
  {
    var key, h, s' := FingerprintKey(e.rule, e.group), History(s, k), Record(s, e);
    hide WindowsReported, Spaced, Paced, EmitTimes, Digests, TrimForDigest, RuleCount, FingerprintKey, TimerInv;
    if k != key || s.stopped || k in s.fps {
      RecordWaits(s, e, k);
      if k == key && !s.stopped {
        PacedRecord(h, FpOf(s, k), Earliest(s, k), base, max, e.payload, s.now, s'.fps[k]);
      }
    } else if !AtCapacity(s, e.rule) {
      var f := s'.fps[k];
      if e.coalesce > 0 {
        PacedRecord(h, None, s.now, base, max, e.payload, s.now, f);
      } else {
        PacedOpen(h, s.now, base, max, e.payload, f);
      }
    }
    PacedSpaced(History(s', k), FpOf(s', k), Earliest(s', k), base, max);
  }

  lemma PacedOpen(h: seq<Mark>, now: int, base: int, max: int, p: Payload, f: Fingerprint)
    requires Paced(h, None, now, base, max) && base > 0 && max > 0
    requires f.phase.Silenced? && f.baseSilence == f.currentSilence == base && f.maxSilence == max
    ensures Paced(h + [Recorded(p, now), Emitted(Alert(p, 1), now)], Some(f), now + f.currentSilence, base, max)
  {
    hide Paced, Digests;
    var g := f.(phase := Coalescing);
    PacedRecord(h, None, now, base, max, p, now, g);
    PacedFresh(h + [Recorded(p, now)], g, now, base, max);
    PacedEmit(h + [Recorded(p, now)], g, now, base, max, Alert(p, 1), now, f);
    assert h + [Recorded(p, now), Emitted(Alert(p, 1), now)] == h + [Recorded(p, now)] + [Emitted(Alert(p, 1), now)];
  }

  /** Recording for one key moves no other key's timer, nor that of a live fingerprint. */
  lemma RecordWaits(s: State, e: Event, k: Key)
    requires TimerInv(s) && (k != FingerprintKey(e.rule, e.group) || s.stopped || k in s.fps)
    ensures Earliest(Record(s, e), k) == Earliest(s, k)
  {
    hide FingerprintKey, TrimForDigest, RuleCount;
    if k in s.fps {
      assert HasTimer(s, k) && TimerKnown(s, s.fps[k].timer);
    }
  }

  lemma FlushWaits(s: State, id: nat, k: Key)
    requires TimerInv(s) && id in s.timers && (s.timers[id].key != k || s.stopped)
    ensures var s' := RunTimer(s, id);
      Earliest(s', k) == Earliest(s, k) && History(s', k) == History(s, k) && FpOf(s', k) == FpOf(s, k)
        && s'.stopped == s.stopped
  {
    hide FingerprintKey, RuleCount;
    if k in s.fps {
      assert HasTimer(s, k) && TimerKnown(s, s.fps[k].timer);
    }
  }

  lemma PacedFresh(h: seq<Mark>, f: Fingerprint, earliest: int, base: int, max: int)
    requires Paced(h, Some(f), earliest, base, max) && f.phase.Coalescing?
    ensures Digests(h) == 0
  {
  }

  lemma PacedSpaced(h: seq<Mark>, fp: Option<Fingerprint>, earliest: int, base: int, max: int)
    ensures Paced(h, fp, earliest, base, max) ==> Spaced(EmitTimes(h), Min(base, max)) && WindowsReported(h, base, max)
    ensures Paced(h, fp, earliest, base, max) && fp.Some? ==> fp.value.baseSilence == base && fp.value.maxSilence == max
  {
  }

  lemma FlushRate(s: State, id: nat, k: Key, base: int, max: int)
    requires TimerInv(s) && FiredInv(s) && RateInv(s, k, base, max) && base > 0 && max > 0
    requires id in s.timers && s.timers[id].fired
    ensures RateInv(RunTimer(s, id), k, base, max)
  {
    var s' := RunTimer(s, id);
    hide WindowsReported, Spaced, Paced, EmitTimes, FingerprintKey, Digests, TimerKnown, RunTimer, History, Earliest;
    hide FpOf;
    if s.timers[id].key != k || s.stopped {
      FlushWaits(s, id, k);
    } else {
      assert HasTimer(s, k) && s.fps[k].timer == id;
      hide TimerInv;
      EarliestReached(s, k);
      FlushPaced(s, id, k, base, max);
    }
    PacedSpaced(History(s', k), FpOf(s', k), Earliest(s', k), base, max);
  }

  lemma FlushPaced(s: State, id: nat, k: Key, base: int, max: int)
    requires id in s.timers && !s.stopped && k in s.fps && HasTimer(s, k) && s.fps[k].timer == id
      && s.timers[id].key == k
    requires Paced(History(s, k), FpOf(s, k), Earliest(s, k), base, max) && Earliest(s, k) <= s.now && base > 0
      && max > 0
    ensures Paced(History(RunTimer(s, id), k), FpOf(RunTimer(s, id), k), Earliest(RunTimer(s, id), k), base, max)
    ensures !RunTimer(s, id).stopped
  {
    hide Paced, RuleCount, FingerprintKey, Digests;
    var f, h, s' := s.fps[k], History(s, k), RunTimer(s, id);
    PacedSpaced(h, Some(f), Earliest(s, k), base, max);
    if f.phase.Coalescing? {
      PacedFresh(h, f, s.now, base, max);
      PacedEmit(h, f, s.now, base, max, Alert(f.first, f.count), s.now, s'.fps[k]);
    } else if f.count == 0 {
      PacedClose(h, f, Earliest(s, k), base, max, s.now);
    } else {
      PacedEmit(h, f, Earliest(s, k), base, max, Digest(f.last, f.count, f.currentSilence), s.now, s'.fps[k]);
    }
  }

  lemma EarliestReached(s: State, k: Key)
    requires FiredInv(s) && k in s.fps && s.fps[k].timer in s.timers && s.timers[s.fps[k].timer].fired
    ensures Earliest(s, k) <= s.now
  {
  }

  // ----- how often a key can notify

  lemma {:induction false} SpacedFarther(times: seq<int>, gap: int, i: nat, j: nat)
    requires Spaced(times, gap) && i <= j < |times|
    ensures times[j] - times[i] >= (j - i) * gap
  {
    if i < j {
      SpacedFarther(times, gap, i, j - 1);
      assert (j - i) * gap == (j - 1 - i) * gap + gap;
    }
  }

  /** At most 1 + T / min(base, max) emissions are decided in any span of length T. */
  lemma RateBound(s: State, k: Key, base: int, max: int, i: nat, j: nat, span: nat)
    requires RateInv(s, k, base, max) && base > 0 && max > 0
    requires i <= j < |EmitTimes(History(s, k))|
    requires EmitTimes(History(s, k))[j] - EmitTimes(History(s, k))[i] <= span
    ensures j - i + 1 <= 1 + span / Min(base, max)
  {
    var gap, d := Min(base, max), j - i;
    SpacedFarther(EmitTimes(History(s, k)), gap, i, j);
    Quotient(d, gap, span);
  }

  lemma Quotient(d: nat, gap: int, span: nat)
    requires gap > 0 && d * gap <= span
    ensures d <= span / gap
  {
    var q := span / gap;
    assert span < (q + 1) * gap;
    assert d >= q + 1 ==> d * gap >= (q + 1) * gap;
  }
}
