/**
 The suppressor as an object whose critical sections update its fields in place; each is
 proved to be the transition of the same name in `Suppressor`.
 */
module SuppressorObject {
  import opened Common
  import opened Suppressor
  import opened SuppressorHistory

  class Monitor {
    var fingerprints: map<Key, Fingerprint>
    var ruleFingerprintCount: map<int, int>
    var stopped: bool
    /** The runtime's outstanding timers, the callbacks the wait group counts, and the clock. */
    var timers: map<nat, Timer>
    var nextTimer: nat
    var inflight: set<nat>
    var nextToken: nat
    var now: int
    ghost var hist: map<Key, seq<Mark>>

    ghost function Snapshot(): State
      reads this
    {
      State(fingerprints, ruleFingerprintCount, stopped, timers, nextTimer, inflight, nextToken, now, hist)
    }

    constructor (now: int)
      ensures Snapshot() == Init(now)
    {
      fingerprints, ruleFingerprintCount, stopped := map[], map[], false;
      timers, nextTimer, inflight, nextToken, hist := map[], 0, {}, 0, map[];
      this.now := now;
    }

    /** time.AfterFunc. */
    method AfterFunc(d: int, kind: Phase, rule: int, group: seq<byte>, key: Key, born: nat)
      modifies this`timers, this`nextTimer
      ensures timers == old(timers)[old(nextTimer) := Timer(kind, rule, group, key, now + d, false, born)]
      ensures nextTimer == old(nextTimer) + 1
    {
      timers := timers[nextTimer := Timer(kind, rule, group, key, now + d, false, born)];
      nextTimer := nextTimer + 1;
    }

    /** inflightWg.Add(1). */
    method AddInflight()
      modifies this`inflight, this`nextToken
      ensures inflight == old(inflight) + {old(nextToken)} && nextToken == old(nextToken) + 1
    {
      inflight, nextToken := inflight + {nextToken}, nextToken + 1;
    }

    /** Adds a fingerprint, counts it for its rule, and arms its timer. */
    method Track(key: Key, fp: Fingerprint, e: Event, delay: int)
      modifies this`fingerprints, this`ruleFingerprintCount, this`timers, this`nextTimer
      ensures fingerprints == old(fingerprints)[key := fp]
      ensures ruleFingerprintCount == old(ruleFingerprintCount)[e.rule := RuleCount(old(Snapshot()), e.rule) + 1]
      ensures timers ==
        old(timers)[old(nextTimer) := Timer(fp.phase, e.rule, e.group, key, now + delay, false, fp.born)]
      ensures nextTimer == old(nextTimer) + 1
    {
      fingerprints := fingerprints[key := fp];
      var tracked := if e.rule in ruleFingerprintCount then ruleFingerprintCount[e.rule] else 0;
      ruleFingerprintCount := ruleFingerprintCount[e.rule := tracked + 1];
      AfterFunc(delay, fp.phase, e.rule, e.group, key, fp.born);
    }

    /** The part of `Record` for a key that is already tracked. */
    method CountAnother(key: Key, e: Event)
      requires key in fingerprints
      modifies this`fingerprints, this`hist
      ensures Snapshot() == Accumulate(old(Snapshot()), key, e.payload)
    {
      hide TrimForDigest;
      ghost var before := History(Snapshot(), key);
      var fp := fingerprints[key];
      fingerprints := fingerprints[key := fp.(count := fp.count + 1, last := TrimForDigest(e.payload))];
      hist := hist[key := before + [Recorded(e.payload, now)]];
    }

    /** The part of `Record` that starts a fingerprint, coalescing or with an immediate alert. */
    method StartFingerprint(key: Key, e: Event) returns (alert: Option<Emission>)
      modifies this
      ensures Snapshot() == if e.coalesce > 0 then OpenCoalescing(old(Snapshot()), key, e)
        else OpenSilenced(old(Snapshot()), key, e)
      ensures alert == if e.coalesce > 0 then None else Some(Alert(e.payload, 1))
    {
      hide TrimForDigest, History, RuleCount;
      ghost var before := History(Snapshot(), key);
      var fp := Fingerprint(Silenced, NO_PAYLOAD, TrimForDigest(e.payload), 1, e.silence, e.silence, e.silenceMax,
        e.coalesce, nextTimer, nextTimer);
      if e.coalesce > 0 {
        fp := fp.(first := e.payload, phase := Coalescing);
        Track(key, fp, e, e.coalesce);
        hist := hist[key := before + [Recorded(e.payload, now)]];
        return None;
      }
      fp := fp.(count := 0);
      Track(key, fp, e, fp.currentSilence);
      hist := hist[key := before + [Recorded(e.payload, now), Emitted(Alert(e.payload, 1), now)]];
      AddInflight();
      return Some(Alert(e.payload, 1));
    }

    /** `Record`; returns what it hands to onFlush after unlocking. */
    method Record(e: Event) returns (alert: Option<Emission>)
      modifies this
      ensures Snapshot() == Suppressor.Record(old(Snapshot()), e)
      ensures alert.Some? <==>
        && !old(stopped) && FingerprintKey(e.rule, e.group) !in old(fingerprints) && e.coalesce <= 0
        && (e.rule in old(ruleFingerprintCount) ==> old(ruleFingerprintCount)[e.rule] < 10000)
        && |old(fingerprints)| < 50000
      ensures CountInv(old(Snapshot())) ==>
        (alert.Some? <==>
         && !old(stopped) && FingerprintKey(e.rule, e.group) !in old(fingerprints) && e.coalesce <= 0
         && |Live(old(Snapshot()), e.rule)| < 10000 && |old(fingerprints)| < 50000)
      ensures alert.Some? ==> alert.value == Alert(e.payload, 1)
    {
      hide FingerprintKey, Accumulate, OpenCoalescing, OpenSilenced, CountInv, Live;
      CountMeans(Snapshot(), e.rule);
      var key := FingerprintKey(e.rule, e.group);
      alert := None;
      if stopped {
        return;
      }
      if key in fingerprints {
        CountAnother(key, e);
        return;
      }
      var tracked := if e.rule in ruleFingerprintCount then ruleFingerprintCount[e.rule] else 0;
      if tracked >= MAX_FINGERPRINTS_PER_RULE || |fingerprints| >= MAX_FINGERPRINTS_GLOBAL {
        return;
      }
      alert := StartFingerprint(key, e);
    }

    /** The common end of both flushes: a silence timer is armed and the fingerprint goes on. */
    method Rearm(t: Timer, fp: Fingerprint, e: Emission)
      modifies this
      ensures Snapshot() == EmitAndRearm(old(Snapshot()), t, fp, e)
      ensures History(Snapshot(), t.key) == History(old(Snapshot()), t.key) + [Emitted(e, now)]
    {
      hist := hist[t.key := History(Snapshot(), t.key) + [Emitted(e, now)]];
      fingerprints := fingerprints[t.key := fp.(count := 0, timer := nextTimer)];
      AfterFunc(fp.currentSilence, Silenced, t.rule, t.group, t.key, fp.born);
      AddInflight();
    }

    /** A silence window without events: the fingerprint is forgotten. */
    method Close(t: Timer)
      modifies this
      ensures Snapshot() == CloseQuiet(old(Snapshot()), t)
    {
      hist := hist[t.key := History(Snapshot(), t.key) + [Closed]];
      fingerprints := fingerprints - {t.key};
      if t.rule in ruleFingerprintCount && ruleFingerprintCount[t.rule] > 0 {
        ruleFingerprintCount := ruleFingerprintCount[t.rule := ruleFingerprintCount[t.rule] - 1];
      }
    }

    /** `flushInitial`, in the goroutine of the fired timer. */
    method FlushInitial(id: nat) returns (alert: Option<Emission>)
      requires id in timers && timers[id].kind.Coalescing?
      modifies this
      ensures Snapshot() == RunTimer(old(Snapshot()), id)
      ensures alert.Some? <==> !old(stopped) && old(timers[id].key) in old(fingerprints)
      ensures alert.Some? ==>
        History(Snapshot(), old(timers[id].key)) ==
          History(old(Snapshot()), old(timers[id].key)) + [Emitted(alert.value, now)]
    {
      hide EmitAndRearm;
      var t := timers[id];
      timers := timers - {id};
      if stopped || t.key !in fingerprints {
        return None;
      }
      var fp := fingerprints[t.key];
      alert := Some(Alert(fp.first, fp.count));
      Rearm(t, fp.(first := NO_PAYLOAD, phase := Silenced), alert.value);
    }

    /** `flushSilence`, in the goroutine of the fired timer. */
    method FlushSilence(id: nat) returns (digest: Option<Emission>)
      requires id in timers && timers[id].kind.Silenced?
      modifies this
      ensures Snapshot() == RunTimer(old(Snapshot()), id)
      ensures digest.Some? <==>
        !old(stopped) && old(timers[id].key) in old(fingerprints) && old(fingerprints[timers[id].key].count) != 0
      ensures digest.Some? ==>
        History(Snapshot(), old(timers[id].key)) ==
          History(old(Snapshot()), old(timers[id].key)) + [Emitted(digest.value, now)]
    {
      hide EmitAndRearm, CloseQuiet;
      var t := timers[id];
      timers := timers - {id};
      if stopped || t.key !in fingerprints {
        return None;
      }
      var fp := fingerprints[t.key];
      if fp.count == 0 {
        Close(t);
        return None;
      }
      digest := Some(Digest(fp.last, fp.count, fp.currentSilence));
      var next := fp.currentSilence + fp.baseSilence;
      if fp.maxSilence > 0 && next > fp.maxSilence {
        next := fp.maxSilence;
      }
      Rearm(t, fp.(currentSilence := next), digest.value);
    }

    /** `Stop` under the mutex: the loop over the fingerprints cancels timers that have not fired. */
    method StopLocked()
      modifies this
      ensures Snapshot() == Suppressor.StopLocked(old(Snapshot()))
    {
      stopped := true;
      var left, kept := fingerprints.Keys, timers;
      while left != {}
        invariant Snapshot() == old(Snapshot()).(stopped := true) && left <= fingerprints.Keys
        invariant forall id :: id in kept <==> id in timers && (timers[id].fired || !Owned(fingerprints - left, id))
        invariant forall id :: id in kept ==> kept[id] == timers[id]
        decreases left
      {
        var key :| key in left;
        var id := fingerprints[key].timer;
        Visit(fingerprints, left, key);
        if id in kept && !kept[id].fired {
          kept := kept - {id};
        }
        left := left - {key};
      }
      assert fingerprints - {} == fingerprints;
      timers, fingerprints, ruleFingerprintCount := kept, map[], map[];
      ghost var expected := Suppressor.StopLocked(old(Snapshot())).timers;
      assert forall id :: id in kept <==> id in expected;
      assert kept == expected;
    }
  }

  lemma CountMeans(s: State, rule: int)
    ensures CountInv(s) ==> RuleCount(s, rule) == |Live(s, rule)|
  {
  }

  lemma Visit(fps: map<Key, Fingerprint>, left: set<Key>, key: Key)
    requires key in left && key in fps
    ensures forall id :: Owned(fps - (left - {key}), id) <==> Owned(fps - left, id) || id == fps[key].timer
  {
    forall id: nat
      ensures Owned(fps - (left - {key}), id) <==> Owned(fps - left, id) || id == fps[key].timer
    {
      if Owned(fps - left, id) {
        var k :| k in fps - left && (fps - left)[k].timer == id;
        assert k in fps - (left - {key});
      }
      if id == fps[key].timer {
        assert key in fps - (left - {key});
      }
      if Owned(fps - (left - {key}), id) && id != fps[key].timer {
        var k :| k in fps - (left - {key}) && fps[k].timer == id;
        assert k in fps - left;
      }
    }
  }
}
