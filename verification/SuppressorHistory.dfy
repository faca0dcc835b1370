/** What the suppressor guarantees about every run: capacity, conservation, and the shape of each key's emissions. */
module SuppressorHistory {
  import opened Common
  import opened Suppressor
  import Decimal

  // ----- capacity

  ghost function OfRule(keys: set<Key>, rule: int): set<Key> {
    set k | k in keys && RuleOf(k) == Some(rule)
  }

  function CountOf(count: map<int, int>, rule: int): int {
    if rule in count then count[rule] else 0
  }

  /** The counters are exact and the per-rule cap holds. */
  ghost predicate Counts(keys: set<Key>, count: map<int, int>) {
    forall r: int :: CountOf(count, r) == |OfRule(keys, r)| <= MAX_FINGERPRINTS_PER_RULE
  }

  /** The fingerprints of a rule. */
  ghost function Live(s: State, rule: int): set<Key> {
    OfRule(s.fps.Keys, rule)
  }

  /** The per-rule counters are exact and both caps hold. */
  ghost predicate CountInv(s: State) {
    Counts(s.fps.Keys, s.ruleCount) && |s.fps.Keys| <= MAX_FINGERPRINTS_GLOBAL
  }

  lemma CountStep(s: State, step: Step)
    requires TimerInv(s) && CountInv(s) && Enabled(s, step)
    ensures CountInv(Next(s, step))
  {
    hide Counts, Record, RunTimer;
    match step
    case RecordEvent(e) => RecordCount(s, e);
    case Flush(id) => FlushCount(s, id);
    case Stop =>
      NoKeys();
      assert Next(s, step).fps.Keys == {};
    case _ =>
  }

  lemma NoKeys()
    ensures Counts({}, map[])
  {
    assert forall r: int :: OfRule({}, r) == {};
  }

  lemma RecordCount(s: State, e: Event)
    requires CountInv(s) && Decimal.IsInt64(e.rule)
    ensures CountInv(Record(s, e))
  {
    hide Counts, RuleOf, FingerprintKey, Record, AtCapacity;
    var key := FingerprintKey(e.rule, e.group);
    RuleOfKey(e.rule, e.group);
    RecordKeys(s, e);
    if !(s.stopped || key in s.fps || AtCapacity(s, e.rule)) {
      Room(s, e.rule);
      assert |s.fps.Keys + {key}| == |s.fps.Keys| + 1;
      KeyAdded(s.fps.Keys, s.ruleCount, key, e.rule);
    }
  }

  lemma RuleOfKey(rule: int, group: seq<byte>)
    requires Decimal.IsInt64(rule)
    ensures RuleOf(FingerprintKey(rule, group)) == Some(rule)
  {
    hide FingerprintKey, RuleOf;
    KeyInjective(rule, group, rule, group);
  }

  lemma Room(s: State, rule: int)
    requires !AtCapacity(s, rule)
    ensures CountOf(s.ruleCount, rule) < MAX_FINGERPRINTS_PER_RULE && |s.fps.Keys| < MAX_FINGERPRINTS_GLOBAL
  {
  }

  /** What recording does to the keys and the counters. */
  lemma RecordKeys(s: State, e: Event)
    ensures var key, s' := FingerprintKey(e.rule, e.group), Record(s, e);
      if s.stopped || key in s.fps || AtCapacity(s, e.rule)
      then s'.fps.Keys == s.fps.Keys && s'.ruleCount == s.ruleCount
      else s'.fps.Keys == s.fps.Keys + {key} && s'.ruleCount == s.ruleCount[e.rule := CountOf(s.ruleCount, e.rule) + 1]
  {
    hide FingerprintKey, TrimForDigest, History, AtCapacity;
  }

  lemma FlushCount(s: State, id: nat)
    requires TimerInv(s) && CountInv(s) && id in s.timers
    ensures CountInv(RunTimer(s, id))
  {
    hide Counts, RuleOf, FingerprintKey, RunTimer;
    var t := s.timers[id];
    assert TimerKnown(s, id);
    hide TimerInv;
    RuleOfKey(t.rule, t.group);
    FlushKeys(s, id);
    if !(s.stopped || t.key !in s.fps || t.kind.Coalescing? || s.fps[t.key].count > 0) {
      assert |s.fps.Keys - {t.key}| == |s.fps.Keys| - 1;
      KeyRemoved(s.fps.Keys, s.ruleCount, t.key, t.rule);
    }
  }

  lemma FlushKeys(s: State, id: nat)
    requires id in s.timers
    ensures var t, s' := s.timers[id], RunTimer(s, id);
      if s.stopped || t.key !in s.fps || t.kind.Coalescing? || s.fps[t.key].count > 0
      then s'.fps.Keys == s.fps.Keys && s'.ruleCount == s.ruleCount
      else
        && s'.fps.Keys == s.fps.Keys - {t.key}
        && s'.ruleCount ==
           if CountOf(s.ruleCount, t.rule) > 0 then s.ruleCount[t.rule := CountOf(s.ruleCount, t.rule) - 1]
           else s.ruleCount
  {
    hide History;
  }

  lemma KeyAdded(keys: set<Key>, count: map<int, int>, key: Key, rule: int)
    requires Counts(keys, count) && key !in keys && RuleOf(key) == Some(rule)
      && CountOf(count, rule) < MAX_FINGERPRINTS_PER_RULE
    ensures Counts(keys + {key}, count[rule := CountOf(count, rule) + 1])
  {
    hide OfRule, RuleOf;
    forall r: int
      ensures |OfRule(keys + {key}, r)| == |OfRule(keys, r)| + if r == rule then 1 else 0
    {
      OfRuleAdd(keys, key, rule, r);
    }
  }

  lemma OfRuleAdd(keys: set<Key>, key: Key, rule: int, r: int)
    requires key !in keys && RuleOf(key) == Some(rule)
    ensures |OfRule(keys + {key}, r)| == |OfRule(keys, r)| + if r == rule then 1 else 0
  {
    hide RuleOf;
    assert OfRule(keys + {key}, r) == if r == rule then OfRule(keys, r) + {key} else OfRule(keys, r);
    assert key !in OfRule(keys, r);
  }

  lemma KeyRemoved(keys: set<Key>, count: map<int, int>, key: Key, rule: int)
    requires Counts(keys, count) && key in keys && RuleOf(key) == Some(rule)
    ensures Counts(keys - {key}, if CountOf(count, rule) > 0 then count[rule := CountOf(count, rule) - 1] else count)
  {
    hide OfRule, RuleOf;
    assert (keys - {key}) + {key} == keys;
    forall r: int
      ensures |OfRule(keys, r)| == |OfRule(keys - {key}, r)| + if r == rule then 1 else 0
    {
      OfRuleAdd(keys - {key}, key, rule, r);
    }
  }

  // ----- the shape of a history

  /** How many events were recorded since the last emission or closing. */
  function Trailing(h: seq<Mark>): (n: nat)
    ensures n <= |h|
    ensures forall i :: |h| - n <= i < |h| ==> h[i].Recorded?
    ensures n < |h| ==> !h[|h| - n - 1].Recorded?
  {
    if h == [] || !h[|h| - 1].Recorded? then 0 else 1 + Trailing(h[..|h| - 1])
  }

  /** No emission yet in this incarnation. */
  predicate Fresh(h: seq<Mark>) {
    var n := Trailing(h);
    n == |h| || h[|h| - n - 1].Closed?
  }

  /**
   An emission reports exactly the events recorded since the one before it, at least one.
   The first of an incarnation is an alert carrying the first of them in full; every later
   one is a digest carrying the trimmed last of them.
   */
  ghost predicate EmissionOk(before: seq<Mark>, e: Emission) {
    var n := Trailing(before);
    && n >= 1
    && e.count == n
    && (e.Alert? <==> Fresh(before))
    && e.payload == if e.Alert? then before[|before| - n].payload else TrimForDigest(before[|before| - 1].payload)
  }

  ghost predicate MarkOk(before: seq<Mark>, m: Mark) {
    match m
    case Recorded(_, _) => true
    case Emitted(e, _) => EmissionOk(before, e)
    case Closed => before != [] && before[|before| - 1].Emitted?
  }

  ghost predicate Shape(h: seq<Mark>) {
    forall i :: 0 <= i < |h| ==> MarkOk(h[..i], h[i])
  }

  lemma ShapeSnoc(h: seq<Mark>, m: Mark)
    requires Shape(h) && MarkOk(h, m)
    ensures Shape(h + [m])
  {
    forall i | 0 <= i < |h + [m]|
      ensures MarkOk((h + [m])[..i], (h + [m])[i])
    {
      assert (h + [m])[..i] == if i < |h| then h[..i] else h;
    }
  }

  lemma TrailingSnoc(h: seq<Mark>, m: Mark)
    ensures Trailing(h + [m]) == if m.Recorded? then Trailing(h) + 1 else 0
    ensures m.Recorded? ==> (Fresh(h + [m]) <==> Fresh(h))
  {
    assert (h + [m])[..|h|] == h;
  }

  function Records(h: seq<Mark>): nat {
    if h == [] then 0 else Records(h[..|h| - 1]) + (if h[|h| - 1].Recorded? then 1 else 0)
  }

  function Reported(h: seq<Mark>): nat {
    if h == [] then 0 else Reported(h[..|h| - 1]) + (if h[|h| - 1].Emitted? then h[|h| - 1].emission.count else 0)
  }

  /** Nothing is lost or reported twice: accepted events are those reported and those still pending. */
  lemma {:induction false} Conservation(h: seq<Mark>)
    requires Shape(h)
    ensures Records(h) == Reported(h) + Trailing(h)
  {
    if h != [] {
      var front, m := h[..|h| - 1], h[|h| - 1];
      assert forall i :: 0 <= i < |front| ==> front[..i] == h[..i];
      Conservation(front);
      assert h == front + [m];
      TrailingSnoc(front, m);
      assert MarkOk(front, m);
    }
  }

  // ----- state against history

  function FpOf(s: State, k: Key): Option<Fingerprint> {
    if k in s.fps then Some(s.fps[k]) else None
  }

  /** What a key's fingerprint says about its history. */
  ghost predicate Linked(h: seq<Mark>, fp: Option<Fingerprint>) {
    var n := Trailing(h);
    match fp
    case None => h == [] || h[|h| - 1].Closed?
    case Some(f) =>
      && f.count == n
      && (n > 0 ==> f.last == TrimForDigest(h[|h| - 1].payload))
      && (f.phase.Coalescing? ==> n >= 1 && Fresh(h) && f.first == h[|h| - n].payload)
      && (f.phase.Silenced? ==> n < |h| && h[|h| - n - 1].Emitted?)
  }

  ghost predicate Good(h: seq<Mark>, fp: Option<Fingerprint>) {
    Shape(h) && Linked(h, fp)
  }

  lemma Accumulates(h: seq<Mark>, f: Fingerprint, p: Payload, time: int)
    requires Good(h, Some(f))
    ensures Good(h + [Recorded(p, time)], Some(f.(count := f.count + 1, last := TrimForDigest(p))))
  {
    hide Shape, TrimForDigest, Trailing;
    ShapeSnoc(h, Recorded(p, time));
    TrailingSnoc(h, Recorded(p, time));
  }

  lemma Opens(h: seq<Mark>, p: Payload, time: int, f: Fingerprint)
    requires Good(h, None) && f.last == TrimForDigest(p)
    requires f.phase.Coalescing? && f.first == p && f.count == 1
    ensures Good(h + [Recorded(p, time)], Some(f))
  {
    hide Shape, TrimForDigest, Trailing;
    ShapeSnoc(h, Recorded(p, time));
    TrailingSnoc(h, Recorded(p, time));
  }

  lemma OpensAndAlerts(h: seq<Mark>, p: Payload, time: int, f: Fingerprint)
    requires Good(h, None) && f.phase.Silenced? && f.count == 0
    ensures Good(h + [Recorded(p, time), Emitted(Alert(p, 1), time)], Some(f))
  {
    hide Good, TrimForDigest;
    var g := f.(phase := Coalescing, first := p, last := TrimForDigest(p), count := 1);
    Opens(h, p, time, g);
    Emits(h + [Recorded(p, time)], g, Alert(p, 1), time, f);
    assert h + [Recorded(p, time), Emitted(Alert(p, 1), time)] ==
      h + [Recorded(p, time)] + [Emitted(Alert(p, 1), time)];
  }

  /** The emission a flush makes is the right one for the phase. */
  lemma Emits(h: seq<Mark>, f: Fingerprint, e: Emission, time: int, f': Fingerprint)
    requires Good(h, Some(f)) && (f.phase.Silenced? ==> f.count > 0)
    requires f.phase.Coalescing? ==> e == Alert(f.first, f.count)
    requires f.phase.Silenced? ==> e.Digest? && e.payload == f.last && e.count == f.count
    requires f'.phase.Silenced? && f'.count == 0
    ensures Good(h + [Emitted(e, time)], Some(f'))
  {
    hide Shape, TrimForDigest, Trailing;
    assert EmissionOk(h, e);
    ShapeSnoc(h, Emitted(e, time));
    TrailingSnoc(h, Emitted(e, time));
  }

  lemma Closes(h: seq<Mark>, f: Fingerprint)
    requires Good(h, Some(f)) && f.phase.Silenced? && f.count == 0
    ensures Good(h + [Closed], None)
  {
    hide Shape, TrimForDigest, Trailing;
    ShapeSnoc(h, Closed);
    TrailingSnoc(h, Closed);
  }

  ghost predicate HistoryInv(s: State, k: Key) {
    Shape(History(s, k)) && (!s.stopped ==> Good(History(s, k), FpOf(s, k)))
  }

  lemma HistoryStep(s: State, step: Step, k: Key)
    requires TimerInv(s) && HistoryInv(s, k) && Enabled(s, step)
    ensures HistoryInv(Next(s, step), k)
  {
    hide TimerInv, Good, Shape, Record, RunTimer;
    match step
    case RecordEvent(e) => RecordHistory(s, e, k);
    case Flush(id) => FlushHistory(s, id, k);
    case _ =>
  }

  lemma RecordHistory(s: State, e: Event, k: Key)
    requires HistoryInv(s, k)
    ensures HistoryInv(Record(s, e), k)
  {
    var key, h := FingerprintKey(e.rule, e.group), History(s, k);
    hide FingerprintKey, TrimForDigest, Good, Shape, RuleCount;
    if k == key && !s.stopped {
      if k in s.fps {
        Accumulates(h, s.fps[k], e.payload, s.now);
      } else if !AtCapacity(s, e.rule) {
        if e.coalesce > 0 {
          Opens(h, e.payload, s.now, Record(s, e).fps[k]);
        } else {
          OpensAndAlerts(h, e.payload, s.now, Record(s, e).fps[k]);
        }
      }
    }
    GoodShape(History(Record(s, e), k), FpOf(Record(s, e), k));
  }

  lemma FlushHistory(s: State, id: nat, k: Key)
    requires TimerInv(s) && HistoryInv(s, k) && id in s.timers
    ensures HistoryInv(RunTimer(s, id), k)
  {
    var t, h := s.timers[id], History(s, k);
    hide FingerprintKey, TrimForDigest, Good, Shape, RuleCount;
    if k == t.key && !s.stopped {
      var f := s.fps[k];
      assert HasTimer(s, k);
      hide TimerInv, HasTimer;
      if f.phase.Silenced? && f.count == 0 {
        Closes(h, f);
      } else {
        var e := if f.phase.Coalescing? then Alert(f.first, f.count) else Digest(f.last, f.count, f.currentSilence);
        Emits(h, f, e, s.now, RunTimer(s, id).fps[k]);
      }
    }
    GoodShape(History(RunTimer(s, id), k), FpOf(RunTimer(s, id), k));
  }

  lemma GoodShape(h: seq<Mark>, fp: Option<Fingerprint>)
    ensures Good(h, fp) ==> Shape(h)
  {
  }
}
