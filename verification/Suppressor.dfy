/**
 The notification suppressor (api/internal/notification/suppressor.go): the state under its
 mutex and what each critical section does to it.

 `hist` records, per key, what was decided in which order; it is not part of the program.
 A fingerprint's and a timer's `born` is the number of the first timer of that incarnation.
 */
module Suppressor {
  import opened Common
  import Decimal

  const MAX_FINGERPRINTS_PER_RULE := 10000
  const MAX_FINGERPRINTS_GLOBAL := 5 * MAX_FINGERPRINTS_PER_RULE
  const MAX_RETAINED_MSG_BYTES := 4096
  const COLON: byte := 58

  type Key = seq<byte>

  /** An event payload; `msg`, `attrs` and `attrsTruncated` matter only for applog events. */
  datatype Payload = Payload(event: int, applog: bool, msg: seq<byte>, attrs: seq<byte>, attrsTruncated: bool)

  const NO_PAYLOAD := Payload(0, false, [], [], false)

  datatype Phase = Coalescing | Silenced

  datatype Fingerprint = Fingerprint(
    phase: Phase, first: Payload, last: Payload, count: nat,
    currentSilence: int, baseSilence: int, maxSilence: int, coalesce: int, timer: nat, born: nat)

  /** An outstanding timer: armed, or fired with its goroutine waiting for the mutex. */
  datatype Timer = Timer(kind: Phase, rule: int, group: seq<byte>, key: Key, deadline: int, fired: bool, born: nat)

  datatype Emission = Alert(payload: Payload, count: nat) | Digest(payload: Payload, count: nat, window: int)

  datatype Mark = Recorded(payload: Payload, time: int) | Emitted(emission: Emission, time: int) | Closed

  datatype State = State(
    fps: map<Key, Fingerprint>, ruleCount: map<int, int>, stopped: bool,
    timers: map<nat, Timer>, nextTimer: nat,
    inflight: set<nat>, nextToken: nat,
    now: int, hist: map<Key, seq<Mark>>)

  /** One matching event, with the windows of its rule. */
  datatype Event = Event(rule: int, group: seq<byte>, silence: int, silenceMax: int, coalesce: int, payload: Payload)

  function Init(now: int): State {
    State(map[], map[], false, map[], 0, {}, 0, now, map[])
  }

  // ----- pure helpers

  function FingerprintKey(rule: int, group: seq<byte>): Key {
    Decimal.Print(rule) + [COLON] + group
  }

  /** The rule a key belongs to. */
  function RuleOf(k: Key): Option<int> {
    Decimal.ParseInt64(k[..Decimal.Before(k, COLON)])
  }

  /** The key determines the rule and the group. */
  lemma KeyInjective(rule: int, group: seq<byte>, rule': int, group': seq<byte>)
    requires Decimal.IsInt64(rule) && Decimal.IsInt64(rule')
    ensures RuleOf(FingerprintKey(rule, group)) == Some(rule)
    ensures FingerprintKey(rule, group) == FingerprintKey(rule', group') ==> rule == rule' && group == group'
  {
    KeyParts(rule, group);
    KeyParts(rule', group');
    hide Decimal.Before, Decimal.Print, Decimal.ParseInt64;
    if FingerprintKey(rule, group) == FingerprintKey(rule', group') {
      assert group == ([COLON] + group)[1..] == ([COLON] + group')[1..] == group';
    }
  }

  lemma KeyParts(rule: int, group: seq<byte>)
    requires Decimal.IsInt64(rule)
    ensures var k := FingerprintKey(rule, group);
      RuleOf(k) == Some(rule) && k[..Decimal.Before(k, COLON)] == Decimal.Print(rule)
        && k[Decimal.Before(k, COLON)..] == [COLON] + group
  {
    var p := Decimal.Print(rule);
    assert COLON !in p;
    Decimal.BeforeUnique(p, COLON, group);
    Decimal.RoundTrip(rule);
    hide Decimal.Before, Decimal.Print, Decimal.ParseInt64;
    var k := FingerprintKey(rule, group);
    assert k[..|p|] == p && k[|p|..] == [COLON] + group;
  }

  /** The copy kept for digests: no attributes, and a bounded message. */
  function TrimForDigest(p: Payload): (t: Payload)
    ensures t.event == p.event
    ensures t.applog ==> t.attrs == [] && t.msg == if |p.msg| > 4096 then p.msg[..4096] else p.msg
    ensures t.applog ==> t.attrsTruncated == (p.attrsTruncated || p.attrs != [])
    ensures !p.applog || (p.attrs == [] && |p.msg| <= 4096) ==> t == p
  {
    if !p.applog then p
    else
      p.(attrs := [], attrsTruncated := p.attrsTruncated || p.attrs != [],
         msg := if |p.msg| > MAX_RETAINED_MSG_BYTES then p.msg[..MAX_RETAINED_MSG_BYTES] else p.msg)
  }

  function RuleCount(s: State, rule: int): int {
    if rule in s.ruleCount then s.ruleCount[rule] else 0
  }

  function History(s: State, k: Key): seq<Mark> {
    if k in s.hist then s.hist[k] else []
  }

  function NextSilence(fp: Fingerprint): int {
    var next := fp.currentSilence + fp.baseSilence;
    if fp.maxSilence > 0 && next > fp.maxSilence then fp.maxSilence else next
  }

  // ----- the critical sections

  predicate AtCapacity(s: State, rule: int) {
    RuleCount(s, rule) >= MAX_FINGERPRINTS_PER_RULE || |s.fps| >= MAX_FINGERPRINTS_GLOBAL
  }

  function Record(s: State, e: Event): State {
    var key := FingerprintKey(e.rule, e.group);
    if s.stopped then s
    else if key in s.fps then Accumulate(s, key, e.payload)
    else if AtCapacity(s, e.rule) then s
    else if e.coalesce > 0 then OpenCoalescing(s, key, e)
    else OpenSilenced(s, key, e)
  }

  function Accumulate(s: State, key: Key, p: Payload): State
    requires key in s.fps
  {
    var fp := s.fps[key];
    s.(fps := s.fps[key := fp.(count := fp.count + 1, last := TrimForDigest(p))],
       hist := s.hist[key := History(s, key) + [Recorded(p, s.now)]])
  }

  function OpenCoalescing(s: State, key: Key, e: Event): State {
    var t := s.nextTimer;
    s.(fps := s.fps[key := Fingerprint(
         Coalescing, e.payload, TrimForDigest(e.payload), 1, e.silence, e.silence, e.silenceMax, e.coalesce, t, t)],
       timers := s.timers[t := Timer(Coalescing, e.rule, e.group, key, s.now + e.coalesce, false, t)],
       nextTimer := t + 1,
       ruleCount := s.ruleCount[e.rule := RuleCount(s, e.rule) + 1],
       hist := s.hist[key := History(s, key) + [Recorded(e.payload, s.now)]])
  }

  function OpenSilenced(s: State, key: Key, e: Event): State {
    var t := s.nextTimer;
    s.(fps := s.fps[key := Fingerprint(
         Silenced, NO_PAYLOAD, TrimForDigest(e.payload), 0, e.silence, e.silence, e.silenceMax, e.coalesce, t, t)],
       timers := s.timers[t := Timer(Silenced, e.rule, e.group, key, s.now + e.silence, false, t)],
       nextTimer := t + 1,
       ruleCount := s.ruleCount[e.rule := RuleCount(s, e.rule) + 1],
       inflight := s.inflight + {s.nextToken}, nextToken := s.nextToken + 1,
       hist := s.hist[key := History(s, key) + [Recorded(e.payload, s.now), Emitted(Alert(e.payload, 1), s.now)]])
  }

  /** The goroutine of a fired timer: `flushInitial` or `flushSilence`. Neither looks at the phase. */
  function RunTimer(s: State, id: nat): State
    requires id in s.timers
  {
    var t, s1 := s.timers[id], s.(timers := s.timers - {id});
    if s.stopped || t.key !in s.fps then s1
    else if t.kind.Coalescing? then FlushInitial(s1, t)
    else if s.fps[t.key].count == 0 then CloseQuiet(s1, t)
    else FlushDigest(s1, t)
  }

  /** Emits, and arms a silence timer for the fingerprint to go on. */
  function EmitAndRearm(s: State, t: Timer, fp: Fingerprint, e: Emission): State {
    var id := s.nextTimer;
    s.(fps := s.fps[t.key := fp.(count := 0, timer := id)],
       timers := s.timers[id := Timer(Silenced, t.rule, t.group, t.key, s.now + fp.currentSilence, false, fp.born)],
       nextTimer := id + 1,
       inflight := s.inflight + {s.nextToken}, nextToken := s.nextToken + 1,
       hist := s.hist[t.key := History(s, t.key) + [Emitted(e, s.now)]])
  }

  function FlushInitial(s: State, t: Timer): State
    requires t.key in s.fps
  {
    var fp := s.fps[t.key];
    EmitAndRearm(s, t, fp.(first := NO_PAYLOAD, phase := Silenced), Alert(fp.first, fp.count))
  }

  function FlushDigest(s: State, t: Timer): State
    requires t.key in s.fps
  {
    var fp := s.fps[t.key];
    EmitAndRearm(s, t, fp.(currentSilence := NextSilence(fp)), Digest(fp.last, fp.count, fp.currentSilence))
  }

  function CloseQuiet(s: State, t: Timer): State {
    s.(fps := s.fps - {t.key},
       ruleCount := if RuleCount(s, t.rule) > 0 then s.ruleCount[t.rule := RuleCount(s, t.rule) - 1] else s.ruleCount,
       hist := s.hist[t.key := History(s, t.key) + [Closed]])
  }

  /** `Stop` under the mutex: timers that have not fired are cancelled. */
  function StopLocked(s: State): State {
    s.(stopped := true, fps := map[], ruleCount := map[],
       timers := map id | id in s.timers && (s.timers[id].fired || !Owned(s.fps, id)) :: s.timers[id])
  }

  /** The timer of some fingerprint. */
  predicate Owned(fps: map<Key, Fingerprint>, id: nat) {
    exists k :: k in fps && fps[k].timer == id
  }

  // ----- steps

  datatype Step =
    | RecordEvent(event: Event)
    | Elapse(to: int)
    | Fire(timer: nat)
    | Flush(timer: nat)
    | FinishCallback(token: nat)
    | Stop

  /** Timers never fire early; time does not run backwards; rule ids are 64-bit. */
  predicate Enabled(s: State, step: Step) {
    match step
    case RecordEvent(e) => Decimal.IsInt64(e.rule)
    case Elapse(to) => s.now <= to
    case Fire(id) => id in s.timers && !s.timers[id].fired && s.timers[id].deadline <= s.now
    case Flush(id) => id in s.timers && s.timers[id].fired
    case FinishCallback(token) => token in s.inflight
    case Stop => true
  }

  function Next(s: State, step: Step): State
    requires Enabled(s, step)
  {
    match step
    case RecordEvent(e) => Record(s, e)
    case Elapse(to) => s.(now := to)
    case Fire(id) => s.(timers := s.timers[id := s.timers[id].(fired := true)])
    case Flush(id) => RunTimer(s, id)
    case FinishCallback(token) => s.(inflight := s.inflight - {token})
    case Stop => StopLocked(s)
  }

  // ----- timers

  /**
   Every live fingerprint has one outstanding timer, of its own phase and incarnation, and
   there is no other timer while the suppressor runs.
   */
  ghost predicate TimerInv(s: State) {
    && (forall k :: k in s.fps ==> HasTimer(s, k))
    && (forall id :: id in s.timers ==> TimerKnown(s, id))
    && (!s.stopped ==> forall id :: id in s.timers ==> s.timers[id].key in s.fps && s.fps[s.timers[id].key].timer == id)
    && (s.stopped ==> s.fps == map[])
  }

  ghost predicate HasTimer(s: State, k: Key)
    requires k in s.fps
  {
    var fp := s.fps[k];
    && fp.timer in s.timers
    && s.timers[fp.timer].key == k
    && s.timers[fp.timer].kind == fp.phase
    && s.timers[fp.timer].born == fp.born
  }

  ghost predicate TimerKnown(s: State, id: nat)
    requires id in s.timers
  {
    var t := s.timers[id];
    id < s.nextTimer && Decimal.IsInt64(t.rule) && t.key == FingerprintKey(t.rule, t.group)
  }

  lemma TimerStep(s: State, step: Step)
    requires TimerInv(s) && Enabled(s, step)
    ensures TimerInv(Next(s, step))
  {
    hide FingerprintKey;
    match step
    case RecordEvent(e) => RecordTimers(s, e);
    case Flush(id) => FlushTimers(s, id);
    case _ =>
  }

  lemma RecordTimers(s: State, e: Event)
    requires TimerInv(s) && Decimal.IsInt64(e.rule)
    ensures TimerInv(Record(s, e))
  {
    var key := FingerprintKey(e.rule, e.group);
    hide FingerprintKey, TrimForDigest, TimerInv;
    if !s.stopped && key in s.fps {
      AccumulateTimers(s, key, e.payload);
    } else if !s.stopped && !AtCapacity(s, e.rule) {
      OpenTimers(s, Record(s, e), key);
    }
  }

  lemma AccumulateTimers(s: State, key: Key, p: Payload)
    requires TimerInv(s) && key in s.fps
    ensures TimerInv(Accumulate(s, key, p))
  {
    hide FingerprintKey, TrimForDigest;
  }

  /** A new fingerprint and its new timer. */
  lemma OpenTimers(s: State, s': State, key: Key)
    requires TimerInv(s) && !s.stopped && !s'.stopped && key !in s.fps
    requires key in s'.fps && s'.fps == s.fps[key := s'.fps[key]]
    requires s.nextTimer in s'.timers && s'.timers == s.timers[s.nextTimer := s'.timers[s.nextTimer]]
      && s'.nextTimer == s.nextTimer + 1
    requires s'.fps[key].timer == s.nextTimer && HasTimer(s', key) && TimerKnown(s', s.nextTimer)
    ensures TimerInv(s')
  {
    hide FingerprintKey;
  }

  lemma FlushTimers(s: State, id: nat)
    requires TimerInv(s) && id in s.timers
    ensures TimerInv(RunTimer(s, id))
  {
    hide FingerprintKey, EmitAndRearm, CloseQuiet;
    if !s.stopped {
      var t := s.timers[id];
      assert t.key in s.fps && HasTimer(s, t.key);
      var fp := s.fps[t.key];
      RearmTimers(s, id, fp.(first := NO_PAYLOAD, phase := Silenced), Alert(fp.first, fp.count));
      if fp.phase.Silenced? {
        RearmTimers(s, id, fp.(currentSilence := NextSilence(fp)), Digest(fp.last, fp.count, fp.currentSilence));
      }
      CloseTimers(s, id);
    }
  }

  /** The fired timer is replaced by a new one of the same incarnation. */
  lemma RearmTimers(s: State, id: nat, fp: Fingerprint, e: Emission)
    requires TimerInv(s) && id in s.timers && !s.stopped
    requires fp.phase.Silenced? && fp.born == s.fps[s.timers[id].key].born
    ensures TimerInv(EmitAndRearm(s.(timers := s.timers - {id}), s.timers[id], fp, e))
  {
    hide FingerprintKey, History;
  }

  lemma CloseTimers(s: State, id: nat)
    requires TimerInv(s) && id in s.timers && !s.stopped
    ensures TimerInv(CloseQuiet(s.(timers := s.timers - {id}), s.timers[id]))
  {
    hide FingerprintKey, History, RuleCount;
  }
}
