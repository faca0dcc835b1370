/**
 The mute rule cache (api/internal/mute/set.go): the scans over one snapshot, and what the cache
 answers compared with the whole rule table.
 */
module MuteSet {
  import opened Common

  datatype Feed = Netlog | Srvlog

  datatype Filter = Filter(hostname: string, programname: string, search: string)

  datatype Rule = Rule(id: int, feed: Feed, filter: Filter, expiresAt: int)

  /** The rule set at one instant. */
  datatype Snapshot = Snapshot(rules: seq<Rule>, now: int)

  /** The stored rules by id. */
  type Table = map<int, Rule>

  ghost predicate Keyed(table: Table) {
    forall id :: id in table ==> table[id].id == id
  }

  predicate Active(r: Rule, feed: Feed, now: int) {
    r.feed == feed && now < r.expiresAt
  }

  /** `matches` stands for "this filter matches the event at hand". */
  predicate Hits(r: Rule, feed: Feed, now: int, matches: Filter -> bool) {
    Active(r, feed, now) && matches(r.filter)
  }

  // ----- ordering

  ghost predicate Ordered(rules: seq<Rule>) {
    forall i, j :: 0 <= i < j < |rules| ==> rules[i].id <= rules[j].id
  }

  function Insert(r: Rule, rules: seq<Rule>): seq<Rule> {
    if rules == [] || r.id <= rules[0].id then [r] + rules
    else [rules[0]] + Insert(r, rules[1..])
  }

  /** A copy sorted by id, so the lowest id comes first. */
  function SortById(rules: seq<Rule>): seq<Rule> {
    if rules == [] then [] else Insert(rules[0], SortById(rules[1..]))
  }

  lemma {:induction false} InsertPermutes(r: Rule, rules: seq<Rule>)
    ensures multiset(Insert(r, rules)) == multiset{r} + multiset(rules)
  {
    if rules != [] && r.id > rules[0].id {
      InsertPermutes(r, rules[1..]);
      assert rules == [rules[0]] + rules[1..];
    }
  }

  lemma {:induction false} InsertOrdered(r: Rule, rules: seq<Rule>)
    requires Ordered(rules)
    ensures Ordered(Insert(r, rules))
  {
    if rules != [] && r.id > rules[0].id {
      var t := Insert(r, rules[1..]);
      InsertOrdered(r, rules[1..]);
      InsertPermutes(r, rules[1..]);
      forall k | 0 <= k < |t|
        ensures rules[0].id <= t[k].id
      {
        assert t[k] in multiset(t);
      }
    }
  }

  /** The result is ordered and holds the given rules, no more and no fewer. */
  lemma {:induction false} SortedCopy(rules: seq<Rule>)
    ensures Ordered(SortById(rules)) && multiset(SortById(rules)) == multiset(rules)
    ensures forall r :: r in SortById(rules) <==> r in rules
  {
    if rules != [] {
      SortedCopy(rules[1..]);
      InsertOrdered(rules[0], SortById(rules[1..]));
      InsertPermutes(rules[0], SortById(rules[1..]));
      assert rules == [rules[0]] + rules[1..];
    }
    forall r
      ensures r in SortById(rules) <==> r in rules
    {
      assert r in SortById(rules) <==> r in multiset(SortById(rules));
      assert r in rules <==> r in multiset(rules);
    }
  }

  // ----- scans over a snapshot

  /** The id of the first rule that hits. */
  function FirstHit(s: Snapshot, feed: Feed, matches: Filter -> bool): Option<int>
    decreases |s.rules|
  {
    if s.rules == [] then None
    else if Hits(s.rules[0], feed, s.now, matches) then Some(s.rules[0].id)
    else FirstHit(s.(rules := s.rules[1..]), feed, matches)
  }

  /** The filters of the active rules, in order. */
  function ActiveFilters(rules: seq<Rule>, feed: Feed, now: int): seq<Filter> {
    if rules == [] then []
    else
      var n := |rules| - 1;
      ActiveFilters(rules[..n], feed, now) + (if Active(rules[n], feed, now) then [rules[n].filter] else [])
  }

  method Match(s: Snapshot, feed: Feed, matches: Filter -> bool) returns (id: Option<int>)
    ensures id == FirstHit(s, feed, matches)
  {
    for i := 0 to |s.rules|
      invariant FirstHit(s, feed, matches) == FirstHit(s.(rules := s.rules[i..]), feed, matches)
    {
      assert s.rules[i..][1..] == s.rules[i + 1..];
      if Hits(s.rules[i], feed, s.now, matches) {
        return Some(s.rules[i].id);
      }
    }
    return None;
  }

  method Exclusions(s: Snapshot, feed: Feed) returns (out: seq<Filter>)
    ensures out == ActiveFilters(s.rules, feed, s.now)
  {
    out := [];
    for i := 0 to |s.rules|
      invariant out == ActiveFilters(s.rules[..i], feed, s.now)
    {
      assert s.rules[..i + 1][..i] == s.rules[..i];
      if Active(s.rules[i], feed, s.now) {
        out := out + [s.rules[i].filter];
      }
    }
    assert s.rules[..|s.rules|] == s.rules;
  }

  lemma {:induction false} FirstHitScan(s: Snapshot, feed: Feed, matches: Filter -> bool)
    ensures FirstHit(s, feed, matches).None? <==> forall r :: r in s.rules ==> !Hits(r, feed, s.now, matches)
    ensures FirstHit(s, feed, matches).Some? ==> exists k ::
      && 0 <= k < |s.rules| && s.rules[k].id == FirstHit(s, feed, matches).value
      && Hits(s.rules[k], feed, s.now, matches)
      && forall j :: 0 <= j < k ==> !Hits(s.rules[j], feed, s.now, matches)
    decreases |s.rules|
  {
    hide Hits;
    if s.rules != [] && !Hits(s.rules[0], feed, s.now, matches) {
      var rest := s.(rules := s.rules[1..]);
      FirstHitScan(rest, feed, matches);
      assert s.rules == [s.rules[0]] + rest.rules;
      if FirstHit(rest, feed, matches).Some? {
        var k :| && 0 <= k < |rest.rules| && rest.rules[k].id == FirstHit(rest, feed, matches).value
                 && Hits(rest.rules[k], feed, s.now, matches)
                 && forall j :: 0 <= j < k ==> !Hits(rest.rules[j], feed, s.now, matches);
        assert s.rules[k + 1] == rest.rules[k];
        forall j | 0 <= j < k + 1
          ensures !Hits(s.rules[j], feed, s.now, matches)
        {
          if j > 0 {
            assert s.rules[j] == rest.rules[j - 1];
          }
        }
      }
    }
  }

  /**
   No answer exactly if no rule is of this feed, unexpired and matching; otherwise the id of such a
   rule, with none before it.
   */
  lemma FirstHitMeaning(s: Snapshot, feed: Feed, matches: Filter -> bool)
    ensures FirstHit(s, feed, matches).Some? <==>
      exists r :: r in s.rules && r.feed == feed && s.now < r.expiresAt && matches(r.filter)
    ensures FirstHit(s, feed, matches).Some? ==> exists k ::
      && 0 <= k < |s.rules| && s.rules[k].id == FirstHit(s, feed, matches).value
      && s.rules[k].feed == feed && s.now < s.rules[k].expiresAt && matches(s.rules[k].filter)
      && forall j :: 0 <= j < k ==>
           !(s.rules[j].feed == feed && s.now < s.rules[j].expiresAt && matches(s.rules[j].filter))
  {
    hide FirstHit;
    FirstHitScan(s, feed, matches);
    forall r | r in s.rules
      ensures Hits(r, feed, s.now, matches) <==> r.feed == feed && s.now < r.expiresAt && matches(r.filter)
    {
    }
  }

  /** The exclusions are the filters of exactly the unexpired rules of the feed. */
  lemma {:induction false} FiltersMeaning(rules: seq<Rule>, feed: Feed, now: int)
    ensures forall f :: f in ActiveFilters(rules, feed, now) <==>
      exists r :: r in rules && r.feed == feed && now < r.expiresAt && r.filter == f
  {
    if rules != [] {
      var n := |rules| - 1;
      FiltersMeaning(rules[..n], feed, now);
      assert rules == rules[..n] + [rules[n]];
    }
  }

  /** ... in the order of the rules, one each: `at` are the positions they come from. */
  lemma {:induction false} FiltersInOrder(rules: seq<Rule>, feed: Feed, now: int) returns (at: seq<nat>)
    ensures Increasing(at) && |at| == |ActiveFilters(rules, feed, now)|
    ensures forall i :: 0 <= i < |at| ==> at[i] < |rules| && ActiveFilters(rules, feed, now)[i] == rules[at[i]].filter
    ensures forall k :: 0 <= k < |rules| ==> (k in at <==> rules[k].feed == feed && now < rules[k].expiresAt)
  {
    at := FilterPositions(rules, feed, now);
    hide ActiveFilters;
    forall k | 0 <= k < |rules|
      ensures Active(rules[k], feed, now) <==> rules[k].feed == feed && now < rules[k].expiresAt
    {
    }
  }

  lemma {:induction false} FilterPositions(rules: seq<Rule>, feed: Feed, now: int) returns (at: seq<nat>)
    ensures PositionsOf(rules, feed, now, ActiveFilters(rules, feed, now), at)
  {
    if rules == [] {
      at := [];
    } else {
      hide Active, PositionsOf;
      var n := |rules| - 1;
      var front := FilterPositions(rules[..n], feed, now);
      at := if Active(rules[n], feed, now) then front + [n] else front;
      OneMorePosition(rules, feed, now, ActiveFilters(rules[..n], feed, now), front);
    }
  }

  ghost predicate PositionsOf(rules: seq<Rule>, feed: Feed, now: int, filters: seq<Filter>, at: seq<nat>) {
    && Increasing(at) && |at| == |filters|
    && (forall i :: 0 <= i < |at| ==> at[i] < |rules| && filters[i] == rules[at[i]].filter)
    && (forall k :: 0 <= k < |rules| ==> (k in at <==> Active(rules[k], feed, now)))
  }

  lemma OneMorePosition(rules: seq<Rule>, feed: Feed, now: int, filters: seq<Filter>, at: seq<nat>)
    requires rules != [] && PositionsOf(rules[..|rules| - 1], feed, now, filters, at)
    ensures var n := |rules| - 1;
      if Active(rules[n], feed, now) then PositionsOf(rules, feed, now, filters + [rules[n].filter], at + [n])
      else PositionsOf(rules, feed, now, filters, at)
  {
    hide Active;
    var n, front := |rules| - 1, rules[..|rules| - 1];
    assert forall k :: 0 <= k < n ==> front[k] == rules[k];
    assert forall i :: 0 <= i < |at| ==> at[i] < n && filters[i] == rules[at[i]].filter;
    assert forall k :: k in at + [n] <==> k in at || k == n;
    assert n !in at;
  }

  /** On one snapshot, an event is marked exactly when some exclusion filter matches it. */
  lemma MarkedIffExcluded(s: Snapshot, feed: Feed, matches: Filter -> bool)
    ensures FirstHit(s, feed, matches).Some? <==> exists f :: f in ActiveFilters(s.rules, feed, s.now) && matches(f)
  {
    FirstHitMeaning(s, feed, matches);
    FiltersMeaning(s.rules, feed, s.now);
    if FirstHit(s, feed, matches).Some? {
      var r :| r in s.rules && r.feed == feed && s.now < r.expiresAt && matches(r.filter);
      assert r.filter in ActiveFilters(s.rules, feed, s.now);
    }
  }

  // ----- the cache against the table

  /** What the store lists: exactly the rules expiring after `at`, each once, in any order. */
  ghost predicate Lists(table: Table, at: int, rows: seq<Rule>) {
    && NoDuplicates(rows)
    && forall r :: r in rows <==> r.id in table && table[r.id] == r && at < r.expiresAt
  }

  /** The answer over the whole table: the lowest id among the unexpired matching rules of the feed, if any. */
  ghost predicate LowestMatch(table: Table, feed: Feed, now: int, matches: Filter -> bool, answer: Option<int>) {
    && (answer.Some? <==>
        exists id :: id in table && table[id].feed == feed && now < table[id].expiresAt && matches(table[id].filter))
    && (answer.Some? ==>
        var low := answer.value;
        && low in table && table[low].feed == feed && now < table[low].expiresAt && matches(table[low].filter)
        && forall id ::
             && id in table && table[id].feed == feed && now < table[id].expiresAt && matches(table[id].filter) ==>
               low <= id)
  }

  /** The exclusions over the whole table. */
  ghost predicate ExcludesAll(table: Table, feed: Feed, now: int, filters: seq<Filter>) {
    forall f :: f in filters <==>
      exists id :: id in table && table[id].feed == feed && now < table[id].expiresAt && table[id].filter == f
  }

  /** The cache loaded at `at` answers for the whole table at every later time: expiry needs no reload. */
  lemma CacheAgrees(table: Table, at: int, rows: seq<Rule>, feed: Feed, now: int, matches: Filter -> bool)
    requires Keyed(table) && Lists(table, at, rows) && at <= now
    ensures LowestMatch(table, feed, now, matches, FirstHit(Snapshot(SortById(rows), now), feed, matches))
  {
    var rules := SortById(rows);
    SortedCopy(rows);
    FirstHitMeaning(Snapshot(rules, now), feed, matches);
    var answer := FirstHit(Snapshot(rules, now), feed, matches);
    hide SortById, FirstHit;
    forall id | id in table && table[id].feed == feed && now < table[id].expiresAt && matches(table[id].filter)
      ensures answer.Some? && answer.value <= id
    {
      assert table[id] in rules;
      var j :| 0 <= j < |rules| && rules[j] == table[id];
    }
    if answer.Some? {
      var k :| 0 <= k < |rules| && rules[k].id == answer.value
               && rules[k].feed == feed && now < rules[k].expiresAt && matches(rules[k].filter);
      assert rules[k] in rows;
    }
  }

  lemma ExclusionsAgree(table: Table, at: int, rows: seq<Rule>, feed: Feed, now: int)
    requires Keyed(table) && Lists(table, at, rows) && at <= now
    ensures ExcludesAll(table, feed, now, ActiveFilters(SortById(rows), feed, now))
  {
    var rules := SortById(rows);
    SortedCopy(rows);
    FiltersMeaning(rules, feed, now);
    hide SortById, ActiveFilters;
    forall f
      ensures f in ActiveFilters(rules, feed, now) <==>
        exists id :: id in table && table[id].feed == feed && now < table[id].expiresAt && table[id].filter == f
    {
      if f in ActiveFilters(rules, feed, now) {
        var r :| r in rules && r.feed == feed && now < r.expiresAt && r.filter == f;
        assert r.id in table && table[r.id] == r;
      }
      if exists id :: id in table && table[id].feed == feed && now < table[id].expiresAt && table[id].filter == f {
        var id :| id in table && table[id].feed == feed && now < table[id].expiresAt && table[id].filter == f;
        assert table[id] in rules;
      }
    }
  }

  // ----- the object

  class Set {
    var rules: seq<Rule>

    constructor ()
      ensures rules == []
    {
      rules := [];
    }

    method Replace(given: seq<Rule>)
      modifies this
      ensures rules == SortById(given) && Ordered(rules) && multiset(rules) == multiset(given)
    {
      SortedCopy(given);
      rules := SortById(given);
    }

    /** `answer` is what the store listed; an error keeps the current rules. */
    method Reload(answer: Option<seq<Rule>>) returns (ok: bool)
      modifies this
      ensures ok == answer.Some?
      ensures rules == if ok then SortById(answer.value) else old(rules)
    {
      if answer.None? {
        return false;
      }
      Replace(answer.value);
      return true;
    }

    /** `Active`: the current rules and a reading of the clock. */
    method Active(now: int) returns (s: Snapshot)
      ensures s == Snapshot(rules, now)
    {
      return Snapshot(rules, now);
    }

    /** `MatchNetlog` and `MatchSrvlog`: a snapshot of its own for one event. */
    method MatchEvent(feed: Feed, matches: Filter -> bool, now: int) returns (id: Option<int>)
      ensures id == FirstHit(Snapshot(rules, now), feed, matches)
    {
      var s := Active(now);
      id := Match(s, feed, matches);
    }
  }
}

/** Reloads racing with each other, with writes to the table, with the clock and with readers. */
module MuteReload {
  import opened Common
  import opened MuteSet

  /**
   Where a Reload call is. `asked` is the table version when it was called; `at` its clock
   reading; `version` the table version the store answered from.
   */
  datatype Call =
    | Waiting(asked: nat)
    | Locked(asked: nat)
    | Asking(asked: nat, at: int)
    | Listed(asked: nat, at: int, version: nat, rows: seq<Rule>)

  /** Every version of the table so far, oldest first. */
  datatype State = State(
    tables: seq<Table>, clock: int, calls: map<nat, Call>, holder: Option<nat>,
    rules: seq<Rule>, loaded: Option<nat>, loadedAt: int)

  datatype Step =
    | Tick(clock: int)
    | Write(table: Table)
    | CallReload(t: nat)
    | TakeLock(t: nat)
    | ReadClock(t: nat)
    | ListRules(t: nat, answer: Option<seq<Rule>>)
    | Install(t: nat)

  function Init(table: Table, clock: int): State {
    State([table], clock, map[], None, [], None, clock)
  }

  function Version(s: State): int {
    |s.tables| - 1
  }

  ghost predicate Enabled(s: State, step: Step) {
    match step
    case Tick(clock) => s.clock <= clock
    case Write(table) => Keyed(table)
    case CallReload(t) => t !in s.calls && s.tables != []
    case TakeLock(t) => t in s.calls && s.calls[t].Waiting? && s.holder.None?
    case ReadClock(t) => t in s.calls && s.calls[t].Locked?
    case ListRules(t, answer) =>
      && t in s.calls && s.calls[t].Asking? && s.tables != []
      && (answer.Some? ==> Lists(s.tables[Version(s)], s.calls[t].at, answer.value))
    case Install(t) => t in s.calls && s.calls[t].Listed?
  }

  ghost function Next(s: State, step: Step): State
    requires Enabled(s, step)
  {
    match step
    case Tick(clock) => s.(clock := clock)
    case Write(table) => s.(tables := s.tables + [table])
    case CallReload(t) => s.(calls := s.calls[t := Waiting(Version(s))])
    case TakeLock(t) => s.(calls := s.calls[t := Locked(s.calls[t].asked)], holder := Some(t))
    case ReadClock(t) => s.(calls := s.calls[t := Asking(s.calls[t].asked, s.clock)])
    case ListRules(t, answer) =>
      if answer.None? then s.(calls := s.calls - {t}, holder := None)
      else s.(calls := s.calls[t := Listed(s.calls[t].asked, s.calls[t].at, Version(s), answer.value)])
    case Install(t) =>
      var c := s.calls[t];
      s.(calls := s.calls - {t}, holder := None, rules := SortById(c.rows), loaded := Some(c.version), loadedAt := c.at)
  }

  /** The version behind the cache; -1 before the first load. */
  function LoadedVersion(s: State): int {
    if s.loaded.Some? then s.loaded.value else -1
  }

  /** A call's answer was read under the lock, no earlier than the version it was asked at or the one installed. */
  ghost predicate CallOk(s: State, t: nat)
    requires t in s.calls
  {
    var c := s.calls[t];
    && c.asked <= Version(s)
    && (c.Waiting? <==> s.holder != Some(t))
    && (c.Asking? || c.Listed? ==> c.at <= s.clock)
    && (c.Listed? ==>
          && c.asked <= c.version <= Version(s) && LoadedVersion(s) <= c.version
          && Lists(s.tables[c.version], c.at, c.rows))
  }

  /** The cache is the sorted list of one version of the table. */
  ghost predicate CacheOk(s: State) {
    && (s.loaded.None? ==> s.rules == [])
    && (s.loaded.Some? ==>
          && s.loaded.value <= Version(s) && s.loadedAt <= s.clock
          && exists rows :: Lists(s.tables[s.loaded.value], s.loadedAt, rows) && s.rules == SortById(rows))
  }

  ghost predicate Inv(s: State) {
    && s.tables != [] && (forall v :: 0 <= v < |s.tables| ==> Keyed(s.tables[v]))
    && (s.holder.Some? ==> s.holder.value in s.calls)
    && (forall t :: t in s.calls ==> CallOk(s, t))
    && CacheOk(s)
  }

  lemma InvStep(s: State, step: Step)
    requires Inv(s) && Enabled(s, step)
    ensures Inv(Next(s, step))
  {
    var s' := Next(s, step);
    hide Lists;
    assert forall v :: 0 <= v < |s'.tables| ==> Keyed(s'.tables[v]);
    hide Keyed;
    CacheStep(s, step);
    hide CacheOk;
    forall t | t in s'.calls
      ensures CallOk(s', t)
    {
      CallStep(s, step, t);
    }
  }

  lemma CacheStep(s: State, step: Step)
    requires Inv(s) && Enabled(s, step)
    ensures CacheOk(Next(s, step))
  {
    hide Lists, Keyed, SortById;
    if step.Install? {
      var c := s.calls[step.t];
      assert CallOk(s, step.t);
      assert Lists(s.tables[c.version], c.at, c.rows);
    }
  }

  lemma CallStep(s: State, step: Step, t: nat)
    requires Inv(s) && Enabled(s, step) && t in Next(s, step).calls
    ensures CallOk(Next(s, step), t)
  {
    hide Lists, Keyed, SortById;
    if step.Install? {
      assert CallOk(s, step.t);
    }
    assert t in s.calls ==> CallOk(s, t);
  }

  /** Only Install changes what is loaded, and it never goes back to an older table. */
  lemma VersionStep(s: State, step: Step)
    requires Inv(s) && Enabled(s, step)
    ensures LoadedVersion(s) <= LoadedVersion(Next(s, step)) && s.clock <= Next(s, step).clock
      && s.tables <= Next(s, step).tables
    ensures step.Install? ==> LoadedVersion(Next(s, step)) >= s.calls[step.t].asked
  {
    if step.Install? {
      assert CallOk(s, step.t);
    }
  }

  // ----- whole runs

  ghost predicate IsRun(states: seq<State>, steps: seq<Step>) {
    && |states| == |steps| + 1
    && |states[0].tables| == 1 && Keyed(states[0].tables[0])
    && states[0] == Init(states[0].tables[0], states[0].clock)
    && forall i :: 0 <= i < |steps| ==> Enabled(states[i], steps[i]) && states[i + 1] == Next(states[i], steps[i])
  }

  lemma {:induction false} RunInv(states: seq<State>, steps: seq<Step>, i: nat)
    requires IsRun(states, steps) && i < |states|
    ensures Inv(states[i])
  {
    hide Enabled, Next;
    if i > 0 {
      RunInv(states, steps, i - 1);
      InvStep(states[i - 1], steps[i - 1]);
    }
  }

  /** No reload installs an older version of the table over a newer one. */
  lemma {:induction false} NeverBackwards(states: seq<State>, steps: seq<Step>, i: nat, j: nat)
    requires IsRun(states, steps) && i <= j < |states|
    ensures LoadedVersion(states[i]) <= LoadedVersion(states[j])
    ensures states[i].clock <= states[j].clock && states[i].tables <= states[j].tables
    decreases j
  {
    hide Enabled, Next, Inv;
    if i < j {
      NeverBackwards(states, steps, i, j - 1);
      RunInv(states, steps, j - 1);
      VersionStep(states[j - 1], steps[j - 1]);
    }
  }

  /** From its call until it installs or fails, a reload remembers the version it was asked at. */
  lemma {:induction false} AskedKept(states: seq<State>, steps: seq<Step>, i: nat, j: nat, t: nat)
    requires IsRun(states, steps) && i < j < |states| && steps[i] == CallReload(t)
    requires forall k :: i < k <= j ==> t in states[k].calls
    requires forall k :: i < k < j ==> steps[k] != CallReload(t)
    ensures states[j].calls[t].asked == Version(states[i])
    decreases j
  {
    if j == i + 1 {
    } else {
      AskedKept(states, steps, i, j - 1, t);
      var s, step := states[j - 1], steps[j - 1];
      assert states[j] == Next(s, step);
    }
  }

  /**
   A write is visible once the reload asked for after it has succeeded: when that reload installs,
   and from then on, the cache answers from that version of the table or a newer one.
   */
  lemma WriteVisibleAfterReload(states: seq<State>, steps: seq<Step>, i: nat, j: nat, k: nat, t: nat)
    requires IsRun(states, steps) && i < j < k < |states|
    requires steps[i] == CallReload(t) && steps[j] == Install(t)
    requires forall n :: i < n <= j ==> t in states[n].calls
    ensures LoadedVersion(states[k]) >= Version(states[i])
  {
    assert forall n :: i < n < j ==> Enabled(states[n], steps[n]);
    AskedKept(states, steps, i, j, t);
    RunInv(states, steps, j);
    VersionStep(states[j], steps[j]);
    NeverBackwards(states, steps, j + 1, k);
  }

  /** A snapshot takes the rules at one moment and the clock at a later one. */
  function Taken(states: seq<State>, i: nat, j: nat): Snapshot
    requires i <= j < |states|
  {
    Snapshot(states[i].rules, states[j].clock)
  }

  /**
   Whatever the interleaving, a snapshot of a loaded cache answers as the whole table did in the
   loaded version; until the next write that is the current table.
   */
  lemma SnapshotAgrees(states: seq<State>, steps: seq<Step>, i: nat, j: nat, feed: Feed, matches: Filter -> bool)
    requires IsRun(states, steps) && i <= j < |states| && states[i].loaded.Some?
    ensures LoadedVersion(states[i]) <= Version(states[i])
    ensures LowestMatch(states[i].tables[LoadedVersion(states[i])], feed, states[j].clock, matches,
      FirstHit(Taken(states, i, j), feed, matches))
    ensures ExcludesAll(states[i].tables[LoadedVersion(states[i])], feed, states[j].clock,
      ActiveFilters(states[i].rules, feed, states[j].clock))
    ensures LoadedVersion(states[i]) == Version(states[j]) ==>
      LowestMatch(states[j].tables[Version(states[j])], feed, states[j].clock, matches,
        FirstHit(Taken(states, i, j), feed, matches))
  {
    RunInv(states, steps, i);
    NeverBackwards(states, steps, i, j);
    var s := states[i];
    var rows :| Lists(s.tables[s.loaded.value], s.loadedAt, rows) && s.rules == SortById(rows);
    CacheAgrees(s.tables[s.loaded.value], s.loadedAt, rows, feed, states[j].clock, matches);
    ExclusionsAgree(s.tables[s.loaded.value], s.loadedAt, rows, feed, states[j].clock);
    hide LowestMatch, ExcludesAll, Lists, FirstHit;
  }
}
