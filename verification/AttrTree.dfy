/**
 The nested attribute object a record is shipped with (pkg/logshipper/handler.go, `setAttr`,
 `groupMap`, `WithAttrs`, `WithGroup`), against a flat last-write-wins map from slots to values.
 */
module AttrTree {
  import opened Common

  /** A value, or a group of entries (`attrGroup`). */
  datatype Node<V> = Leaf(value: V) | Group(entries: map<string, Node<V>>)

  type Tree<V> = map<string, Node<V>>

  const VALUE_KEY := "_value"

  // ----- writing and reading one slot

  /** The entries of the group at g, created if needed; a value already there moves in under VALUE_KEY. */
  function Sub<V>(m: Tree<V>, g: string): Tree<V> {
    if g !in m then map[]
    else if m[g].Group? then m[g].entries
    else map[VALUE_KEY := m[g]]
  }

  /** `groupMap` and the store behind it. */
  function Set<V>(m: Tree<V>, path: seq<string>, key: string, v: V): Tree<V>
    decreases |path|
  {
    if path == [] then
      if key in m && m[key].Group? then m[key := Group(m[key].entries[VALUE_KEY := Leaf(v)])]
      else m[key := Leaf(v)]
    else m[path[0] := Group(Set(Sub(m, path[0]), path[1..], key, v))]
  }

  /** The value stored for a key, looked for under VALUE_KEY when the key is also a group. */
  function Lookup<V>(m: Tree<V>, path: seq<string>, key: string): Option<V>
    decreases |path|
  {
    if path == [] then
      if key !in m then None
      else if m[key].Leaf? then Some(m[key].value)
      else
        var sub := m[key].entries;
        if VALUE_KEY in sub && sub[VALUE_KEY].Leaf? then Some(sub[VALUE_KEY].value) else None
    else if path[0] in m && m[path[0]].Group? then Lookup(m[path[0]].entries, path[1..], key)
    else None
  }

  /** The reserved name does not occur below the top level. */
  predicate Clean(path: seq<string>, key: string) {
    VALUE_KEY !in (path + [key])[1..]
  }

  predicate Unreserved(path: seq<string>, key: string) {
    VALUE_KEY !in path && key != VALUE_KEY
  }

  lemma CleanBelow(path: seq<string>, key: string)
    requires path != [] && Clean(path, key)
    ensures Unreserved(path[1..], key) && Clean(path[1..], key)
  {
    assert (path + [key])[1..] == path[1..] + [key];
    assert forall x :: x in path[1..] || x == key ==> x in path[1..] + [key];
    assert forall x :: x in (path[1..] + [key])[1..] ==> x in path[1..] + [key];
  }

  /** The first slot lies in the place where a value of the second is kept when its key is also a group. */
  predicate Shadows(path: seq<string>, key: string, path': seq<string>, key': string) {
    path' + [key', VALUE_KEY] <= path + [key]
  }

  lemma ShadowsBelow(path: seq<string>, key: string, path': seq<string>, key': string)
    requires path != [] && path' != [] && path[0] == path'[0]
    ensures Shadows(path, key, path', key') <==> Shadows(path[1..], key, path'[1..], key')
  {
    assert path + [key] == [path[0]] + (path[1..] + [key]);
    assert path' + [key', VALUE_KEY] == [path[0]] + (path'[1..] + [key', VALUE_KEY]);
    PrefixBelow(path[0], path'[1..] + [key', VALUE_KEY], path[1..] + [key]);
  }

  lemma PrefixBelow<T>(x: T, a: seq<T>, b: seq<T>)
    ensures [x] + a <= [x] + b <==> a <= b
  {
    assert ([x] + a)[1..] == a && ([x] + b)[1..] == b;
    assert [x] + a <= [x] + b ==> a == ([x] + b)[1..|a| + 1];
  }

  /** A clean slot is shadowed by no clean slot. */
  lemma CleanNeverShadows(path: seq<string>, key: string, path': seq<string>, key': string)
    ensures Clean(path, key) ==> !Shadows(path, key, path', key')
  {
    if Shadows(path, key, path', key') {
      assert (path + [key])[1..][|path'|] == (path' + [key', VALUE_KEY])[|path'| + 1] == VALUE_KEY;
    }
  }

  /**
   A write sets its own slot; it changes what another clean slot reads only if it shadows it,
   whatever was stored before and however keys and groups collide.
   */
  lemma {:induction false} SetThenLookup<V>(m: Tree<V>, path: seq<string>, key: string, v: V, path': seq<string>,
      key': string)
    requires Clean(path', key') && !Shadows(path, key, path', key')
    ensures Lookup(Set(m, path, key, v), path', key')
         == if path == path' && key == key' then Some(v) else Lookup(m, path', key')
    decreases |path|
  {
    if path' != [] {
      CleanBelow(path', key');
      if path == [] {
        OnlyValueChanged(m, key, v, path', key');
      } else if path[0] == path'[0] {
        ShadowsBelow(path, key, path', key');
        SetThenLookup(Sub(m, path[0]), path[1..], key, v, path'[1..], key');
        assert path == path' <==> path[1..] == path'[1..];
        SubLookup(m, path[0], path'[1..], key');
      }
    } else if path != [] && path[0] == key' {
      KeepsDisplaced(Sub(m, key'), path[1..], key, v);
    }
  }

  /** A write that does not start at VALUE_KEY leaves the entry there alone. */
  lemma KeepsDisplaced<V>(m: Tree<V>, path: seq<string>, key: string, v: V)
    ensures (path + [key])[0] != VALUE_KEY ==>
      && (VALUE_KEY in Set(m, path, key, v) <==> VALUE_KEY in m)
      && (VALUE_KEY in m ==> Set(m, path, key, v)[VALUE_KEY] == m[VALUE_KEY])
  {
  }

  /** A write that shadows a slot takes it away or puts its own value there. */
  lemma {:induction false} ShadowHides<V>(m: Tree<V>, path: seq<string>, key: string, a: V, path': seq<string>,
      key': string, b: V)
    requires Shadows(path', key', path, key) && a != b
    ensures Lookup(Set(Set(m, path, key, a), path', key', b), path, key) != Some(a)
    decreases |path|
  {
    assert path'[0] == (path' + [key'])[0] == (path + [key, VALUE_KEY])[0];
    if path == [] {
      assert (path' + [key'])[1] == VALUE_KEY;
      assert path'[1..] + [key'] == (path' + [key'])[1..];
    } else {
      ShadowsBelow(path', key', path, key);
      ShadowHides(Sub(m, path[0]), path[1..], key, a, path'[1..], key', b);
    }
  }

  /**
   The exact condition, slot by slot: writes to another slot leave a clean slot alone, whatever is
   stored, if and only if they do not shadow it.
   */
  lemma UndisturbedIffNotShadowed(path: seq<string>, key: string, path': seq<string>, key': string)
    requires Clean(path, key) && !(path == path' && key == key')
    ensures (forall m: Tree<int>, v: int :: Lookup(Set(m, path', key', v), path, key) == Lookup(m, path, key))
       <==> !Shadows(path', key', path, key)
  {
    if Shadows(path', key', path, key) {
      var m: Tree<int> := Set(map[], path, key, 0);
      ShadowHides(map[], path, key, 0, path', key', 1);
      CleanNeverShadows(path, key, path, key);
      SetThenLookup(map[], path, key, 0, path, key);
      assert Lookup(Set(m, path', key', 1), path, key) != Lookup(m, path, key);
    } else {
      forall m: Tree<int>, v: int
        ensures Lookup(Set(m, path', key', v), path, key) == Lookup(m, path, key)
      {
        SetThenLookup(m, path', key', v, path, key);
      }
    }
  }

  /** Moving a value into a group hides it from no unreserved slot below. */
  lemma SubLookup<V>(m: Tree<V>, g: string, path: seq<string>, key: string)
    requires Unreserved(path, key)
    ensures Lookup(Sub(m, g), path, key) == Lookup(m, [g] + path, key)
  {
    assert ([g] + path)[1..] == path;
  }

  lemma OnlyValueChanged<V>(m: Tree<V>, key: string, v: V, path: seq<string>, key': string)
    requires path != [] && Unreserved(path[1..], key')
    ensures Lookup(Set(m, [], key, v), path, key') == Lookup(m, path, key')
  {
  }

  // ----- the reserved name

  /** The first reserved name below the top level makes a slot collide with the one just above it. */
  lemma {:induction false} ReservedCollides<V>(m: Tree<V>, path: seq<string>, key: string, a: V, b: V)
    returns (path': seq<string>, key': string)
    requires !Clean(path, key) && a != b
    ensures Clean(path', key') && path' + [key'] < path + [key]
    ensures Lookup(Set(Set(m, path, key, a), path', key', b), path, key) != Some(a)
    decreases |path|
  {
    var names := path + [key];
    assert names[1..] == path[1..] + [key];
    var below := (path[1..] + [key])[0];
    if below == VALUE_KEY {
      path', key' := [], path[0];
      assert [path[0]] < names;
    } else {
      var rest := path[1..];
      assert VALUE_KEY in (rest + [key])[1..] by {
        assert rest + [key] == [below] + (rest + [key])[1..];
      }
      var p, k := ReservedCollides(Sub(m, path[0]), rest, key, a, b);
      path', key' := [path[0]] + p, k;
      NamesBelow(path[0], rest, key, p, k);
      hide Clean;
      assert path == [path[0]] + rest && path'[1..] == p;
    }
  }

  lemma NamesBelow(g: string, path: seq<string>, key: string, path': seq<string>, key': string)
    requires Clean(path', key') && path' + [key'] < path + [key] && (path + [key])[0] != VALUE_KEY
    ensures Clean([g] + path', key') && [g] + path' + [key'] < [g] + path + [key]
  {
    var names := path' + [key'];
    assert ([g] + path' + [key'])[1..] == names && names == [names[0]] + names[1..];
    assert [g] + path' + [key'] == [g] + names && [g] + path + [key] == [g] + (path + [key]);
    PrefixBelow(g, names, path + [key]);
  }

  /**
   A slot is safe from all clean slots exactly when it is clean itself: only then does no later
   write to another clean slot disturb it.
   */
  lemma UndisturbedIffClean(path: seq<string>, key: string)
    ensures Clean(path, key) <==>
      forall m: Tree<int>, a: int, b: int, path': seq<string>, key': string ::
        Clean(path', key') && path' + [key'] != path + [key] ==>
          Lookup(Set(Set(m, path, key, a), path', key', b), path, key) == Some(a)
  {
    if Clean(path, key) {
      forall m: Tree<int>, a: int, b: int, path': seq<string>, key': string
        | Clean(path', key') && path' + [key'] != path + [key]
        ensures Lookup(Set(Set(m, path, key, a), path', key', b), path, key) == Some(a)
      {
        CleanNeverShadows(path, key, path, key);
        CleanNeverShadows(path', key', path, key);
        SetThenLookup(m, path, key, a, path, key);
        SetThenLookup(Set(m, path, key, a), path', key', b, path, key);
      }
    } else {
      var path', key' := ReservedCollides<int>(map[], path, key, 0, 1);
      assert path' + [key'] != path + [key];
    }
  }

  // ----- no empty groups

  function GroupAt<V>(m: Tree<V>, path: seq<string>): Option<Tree<V>>
    decreases |path|
  {
    if path == [] then Some(m)
    else if path[0] in m && m[path[0]].Group? then GroupAt(m[path[0]].entries, path[1..])
    else None
  }

  /** Every group below the top level has an entry. */
  ghost predicate NoEmptyGroups<V(!new)>(m: Tree<V>) {
    forall path :: path != [] && GroupAt(m, path).Some? ==> GroupAt(m, path).value != map[]
  }

  lemma {:induction false} SetKeepsGroupsFilled<V(!new)>(m: Tree<V>, path: seq<string>, key: string, v: V)
    requires NoEmptyGroups(m)
    ensures NoEmptyGroups(Set(m, path, key, v))
    decreases |path|
  {
    var m' := Set(m, path, key, v);
    if path != [] {
      SubFilled(m, path[0]);
      SetKeepsGroupsFilled(Sub(m, path[0]), path[1..], key, v);
    }
    forall p | p != [] && GroupAt(m', p).Some?
      ensures GroupAt(m', p).value != map[]
    {
      var first := (path + [key])[0];
      if p[0] != first {
        assert GroupAt(m', p) == GroupAt(m, p);
      } else if path != [] {
        assert GroupAt(m', p) == GroupAt(Set(Sub(m, path[0]), path[1..], key, v), p[1..]);
        assert ((path[1..] + [key])[0]) in Set(Sub(m, path[0]), path[1..], key, v);
      } else if |p| >= 2 {
        assert p[1..][0] == p[1];
        assert p[1] != VALUE_KEY ==> GroupAt(m', p) == GroupAt(m, p);
      } else {
        assert VALUE_KEY in m'[key].entries;
      }
    }
  }

  lemma SubFilled<V(!new)>(m: Tree<V>, g: string)
    requires NoEmptyGroups(m)
    ensures NoEmptyGroups(Sub(m, g))
  {
    forall p | p != [] && GroupAt(Sub(m, g), p).Some?
      ensures GroupAt(Sub(m, g), p).value != map[]
    {
      assert ([g] + p)[1..] == p;
      assert m[g].Group? ==> GroupAt(m, [g] + p) == GroupAt(Sub(m, g), p);
    }
  }

  // ----- whole records

  /** An slog attribute; `Many` is a group value, inline when the key is empty. */
  datatype Attr<V> = One(key: string, value: V) | Many(key: string, attrs: seq<Attr<V>>)

  datatype Write<V> = Write(path: seq<string>, key: string, value: V)

  /**
   `setAttr`: what conversion, redaction and truncation make of a value is `conv`; it answers
   None for the zero Attr and for values that Redact drops.
   */
  function SetAttr<V>(conv: (string, V) -> Option<V>, m: Tree<V>, groups: seq<string>, a: Attr<V>): Tree<V>
    decreases a, 0
  {
    match a
    case One(key, value) =>
      var v := conv(key, value);
      if v.None? then m else Set(m, groups, key, v.value)
    case Many(key, attrs) =>
      SetAttrs(conv, m, if key != "" then groups + [key] else groups, attrs)
  }

  function SetAttrs<V>(conv: (string, V) -> Option<V>, m: Tree<V>, groups: seq<string>, attrs: seq<Attr<V>>): Tree<V>
    decreases attrs, 1
  {
    if attrs == [] then m
    else SetAttrs(conv, SetAttr(conv, m, groups, attrs[0]), groups, attrs[1..])
  }

  /** The slots an attribute writes, in order. */
  function Writes<V>(conv: (string, V) -> Option<V>, groups: seq<string>, a: Attr<V>): seq<Write<V>>
    decreases a, 0
  {
    match a
    case One(key, value) =>
      var v := conv(key, value);
      if v.None? then [] else [Write(groups, key, v.value)]
    case Many(key, attrs) =>
      AllWrites(conv, if key != "" then groups + [key] else groups, attrs)
  }

  function AllWrites<V>(conv: (string, V) -> Option<V>, groups: seq<string>, attrs: seq<Attr<V>>): seq<Write<V>>
    decreases attrs, 1
  {
    if attrs == [] then [] else Writes(conv, groups, attrs[0]) + AllWrites(conv, groups, attrs[1..])
  }

  function Apply<V>(m: Tree<V>, ws: seq<Write<V>>): Tree<V> {
    if ws == [] then m
    else
      var w := ws[|ws| - 1];
      Set(Apply(m, ws[..|ws| - 1]), w.path, w.key, w.value)
  }

  /** The flat map: the last write to a slot. */
  function LastWrite<V>(ws: seq<Write<V>>, path: seq<string>, key: string): Option<V> {
    if ws == [] then None
    else
      var w := ws[|ws| - 1];
      if w.path == path && w.key == key then Some(w.value) else LastWrite(ws[..|ws| - 1], path, key)
  }

  lemma {:induction false} ApplyConcat<V>(m: Tree<V>, ws: seq<Write<V>>, us: seq<Write<V>>)
    ensures Apply(m, ws + us) == Apply(Apply(m, ws), us)
  {
    if us == [] {
      assert ws + us == ws;
    } else {
      assert (ws + us)[..|ws + us| - 1] == ws + us[..|us| - 1];
      ApplyConcat(m, ws, us[..|us| - 1]);
    }
  }

  lemma {:induction false} SetAttrWrites<V>(conv: (string, V) -> Option<V>, m: Tree<V>, groups: seq<string>, a: Attr<V>)
    ensures SetAttr(conv, m, groups, a) == Apply(m, Writes(conv, groups, a))
    decreases a, 0
  {
    match a
    case One(key, value) =>
      var v := conv(key, value);
      if v.Some? {
        assert [Write(groups, key, v.value)][..0] == [];
      }
    case Many(key, attrs) =>
      SetAttrsWrites(conv, m, if key != "" then groups + [key] else groups, attrs);
  }

  lemma {:induction false} SetAttrsWrites<V>(conv: (string, V) -> Option<V>, m: Tree<V>, groups: seq<string>,
      attrs: seq<Attr<V>>)
    ensures SetAttrs(conv, m, groups, attrs) == Apply(m, AllWrites(conv, groups, attrs))
    decreases attrs, 1
  {
    if attrs != [] {
      SetAttrWrites(conv, m, groups, attrs[0]);
      SetAttrsWrites(conv, SetAttr(conv, m, groups, attrs[0]), groups, attrs[1..]);
      ApplyConcat(m, Writes(conv, groups, attrs[0]), AllWrites(conv, groups, attrs[1..]));
    }
  }

  // ----- which slots an attribute writes

  /** The attribute reached by taking, from group to group, the members at these positions. */
  function AttrAt<V>(a: Attr<V>, at: seq<nat>): Option<Attr<V>>
    decreases |at|
  {
    if at == [] then Some(a)
    else if a.Many? && at[0] < |a.attrs| then AttrAt(a.attrs[at[0]], at[1..])
    else None
  }

  /** The names of the groups passed on the way; an inline group has none. */
  function NamesTo<V>(a: Attr<V>, at: seq<nat>): seq<string>
    requires AttrAt(a, at).Some?
    decreases |at|
  {
    if at == [] then []
    else (if a.key != "" then [a.key] else []) + NamesTo(a.attrs[at[0]], at[1..])
  }

  /** The write comes from the leaf at this position. */
  ghost predicate WrittenBy<V(!new)>(conv: (string, V) -> Option<V>, groups: seq<string>, a: Attr<V>, at: seq<nat>,
      w: Write<V>) {
    && AttrAt(a, at).Some? && AttrAt(a, at).value.One?
    && var leaf := AttrAt(a, at).value;
       conv(leaf.key, leaf.value) == Some(w.value) && w.key == leaf.key && w.path == groups + NamesTo(a, at)
  }

  /** Exactly the leaves that are not dropped are written, each under the named groups around it. */
  lemma {:induction false} WritesAreLeaves<V(!new)>(conv: (string, V) -> Option<V>, groups: seq<string>, a: Attr<V>,
      w: Write<V>)
    ensures w in Writes(conv, groups, a) <==> exists at :: WrittenBy(conv, groups, a, at, w)
    decreases a, 0
  {
    match a
    case One(key, value) =>
      if w in Writes(conv, groups, a) {
        assert WrittenBy(conv, groups, a, [], w);
      }
      if at :| WrittenBy(conv, groups, a, at, w) {
        assert at == [] && groups + [] == groups;
      }
    case Many(key, attrs) =>
      var inner := if key != "" then groups + [key] else groups;
      AllWritesAreLeaves(conv, inner, attrs, w);
      if w in Writes(conv, groups, a) {
        var i: nat, at :| i < |attrs| && WrittenBy(conv, inner, attrs[i], at, w);
        LeafBelow(conv, groups, a, i, at, w);
        assert WrittenBy(conv, groups, a, [i] + at, w);
      }
      if at :| WrittenBy(conv, groups, a, at, w) {
        LeafBelow(conv, groups, a, at[0], at[1..], w);
        assert at == [at[0]] + at[1..];
        assert WrittenBy(conv, inner, attrs[at[0]], at[1..], w);
      }
  }

  lemma LeafBelow<V(!new)>(conv: (string, V) -> Option<V>, groups: seq<string>, a: Attr<V>, i: nat, at: seq<nat>,
      w: Write<V>)
    requires a.Many? && i < |a.attrs|
    ensures WrittenBy(conv, groups, a, [i] + at, w) <==>
      WrittenBy(conv, if a.key != "" then groups + [a.key] else groups, a.attrs[i], at, w)
  {
    assert ([i] + at)[1..] == at;
    if AttrAt(a.attrs[i], at).Some? {
      var names := NamesTo(a.attrs[i], at);
      assert groups + ([a.key] + names) == groups + [a.key] + names && groups + ([] + names) == groups + names;
    }
  }

  lemma {:induction false} AllWritesAreLeaves<V(!new)>(conv: (string, V) -> Option<V>, groups: seq<string>,
      attrs: seq<Attr<V>>, w: Write<V>)
    ensures w in AllWrites(conv, groups, attrs) <==>
      exists i: nat, at :: i < |attrs| && WrittenBy(conv, groups, attrs[i], at, w)
    decreases attrs, 1
  {
    if attrs != [] {
      WritesAreLeaves(conv, groups, attrs[0], w);
      AllWritesAreLeaves(conv, groups, attrs[1..], w);
      if w in AllWrites(conv, groups, attrs[1..]) {
        var i: nat, at :| i < |attrs[1..]| && WrittenBy(conv, groups, attrs[1..][i], at, w);
        assert WrittenBy(conv, groups, attrs[i + 1], at, w);
      }
      if i: nat, at :| i < |attrs| && WrittenBy(conv, groups, attrs[i], at, w) {
        assert i > 0 ==> WrittenBy(conv, groups, attrs[1..][i - 1], at, w);
      }
    }
  }

  /** Attributes land under the groups they were given with, never outside. */
  lemma {:induction false} UnderGroups<V>(conv: (string, V) -> Option<V>, groups: seq<string>, a: Attr<V>, w: Write<V>)
    requires w in Writes(conv, groups, a)
    ensures groups <= w.path
    decreases a, 0
  {
    if a.Many? {
      AllUnderGroups(conv, if a.key != "" then groups + [a.key] else groups, a.attrs, w);
    }
  }

  lemma {:induction false} AllUnderGroups<V>(conv: (string, V) -> Option<V>, groups: seq<string>, attrs: seq<Attr<V>>,
      w: Write<V>)
    requires w in AllWrites(conv, groups, attrs)
    ensures groups <= w.path
    decreases attrs, 1
  {
    if w in Writes(conv, groups, attrs[0]) {
      UnderGroups(conv, groups, attrs[0], w);
    } else {
      AllUnderGroups(conv, groups, attrs[1..], w);
    }
  }

  ghost predicate AllClean<V>(ws: seq<Write<V>>) {
    forall w :: w in ws ==> Clean(w.path, w.key)
  }

  /** No write shadows the slot. */
  ghost predicate Unshadowed<V>(ws: seq<Write<V>>, path: seq<string>, key: string) {
    forall w :: w in ws ==> !Shadows(w.path, w.key, path, key)
  }

  lemma CleanWrites<V>(ws: seq<Write<V>>, path: seq<string>, key: string)
    requires AllClean(ws)
    ensures Unshadowed(ws, path, key)
  {
    forall w | w in ws
      ensures !Shadows(w.path, w.key, path, key)
    {
      CleanNeverShadows(w.path, w.key, path, key);
    }
  }

  /** The tree built by any writes reads, at a clean slot that none of them shadows, as the flat map. */
  lemma {:induction false} RefinesFlatMap<V(!new)>(ws: seq<Write<V>>, path: seq<string>, key: string)
    requires Unshadowed(ws, path, key) && Clean(path, key)
    ensures Lookup(Apply(map[], ws), path, key) == LastWrite(ws, path, key)
  {
    if ws == [] {
      EmptyTree<V>(path, key);
    } else {
      var front, w := ws[..|ws| - 1], ws[|ws| - 1];
      RefinesFlatMap(front, path, key);
      SetThenLookup(Apply(map[], front), w.path, w.key, w.value, path, key);
    }
  }

  /** Without the reserved name below the top level, every slot reads as in the flat map. */
  lemma FlatWhenClean<V(!new)>(ws: seq<Write<V>>, path: seq<string>, key: string)
    requires AllClean(ws) && Clean(path, key)
    ensures Lookup(Apply(map[], ws), path, key) == LastWrite(ws, path, key)
  {
    CleanWrites(ws, path, key);
    RefinesFlatMap(ws, path, key);
  }

  lemma EmptyTree<V(!new)>(path: seq<string>, key: string)
    ensures Lookup<V>(map[], path, key) == None && NoEmptyGroups<V>(map[])
  {
  }

  lemma {:induction false} NeverEmptyGroups<V(!new)>(ws: seq<Write<V>>)
    ensures NoEmptyGroups(Apply(map[], ws))
  {
    if ws == [] {
      EmptyTree<V>([], "");
    } else {
      var front, w := ws[..|ws| - 1], ws[|ws| - 1];
      NeverEmptyGroups(front);
      SetKeepsGroupsFilled(Apply(map[], front), w.path, w.key, w.value);
    }
  }

  // ----- displaced values

  /** A slot that reads a value while its key is a group reads it inside that group. */
  lemma {:induction false} ReadInGroup<V>(m: Tree<V>, path: seq<string>, key: string)
    requires Lookup(m, path, key).Some? && GroupAt(m, path + [key]).Some?
    ensures VALUE_KEY in GroupAt(m, path + [key]).value
    ensures GroupAt(m, path + [key]).value[VALUE_KEY] == Leaf(Lookup(m, path, key).value)
    decreases |path|
  {
    if path != [] {
      assert (path + [key])[1..] == path[1..] + [key];
      ReadInGroup(m[path[0]].entries, path[1..], key);
    } else {
      assert ([key])[1..] == [];
      assert path + [key] == [key];
    }
  }

  /** A write below a path makes a group there. */
  lemma {:induction false} GroupMade<V>(m: Tree<V>, path: seq<string>, key: string, v: V, at: seq<string>)
    requires at <= path
    ensures GroupAt(Set(m, path, key, v), at).Some?
    decreases |path|
  {
    if at != [] {
      assert at[1..] <= path[1..];
      GroupMade(Sub(m, path[0]), path[1..], key, v, at[1..]);
    }
  }

  /** A group outside the reserved places is there for good. */
  lemma {:induction false} GroupStays<V>(m: Tree<V>, path: seq<string>, key: string, v: V, at: seq<string>)
    requires GroupAt(m, at).Some? && (at != [] ==> VALUE_KEY !in at[1..])
    ensures GroupAt(Set(m, path, key, v), at).Some?
    decreases |path|
  {
    if at != [] && (path + [key])[0] == at[0] {
      assert at[1..] != [] ==> at[1..][0] != VALUE_KEY && VALUE_KEY !in at[1..][1..];
      if path != [] {
        GroupStays(Sub(m, path[0]), path[1..], key, v, at[1..]);
      }
    }
  }

  lemma {:induction false} GroupOfWrites<V>(ws: seq<Write<V>>, w: Write<V>, at: seq<string>)
    requires w in ws && at <= w.path && (at != [] ==> VALUE_KEY !in at[1..])
    ensures GroupAt(Apply(map[], ws), at).Some?
  {
    var front, last := ws[..|ws| - 1], ws[|ws| - 1];
    if at <= last.path {
      GroupMade(Apply(map[], front), last.path, last.key, last.value, at);
    } else {
      GroupOfWrites(front, w, at);
      GroupStays(Apply(map[], front), last.path, last.key, last.value, at);
    }
  }

  /**
   A value whose key some other write used as a group, before it or after, is in that group under
   VALUE_KEY, and it is the value last written.
   */
  lemma DisplacedValueReadable<V(!new)>(ws: seq<Write<V>>, w: Write<V>, path: seq<string>, key: string)
    requires Unshadowed(ws, path, key) && Clean(path, key)
    requires LastWrite(ws, path, key).Some? && w in ws && path + [key] <= w.path
    ensures var group := GroupAt(Apply(map[], ws), path + [key]);
      group.Some? && VALUE_KEY in group.value && group.value[VALUE_KEY] == Leaf(LastWrite(ws, path, key).value)
  {
    RefinesFlatMap(ws, path, key);
    GroupOfWrites(ws, w, path + [key]);
    ReadInGroup(Apply(map[], ws), path, key);
  }

  // ----- derived handlers

  datatype Handler<V> = Handler(withAttrs: seq<(seq<string>, seq<Attr<V>>)>, groups: seq<string>)

  /** A step of a logger chain: With(attrs) or WithGroup(name). */
  datatype Derive<V> = With(attrs: seq<Attr<V>>) | InGroup(name: string)

  function WithAttrs<V>(h: Handler<V>, attrs: seq<Attr<V>>): Handler<V> {
    if attrs == [] then h else h.(withAttrs := h.withAttrs + [(h.groups, attrs)])
  }

  function WithGroup<V>(h: Handler<V>, name: string): Handler<V> {
    if name == "" then h else h.(groups := h.groups + [name])
  }

  function Chain<V>(steps: seq<Derive<V>>): Handler<V> {
    if steps == [] then Handler([], [])
    else
      var h, last := Chain(steps[..|steps| - 1]), steps[|steps| - 1];
      match last
      case With(attrs) => WithAttrs(h, attrs)
      case InGroup(name) => WithGroup(h, name)
  }

  /** What `Handle` stores: the inherited attributes, then the record's own under every group. */
  function HandlerWrites<V>(conv: (string, V) -> Option<V>, h: Handler<V>, record: seq<Attr<V>>): seq<Write<V>> {
    Inherited(conv, h.withAttrs) + AllWrites(conv, h.groups, record)
  }

  function Inherited<V>(conv: (string, V) -> Option<V>, ws: seq<(seq<string>, seq<Attr<V>>)>): seq<Write<V>> {
    if ws == [] then []
    else
      var last := ws[|ws| - 1];
      Inherited(conv, ws[..|ws| - 1]) + AllWrites(conv, last.0, last.1)
  }

  /** The names of the groups opened by a chain. */
  function OpenGroups<V>(steps: seq<Derive<V>>): seq<string> {
    if steps == [] then []
    else
      var last := steps[|steps| - 1];
      OpenGroups(steps[..|steps| - 1]) + (if last.InGroup? && last.name != "" then [last.name] else [])
  }

  /** The writes of the With steps of a chain, each under the groups open at that step. */
  function ChainWrites<V>(conv: (string, V) -> Option<V>, steps: seq<Derive<V>>): seq<Write<V>> {
    if steps == [] then []
    else
      var front, last := steps[..|steps| - 1], steps[|steps| - 1];
      ChainWrites(conv, front) + (if last.With? then AllWrites(conv, OpenGroups(front), last.attrs) else [])
  }

  /** A chain's handler writes each With step under the groups open at that step, not under later ones. */
  lemma {:induction false} ChainLands<V>(conv: (string, V) -> Option<V>, steps: seq<Derive<V>>, record: seq<Attr<V>>)
    ensures HandlerWrites(conv, Chain(steps), record)
         == ChainWrites(conv, steps) + AllWrites(conv, OpenGroups(steps), record)
  {
    ChainState(conv, steps);
  }

  /** What ships for a record logged through a chain reads, slot by slot, as the last write to that slot. */
  lemma ShippedAttrs<V(!new)>(conv: (string, V) -> Option<V>, steps: seq<Derive<V>>, record: seq<Attr<V>>,
      path: seq<string>, key: string)
    requires Unshadowed(HandlerWrites(conv, Chain(steps), record), path, key) && Clean(path, key)
    ensures var m := Apply(map[], HandlerWrites(conv, Chain(steps), record));
      && Lookup(m, path, key) ==
        LastWrite(ChainWrites(conv, steps) + AllWrites(conv, OpenGroups(steps), record), path, key)
      && NoEmptyGroups(m)
  {
    ChainLands(conv, steps, record);
    RefinesFlatMap(HandlerWrites(conv, Chain(steps), record), path, key);
    NeverEmptyGroups(HandlerWrites(conv, Chain(steps), record));
  }

  lemma {:induction false} ChainState<V>(conv: (string, V) -> Option<V>, steps: seq<Derive<V>>)
    ensures Chain(steps).groups == OpenGroups(steps)
    ensures Inherited(conv, Chain(steps).withAttrs) == ChainWrites(conv, steps)
  {
    if steps != [] {
      var front, last := steps[..|steps| - 1], steps[|steps| - 1];
      ChainState(conv, front);
      if last.With? && last.attrs != [] {
        var ws := Chain(steps).withAttrs;
        assert ws[..|ws| - 1] == Chain(front).withAttrs;
      }
    }
  }
}
