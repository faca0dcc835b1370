/** The attribute object as it is built in place: nested mutable maps, proved to hold the tree of `AttrTree`. */
module AttrHeap {
  import opened Common
  import opened AttrTree

  datatype Cell<V> = Value(value: V) | Ref(group: AttrGroup<V>)

  /** One level of the object. `repr` is this map and all those below it. */
  class AttrGroup<V> {
    var m: map<string, Cell<V>>
    ghost var repr: set<AttrGroup<V>>

    /** The maps form a tree: each is reached by one path. */
    ghost predicate Valid()
      reads this, repr
      decreases repr
    {
      && this in repr
      && (forall k :: k in m && m[k].Ref? ==>
            && m[k].group in repr && m[k].group.repr <= repr && this !in m[k].group.repr
            && m[k].group.Valid())
      && (forall j, k :: j in m && k in m && j != k && m[j].Ref? && m[k].Ref? ==> m[j].group.repr !! m[k].group.repr)
    }

    /** The tree it holds. */
    ghost function Contents(): Tree<V>
      requires Valid()
      reads this, repr
      decreases repr
    {
      map k | k in m :: if m[k].Value? then Leaf(m[k].value) else Group(m[k].group.Contents())
    }

    constructor ()
      ensures Valid() && repr == {this} && m == map[] && Contents() == map[]
    {
      m, repr := map[], {this};
    }

    lemma InRepr()
      requires Valid()
      ensures this in repr
    {
    }

    /** A group none of whose maps changed is still the same tree. */
    twostate lemma Kept()
      requires old(Valid()) && forall g :: g in old(repr) ==> unchanged(g)
      ensures Valid() && repr == old(repr) && Contents() == old(Contents())
    {
    }

    /** One entry of a map whose other entries were left alone. */
    twostate lemma OneEntryChanged(k: string)
      requires old(Valid()) && this in repr && old(repr) <= repr
      requires m.Keys == old(m.Keys) + {k} && forall j :: j in m && j != k ==> m[j] == old(m[j])
      requires forall j :: j in m && j != k && m[j].Ref? ==> forall g :: g in old(m[j].group.repr) ==> unchanged(g)
      requires m[k].Ref? ==>
        && m[k].group in repr && m[k].group.repr <= repr && this !in m[k].group.repr && m[k].group.Valid()
        && forall j :: j in m && j != k && m[j].Ref? ==> m[k].group.repr !! old(m[j].group.repr)
      ensures Valid()
      ensures Contents() == old(Contents())[k := if m[k].Value? then Leaf(m[k].value) else Group(m[k].group.Contents())]
    {
      forall j | j in m && j != k && m[j].Ref?
        ensures m[j].group.Valid() && m[j].group.repr == old(m[j].group.repr)
          && m[j].group.Contents() == old(m[j].group.Contents())
      {
        m[j].group.Kept();
      }
    }

    /** The group at one entry changed within itself and what it newly made. */
    twostate lemma ChildChanged(k: string)
      requires old(Valid()) && k in old(m) && m == old(m) && m[k].Ref? && m[k].group.Valid()
      requires repr == old(repr) + m[k].group.repr && fresh(m[k].group.repr - old(m[k].group.repr))
      requires forall g :: g in old(repr) && g !in old(m[k].group.repr) && g != this ==> unchanged(g)
      ensures Valid() && Contents() == old(Contents())[k := Group(m[k].group.Contents())]
    {
      forall j | j in m && j != k && m[j].Ref?
        ensures forall g :: g in old(m[j].group.repr) ==> unchanged(g)
        ensures m[k].group.repr !! old(m[j].group.repr)
      {
        assert forall g :: g in old(m[j].group.repr) ==> g in old(repr) && g !in old(m[k].group.repr) && g != this;
      }
      OneEntryChanged(k);
    }

    method Put(k: string, v: V)
      requires Valid()
      modifies this`m
      ensures Valid() && Contents() == old(Contents())[k := Leaf(v)]
    {
      m := m[k := Value(v)];
      OneEntryChanged(k);
    }

    method Attach(k: string, sub: AttrGroup<V>)
      requires Valid() && sub.Valid() && sub.repr !! repr
      modifies this
      ensures Valid() && repr == old(repr) + sub.repr && m == old(m)[k := Ref(sub)]
      ensures sub.Valid() && sub.Contents() == old(sub.Contents()) && sub.repr == old(sub.repr)
      ensures Contents() == old(Contents())[k := Group(sub.Contents())]
    {
      m, repr := m[k := Ref(sub)], repr + sub.repr;
      sub.Kept();
      OneEntryChanged(k);
    }

    /** One step down a group path: the group is created if needed, and a value already there moves into it. */
    method Enter(g: string) returns (sub: AttrGroup<V>)
      requires Valid()
      modifies this
      ensures Valid() && fresh(repr - old(repr))
      ensures g in m && m[g] == Ref(sub) && sub in repr && sub.repr <= repr && this !in sub.repr
      ensures sub.Valid() && sub.Contents() == Sub(old(Contents()), g)
      ensures Contents() == old(Contents())[g := Group(sub.Contents())]
    {
      if g in m && m[g].Ref? {
        return m[g].group;
      }
      sub := new AttrGroup<V>();
      if g in m {
        sub.Put(VALUE_KEY, m[g].value);
      }
      Kept();
      Attach(g, sub);
    }

    method StoreHere(key: string, v: V)
      requires Valid()
      modifies repr
      ensures Valid() && repr == old(repr) && Contents() == Set(old(Contents()), [], key, v)
    {
      if key in m && m[key].Ref? {
        m[key].group.Put(VALUE_KEY, v);
        ChildChanged(key);
      } else {
        Put(key, v);
      }
    }

    /** `groupMap` and the store behind it: the walk down the path is the recursion. */
    method Store(path: seq<string>, key: string, v: V)
      requires Valid()
      modifies repr
      ensures Valid() && fresh(repr - old(repr))
      ensures Contents() == Set(old(Contents()), path, key, v)
      decreases |path|
    {
      hide Valid, Contents;
      InRepr();
      if path == [] {
        StoreHere(key, v);
      } else {
        var sub := Enter(path[0]);
        label entered:
        sub.Store(path[1..], key, v);
        repr := repr + sub.repr;
        ChildChanged@entered(path[0]);
      }
    }

    /** `setAttr`. */
    method SetAttr(conv: (string, V) -> Option<V>, groups: seq<string>, a: Attr<V>)
      requires Valid()
      modifies repr
      ensures Valid() && fresh(repr - old(repr))
      ensures Contents() == AttrTree.SetAttr(conv, old(Contents()), groups, a)
      decreases a, 0
    {
      hide Valid, Contents;
      match a
      case One(key, value) =>
        var v := conv(key, value);
        if v.Some? {
          Store(groups, key, v.value);
        }
      case Many(key, attrs) =>
        SetAttrs(conv, if key != "" then groups + [key] else groups, attrs);
    }

    method SetAttrs(conv: (string, V) -> Option<V>, groups: seq<string>, attrs: seq<Attr<V>>)
      requires Valid()
      modifies repr
      ensures Valid() && fresh(repr - old(repr))
      ensures Contents() == AttrTree.SetAttrs(conv, old(Contents()), groups, attrs)
      decreases attrs, 1
    {
      hide Valid, Contents;
      assert attrs[0..] == attrs;
      for j := 0 to |attrs|
        invariant Valid() && fresh(repr - old(repr))
        invariant AttrTree.SetAttrs(conv, Contents(), groups, attrs[j..]) ==
          AttrTree.SetAttrs(conv, old(Contents()), groups, attrs)
      {
        assert attrs[j..][1..] == attrs[j + 1..];
        SetAttr(conv, groups, attrs[j]);
      }
    }
  }

  /** The attribute part of `Handle`: the loops over the inherited and the record's attributes. */
  method BuildAttrs<V>(conv: (string, V) -> Option<V>, h: Handler<V>, record: seq<Attr<V>>) returns (root: AttrGroup<V>)
    ensures root.Valid() && fresh(root.repr)
    ensures root.Contents() == Apply(map[], HandlerWrites(conv, h, record))
  {
    root := new AttrGroup<V>();
    for i := 0 to |h.withAttrs|
      invariant root.Valid() && fresh(root.repr)
      invariant root.Contents() == Apply(map[], Inherited(conv, h.withAttrs[..i]))
    {
      var w := h.withAttrs[i];
      assert h.withAttrs[..i + 1][..i] == h.withAttrs[..i];
      ApplyConcat(map[], Inherited(conv, h.withAttrs[..i]), AllWrites(conv, w.0, w.1));
      SetAttrsWrites(conv, root.Contents(), w.0, w.1);
      root.SetAttrs(conv, w.0, w.1);
    }
    assert h.withAttrs[..|h.withAttrs|] == h.withAttrs;
    ApplyConcat(map[], Inherited(conv, h.withAttrs), AllWrites(conv, h.groups, record));
    SetAttrsWrites(conv, root.Contents(), h.groups, record);
    root.SetAttrs(conv, h.groups, record);
  }
}
