/** Vocabulary shared by every component: bytes, options, and small facts about sequences. */
module Common {

  type byte = b: int | 0 <= b < 256

  /** The bytes of an ASCII text. */
  function Ascii(text: string): (s: seq<byte>)
    ensures |s| == |text|
    ensures forall i :: 0 <= i < |text| && text[i] < 128 as char ==> s[i] == text[i] as int
  {
    seq(|text|, i requires 0 <= i < |text| => if text[i] < 128 as char then text[i] as int else 63)
  }

  datatype Option<+T> = None | Some(value: T)

  ghost predicate Increasing(s: seq<nat>) {
    forall i, j :: 0 <= i < j < |s| ==> s[i] < s[j]
  }

  ghost predicate AllBelow(s: seq<nat>, bound: nat) {
    forall x :: x in s ==> x < bound
  }

  ghost predicate NoDuplicates<T>(s: seq<T>) {
    forall i, j :: 0 <= i < j < |s| ==> s[i] != s[j]
  }

  ghost function Elements<T>(s: seq<T>): set<T> {
    set x | x in s
  }

  lemma {:induction false} DistinctCardinality<T>(s: seq<T>)
    requires NoDuplicates(s)
    ensures |Elements(s)| == |s|
  {
    if s != [] {
      var front, last := s[..|s| - 1], s[|s| - 1];
      DistinctCardinality(front);
      assert Elements(s) == Elements(front) + {last};
      assert last !in front;
    }
  }

  lemma DistinctParts<T>(s: seq<T>, t: seq<T>)
    requires NoDuplicates(s + t)
    ensures forall x :: x in s ==> x !in t
  {
    forall i, j | 0 <= i < |s| && 0 <= j < |t|
      ensures s[i] != t[j]
    {
      assert (s + t)[i] != (s + t)[|s| + j];
    }
  }

  lemma InsertDistinct<T>(a: seq<T>, b: seq<T>, x: T)
    requires NoDuplicates(a + b) && x !in a && x !in b
    ensures NoDuplicates((a + [x]) + b)
  {
    var s, t := a + b, (a + [x]) + b;
    forall i, j | 0 <= i < j < |t|
      ensures t[i] != t[j]
    {
      if i == |a| {
        assert t[j] == b[j - |a| - 1];
      } else if j == |a| {
        assert t[i] == a[i];
      } else {
        var i', j' := if i < |a| then i else i - 1, if j < |a| then j else j - 1;
        assert s[i'] == t[i] && s[j'] == t[j];
      }
    }
  }

  /** How often x occurs in s. */
  function Count<T(==)>(s: seq<T>, x: T): nat {
    if s == [] then 0 else Count(s[..|s| - 1], x) + (if s[|s| - 1] == x then 1 else 0)
  }

  lemma {:induction false} CountConcat<T>(s: seq<T>, t: seq<T>, x: T)
    ensures Count(s + t, x) == Count(s, x) + Count(t, x)
  {
    if t == [] {
      assert s + t == s;
    } else {
      assert (s + t)[..|s + t| - 1] == s + t[..|t| - 1];
      CountConcat(s, t[..|t| - 1], x);
    }
  }

  lemma {:induction false} CountMember<T>(s: seq<T>, x: T)
    ensures Count(s, x) > 0 <==> x in s
  {
    if s != [] {
      CountMember(s[..|s| - 1], x);
      assert s == s[..|s| - 1] + [s[|s| - 1]];
    }
  }

  /** Consecutive numbers occur once each. */
  lemma {:induction false} CountConsecutive(s: seq<nat>, from: nat, x: nat)
    requires forall i :: 0 <= i < |s| ==> s[i] == from + i
    ensures Count(s, x) == if from <= x < from + |s| then 1 else 0
  {
    if s != [] {
      CountConsecutive(s[..|s| - 1], from, x);
    }
  }
}
