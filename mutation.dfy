/**
 * The mutators on values: what addField and removeField do to the root map,
 * and what appendList and removeFromList do to the list at a path. The Doc
 * class performs them step by step; these functions are what its methods are
 * proved against.
 */
module Mutation {
  import opened Values
  import opened Navigation

  /** The map a lookup reached, or the empty map when it reached anything else. */
  function Fields(l: Lookup): map<string, Value>
  {
    if l.Found? && l.v.Obj? then l.v.fields else map[]
  }

  /**
   * addField: descends through the maps named by every segment but the last,
   * replacing a missing or non-map value on the way by a new empty map, and
   * sets the last segment to `v`.
   */
  function Put(m: map<string, Value>, segs: seq<string>, v: Value): map<string, Value>
    requires |segs| > 0
    decreases |segs|
  {
    if |segs| == 1 then m[segs[0] := v]
    else
      var child := Get(m, segs[0]);
      var sub := if child.Obj? then child.fields else map[];
      m[segs[0] := Obj(Put(sub, segs[1..], v))]
  }

  /** A walk from anything but a map yields no fields. */
  lemma FieldsOfNonMap(cursor: Value, segs: seq<string>)
    requires cursor == Obj(map[]) || !cursor.Obj?
    ensures Fields(Walk(cursor, segs)) == map[]
  {
    if segs != [] && cursor.Obj? {
      assert Get(cursor.fields, segs[0]) == Null;
    }
  }

  /** After addField(p, v), getField(p) gives back `v`; a null `v` reads as absent. */
  lemma {:induction false} PutThenWalk(m: map<string, Value>, segs: seq<string>, v: Value)
    requires |segs| > 0
    ensures Walk(Obj(Put(m, segs, v)), segs) == if v == Null then Absent else Found(v)
    decreases |segs|
  {
    if |segs| > 1 {
      var child := Get(m, segs[0]);
      var sub := if child.Obj? then child.fields else map[];
      PutThenWalk(sub, segs[1..], v);
    }
  }

  /**
   * What addField does to each map on the path: the map at every proper
   * prefix is a map afterwards; it keeps all its other keys and values if it
   * was a map before, and it is a fresh map holding only the next segment if
   * the value there was missing or not a map. At the root (j == 0) this says
   * that no root key other than the first segment changes.
   */
  lemma {:induction false} PutAlongPath(m: map<string, Value>, segs: seq<string>, v: Value, j: nat)
    requires j < |segs|
    ensures Walk(Obj(Put(m, segs, v)), segs[..j]).Found?
    ensures Walk(Obj(Put(m, segs, v)), segs[..j]).v.Obj?
    ensures var t := Fields(Walk(Obj(Put(m, segs, v)), segs[..j]));
            var o := Fields(Walk(Obj(m), segs[..j]));
            t.Keys == o.Keys + {segs[j]} && forall k | k in o && k != segs[j] :: t[k] == o[k]
    decreases |segs|
  {
    if j > 0 {
      var child := Get(m, segs[0]);
      var sub := if child.Obj? then child.fields else map[];
      var inner := Put(sub, segs[1..], v);
      PutAlongPath(sub, segs[1..], v, j - 1);
      assert segs[..j][0] == segs[0] && segs[..j][1..] == segs[1..][..j - 1];
      assert Walk(Obj(Put(m, segs, v)), segs[..j]) == Walk(Obj(inner), segs[1..][..j - 1]);
      if !child.Obj? {
        FieldsOfNonMap(child, segs[1..][..j - 1]);
        FieldsOfNonMap(Obj(sub), segs[1..][..j - 1]);
      }
      assert Fields(Walk(Obj(m), segs[..j])) == Fields(Walk(Obj(sub), segs[1..][..j - 1]));
    }
  }

  /** Writing a path twice leaves only the second write. */
  lemma {:induction false} PutPut(m: map<string, Value>, segs: seq<string>, a: Value, b: Value)
    requires |segs| > 0
    ensures Put(Put(m, segs, a), segs, b) == Put(m, segs, b)
    decreases |segs|
  {
    var k := segs[0];
    if |segs| == 1 {
      UpdateTwice(m, k, a, b);
    } else {
      var child := Get(m, k);
      var sub := if child.Obj? then child.fields else map[];
      var inner := Put(sub, segs[1..], a);
      assert Put(m, segs, a) == m[k := Obj(inner)];
      assert Get(m[k := Obj(inner)], k) == Obj(inner);
      PutPut(sub, segs[1..], a, b);
      UpdateTwice(m, k, Obj(inner), Obj(Put(sub, segs[1..], b)));
    }
  }

  lemma UpdateTwice(m: map<string, Value>, k: string, a: Value, b: Value)
    ensures m[k := a][k := b] == m[k := b]
  {
  }

  /**
   * removeField on a resolved path: re-walks the maps of every segment but
   * the last and removes the leaf key from the innermost one.
   */
  function Remove(m: map<string, Value>, segs: seq<string>): map<string, Value>
    requires |segs| > 0
    requires Walk(Obj(m), segs).Found?
    decreases |segs|
  {
    if |segs| == 1 then m - {segs[0]}
    else m[segs[0] := Obj(Remove(m[segs[0]].fields, segs[1..]))]
  }

  /** After a successful removeField(p), hasField(p) is false. */
  lemma {:induction false} RemoveThenWalk(m: map<string, Value>, segs: seq<string>)
    requires |segs| > 0
    requires Walk(Obj(m), segs).Found?
    ensures Walk(Obj(Remove(m, segs)), segs) == Absent
    decreases |segs|
  {
    if |segs| > 1 {
      RemoveThenWalk(m[segs[0]].fields, segs[1..]);
    }
  }

  /**
   * removeField changes only the leaf's parent map, and there only the leaf
   * key: every map on the path keeps its keys and the values off the path.
   */
  lemma {:induction false} RemoveAlongPath(m: map<string, Value>, segs: seq<string>, j: nat)
    requires j < |segs|
    requires Walk(Obj(m), segs).Found?
    ensures Walk(Obj(m), segs[..j]).Found? && Walk(Obj(m), segs[..j]).v.Obj?
    ensures Walk(Obj(Remove(m, segs)), segs[..j]).Found?
    ensures Walk(Obj(Remove(m, segs)), segs[..j]).v.Obj?
    ensures var t := Fields(Walk(Obj(Remove(m, segs)), segs[..j]));
            var o := Fields(Walk(Obj(m), segs[..j]));
            t.Keys == (if j == |segs| - 1 then o.Keys - {segs[j]} else o.Keys) &&
            forall k | k in o && k != segs[j] :: t[k] == o[k]
    decreases |segs|
  {
    WalkPrefix(Obj(m), segs, j);
    if j > 0 {
      var sub := m[segs[0]].fields;
      RemoveAlongPath(sub, segs[1..], j - 1);
      assert segs[..j][0] == segs[0] && segs[..j][1..] == segs[1..][..j - 1];
    }
  }

  /** Removing a resolved path and writing it again is the same as overwriting it. */
  lemma {:induction false} PutAfterRemove(m: map<string, Value>, segs: seq<string>, v: Value)
    requires |segs| > 0
    requires Walk(Obj(m), segs).Found?
    ensures Put(Remove(m, segs), segs, v) == Put(m, segs, v)
    decreases |segs|
  {
    if |segs| > 1 {
      PutAfterRemove(m[segs[0]].fields, segs[1..], v);
    }
  }

  /** The elements a value contributes to a list: a list its elements, anything else itself. */
  function Items(v: Value): seq<Value>
  {
    if v.List? then v.items else [v]
  }

  /** List.remove(Object): drops the first element equal to `x`, if there is one. */
  function RemoveFirst(s: seq<Value>, x: Value): (r: seq<Value>)
    ensures multiset(r) == multiset(s) - multiset{x}
    ensures x !in s ==> r == s
  {
    if s == [] then []
    else
      assert s == [s[0]] + s[1..];
      if s[0] == x then s[1..] else [s[0]] + RemoveFirst(s[1..], x)
  }

  /** Exactly the first occurrence goes; the elements around it keep their order. */
  lemma {:induction false} RemoveFirstAt(s: seq<Value>, x: Value, i: nat)
    requires i < |s| && s[i] == x && x !in s[..i]
    ensures RemoveFirst(s, x) == s[..i] + s[i + 1..]
  {
    if i == 0 {
      assert s[..0] + s[1..] == s[1..];
    } else {
      NotBeforeTail(s, x, i);
      RemoveFirstAt(s[1..], x, i - 1);
      assert RemoveFirst(s, x) == [s[0]] + (s[1..][..i - 1] + s[1..][i..]);
      RegroupValues(s, i);
    }
  }

  lemma NotBeforeTail(s: seq<Value>, x: Value, i: nat)
    requires 0 < i <= |s| && x !in s[..i]
    ensures s[0] != x && x !in s[1..][..i - 1]
  {
    assert s[0] == s[..i][0];
    assert s[1..][..i - 1] == s[..i][1..];
  }

  lemma RegroupValues(s: seq<Value>, i: nat)
    requires 0 < i < |s|
    ensures [s[0]] + (s[1..][..i - 1] + s[1..][i..]) == s[..i] + s[i + 1..]
  {
    assert s[1..][i..] == s[i + 1..];
    assert [s[0]] + s[1..][..i - 1] == s[..i];
  }

  /** List.removeAll(xs): drops every element equal to some element of `xs`. */
  function RemoveAll(s: seq<Value>, xs: seq<Value>): seq<Value>
  {
    if s == [] then []
    else (if s[0] in xs then [] else [s[0]]) + RemoveAll(s[1..], xs)
  }

  /** Every occurrence of an element of `xs` goes and every other element keeps its count. */
  lemma {:induction false} RemoveAllCount(s: seq<Value>, xs: seq<Value>, y: Value)
    ensures multiset(RemoveAll(s, xs))[y] == if y in xs then 0 else multiset(s)[y]
  {
    if s != [] {
      assert s == [s[0]] + s[1..];
      RemoveAllCount(s[1..], xs, y);
    }
  }

  /** removeAll is a filter: it works piecewise and keeps the order of what stays. */
  lemma {:induction false} RemoveAllConcat(a: seq<Value>, b: seq<Value>, xs: seq<Value>)
    ensures RemoveAll(a + b, xs) == RemoveAll(a, xs) + RemoveAll(b, xs)
  {
    if a == [] {
      assert a + b == b;
    } else {
      var head := if a[0] in xs then [] else [a[0]];
      assert (a + b)[0] == a[0] && (a + b)[1..] == a[1..] + b;
      assert RemoveAll(a + b, xs) == head + RemoveAll(a[1..] + b, xs);
      RemoveAllConcat(a[1..], b, xs);
      assert RemoveAll(a, xs) == head + RemoveAll(a[1..], xs);
    }
  }

  /** The list removeFromList leaves behind. */
  function RemovedFrom(s: seq<Value>, v: Value): seq<Value>
  {
    if v.List? then RemoveAll(s, v.items) else RemoveFirst(s, v)
  }
}
