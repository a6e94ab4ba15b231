/**
 * The navigator: resolving a dotted path against the root map, segment by
 * segment, the way getByPath moves its cursor.
 */
module Navigation {
  import opened Values
  import Paths

  /**
   * What getByPath reports: the value it reached, an empty Optional (a key
   * that is missing or mapped to null), or the ClassCastException it raises
   * when it has to look a key up in something that is not a map.
   */
  datatype Lookup = Found(v: Value) | Absent | Fault

  /**
   * The outcome of looking `segs` up one after another, starting at `cursor`.
   * A reached value is never null: null stops the walk as "absent".
   */
  function Walk(cursor: Value, segs: seq<string>): (r: Lookup)
    ensures cursor != Null && r.Found? ==> r.v != Null
    ensures r.Found? && segs != [] ==> cursor.Obj?
    decreases |segs|
  {
    if segs == [] then Found(cursor)
    else if !cursor.Obj? then Fault
    else
      var next := Get(cursor.fields, segs[0]);
      if next == Null then Absent else Walk(next, segs[1..])
  }

  /** The outcome of resolving `path` against the root map `source`. */
  function Resolve(source: map<string, Value>, path: string): Lookup
  {
    Walk(Obj(source), Paths.Segments(path))
  }

  /** Walking `a + b` walks `a` first and, if that reaches a value, walks `b` from there. */
  lemma {:induction false} WalkConcat(cursor: Value, a: seq<string>, b: seq<string>)
    ensures Walk(cursor, a + b) == match Walk(cursor, a)
                                   case Found(v) => Walk(v, b)
                                   case other => other
    decreases |a|
  {
    if a == [] {
      assert a + b == b;
    } else if cursor.Obj? {
      assert (a + b)[0] == a[0] && (a + b)[1..] == a[1..] + b;
      var next := Get(cursor.fields, a[0]);
      if next != Null {
        WalkConcat(next, a[1..], b);
      }
    }
  }

  /**
   * A path resolves to a value exactly when each of its proper prefixes
   * resolves to a map that holds the next segment with a non-null value.
   */
  lemma {:induction false} WalkPrefix(cursor: Value, segs: seq<string>, j: nat)
    requires j < |segs|
    requires Walk(cursor, segs).Found?
    ensures Walk(cursor, segs[..j]).Found?
    ensures Walk(cursor, segs[..j]).v.Obj?
    ensures Get(Walk(cursor, segs[..j]).v.fields, segs[j]) != Null
  {
    assert segs == segs[..j] + segs[j..];
    WalkConcat(cursor, segs[..j], segs[j..]);
    assert segs[j..][0] == segs[j];
  }

  /** The converse of WalkPrefix: a map at every proper prefix holding the next segment resolves the path. */
  lemma WalkByPrefixes(cursor: Value, segs: seq<string>)
    requires segs != []
    requires forall j | 0 <= j < |segs| ::
               Walk(cursor, segs[..j]).Found? && Walk(cursor, segs[..j]).v.Obj? &&
               Get(Walk(cursor, segs[..j]).v.fields, segs[j]) != Null
    ensures Walk(cursor, segs).Found?
  {
    var n := |segs| - 1;
    assert segs == segs[..n] + [segs[n]];
    WalkConcat(cursor, segs[..n], [segs[n]]);
    assert [segs[n]][1..] == [];
  }

  /**
   * getByPath: advances a cursor from the root map through the segments of
   * `path`, stopping at the first null and failing on a non-map cursor.
   */
  method GetByPath(json: map<string, Value>, path: string) returns (r: Lookup)
    ensures r == Resolve(json, path)
  {
    var cursor := Obj(json);
    var elements := Paths.TokenizePath(path);
    for i := 0 to |elements|
      invariant cursor != Null
      invariant Walk(Obj(json), elements) == Walk(cursor, elements[i..])
    {
      assert elements[i..][0] == elements[i] && elements[i..][1..] == elements[i + 1..];
      if !cursor.Obj? {
        return Fault;
      }
      cursor := Get(cursor.fields, elements[i]);
      if cursor == Null {
        return Absent;
      }
    }
    assert elements[|elements|..] == [];
    return Found(cursor);
  }
}
