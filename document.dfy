/**
 * The document: a mutable root map with path-based accessors and mutators.
 *
 * Nested maps and lists are values here. Where the source descends through
 * references and changes the innermost map in place, the methods below
 * descend the same way while recording the maps they pass (a zipper), and
 * finally plug the changed innermost map back into them, up to the root.
 */
module Document {
  import opened Values
  import opened Navigation
  import opened Mutation
  import Paths
  import Flattening

  /**
   * The root map obtained by writing `inner` back through the maps `frames`
   * passed on the way down, `frames[i]` having been left by key `keys[i]`.
   */
  function Plug(frames: seq<map<string, Value>>, keys: seq<string>, inner: map<string, Value>): map<string, Value>
    requires |frames| == |keys|
    decreases |frames|
  {
    if frames == [] then inner
    else
      var n := |frames| - 1;
      Plug(frames[..n], keys[..n], frames[n][keys[n] := Obj(inner)])
  }

  class Doc {
    var source: map<string, Value>

    /** A document over a non-empty map. */
    constructor(source: map<string, Value>)
      requires |source| > 0
      ensures this.source == source
    {
      this.source := source;
    }

    /** new Doc(source): the constructor's state check, which rejects an empty map. */
    static method Create(source: map<string, Value>) returns (r: Result<Doc>)
      ensures r.Err? <==> |source| == 0
      ensures r.Err? ==> r.error == EmptySource
      ensures r.Ok? ==> fresh(r.value) && r.value.source == source
    {
      if |source| == 0 {
        return Err(EmptySource);
      }
      var d := new Doc(source);
      return Ok(d);
    }

    /**
     * hasField(path): whether the path resolves to a non-null value; a walk
     * through a non-map value raises the cast failure.
     */
    method HasField(path: string) returns (r: Result<bool>)
      ensures r.Err? <==> Resolve(source, path).Fault?
      ensures r.Err? ==> r.error == CastFailure
      ensures r == Ok(true) <==> Resolve(source, path).Found?
    {
      var field := GetByPath(source, path);
      if field.Fault? {
        return Err(CastFailure);
      }
      return Ok(field.Found?);
    }

    /** hasField(path, clazz): the path resolves to an instance of the given class. */
    method HasFieldOf(path: string, kind: Kind) returns (r: Result<bool>)
      ensures r.Err? <==> Resolve(source, path).Fault?
      ensures r.Err? ==> r.error == CastFailure
      ensures r == Ok(true) <==> Resolve(source, path).Found? && IsInstance(kind, Resolve(source, path).v)
    {
      var field := GetByPath(source, path);
      if field.Fault? {
        return Err(CastFailure);
      }
      return Ok(field.Found? && IsInstance(kind, field.v));
    }

    /**
     * getField(path): the non-null value the path resolves to; a path that
     * does not resolve fails the state check, one through a non-map value
     * raises the cast failure.
     */
    method GetField(path: string) returns (r: Result<Value>)
      ensures r.Ok? <==> Resolve(source, path).Found?
      ensures r.Ok? ==> r.value == Resolve(source, path).v && r.value != Null
      ensures r.Err? ==> r.error == (if Resolve(source, path).Fault? then CastFailure else MissingField)
    {
      var field := GetByPath(source, path);
      if field.Fault? {
        return Err(CastFailure);
      }
      if field.Absent? {
        return Err(MissingField);
      }
      return Ok(field.v);
    }

    /**
     * addField(path, value): walks the maps named by all but the last
     * segment, putting a new empty map wherever the value is missing or not
     * a map, and sets the last segment to `value`.
     */
    method AddField(path: string, value: Value)
      modifies this
      ensures source == Put(old(source), Paths.Segments(path), value)
    {
      var context := source;
      var elements := Paths.TokenizePath(path);
      var n := |elements| - 1;
      var leafKey := elements[n];
      var frames: seq<map<string, Value>> := [];
      for i := 0 to n
        invariant |frames| == i
        invariant Put(old(source), elements, value) == Plug(frames, elements[..i], Put(context, elements[i..], value))
      {
        var rest := elements[i..];
        assert rest[0] == elements[i] && rest[1..] == elements[i + 1..];
        assert (frames + [context])[..i] == frames && elements[..i + 1][..i] == elements[..i];
        var pathValue := Get(context, elements[i]);
        frames := frames + [context];
        if pathValue != Null && pathValue.Obj? {
          context := pathValue.fields;
        } else {
          context := map[];
        }
      }
      assert elements[n..] == [leafKey];
      source := Plug(frames, elements[..n], context[leafKey := value]);
    }

    /**
     * removeField(path): false when the path does not resolve; otherwise
     * walks the maps of all but the last segment and removes the last one.
     */
    method RemoveField(path: string) returns (r: Result<bool>)
      modifies this
      ensures Resolve(old(source), path).Fault? ==> r == Err(CastFailure) && source == old(source)
      ensures Resolve(old(source), path).Absent? ==> r == Ok(false) && source == old(source)
      ensures Resolve(old(source), path).Found? ==>
                r == Ok(true) && source == Remove(old(source), Paths.Segments(path))
    {
      var present := HasField(path);
      if present.Err? {
        return Err(CastFailure);
      }
      if !present.value {
        return Ok(false);
      }
      var context := source;
      var elements := Paths.TokenizePath(path);
      var n := |elements| - 1;
      var leafKey := elements[n];
      var frames: seq<map<string, Value>> := [];
      for i := 0 to n
        invariant |frames| == i
        invariant Walk(Obj(context), elements[i..]).Found?
        invariant Remove(old(source), elements) == Plug(frames, elements[..i], Remove(context, elements[i..]))
      {
        var rest := elements[i..];
        assert rest[0] == elements[i] && rest[1..] == elements[i + 1..];
        assert (frames + [context])[..i] == frames && elements[..i + 1][..i] == elements[..i];
        frames := frames + [context];
        context := context[elements[i]].fields;
      }
      assert elements[n..] == [leafKey];
      source := Plug(frames, elements[..n], context - {leafKey});
      return Ok(true);
    }

    /**
     * appendList(path, value): makes the value at the path a list (a new
     * empty one when the path does not resolve, a one-element list holding
     * a non-list value) and appends `value` to it, element by element when
     * `value` is itself a list.
     */
    method AppendList(path: string, value: Value) returns (r: Outcome)
      modifies this
      ensures Resolve(old(source), path).Fault? ==> r == Fail(CastFailure) && source == old(source)
      ensures Resolve(old(source), path).Absent? ==>
                r == Pass && source == Put(old(source), Paths.Segments(path), List(Items(value)))
      ensures Resolve(old(source), path).Found? ==>
                r == Pass &&
                source == Put(old(source), Paths.Segments(path),
                              List(Items(Resolve(old(source), path).v) + Items(value)))
    {
      var segs := Paths.Segments(path);
      var present := HasField(path);
      if present.Err? {
        return Fail(CastFailure);
      }
      if !present.value {
        AddField(path, List([]));
        PutThenWalk(old(source), segs, List([]));
      }
      var field := GetField(path);
      assert field.Ok?;
      var list: seq<Value>;
      if field.value.List? {
        list := field.value.items;
      } else {
        list := [field.value];
        var removed := RemoveField(path);
        AddField(path, List(list));
        PutPut(Remove(old(source), segs), segs, List(list), List(list + Items(value)));
        PutAfterRemove(old(source), segs, List(list + Items(value)));
      }
      AddField(path, List(list + Items(value)));
      if !present.value {
        assert list + Items(value) == Items(value);
        PutPut(old(source), segs, List([]), List(Items(value)));
      }
      return Pass;
    }

    /**
     * removeFromList(path, value): when the path resolves to a list, removes
     * from it every element of `value` if that is a list, and otherwise the
     * first element equal to `value`, and reports true; reports false when
     * the path does not resolve or holds something other than a list.
     */
    method RemoveFromList(path: string, value: Value) returns (r: Result<bool>)
      modifies this
      ensures Resolve(old(source), path).Fault? ==> r == Err(CastFailure) && source == old(source)
      ensures Resolve(old(source), path).Absent? ==> r == Ok(false) && source == old(source)
      ensures Resolve(old(source), path).Found? && !Resolve(old(source), path).v.List? ==>
                r == Ok(false) && source == old(source)
      ensures Resolve(old(source), path).Found? && Resolve(old(source), path).v.List? ==>
                r == Ok(true) &&
                source == Put(old(source), Paths.Segments(path),
                              List(RemovedFrom(Resolve(old(source), path).v.items, value)))
    {
      var present := HasField(path);
      if present.Err? {
        return Err(CastFailure);
      }
      if !present.value {
        return Ok(false);
      }
      var field := GetField(path);
      if field.value.List? {
        var list := field.value.items;
        if value.List? {
          list := RemoveAll(list, value.items);
        } else {
          list := RemoveFirst(list, value);
        }
        AddField(path, List(list));
        return Ok(true);
      }
      return Ok(false);
    }

    /**
     * getFlattenSource(): the flattened copy of the document, or the failure
     * raised by a null element in one of its lists.
     */
    method GetFlattenSource(env: Flattening.Env) returns (r: Result<map<string, Value>>)
      requires Flattening.OrderOk(env)
      ensures r.Err? <==> Flattening.NullInLists(source)
      ensures r.Err? ==> r.error == NullElement
      ensures r.Ok? ==> r.value == Flattening.Flat(env, source)
    {
      r := Flattening.Flatten(env, map[], "", source);
    }
  }
}
