/**
 * The flattener: getFlattenSource walks the whole document and fills a flat
 * map from derived key strings to values. Each entry of a map writes its
 * escaped key with the entry's string form; a list adds one key per index
 * plus "first" and "last"; a nested map adds "_logzio_json" and is flattened
 * under its key followed by a dot. List elements are not flattened further.
 *
 * Three things come from outside the flattener and are parameters here: the
 * scalar-to-string conversion, the JSON serializer, and the order in which a
 * hash map hands out its entries.
 */
module Flattening {
  import opened Values
  import Paths
  import Navigation

  /** The collaborators the flattener depends on. */
  datatype Env = Env(
    stringify: Value -> string,                  // FieldType.STRING.convertFrom
    toJson: Value -> string,                     // JsonUtils.toJsonString
    keyOrder: map<string, Value> -> seq<string>) // iteration order of a map's entries

  /** `ks` lists every key of `m` exactly once. */
  predicate Enumerates(ks: seq<string>, m: map<string, Value>)
  {
    (forall i | 0 <= i < |ks| :: ks[i] in m) &&
    (forall k | k in m :: k in ks) &&
    (forall i, j | 0 <= i < j < |ks| :: ks[i] != ks[j])
  }

  /** The iteration order visits each entry of every map once. */
  ghost predicate OrderOk(env: Env)
  {
    forall m: map<string, Value> :: Enumerates(env.keyOrder(m), m)
  }

  /** A string stored in the flat map. */
  function StrOf(s: string): Value
  {
    Scalar(Str(s))
  }

  // ---------------------------------------------------------------- decimals

  function DigitChar(d: nat): char
    requires d < 10
  {
    (48 + d) as char
  }

  /** Integer.toString for a non-negative number. */
  function NatToString(n: nat): (r: string)
    ensures |r| > 0
    ensures forall i | 0 <= i < |r| :: '0' <= r[i] <= '9'
    decreases n
  {
    if n < 10 then [DigitChar(n)] else NatToString(n / 10) + [DigitChar(n % 10)]
  }

  /** String.valueOf for any int: a minus sign, then the digits. */
  function IntToString(i: int): string
  {
    if i < 0 then "-" + NatToString(-i) else NatToString(i)
  }

  /** Different numbers have different decimal forms. */
  lemma {:induction false} NatToStringInjective(a: nat, b: nat)
    requires NatToString(a) == NatToString(b)
    ensures a == b
    decreases a
  {
    var s := NatToString(a);
    if a >= 10 && b >= 10 {
      assert s[..|s| - 1] == NatToString(a / 10);
      assert NatToString(b)[..|s| - 1] == NatToString(b / 10);
      NatToStringInjective(a / 10, b / 10);
    }
  }

  lemma AppendCancel(p: string, a: string, b: string)
    requires p + a == p + b
    ensures a == b
  {
    assert a == (p + a)[|p|..];
    assert b == (p + b)[|p|..];
  }

  /** The index keys of a list under `ctx` are pairwise different. */
  lemma IndexKeysDistinct(ctx: string)
    ensures forall i: nat, j: nat :: ctx + NatToString(i) == ctx + NatToString(j) ==> i == j
  {
    forall i: nat, j: nat | ctx + NatToString(i) == ctx + NatToString(j)
      ensures i == j
    {
      AppendCancel(ctx, NatToString(i), NatToString(j));
      NatToStringInjective(i, j);
    }
  }

  /** A word that starts with a letter is no index key. */
  lemma NotIndexKey(ctx: string, word: string, i: nat)
    requires |word| > 0 && !('0' <= word[0] <= '9')
    ensures ctx + word != ctx + NatToString(i)
  {
    if ctx + word == ctx + NatToString(i) {
      AppendCancel(ctx, word, NatToString(i));
      assert false;
    }
  }

  // ------------------------------------------------------- the write log

  /**
   * One write into the flat map: a put, a putAll, or a put of the value the
   * map currently holds under another key (`map.put(k, map.get(src))`).
   */
  datatype Op = Store(key: string, val: Value) | StoreAll(entries: map<string, Value>) | Copy(key: string, src: string)

  function Step(acc: map<string, Value>, op: Op): map<string, Value>
  {
    match op
    case Store(k, v) => acc[k := v]
    case StoreAll(e) => acc + e
    case Copy(k, src) => acc[k := Get(acc, src)]
  }

  /** The flat map after performing `log` on `acc`, in order. */
  function Run(acc: map<string, Value>, log: seq<Op>): map<string, Value>
    decreases |log|
  {
    if log == [] then acc else Run(Step(acc, log[0]), log[1..])
  }

  function OpKeys(op: Op): set<string>
  {
    match op
    case Store(k, _) => {k}
    case StoreAll(e) => e.Keys
    case Copy(k, _) => {k}
  }

  /** The keys `log` writes. */
  function Written(log: seq<Op>): set<string>
    decreases |log|
  {
    if log == [] then {} else OpKeys(log[0]) + Written(log[1..])
  }

  /** How many writes of `log` go to `k`; more than one means a collision. */
  function WriteCount(log: seq<Op>, k: string): nat
    decreases |log|
  {
    if log == [] then 0 else (if k in OpKeys(log[0]) then 1 else 0) + WriteCount(log[1..], k)
  }

  lemma {:induction false} RunConcat(acc: map<string, Value>, a: seq<Op>, b: seq<Op>)
    ensures Run(acc, a + b) == Run(Run(acc, a), b)
    decreases |a|
  {
    if a == [] {
      assert a + b == b;
    } else {
      assert (a + b)[0] == a[0] && (a + b)[1..] == a[1..] + b;
      RunConcat(Step(acc, a[0]), a[1..], b);
    }
  }

  lemma {:induction false} WrittenConcat(a: seq<Op>, b: seq<Op>)
    ensures Written(a + b) == Written(a) + Written(b)
    decreases |a|
  {
    if a == [] {
      assert a + b == b;
    } else {
      assert (a + b)[0] == a[0] && (a + b)[1..] == a[1..] + b;
      WrittenConcat(a[1..], b);
    }
  }

  lemma {:induction false} WriteCountConcat(a: seq<Op>, b: seq<Op>, k: string)
    ensures WriteCount(a + b, k) == WriteCount(a, k) + WriteCount(b, k)
    decreases |a|
  {
    if a == [] {
      assert a + b == b;
    } else {
      assert (a + b)[0] == a[0] && (a + b)[1..] == a[1..] + b;
      WriteCountConcat(a[1..], b, k);
    }
  }

  /** A key is written by a log exactly when the log's count for it is positive. */
  lemma {:induction false} WrittenIffCounted(log: seq<Op>, k: string)
    ensures k in Written(log) <==> WriteCount(log, k) > 0
    decreases |log|
  {
    if log != [] {
      WrittenIffCounted(log[1..], k);
    }
  }

  /**
   * Performing a log adds exactly the keys it writes, and leaves every key it
   * does not write as it was.
   */
  lemma {:induction false} RunEffect(acc: map<string, Value>, log: seq<Op>)
    ensures Run(acc, log).Keys == acc.Keys + Written(log)
    ensures forall k | k in acc && k !in Written(log) :: Run(acc, log)[k] == acc[k]
    decreases |log|
  {
    if log != [] {
      RunEffect(Step(acc, log[0]), log[1..]);
    }
  }

  /**
   * Last write wins: when a key is written once in the whole log, by `seg`,
   * its final value is the one it has right after `seg`.
   */
  lemma SoleWriter(acc: map<string, Value>, pre: seq<Op>, seg: seq<Op>, post: seq<Op>, k: string)
    requires WriteCount(pre + seg + post, k) == 1
    requires k in Written(seg)
    ensures k in Run(Run(acc, pre), seg)
    ensures k in Run(acc, pre + seg + post)
    ensures Run(acc, pre + seg + post)[k] == Run(Run(acc, pre), seg)[k]
  {
    WriteCountConcat(pre + seg, post, k);
    WriteCountConcat(pre, seg, k);
    WrittenIffCounted(seg, k);
    WrittenIffCounted(post, k);
    RunConcat(acc, pre + seg, post);
    RunConcat(acc, pre, seg);
    RunEffect(Run(acc, pre), seg);
    RunEffect(Run(acc, pre + seg), post);
  }

  lemma RunThree(acc: map<string, Value>, log: seq<Op>)
    requires |log| == 3
    ensures Run(acc, log) == Step(Step(Step(acc, log[0]), log[1]), log[2])
  {
    assert log[1..][0] == log[1] && log[1..][1..][0] == log[2] && log[1..][1..][1..] == [];
    var a1 := Step(acc, log[0]);
    var a2 := Step(a1, log[1]);
    assert Run(acc, log) == Run(a1, log[1..]);
    assert Run(a1, log[1..]) == Run(a2, log[1..][1..]);
    assert Run(a2, log[1..][1..]) == Run(Step(a2, log[2]), []);
  }

  // ------------------------------------------------------ what gets written

  /** The entries flattenList collects: one per index, under `ctx` followed by the index. */
  function IndexEntries(ctx: string, items: seq<Value>): (r: map<string, Value>)
    ensures forall i | 0 <= i < |items| :: ctx + NatToString(i) in r && r[ctx + NatToString(i)] == items[i]
    ensures r.Keys == set i | 0 <= i < |items| :: ctx + NatToString(i)
  {
    IndexKeysDistinct(ctx);
    map i | 0 <= i < |items| :: ctx + NatToString(i) := items[i]
  }

  /** flattenList: the index entries, then "first" and "last" read back from the map. */
  function ListLog(ctx: string, items: seq<Value>): seq<Op>
  {
    [StoreAll(IndexEntries(ctx, items)),
     Copy(ctx + "first", ctx + "0"),
     Copy(ctx + "last", ctx + IntToString(|items| - 1))]
  }

  /** The writes for one entry whose flattened key is `key` and whose value is `x`. */
  function EntryLog(env: Env, key: string, x: Value): seq<Op>
    requires OrderOk(env)
    decreases x, 2, 0
  {
    [Store(key, StrOf(env.stringify(x)))] + EntryTail(env, key, x)
  }

  /** What an entry writes after its own key: flattenList, or the JSON form and the nested entries. */
  function EntryTail(env: Env, key: string, x: Value): seq<Op>
    requires OrderOk(env)
    decreases x, 1, 0
  {
    match x
    case List(items) => ListLog(key + ".", items)
    case Obj(f) =>
      [Store(key + "_logzio_json", StrOf(env.toJson(x)))] + FlatLog(env, key + ".", f, env.keyOrder(f))
    case _ => []
  }

  /** flatten: the writes for the entries of `m` under `ctx`, in the order `ks`. */
  function FlatLog(env: Env, ctx: string, m: map<string, Value>, ks: seq<string>): seq<Op>
    requires OrderOk(env)
    requires forall i | 0 <= i < |ks| :: ks[i] in m
    decreases Obj(m), 0, |ks|
  {
    if ks == [] then []
    else
      var n := |ks| - 1;
      FlatLog(env, ctx, m, ks[..n]) + EntryLog(env, ctx + Paths.Escape(ks[n]), m[ks[n]])
  }

  /** Whether `x`, or a map nested in it through maps only, holds a list with a null element. */
  predicate NullInEntry(x: Value)
    decreases x, 1
  {
    (x.List? && Null in x.items) || (x.Obj? && NullInLists(x.fields))
  }

  predicate NullInLists(m: map<string, Value>)
    decreases Obj(m), 0
  {
    exists k | k in m :: NullInEntry(m[k])
  }

  /** The keys flattenList writes under `ctx` for a list of length `n`. */
  function ListKeys(ctx: string, n: nat): set<string>
  {
    (set i | 0 <= i < n :: ctx + NatToString(i)) + {ctx + "first", ctx + "last"}
  }

  /** The three writes of flattenList, spelled out. */
  lemma ListLogSteps(acc: map<string, Value>, ctx: string, items: seq<Value>)
    ensures var a1 := acc + IndexEntries(ctx, items);
            var a2 := a1[ctx + "first" := Get(a1, ctx + "0")];
            Run(acc, ListLog(ctx, items)) == a2[ctx + "last" := Get(a2, ctx + IntToString(|items| - 1))]
  {
    RunThree(acc, ListLog(ctx, items));
  }

  /** flattenList adds exactly the index keys, "first" and "last", and touches no other key. */
  lemma ListLogKeys(acc: map<string, Value>, ctx: string, items: seq<Value>)
    ensures Run(acc, ListLog(ctx, items)).Keys == acc.Keys + ListKeys(ctx, |items|)
    ensures forall k | k in acc && k !in ListKeys(ctx, |items|) :: Run(acc, ListLog(ctx, items))[k] == acc[k]
  {
    ListLogSteps(acc, ctx, items);
  }

  /** After flattenList, index i holds element i of the list. */
  lemma ListLogIndex(acc: map<string, Value>, ctx: string, items: seq<Value>, i: nat)
    requires i < |items|
    ensures ctx + NatToString(i) in Run(acc, ListLog(ctx, items))
    ensures Run(acc, ListLog(ctx, items))[ctx + NatToString(i)] == items[i]
  {
    ListLogSteps(acc, ctx, items);
    NotIndexKey(ctx, "first", i);
    NotIndexKey(ctx, "last", i);
  }

  /**
   * After flattenList, "first" and "last" hold the first and the last element;
   * for an empty list they hold whatever the map had under index 0 and index
   * -1, null when it had nothing there.
   */
  lemma ListLogEnds(acc: map<string, Value>, ctx: string, items: seq<Value>)
    ensures var r := Run(acc, ListLog(ctx, items));
            && ctx + "first" in r && ctx + "last" in r
            && (|items| > 0 ==> r[ctx + "first"] == items[0] && r[ctx + "last"] == items[|items| - 1])
            && (|items| == 0 ==> r[ctx + "first"] == Get(acc, ctx + "0") && r[ctx + "last"] == Get(acc, ctx + "-1"))
  {
    ListLogSteps(acc, ctx, items);
    var n := |items|;
    assert NatToString(0) == "0";
    if ctx + "first" == ctx + "last" {
      AppendCancel(ctx, "first", "last");
    }
    if n > 0 {
      NotIndexKey(ctx, "first", n - 1);
    } else {
      assert NatToString(1) == "1";
      assert IntToString(n - 1) == "-1";
      if ctx + "first" == ctx + "-1" {
        AppendCancel(ctx, "first", "-1");
      }
    }
  }

  // ------------------------------------------------------------- the keys

  /**
   * The keys flattening an entry writes, whatever the iteration order: the
   * entry's own key; for a list the index keys, "first" and "last"; for a map
   * the "_logzio_json" key and the keys of its entries under the key and a dot.
   */
  ghost function EntryKeys(key: string, x: Value): set<string>
    decreases x, 1, 0
  {
    {key} +
    match x
    case List(items) => ListKeys(key + ".", |items|)
    case Obj(f) => {key + "_logzio_json"} + FlatKeys(key + ".", f)
    case _ => {}
  }

  /** The keys flattening the map `m` under `ctx` writes. */
  ghost function FlatKeys(ctx: string, m: map<string, Value>): set<string>
    decreases Obj(m), 0, 0
  {
    set k, s | k in m && s in EntryKeys(ctx + Paths.Escape(k), m[k]) :: s
  }

  /** The keys written for the entries `ks` of `m`. */
  ghost function KeysAlong(ctx: string, m: map<string, Value>, ks: seq<string>): set<string>
    requires forall i | 0 <= i < |ks| :: ks[i] in m
  {
    set i, s | 0 <= i < |ks| && s in EntryKeys(ctx + Paths.Escape(ks[i]), m[ks[i]]) :: s
  }

  lemma ListLogWritten(ctx: string, items: seq<Value>)
    ensures Written(ListLog(ctx, items)) == ListKeys(ctx, |items|)
  {
    var log := ListLog(ctx, items);
    assert log[1..][0] == log[1] && log[1..][1..][0] == log[2] && log[1..][1..][1..] == [];
    assert Written(log) == OpKeys(log[0]) + Written(log[1..]);
    assert Written(log[1..]) == OpKeys(log[1]) + Written(log[1..][1..]);
    assert Written(log[1..][1..]) == OpKeys(log[2]) + Written([]);
  }

  lemma KeysAlongAll(ctx: string, m: map<string, Value>, ks: seq<string>)
    requires Enumerates(ks, m)
    ensures KeysAlong(ctx, m, ks) == FlatKeys(ctx, m)
  {
    forall s | s in FlatKeys(ctx, m)
      ensures s in KeysAlong(ctx, m, ks)
    {
      var k :| k in m && s in EntryKeys(ctx + Paths.Escape(k), m[k]);
      var i :| 0 <= i < |ks| && ks[i] == k;
    }
  }

  /** The keys an entry's writes go to are those of EntryKeys, in any iteration order. */
  lemma {:induction false} EntryLogKeys(env: Env, key: string, x: Value)
    requires OrderOk(env)
    ensures Written(EntryLog(env, key, x)) == EntryKeys(key, x)
    decreases x, 2, 0
  {
    var head := [Store(key, StrOf(env.stringify(x)))];
    match x
    case List(items) =>
      WrittenConcat(head, ListLog(key + ".", items));
      ListLogWritten(key + ".", items);
    case Obj(f) =>
      var json := [Store(key + "_logzio_json", StrOf(env.toJson(x)))];
      var nested := FlatLog(env, key + ".", f, env.keyOrder(f));
      assert EntryLog(env, key, x) == head + (json + nested);
      WrittenConcat(head, json + nested);
      WrittenConcat(json, nested);
      FlatLogKeys(env, key + ".", f, env.keyOrder(f));
      KeysAlongAll(key + ".", f, env.keyOrder(f));
    case _ =>
      assert EntryLog(env, key, x) == head + [];
  }

  /** The keys the writes for the entries `ks` go to. */
  lemma {:induction false} FlatLogKeys(env: Env, ctx: string, m: map<string, Value>, ks: seq<string>)
    requires OrderOk(env)
    requires forall i | 0 <= i < |ks| :: ks[i] in m
    ensures Written(FlatLog(env, ctx, m, ks)) == KeysAlong(ctx, m, ks)
    decreases Obj(m), 0, |ks|
  {
    if ks != [] {
      var n := |ks| - 1;
      var key := ctx + Paths.Escape(ks[n]);
      FlatLogKeys(env, ctx, m, ks[..n]);
      EntryLogKeys(env, key, m[ks[n]]);
      WrittenConcat(FlatLog(env, ctx, m, ks[..n]), EntryLog(env, key, m[ks[n]]));
      KeysAlongSnoc(ctx, m, ks);
    }
  }

  lemma KeysAlongSnoc(ctx: string, m: map<string, Value>, ks: seq<string>)
    requires |ks| > 0
    requires forall i | 0 <= i < |ks| :: ks[i] in m
    ensures var n := |ks| - 1;
            KeysAlong(ctx, m, ks) == KeysAlong(ctx, m, ks[..n]) + EntryKeys(ctx + Paths.Escape(ks[n]), m[ks[n]])
  {
    var n := |ks| - 1;
    forall s | s in KeysAlong(ctx, m, ks)
      ensures s in KeysAlong(ctx, m, ks[..n]) + EntryKeys(ctx + Paths.Escape(ks[n]), m[ks[n]])
    {
      var i :| 0 <= i < |ks| && s in EntryKeys(ctx + Paths.Escape(ks[i]), m[ks[i]]);
      if i < n {
        assert ks[..n][i] == ks[i];
      }
    }
    forall s | s in KeysAlong(ctx, m, ks[..n])
      ensures s in KeysAlong(ctx, m, ks)
    {
      var i :| 0 <= i < n && s in EntryKeys(ctx + Paths.Escape(ks[..n][i]), m[ks[..n][i]]);
      assert ks[..n][i] == ks[i];
    }
  }

  /** Whether `s` starts with `p`. */
  predicate HasPrefix(s: string, p: string)
  {
    |p| <= |s| && s[..|p|] == p
  }

  /** Every key written for an entry starts with the entry's own key. */
  lemma {:induction false} EntryKeysPrefix(key: string, x: Value, s: string)
    requires s in EntryKeys(key, x)
    ensures HasPrefix(s, key)
    decreases x
  {
    if s != key {
      match x
      case List(items) =>
        assert HasPrefix(s, key + ".");
      case Obj(f) =>
        if s != key + "_logzio_json" {
          var k :| k in f && s in EntryKeys(key + "." + Paths.Escape(k), f[k]);
          EntryKeysPrefix(key + "." + Paths.Escape(k), f[k], s);
          assert s[..|key|] == s[..|key + "." + Paths.Escape(k)|][..|key|];
        }
    }
  }

  /** Every key written for a map under `ctx` starts with `ctx`. */
  lemma FlatKeysPrefix(ctx: string, m: map<string, Value>, s: string)
    requires s in FlatKeys(ctx, m)
    ensures HasPrefix(s, ctx)
  {
    var k :| k in m && s in EntryKeys(ctx + Paths.Escape(k), m[k]);
    EntryKeysPrefix(ctx + Paths.Escape(k), m[k], s);
    assert s[..|ctx|] == s[..|ctx + Paths.Escape(k)|][..|ctx|];
  }

  // ------------------------------------------------------------ the values

  lemma RunCons(acc: map<string, Value>, op: Op, rest: seq<Op>)
    ensures Run(acc, [op] + rest) == Run(Step(acc, op), rest)
  {
    assert ([op] + rest)[0] == op && ([op] + rest)[1..] == rest;
  }

  /** The writes for a list entry: its own key, then flattenList under the key and a dot. */
  lemma EntryListRun(env: Env, acc: map<string, Value>, key: string, items: seq<Value>)
    requires OrderOk(env)
    ensures Run(acc, EntryLog(env, key, List(items))) ==
            Run(acc[key := StrOf(env.stringify(List(items)))], ListLog(key + ".", items))
  {
    RunCons(acc, Store(key, StrOf(env.stringify(List(items)))), EntryTail(env, key, List(items)));
  }

  /** The writes after an entry's own key never go to that key, nor, for a map, to its JSON key. */
  lemma TailAvoidsKey(env: Env, key: string, x: Value)
    requires OrderOk(env)
    ensures key !in Written(EntryTail(env, key, x))
  {
    if x.List? {
      assert EntryTail(env, key, x) == ListLog(key + ".", x.items);
      ListLogWritten(key + ".", x.items);
    } else if x.Obj? {
      var json := [Store(key + "_logzio_json", StrOf(env.toJson(x)))];
      var nested := FlatLog(env, key + ".", x.fields, env.keyOrder(x.fields));
      assert EntryTail(env, key, x) == json + nested;
      WrittenConcat(json, nested);
      assert Written(json) == {key + "_logzio_json"};
      NestedAvoidsKey(env, key, x.fields);
    } else {
      assert EntryTail(env, key, x) == [];
    }
  }

  lemma NestedAvoidsKey(env: Env, key: string, f: map<string, Value>)
    requires OrderOk(env)
    ensures key !in Written(FlatLog(env, key + ".", f, env.keyOrder(f)))
  {
    FlatLogKeys(env, key + ".", f, env.keyOrder(f));
    KeysAlongAll(key + ".", f, env.keyOrder(f));
    forall s | s in FlatKeys(key + ".", f)
      ensures s != key
    {
      FlatKeysPrefix(key + ".", f, s);
    }
  }

  lemma NestedAvoidsJson(env: Env, key: string, f: map<string, Value>)
    requires OrderOk(env)
    ensures key + "_logzio_json" !in Written(FlatLog(env, key + ".", f, env.keyOrder(f)))
  {
    FlatLogKeys(env, key + ".", f, env.keyOrder(f));
    KeysAlongAll(key + ".", f, env.keyOrder(f));
    forall s | s in FlatKeys(key + ".", f)
      ensures s != key + "_logzio_json"
    {
      FlatKeysPrefix(key + ".", f, s);
      DotIsNotJson(key, s);
    }
  }

  lemma DotIsNotJson(key: string, s: string)
    requires HasPrefix(s, key + ".")
    ensures s != key + "_logzio_json"
  {
    assert s[|key|] == (key + ".")[|key|] == '.';
  }

  /**
   * Within the writes for one entry, the entry's key ends up holding the
   * value's string form: no later write of the same entry goes to it.
   */
  lemma EntryEffect(env: Env, acc: map<string, Value>, key: string, x: Value)
    requires OrderOk(env)
    ensures key in Run(acc, EntryLog(env, key, x))
    ensures Run(acc, EntryLog(env, key, x))[key] == StrOf(env.stringify(x))
  {
    var a1 := acc[key := StrOf(env.stringify(x))];
    RunCons(acc, Store(key, StrOf(env.stringify(x))), EntryTail(env, key, x));
    TailAvoidsKey(env, key, x);
    RunEffect(a1, EntryTail(env, key, x));
  }

  /** Within the writes for a map entry, the "_logzio_json" key ends up holding the map's JSON. */
  lemma EntryJsonEffect(env: Env, acc: map<string, Value>, key: string, f: map<string, Value>)
    requires OrderOk(env)
    ensures key + "_logzio_json" in Run(acc, EntryLog(env, key, Obj(f)))
    ensures Run(acc, EntryLog(env, key, Obj(f)))[key + "_logzio_json"] == StrOf(env.toJson(Obj(f)))
  {
    var json := key + "_logzio_json";
    var nested := FlatLog(env, key + ".", f, env.keyOrder(f));
    var a1 := acc[key := StrOf(env.stringify(Obj(f)))];
    var a2 := a1[json := StrOf(env.toJson(Obj(f)))];
    RunCons(acc, Store(key, StrOf(env.stringify(Obj(f)))), EntryTail(env, key, Obj(f)));
    RunCons(a1, Store(json, StrOf(env.toJson(Obj(f)))), nested);
    NestedAvoidsJson(env, key, f);
    RunEffect(a2, nested);
  }

  /** The writes for an entry of `m` appear, as one block, among the writes for `ks`. */
  lemma {:induction false} EntryInFlatLog(env: Env, ctx: string, m: map<string, Value>, ks: seq<string>, k: string)
    returns (pre: seq<Op>, post: seq<Op>)
    requires OrderOk(env)
    requires forall i | 0 <= i < |ks| :: ks[i] in m
    requires k in ks
    ensures FlatLog(env, ctx, m, ks) == pre + EntryLog(env, ctx + Paths.Escape(k), m[k]) + post
    decreases |ks|
  {
    var n := |ks| - 1;
    var last := EntryLog(env, ctx + Paths.Escape(ks[n]), m[ks[n]]);
    if ks[n] == k {
      pre, post := FlatLog(env, ctx, m, ks[..n]), [];
    } else {
      var i :| 0 <= i < |ks| && ks[i] == k;
      assert ks[..n][i] == k;
      var p, q := EntryInFlatLog(env, ctx, m, ks[..n], k);
      pre, post := p, q + last;
    }
  }

  lemma EscapedPathCons(ctx: string, path: seq<string>)
    requires |path| > 1
    ensures ctx + Paths.EscapedPath(path) == ctx + Paths.Escape(path[0]) + "." + Paths.EscapedPath(path[1..])
  {
  }

  /** The writes for a map entry: its key and its JSON, then the nested entries. */
  lemma EntryObjHead(env: Env, key: string, f: map<string, Value>) returns (head: seq<Op>)
    requires OrderOk(env)
    ensures EntryLog(env, key, Obj(f)) == head + FlatLog(env, key + ".", f, env.keyOrder(f))
  {
    head := [Store(key, StrOf(env.stringify(Obj(f)))), Store(key + "_logzio_json", StrOf(env.toJson(Obj(f))))];
  }

  lemma Regroup(a: seq<Op>, b: seq<Op>, c: seq<Op>, d: seq<Op>, e: seq<Op>, f: seq<Op>)
    ensures a + (b + (c + d + e)) + f == (a + b + c) + d + (e + f)
  {
  }

  /**
   * The writes for the entry a path names appear, as one block, among the
   * writes for the whole map, under the path's escaped, dot-joined keys: the
   * path's last segment is a key of the map its other segments reach, with
   * any value, null included.
   */
  lemma {:induction false} EntryAtPath(env: Env, ctx: string, m: map<string, Value>, path: seq<string>, f: map<string, Value>)
    returns (pre: seq<Op>, post: seq<Op>)
    requires OrderOk(env)
    requires |path| > 0
    requires Navigation.Walk(Obj(m), path[..|path| - 1]) == Navigation.Found(Obj(f))
    requires path[|path| - 1] in f
    ensures FlatLog(env, ctx, m, env.keyOrder(m)) ==
            pre + EntryLog(env, ctx + Paths.EscapedPath(path), f[path[|path| - 1]]) + post
    decreases |path|
  {
    var n := |path| - 1;
    var x := f[path[n]];
    var k := path[0];
    var ks := env.keyOrder(m);
    assert Enumerates(ks, m);
    var key := ctx + Paths.Escape(k);
    if n == 0 {
      assert path[..0] == [];
      assert m == f;
      var pre1, post1 := EntryInFlatLog(env, ctx, m, ks, k);
      assert m[k] == x && Paths.EscapedPath(path) == Paths.Escape(k);
      pre, post := pre1, post1;
    } else {
      var tail := path[1..];
      assert path[..n][0] == k && path[..n][1..] == tail[..|tail| - 1];
      assert tail[|tail| - 1] == path[n];
      assert k in m && m[k] != Null;
      assert Navigation.Walk(m[k], tail[..|tail| - 1]) == Navigation.Found(Obj(f));
      assert m[k].Obj?;
      var sub := m[k].fields;
      var pre1, post1 := EntryInFlatLog(env, ctx, m, ks, k);
      var pre2, post2 := EntryAtPath(env, key + ".", sub, tail, f);
      EscapedPathCons(ctx, path);
      var head := EntryObjHead(env, key, sub);
      var entry := EntryLog(env, ctx + Paths.EscapedPath(path), x);
      assert entry == EntryLog(env, key + "." + Paths.EscapedPath(tail), x);
      assert EntryLog(env, key, m[k]) == head + (pre2 + entry + post2);
      pre, post := pre1 + head + pre2, post2 + post1;
      Regroup(pre1, head, pre2, entry, post2, post1);
    }
  }

  /** A value a path reaches is the entry, under the last segment, of the map the other segments reach. */
  lemma ParentOf(m: map<string, Value>, path: seq<string>, x: Value) returns (f: map<string, Value>)
    requires |path| > 0
    requires Navigation.Walk(Obj(m), path) == Navigation.Found(x)
    ensures Navigation.Walk(Obj(m), path[..|path| - 1]) == Navigation.Found(Obj(f))
    ensures path[|path| - 1] in f && f[path[|path| - 1]] == x
  {
    var n := |path| - 1;
    Navigation.WalkPrefix(Obj(m), path, n);
    f := Navigation.Walk(Obj(m), path[..n]).v.fields;
    assert path == path[..n] + [path[n]];
    Navigation.WalkConcat(Obj(m), path[..n], [path[n]]);
    assert [path[n]][1..] == [];
  }

  // ------------------------------------------------ the document as a whole

  /** The writes getFlattenSource performs for the root map. */
  function SourceLog(env: Env, source: map<string, Value>): seq<Op>
    requires OrderOk(env)
  {
    FlatLog(env, "", source, env.keyOrder(source))
  }

  /** The map getFlattenSource returns when no list on the way holds a null. */
  function Flat(env: Env, source: map<string, Value>): map<string, Value>
    requires OrderOk(env)
  {
    Run(map[], SourceLog(env, source))
  }

  /** The flattened keys are exactly FlatKeys, whatever order the maps are visited in. */
  lemma FlattenKeys(env: Env, source: map<string, Value>)
    requires OrderOk(env)
    ensures Flat(env, source).Keys == FlatKeys("", source)
  {
    RunEffect(map[], SourceLog(env, source));
    FlatLogKeys(env, "", source, env.keyOrder(source));
    KeysAlongAll("", source, env.keyOrder(source));
  }

  /**
   * A key written by one block of the log is in the final map, and when
   * nothing else writes it, it keeps the value that block left.
   */
  lemma Landed(acc: map<string, Value>, pre: seq<Op>, seg: seq<Op>, post: seq<Op>, k: string, val: Value)
    requires k in Written(seg)
    requires k in Run(Run(acc, pre), seg) && Run(Run(acc, pre), seg)[k] == val
    ensures k in Run(acc, pre + seg + post)
    ensures WriteCount(pre + seg + post, k) == 1 ==> Run(acc, pre + seg + post)[k] == val
  {
    WrittenConcat(pre + seg, post);
    WrittenConcat(pre, seg);
    RunEffect(acc, pre + seg + post);
    if WriteCount(pre + seg + post, k) == 1 {
      SoleWriter(acc, pre, seg, post, k);
    }
  }

  /** The writes for the entry a path names, inside the writes for the whole document. */
  lemma PathBlock(env: Env, source: map<string, Value>, path: seq<string>, f: map<string, Value>)
    returns (pre: seq<Op>, post: seq<Op>)
    requires OrderOk(env)
    requires |path| > 0
    requires Navigation.Walk(Obj(source), path[..|path| - 1]) == Navigation.Found(Obj(f))
    requires path[|path| - 1] in f
    ensures SourceLog(env, source) == pre + EntryLog(env, Paths.EscapedPath(path), f[path[|path| - 1]]) + post
    ensures Written(EntryLog(env, Paths.EscapedPath(path), f[path[|path| - 1]])) ==
            EntryKeys(Paths.EscapedPath(path), f[path[|path| - 1]])
  {
    pre, post := EntryAtPath(env, "", source, path, f);
    assert "" + Paths.EscapedPath(path) == Paths.EscapedPath(path);
    EntryLogKeys(env, Paths.EscapedPath(path), f[path[|path| - 1]]);
  }

  /**
   * Every entry of the document, at any depth, is flattened under its path's
   * escaped, dot-joined segments, its value null or not; that key holds the
   * value's string form unless another entry writes the same key (a key
   * collision, where the later write wins). The entry is named by a path
   * whose last segment is a key of the map the other segments reach.
   */
  lemma FlattenedField(env: Env, source: map<string, Value>, path: seq<string>, f: map<string, Value>)
    requires OrderOk(env)
    requires |path| > 0
    requires Navigation.Walk(Obj(source), path[..|path| - 1]) == Navigation.Found(Obj(f))
    requires path[|path| - 1] in f
    ensures Paths.EscapedPath(path) in Flat(env, source)
    ensures WriteCount(SourceLog(env, source), Paths.EscapedPath(path)) == 1 ==>
            Flat(env, source)[Paths.EscapedPath(path)] == StrOf(env.stringify(f[path[|path| - 1]]))
  {
    var key := Paths.EscapedPath(path);
    var x := f[path[|path| - 1]];
    var pre, post := PathBlock(env, source, path, f);
    EntryEffect(env, Run(map[], pre), key, x);
    Landed(map[], pre, EntryLog(env, key, x), post, key, StrOf(env.stringify(x)));
  }

  /** A map getField can reach is also flattened to its JSON form, under "_logzio_json". */
  lemma FlattenedJson(env: Env, source: map<string, Value>, path: seq<string>, f: map<string, Value>)
    requires OrderOk(env)
    requires |path| > 0
    requires Navigation.Walk(Obj(source), path) == Navigation.Found(Obj(f))
    ensures Paths.EscapedPath(path) + "_logzio_json" in Flat(env, source)
    ensures WriteCount(SourceLog(env, source), Paths.EscapedPath(path) + "_logzio_json") == 1 ==>
            Flat(env, source)[Paths.EscapedPath(path) + "_logzio_json"] == StrOf(env.toJson(Obj(f)))
  {
    var key := Paths.EscapedPath(path);
    var parent := ParentOf(source, path, Obj(f));
    var pre, post := PathBlock(env, source, path, parent);
    EntryJsonEffect(env, Run(map[], pre), key, f);
    Landed(map[], pre, EntryLog(env, key, Obj(f)), post, key + "_logzio_json", StrOf(env.toJson(Obj(f))));
  }

  /**
   * A list getField can reach is flattened element by element: the key, a
   * dot and the index holds that element, unless another entry writes the
   * same key.
   */
  lemma FlattenedListIndex(env: Env, source: map<string, Value>, path: seq<string>, items: seq<Value>, i: nat)
    requires OrderOk(env)
    requires |path| > 0
    requires Navigation.Walk(Obj(source), path) == Navigation.Found(List(items))
    requires i < |items|
    ensures Paths.EscapedPath(path) + "." + NatToString(i) in Flat(env, source)
    ensures WriteCount(SourceLog(env, source), Paths.EscapedPath(path) + "." + NatToString(i)) == 1 ==>
            Flat(env, source)[Paths.EscapedPath(path) + "." + NatToString(i)] == items[i]
  {
    var key := Paths.EscapedPath(path);
    var parent := ParentOf(source, path, List(items));
    var pre, post := PathBlock(env, source, path, parent);
    var a1 := Run(map[], pre)[key := StrOf(env.stringify(List(items)))];
    EntryListRun(env, Run(map[], pre), key, items);
    ListLogIndex(a1, key + ".", items, i);
    Landed(map[], pre, EntryLog(env, key, List(items)), post, key + "." + NatToString(i), items[i]);
  }

  /**
   * A non-empty list getField can reach also gets "first" and "last" keys
   * holding its first and last element, unless another entry writes them.
   */
  lemma FlattenedListEnds(env: Env, source: map<string, Value>, path: seq<string>, items: seq<Value>)
    requires OrderOk(env)
    requires |path| > 0
    requires Navigation.Walk(Obj(source), path) == Navigation.Found(List(items))
    requires |items| > 0
    ensures Paths.EscapedPath(path) + "." + "first" in Flat(env, source)
    ensures Paths.EscapedPath(path) + "." + "last" in Flat(env, source)
    ensures WriteCount(SourceLog(env, source), Paths.EscapedPath(path) + "." + "first") == 1 ==>
            Flat(env, source)[Paths.EscapedPath(path) + "." + "first"] == items[0]
    ensures WriteCount(SourceLog(env, source), Paths.EscapedPath(path) + "." + "last") == 1 ==>
            Flat(env, source)[Paths.EscapedPath(path) + "." + "last"] == items[|items| - 1]
  {
    var key := Paths.EscapedPath(path);
    var parent := ParentOf(source, path, List(items));
    var pre, post := PathBlock(env, source, path, parent);
    var seg := EntryLog(env, key, List(items));
    var a1 := Run(map[], pre)[key := StrOf(env.stringify(List(items)))];
    EntryListRun(env, Run(map[], pre), key, items);
    ListLogEnds(a1, key + ".", items);
    Landed(map[], pre, seg, post, key + "." + "first", items[0]);
    Landed(map[], pre, seg, post, key + "." + "last", items[|items| - 1]);
  }

  // ------------------------------------------------------------ the methods

  /**
   * flattenList: collects the index entries (Collectors.toMap, which throws on
   * a null element), puts them all, then puts "first" and "last" with the
   * values the map holds under index 0 and under the last index.
   */
  method FlattenList(acc: map<string, Value>, ctx: string, items: seq<Value>) returns (r: Result<map<string, Value>>)
    ensures r.Err? <==> Null in items
    ensures r.Err? ==> r.error == NullElement
    ensures r.Ok? ==> r.value == Run(acc, ListLog(ctx, items))
  {
    if Null in items {
      return Err(NullElement);
    }
    ghost var log := ListLog(ctx, items);
    var flat := acc + IndexEntries(ctx, items);
    assert flat == Step(acc, log[0]);
    flat := flat[ctx + "first" := Get(flat, ctx + "0")];
    assert flat == Step(Step(acc, log[0]), log[1]);
    flat := flat[ctx + "last" := Get(flat, ctx + IntToString(|items| - 1))];
    RunThree(acc, log);
    return Ok(flat);
  }

  lemma FlatLogSnoc(env: Env, ctx: string, m: map<string, Value>, ks: seq<string>, i: nat)
    requires OrderOk(env)
    requires i < |ks|
    requires forall j | 0 <= j < |ks| :: ks[j] in m
    ensures FlatLog(env, ctx, m, ks[..i + 1]) ==
            FlatLog(env, ctx, m, ks[..i]) + EntryLog(env, ctx + Paths.Escape(ks[i]), m[ks[i]])
  {
    assert ks[..i + 1][..i] == ks[..i];
  }

  /**
   * flatten: for each entry of `context`, in the map's iteration order,
   * performs the writes of FlattenEntry under the escaped key.
   */
  method Flatten(env: Env, acc: map<string, Value>, ctx: string, context: map<string, Value>)
    returns (r: Result<map<string, Value>>)
    requires OrderOk(env)
    ensures r.Err? <==> NullInLists(context)
    ensures r.Err? ==> r.error == NullElement
    ensures r.Ok? ==> r.value == Run(acc, FlatLog(env, ctx, context, env.keyOrder(context)))
    decreases Obj(context), 0
  {
    var ks := env.keyOrder(context);
    assert Enumerates(ks, context);
    var flat := acc;
    for i := 0 to |ks|
      invariant flat == Run(acc, FlatLog(env, ctx, context, ks[..i]))
      invariant forall j | 0 <= j < i :: !NullInEntry(context[ks[j]])
    {
      var k := ks[i];
      var key := ctx + Paths.Escape(k);
      FlatLogSnoc(env, ctx, context, ks, i);
      RunConcat(acc, FlatLog(env, ctx, context, ks[..i]), EntryLog(env, key, context[k]));
      var entry := FlattenEntry(env, flat, key, context[k]);
      if entry.Err? {
        return entry;
      }
      flat := entry.value;
    }
    assert ks[..|ks|] == ks;
    forall k | k in context
      ensures !NullInEntry(context[k])
    {
      var j :| 0 <= j < |ks| && ks[j] == k;
    }
    return Ok(flat);
  }

  /**
   * The body of flatten for one entry: puts the key with the value's string
   * form; then flattens a list value under the key and a dot, or puts a map
   * value's JSON under the key and "_logzio_json" and flattens the map under
   * the key and a dot.
   */
  method FlattenEntry(env: Env, acc: map<string, Value>, key: string, value: Value)
    returns (r: Result<map<string, Value>>)
    requires OrderOk(env)
    ensures r.Err? <==> NullInEntry(value)
    ensures r.Err? ==> r.error == NullElement
    ensures r.Ok? ==> r.value == Run(acc, EntryLog(env, key, value))
    decreases value, 1
  {
    var flat := acc[key := StrOf(env.stringify(value))];
    RunCons(acc, Store(key, StrOf(env.stringify(value))), EntryTail(env, key, value));
    if value.List? {
      r := FlattenList(flat, key + ".", value.items);
    } else if value.Obj? {
      var json := Store(key + "_logzio_json", StrOf(env.toJson(value)));
      RunCons(flat, json, FlatLog(env, key + ".", value.fields, env.keyOrder(value.fields)));
      flat := flat[key + "_logzio_json" := StrOf(env.toJson(value))];
      r := Flatten(env, flat, key + ".", value.fields);
    } else {
      assert EntryTail(env, key, value) == [];
      r := Ok(flat);
    }
  }
}
