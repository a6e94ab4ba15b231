# sawmill `Doc`: a verified model of the path-addressable log document

Sawmill processes log events as documents: a root map from strings to
values, where a value is null, a scalar, a list or a nested map. `Doc`
addresses that tree with dotted paths (`a.b.c`, where `\.` is a literal
dot inside a key), reads and writes fields along them, and can produce a
flattened one-level copy whose keys are derived paths (`key.0`, `key.first`,
`key.last`, `key_logzio_json`).

The model follows the class in its own form:

- `values.dfy` (`Values`): the value tree, Java's `Map.get` (a missing key
  reads as null), the exceptions the operations raise, and the classes
  `hasField(path, clazz)` can test.
- `paths.dfy` (`Paths`): `tokenizePath` as a character loop with a string
  builder and an escape flag, proved against the reference split function
  `SplitFrom`; `escape` and the escape/tokenize round trip.
- `navigation.dfy` (`Navigation`): `getByPath` as a cursor loop, proved
  against the recursive walk `Walk`, with its three outcomes: found, absent
  (a missing key or a null value) and the `ClassCastException` raised when
  the cursor is not a map.
- `mutation.dfy` (`Mutation`): the specification functions of the mutators
  (`Put` for addField, `Remove` for removeField, `RemoveFirst`/`RemoveAll`
  for `List.remove`/`List.removeAll`) and the lemmas about them.
- `flattening.dfy` (`Flattening`): `flatten` and `flattenList` as methods
  filling an accumulator map, proved equal to replaying a log of writes;
  the key set and the values of the flattened map are stated as lemmas.
- `document.dfy` (`Document`): class `Doc` with its mutable `source` map and
  one method per public operation.

Nested maps are values. Where the Java code walks a `context` reference
down the tree and changes the innermost map in place, `AddField` and
`RemoveField` walk the same way, record the maps they pass, and plug the
changed innermost map back into them (`Plug`), which gives the root map
the in-place write would have left. The in-place `add`/`addAll`/`remove`/
`removeAll` on a list reached through `getField` are modelled by writing the
changed list back at the same path.

## Model

| member | source | states |
|---|---|---|
| Document.Doc.constructor | sawmill-core/src/main/java/io/logz/sawmill/Doc.java:21-24 | a document over a non-empty map holds exactly that map |
| Document.Doc.Create | sawmill-core/src/main/java/io/logz/sawmill/Doc.java:21-24 | construction fails with the empty-source error exactly when the map is empty; otherwise a fresh document holds the map |
| Paths.TokenizePath | sawmill-core/src/main/java/io/logz/sawmill/Doc.java:193-214 | the character loop returns exactly the segments of the reference split, and at least one |
| Paths.SegmentCount | sawmill-core/src/main/java/io/logz/sawmill/Doc.java:193-214 | the number of segments is one more than the number of dots not escaped by a backslash; the empty path gives one empty segment |
| Paths.SegmentsJoin | sawmill-core/src/main/java/io/logz/sawmill/Doc.java:198-211 | the segments joined with dots are the path with every unescaped backslash dropped: a backslash is dropped and the character after it is kept literally, and every other character, dots included, is kept |
| Paths.EscapeRoundTrip | sawmill-core/src/main/java/io/logz/sawmill/Doc.java:57-59 | tokenizing an escaped key without backslashes gives back that key as the one segment |
| Paths.EscapedPathRoundTrip | sawmill-core/src/main/java/io/logz/sawmill/Doc.java:57-59 | tokenizing escaped keys joined with dots gives back the keys, for keys without backslashes |
| Paths.BackslashBreaksRoundTrip | sawmill-core/src/main/java/io/logz/sawmill/Doc.java:57-59 | escape leaves backslashes alone, so the key `a\b` comes back as `ab`: the round trip needs its restriction |
| Paths.EscapedDotExample | sawmill-core/src/main/java/io/logz/sawmill/Doc.java:193-214 | `a\.b.c` tokenizes to `a.b` and `c` |
| Navigation.Walk | sawmill-core/src/main/java/io/logz/sawmill/Doc.java:182-191 | a reached value is never null, and a non-empty path is only reached from a map |
| Navigation.WalkConcat | sawmill-core/src/main/java/io/logz/sawmill/Doc.java:184-189 | resolving a path in two parts resolves the first part, then the second from the value reached |
| Navigation.WalkPrefix | sawmill-core/src/main/java/io/logz/sawmill/Doc.java:184-189 | when a path resolves, every proper prefix resolves to a map holding the next segment with a non-null value |
| Navigation.WalkByPrefixes | sawmill-core/src/main/java/io/logz/sawmill/Doc.java:184-189 | conversely, a path resolves when every proper prefix resolves to a map holding the next segment with a non-null value |
| Navigation.GetByPath | sawmill-core/src/main/java/io/logz/sawmill/Doc.java:182-191 | the cursor loop reports exactly the outcome of resolving the path: found, absent, or the cast failure |
| Document.Doc.HasField | sawmill-core/src/main/java/io/logz/sawmill/Doc.java:61-64 | true exactly when the path resolves; the cast failure exactly when it walks through a non-map value |
| Document.Doc.HasFieldOf | sawmill-core/src/main/java/io/logz/sawmill/Doc.java:66-69 | true exactly when the path resolves to an instance of the class; the cast failure exactly when it walks through a non-map value |
| Document.Doc.GetField | sawmill-core/src/main/java/io/logz/sawmill/Doc.java:71-75 | succeeds exactly when the path resolves, with the non-null value reached; otherwise the cast failure or the missing-field failure |
| Document.Doc.AddField | sawmill-core/src/main/java/io/logz/sawmill/Doc.java:77-95 | the descent loop and the write-back leave the root map `Put(old source, segments, value)` |
| Mutation.PutThenWalk | sawmill-core/src/main/java/io/logz/sawmill/Doc.java:77-95 | after addField(p, v), getField(p) gives `v`; a null `v` reads as absent |
| Mutation.PutAlongPath | sawmill-core/src/main/java/io/logz/sawmill/Doc.java:83-92 | after addField, every map on the path is a map; it keeps its other keys and values, and a missing or non-map intermediate becomes a fresh map holding only the next segment; at the root, no key but the first segment changes |
| Mutation.PutPut | sawmill-core/src/main/java/io/logz/sawmill/Doc.java:77-95 | writing a path twice leaves only the second write |
| Document.Doc.RemoveField | sawmill-core/src/main/java/io/logz/sawmill/Doc.java:103-120 | an unresolved path gives false and no change; a resolved one gives true and `Remove(old source, segments)`; a walk through a non-map value raises the cast failure and changes nothing |
| Mutation.RemoveThenWalk | sawmill-core/src/main/java/io/logz/sawmill/Doc.java:103-120 | after a successful removeField(p), hasField(p) is false |
| Mutation.RemoveAlongPath | sawmill-core/src/main/java/io/logz/sawmill/Doc.java:113-117 | removeField removes only the leaf key from its parent map; every other key and off-path value on the path stays |
| Mutation.PutAfterRemove | sawmill-core/src/main/java/io/logz/sawmill/Doc.java:133-135 | removing a resolved path and adding it again equals overwriting it |
| Document.Doc.AppendList | sawmill-core/src/main/java/io/logz/sawmill/Doc.java:122-142 | an absent path ends holding the appended elements; a list `L` ends as `L` followed by them; a non-list `x` ends as `[x]` followed by them; a list value contributes its elements in order; a walk through a non-map value fails and changes nothing |
| Mutation.RemoveFirst | sawmill-core/src/main/java/io/logz/sawmill/Doc.java:163 | `List.remove`: the result has one occurrence of the value fewer, and is unchanged when the value is absent |
| Mutation.RemoveFirstAt | sawmill-core/src/main/java/io/logz/sawmill/Doc.java:163 | exactly the first occurrence goes and the rest keep their order |
| Mutation.RemoveAllCount | sawmill-core/src/main/java/io/logz/sawmill/Doc.java:161 | `List.removeAll`: no element of the argument remains, every other element keeps its count |
| Mutation.RemoveAllConcat | sawmill-core/src/main/java/io/logz/sawmill/Doc.java:161 | removeAll filters piecewise and keeps the order of what stays |
| Document.Doc.RemoveFromList | sawmill-core/src/main/java/io/logz/sawmill/Doc.java:151-170 | true exactly when the path resolves to a list, which then loses the value's elements (a list value) or the value's first occurrence; false and no change otherwise; a walk through a non-map value raises the cast failure |
| Flattening.NatToString | sawmill-core/src/main/java/io/logz/sawmill/Doc.java:39 | `Integer.toString` of an index is a non-empty string of digits |
| Flattening.NatToStringInjective | sawmill-core/src/main/java/io/logz/sawmill/Doc.java:39 | distinct indexes give distinct strings |
| Flattening.IndexKeysDistinct | sawmill-core/src/main/java/io/logz/sawmill/Doc.java:37-39 | the index keys under one prefix are pairwise distinct |
| Flattening.NotIndexKey | sawmill-core/src/main/java/io/logz/sawmill/Doc.java:40-41 | `first` and `last` never coincide with an index key |
| Flattening.IndexEntries | sawmill-core/src/main/java/io/logz/sawmill/Doc.java:37-39 | the collected map holds element `i` under the prefix and `i`, and no other key |
| Flattening.FlattenList | sawmill-core/src/main/java/io/logz/sawmill/Doc.java:35-42 | fails with the null-element error exactly when the list holds a null; otherwise the map is the accumulator after the list's writes |
| Flattening.ListLogKeys | sawmill-core/src/main/java/io/logz/sawmill/Doc.java:35-42 | flattenList adds exactly the index keys, `first` and `last`, and changes no other key |
| Flattening.ListLogIndex | sawmill-core/src/main/java/io/logz/sawmill/Doc.java:37-39 | after flattenList, the prefix and `i` holds element `i` |
| Flattening.ListLogEnds | sawmill-core/src/main/java/io/logz/sawmill/Doc.java:40-41 | `first` and `last` hold the first and last element; for an empty list, whatever the map had under `0` and `-1`, null when nothing |
| Flattening.Flatten | sawmill-core/src/main/java/io/logz/sawmill/Doc.java:44-55 | fails with the null-element error exactly when a list reached through maps only holds a null element (list elements are not flattened further, so a null inside a nested list does not fail); otherwise the map is the accumulator after the writes for every entry, in iteration order |
| Flattening.FlattenEntry | sawmill-core/src/main/java/io/logz/sawmill/Doc.java:45-54 | for one entry, fails with the null-element error exactly when its value is a list holding a null element, or a map from which such a list is reached through maps only; otherwise the map is the accumulator after that entry's writes |
| Flattening.EntryEffect | sawmill-core/src/main/java/io/logz/sawmill/Doc.java:46-48 | within an entry's writes, its key ends holding the string form of its value |
| Flattening.EntryJsonEffect | sawmill-core/src/main/java/io/logz/sawmill/Doc.java:50-52 | within a map entry's writes, the `_logzio_json` key ends holding the map's JSON |
| Flattening.EntryLogKeys | sawmill-core/src/main/java/io/logz/sawmill/Doc.java:44-55 | an entry writes its key, and for a list its index keys, `first` and `last`, for a map its JSON key and its nested keys, whatever the iteration order |
| Flattening.EntryAtPath | sawmill-core/src/main/java/io/logz/sawmill/Doc.java:44-55 | the writes for any entry of the document, named by a path whose last segment is a key of the map the other segments reach, null values included, appear as one block under the path's escaped, dot-joined key |
| Flattening.FlattenKeys | sawmill-core/src/main/java/io/logz/sawmill/Doc.java:28-55 | the flattened keys are exactly the derived keys of every entry at every depth; list elements are not flattened further |
| Flattening.FlattenedField | sawmill-core/src/main/java/io/logz/sawmill/Doc.java:44-48 | every entry of the document at any depth, null values included, is flattened under its escaped path, holding its value's string form unless another entry writes the same key |
| Flattening.FlattenedJson | sawmill-core/src/main/java/io/logz/sawmill/Doc.java:50-52 | every map a path reaches has its JSON under the escaped path and `_logzio_json`, unless another entry writes the same key |
| Flattening.FlattenedListIndex | sawmill-core/src/main/java/io/logz/sawmill/Doc.java:35-39 | every list a path reaches holds element `i` under the escaped path, a dot and `i`, unless another entry writes the same key |
| Flattening.FlattenedListEnds | sawmill-core/src/main/java/io/logz/sawmill/Doc.java:40-41 | a non-empty list a path reaches has its first and last element under `.first` and `.last`, unless another entry writes the same key |
| Flattening.RunEffect | sawmill-core/src/main/java/io/logz/sawmill/Doc.java:44-55 | replaying writes adds exactly the written keys and leaves every other key as it was |
| Flattening.SoleWriter | sawmill-core/src/main/java/io/logz/sawmill/Doc.java:44-55 | a key written by one write only keeps the value that write gave it |
| Document.Doc.GetFlattenSource | sawmill-core/src/main/java/io/logz/sawmill/Doc.java:28-33 | starting from an empty map and an empty prefix, fails exactly when a list reached through maps only holds a null element, and otherwise returns the flattened map the lemmas above describe |

## Left out

- `toString` is not part of this model.
- `MapUtils.isNotEmpty` in the constructor also rejects a null source; a Dafny map cannot be null, so only the empty map is rejected.
- `STRING.convertFrom` and `JsonUtils.toJsonString` are foreign code: they are the parameters `stringify` and `toJson` of `Flattening.Env`, whose results are taken to be strings.
- HashMap iteration order is the parameter `keyOrder` of `Flattening.Env`, required to list each map's keys once each (`OrderOk`); every key-set property holds for any such order, and a value property holds when no other entry writes the same key. Uniqueness of flattened keys is not claimed: a user key such as `a_logzio_json` or `a.first` can collide with a derived one, and then the later write wins.
- `escape` uses a regular expression replacing every `.` by `\.`; `Paths.Escape` is that replacement done character by character.
- `hasField(path, clazz)` uses reflection; `Kind` names the classes a caller can pass, and `IsInstance` their instance test on the value variants.
- Reference aliasing: nested maps and lists are values, so a list or map shared with another part of the document, or with the caller, does not see the in-place changes, and cyclic documents cannot be expressed.
- Numbers are unbounded integers; floating-point values are not modelled.
- Where the path walks through a value that is neither null nor a map, the code raises a `ClassCastException` rather than reporting the field as missing; the model follows the code and reports `CastFailure` from hasField, getField, removeField, appendList and removeFromList, and addField replaces that value with a new map.
- `Collectors.toMap` raising a `NullPointerException` on a null list element is modelled as the `NullElement` error of `FlattenList`, `Flatten` and `GetFlattenSource`; the partial writes the exception leaves in the accumulator are not modelled.
