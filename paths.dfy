/**
 * The path tokenizer and the key escaping that the flattener shares with it.
 * A path is split at every dot that is not escaped; a backslash escapes the
 * character after it and is itself dropped.
 */
module Paths {

  /** Glues `prefix` onto the front of the first segment. */
  function PrependHead(prefix: string, segs: seq<string>): seq<string>
    requires |segs| > 0
  {
    [prefix + segs[0]] + segs[1..]
  }

  lemma PrependHeadEmpty(segs: seq<string>)
    requires |segs| > 0
    ensures PrependHead("", segs) == segs
  {
    assert "" + segs[0] == segs[0];
  }

  lemma PrependHeadTwice(a: string, b: string, segs: seq<string>)
    requires |segs| > 0
    ensures PrependHead(a, PrependHead(b, segs)) == PrependHead(a + b, segs)
  {
    assert a + (b + segs[0]) == (a + b) + segs[0];
  }

  /**
   * The segments of `s` when the scan starts with the escape flag `esc`:
   * the reference definition the tokenizer loop is proved against.
   */
  function SplitFrom(s: string, esc: bool): (r: seq<string>)
    ensures |r| > 0
    decreases |s|
  {
    if s == [] then [""]
    else if esc then PrependHead([s[0]], SplitFrom(s[1..], false))
    else if s[0] == '\\' then SplitFrom(s[1..], true)
    else if s[0] == '.' then [""] + SplitFrom(s[1..], false)
    else PrependHead([s[0]], SplitFrom(s[1..], false))
  }

  /** The segments a path denotes. */
  function Segments(path: string): seq<string>
  {
    SplitFrom(path, false)
  }

  /** tokenizePath: one pass over the characters with a string builder and an escape flag. */
  method TokenizePath(s: string) returns (tokens: seq<string>)
    ensures tokens == Segments(s)
    ensures |tokens| >= 1
  {
    tokens := [];
    var sb: string := "";
    var inEscape := false;
    assert s[0..] == s;
    PrependHeadEmpty(SplitFrom(s, false));
    for i := 0 to |s|
      invariant tokens + PrependHead(sb, SplitFrom(s[i..], inEscape)) == Segments(s)
    {
      var c := s[i];
      assert s[i..][0] == c && s[i..][1..] == s[i + 1..];
      ghost var rest := SplitFrom(s[i + 1..], false);
      if inEscape {
        PrependHeadTwice(sb, [c], rest);
        inEscape := false;
        sb := sb + [c];
      } else if c == '\\' {
        inEscape := true;
      } else if c == '.' {
        PrependHeadEmpty(rest);
        assert sb + "" == sb && ([""] + rest)[1..] == rest;
        tokens := tokens + [sb];
        sb := "";
      } else {
        PrependHeadTwice(sb, [c], rest);
        sb := sb + [c];
      }
    }
    assert s[|s|..] == [] && sb + "" == sb;
    tokens := tokens + [sb];
  }

  /** True when the character at index `i` is taken literally: an unescaped backslash precedes it. */
  predicate Escaped(s: string, i: nat)
    requires i <= |s|
    decreases i
  {
    i > 0 && s[i - 1] == '\\' && !Escaped(s, i - 1)
  }

  /** The number of separators (dots that are not escaped) at index `i` or after it. */
  function SeparatorsFrom(s: string, i: nat): nat
    requires i <= |s|
    decreases |s| - i
  {
    if i == |s| then 0
    else (if s[i] == '.' && !Escaped(s, i) then 1 else 0) + SeparatorsFrom(s, i + 1)
  }

  lemma {:induction false} SplitFromCount(s: string, i: nat)
    requires i <= |s|
    ensures |SplitFrom(s[i..], Escaped(s, i))| == 1 + SeparatorsFrom(s, i)
    decreases |s| - i
  {
    if i < |s| {
      assert s[i..][0] == s[i] && s[i..][1..] == s[i + 1..];
      SplitFromCount(s, i + 1);
    }
  }

  /** A path has one segment more than it has unescaped dots; the empty path is one empty segment. */
  lemma SegmentCount(s: string)
    ensures |Segments(s)| == 1 + SeparatorsFrom(s, 0)
    ensures s == "" ==> Segments(s) == [""]
  {
    SplitFromCount(s, 0);
    assert s[0..] == s;
  }

  /** The segments joined back together with dots. */
  function Join(segs: seq<string>): string
    requires |segs| > 0
  {
    if |segs| == 1 then segs[0] else segs[0] + "." + Join(segs[1..])
  }

  /** The characters at index `i` or after it, less every backslash that is not itself escaped. */
  function KeptFrom(s: string, i: nat): string
    requires i <= |s|
    decreases |s| - i
  {
    if i == |s| then ""
    else (if s[i] == '\\' && !Escaped(s, i) then "" else [s[i]]) + KeptFrom(s, i + 1)
  }

  lemma {:induction false} JoinPrepend(p: string, segs: seq<string>)
    requires |segs| > 0
    ensures Join(PrependHead(p, segs)) == p + Join(segs)
  {
    var t := PrependHead(p, segs);
    if |segs| > 1 {
      assert t[1..] == segs[1..];
    }
  }

  lemma {:induction false} JoinSplitFrom(s: string, i: nat)
    requires i <= |s|
    ensures Join(SplitFrom(s[i..], Escaped(s, i))) == KeptFrom(s, i)
    decreases |s| - i
  {
    if i < |s| {
      var c := s[i];
      var rest := s[i + 1..];
      assert s[i..] == [c] + rest;
      assert s[i..][0] == c && s[i..][1..] == rest;
      JoinSplitFrom(s, i + 1);
      var tail := SplitFrom(rest, false);
      if Escaped(s, i) || (c != '\\' && c != '.') {
        assert !Escaped(s, i + 1);
        JoinPrepend([c], tail);
      } else if c == '\\' {
        assert Escaped(s, i + 1);
      } else {
        assert !Escaped(s, i + 1);
        var segs := [""] + tail;
        assert segs[1..] == tail;
        assert Join(segs) == "" + "." + Join(tail);
        assert "" + "." + Join(tail) == [c] + KeptFrom(s, i + 1);
      }
    }
  }

  /**
   * Joining the segments with dots gives the path with every unescaped
   * backslash dropped: each escaped character, and each dot, escaped or not,
   * is kept literally, and the segments hold nothing else.
   */
  lemma SegmentsJoin(s: string)
    ensures Join(Segments(s)) == KeptFrom(s, 0)
  {
    JoinSplitFrom(s, 0);
    assert s[0..] == s;
  }

  /** escape: every dot of a key becomes backslash-dot; nothing else changes. */
  function Escape(k: string): string
  {
    if k == [] then []
    else (if k[0] == '.' then "\\." else [k[0]]) + Escape(k[1..])
  }

  /** One step of the scan: what the first character does. */
  lemma SplitCons(c: char, rest: string, esc: bool)
    ensures SplitFrom([c] + rest, esc) ==
      if esc || (c != '\\' && c != '.') then PrependHead([c], SplitFrom(rest, false))
      else if c == '\\' then SplitFrom(rest, true)
      else [""] + SplitFrom(rest, false)
  {
    assert ([c] + rest)[0] == c && ([c] + rest)[1..] == rest;
  }

  /** Escaping one character in front of `rest`, then scanning, keeps that character in the head. */
  lemma SplitEscapedChar(c: char, rest: string)
    requires c != '\\'
    ensures SplitFrom((if c == '.' then "\\." else [c]) + rest, false) == PrependHead([c], SplitFrom(rest, false))
  {
    if c == '.' {
      assert "\\." + rest == ['\\'] + (['.'] + rest);
      SplitCons('\\', ['.'] + rest, false);
      SplitCons('.', rest, true);
    } else {
      SplitCons(c, rest, false);
    }
  }

  lemma {:induction false} SplitEscaped(k: string, t: string)
    requires '\\' !in k
    ensures SplitFrom(Escape(k) + t, false) == PrependHead(k, SplitFrom(t, false))
    decreases |k|
  {
    if k == [] {
      assert Escape(k) + t == t;
      PrependHeadEmpty(SplitFrom(t, false));
    } else {
      SplitEscaped(k[1..], t);
      var head := if k[0] == '.' then "\\." else [k[0]];
      var rest := Escape(k[1..]) + t;
      assert Escape(k) + t == head + rest;
      SplitEscapedChar(k[0], rest);
      PrependHeadTwice([k[0]], k[1..], SplitFrom(t, false));
      assert [k[0]] + k[1..] == k;
    }
  }

  /** Tokenizing an escaped key gives the key back, as long as the key has no backslash. */
  lemma EscapeRoundTrip(k: string)
    requires '\\' !in k
    ensures Segments(Escape(k)) == [k]
  {
    SplitEscaped(k, "");
    assert Escape(k) + "" == Escape(k);
    assert k + "" == k;
  }

  /** The flattener's name for the entry reached through `keys`: escaped keys joined by dots. */
  function EscapedPath(keys: seq<string>): string
    requires |keys| > 0
  {
    if |keys| == 1 then Escape(keys[0]) else Escape(keys[0]) + "." + EscapedPath(keys[1..])
  }

  /** A flattened key of a nested entry tokenizes back to the keys on its path. */
  lemma {:induction false} EscapedPathRoundTrip(keys: seq<string>)
    requires |keys| > 0
    requires forall i | 0 <= i < |keys| :: '\\' !in keys[i]
    ensures Segments(EscapedPath(keys)) == keys
  {
    if |keys| == 1 {
      EscapeRoundTrip(keys[0]);
    } else {
      EscapedPathRoundTrip(keys[1..]);
      var rest := EscapedPath(keys[1..]);
      assert Escape(keys[0]) + "." + rest == Escape(keys[0]) + (['.'] + rest);
      SplitEscaped(keys[0], ['.'] + rest);
      SplitCons('.', rest, false);
      assert PrependHead(keys[0], [""] + keys[1..]) == [keys[0] + ""] + keys[1..];
      assert keys[0] + "" == keys[0] && keys == [keys[0]] + keys[1..];
    }
  }

  /** escape does not escape backslashes, so a key holding one does not survive the round trip. */
  lemma BackslashBreaksRoundTrip()
    ensures Segments(Escape("a\\b")) == ["ab"]
  {
    assert Escape("a\\b") == "a\\b";
    SplitCons('b', "", true);
    assert ['b'] + "" == ['b'];
    assert SplitFrom(['b'], true) == ["b"];
    SplitCons('\\', ['b'], false);
    assert SplitFrom(['\\'] + ['b'], false) == ["b"];
    SplitCons('a', ['\\'] + ['b'], false);
    assert "a\\b" == ['a'] + (['\\'] + ['b']);
    assert ['a'] + "b" == "ab";
    assert PrependHead(['a'], ["b"]) == ["ab"];
  }

  /** An escaped dot stays inside its segment; an unescaped one separates segments. */
  lemma EscapedDotExample()
    ensures Segments("a\\.b.c") == ["a.b", "c"]
  {
    EscapedPathRoundTrip(["a.b", "c"]);
    assert Escape("a.b") == "a\\.b";
    assert Escape("c") == "c";
    assert EscapedPath(["a.b", "c"]) == "a\\.b.c";
  }
}
