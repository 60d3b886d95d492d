/** The few Python `str` operations the bots rely on: whitespace as
    `str.isspace` and the regex class `\s` see it, `lower()`, `strip()`,
    `split(sep)`, and the way a text file opened in text mode is cut
    into lines. */
module Text {

  /** Python's whitespace characters (`str.isspace`, `\s` in a `str`
      pattern, and the characters `strip()` and `int()` remove). */
  predicate IsSpace(c: char) {
    var n := c as int;
    || (9 <= n <= 13) || (28 <= n <= 32) || n == 0x85 || n == 0xA0
    || n == 0x1680 || (0x2000 <= n <= 0x200A) || n == 0x2028 || n == 0x2029
    || n == 0x202F || n == 0x205F || n == 0x3000
  }

  predicate NoSpace(s: string) {
    forall i :: 0 <= i < |s| ==> !IsSpace(s[i])
  }

  predicate StartsWith(s: string, prefix: string) {
    |prefix| <= |s| && s[..|prefix|] == prefix
  }

  /** Neither a tab nor a line break: a field that a line-oriented store
      can hold without changing how the file is cut. */
  predicate FieldSafe(s: string) {
    '\t' !in s && '\n' !in s && '\r' !in s
  }

  // ---------------------------------------------------------------------------
  // lower()
  // ---------------------------------------------------------------------------

  function LowerChar(c: char): char {
    if 'A' <= c <= 'Z' then (c as int + 32) as char else c
  }

  /** `s.lower()`, restricted to the ASCII letters. */
  function Lower(s: string): (r: string)
    ensures |r| == |s|
    ensures forall i :: 0 <= i < |s| ==> r[i] == LowerChar(s[i])
  {
    seq(|s|, i requires 0 <= i < |s| => LowerChar(s[i]))
  }

  lemma LowerIdempotent(s: string)
    ensures Lower(Lower(s)) == Lower(s)
  {
  }

  lemma LowerOfLowerCase(s: string)
    requires forall i :: 0 <= i < |s| ==> !('A' <= s[i] <= 'Z')
    ensures Lower(s) == s
  {
  }

  // ---------------------------------------------------------------------------
  // strip()
  // ---------------------------------------------------------------------------

  /** `s.lstrip()`: the longest suffix of `s` that does not start with whitespace. */
  function LStrip(s: string): (r: string)
    ensures |r| <= |s| && r == s[|s| - |r|..]
    ensures forall i :: 0 <= i < |s| - |r| ==> IsSpace(s[i])
    ensures r == [] || !IsSpace(r[0])
    decreases |s|
  {
    if |s| > 0 && IsSpace(s[0]) then LStrip(s[1..]) else s
  }

  /** `s.rstrip()`: the longest prefix of `s` that does not end with whitespace. */
  function RStrip(s: string): (r: string)
    ensures |r| <= |s| && r == s[..|r|]
    ensures forall i :: |r| <= i < |s| ==> IsSpace(s[i])
    ensures r == [] || !IsSpace(r[|r| - 1])
    decreases |s|
  {
    if |s| > 0 && IsSpace(s[|s| - 1]) then RStrip(s[..|s| - 1]) else s
  }

  /** A string counts as stripped when it has no whitespace at either end. */
  predicate Stripped(s: string) {
    s == [] || (!IsSpace(s[0]) && !IsSpace(s[|s| - 1]))
  }

  /** `s.strip()`: `s` without its leading and trailing whitespace. */
  function Strip(s: string): (r: string)
    ensures Stripped(r) && |r| <= |s|
    ensures NoSpace(s) ==> r == s
  {
    RStrip(LStrip(s))
  }

  /** `r` is `s` with `i` characters of whitespace cut from its front and
      only whitespace cut from its back. */
  ghost predicate TrimmedTo(s: string, i: nat, r: string) {
    && i + |r| <= |s|
    && r == s[i..i + |r|]
    && (forall k :: 0 <= k < i ==> IsSpace(s[k]))
    && (forall k :: i + |r| <= k < |s| ==> IsSpace(s[k]))
  }

  /** `strip()` removes whitespace at the two ends and nothing else: the
      result is the slice of `s` between its run of leading whitespace and
      a run of trailing whitespace. */
  lemma StripMeaning(s: string)
    ensures TrimmedTo(s, |s| - |LStrip(s)|, Strip(s))
  {
    var l := LStrip(s);
    var i := |s| - |l|;
    var r := RStrip(l);
    assert l == s[i..] && forall k :: 0 <= k < i ==> IsSpace(s[k]);
    assert |r| <= |l| && r == l[..|r|] && forall k :: |r| <= k < |l| ==> IsSpace(l[k]);
    TrimOfParts(s, l, r, i);
    assert Strip(s) == r;
  }

  lemma TrimOfParts(s: string, l: string, r: string, i: nat)
    requires i <= |s| && l == s[i..]
    requires forall k :: 0 <= k < i ==> IsSpace(s[k])
    requires |r| <= |l| && r == l[..|r|]
    requires forall k :: |r| <= k < |l| ==> IsSpace(l[k])
    ensures TrimmedTo(s, i, r)
  {
    assert r == s[i..i + |r|];
    forall k | i + |r| <= k < |s|
      ensures IsSpace(s[k])
    {
      assert s[k] == l[k - i];
    }
  }

  lemma StripOfStripped(s: string)
    requires Stripped(s)
    ensures Strip(s) == s
  {
    assert LStrip(s) == s;
    assert RStrip(s) == s;
  }

  /** Stripping a stripped string with trailing whitespace added gives it back:
      this is what reading a written line and calling `strip()` on it relies on. */
  lemma {:induction false} StripTrailing(s: string, tail: string)
    requires Stripped(s) && s != []
    requires forall i :: 0 <= i < |tail| ==> IsSpace(tail[i])
    ensures Strip(s + tail) == s
    decreases |tail|
  {
    assert LStrip(s + tail) == s + tail;
    RStripTrailing(s, tail);
  }

  lemma {:induction false} RStripTrailing(s: string, tail: string)
    requires s == [] || !IsSpace(s[|s| - 1])
    requires forall i :: 0 <= i < |tail| ==> IsSpace(tail[i])
    ensures RStrip(s + tail) == s
    decreases |tail|
  {
    if tail == [] {
      assert s + tail == s;
    } else {
      var shorter := tail[..|tail| - 1];
      assert (s + tail)[..|s + tail| - 1] == s + shorter;
      RStripTrailing(s, shorter);
    }
  }

  lemma StripIsStripped(s: string)
    ensures Stripped(Strip(s))
    ensures Strip(Strip(s)) == Strip(s)
  {
    StripOfStripped(Strip(s));
  }

  // ---------------------------------------------------------------------------
  // split(sep)
  // ---------------------------------------------------------------------------

  /** `sep.join(parts)`. */
  function Join(parts: seq<string>, sep: char): string
    requires |parts| >= 1
    decreases |parts|
  {
    if |parts| == 1 then parts[0] else parts[0] + [sep] + Join(parts[1..], sep)
  }

  /** `s.split(sep)` with an explicit one-character separator: the pieces
      between separators, always at least one. */
  function Split(s: string, sep: char): (parts: seq<string>)
    ensures |parts| >= 1
    ensures forall i :: 0 <= i < |parts| ==> sep !in parts[i]
    ensures Join(parts, sep) == s
    decreases |s|
  {
    if |s| == 0 then [""]
    else
      var rest := Split(s[1..], sep);
      if s[0] == sep then
        [""] + rest
      else
        [[s[0]] + rest[0]] + rest[1..]
  }

  /** The pieces `Split` returns are the only ones without the separator that
      join back to the input. */
  lemma {:induction false} SplitJoin(parts: seq<string>, sep: char)
    requires |parts| >= 1
    requires forall i :: 0 <= i < |parts| ==> sep !in parts[i]
    ensures Split(Join(parts, sep), sep) == parts
    decreases |parts|
  {
    if |parts| == 1 {
      SplitNoSep(parts[0], sep);
    } else {
      SplitJoin(parts[1..], sep);
      SplitCons(parts[0], Join(parts[1..], sep), sep);
    }
  }

  lemma {:induction false} SplitNoSep(s: string, sep: char)
    requires sep !in s
    ensures Split(s, sep) == [s]
    decreases |s|
  {
    if |s| > 0 {
      SplitNoSep(s[1..], sep);
      assert [s[0]] + s[1..] == s;
    }
  }

  lemma {:induction false} SplitCons(a: string, b: string, sep: char)
    requires sep !in a
    ensures Split(a + [sep] + b, sep) == [a] + Split(b, sep)
    decreases |a|
  {
    if |a| == 0 {
      assert a + [sep] + b == [sep] + b;
      assert ([sep] + b)[1..] == b;
    } else {
      var s := a + [sep] + b;
      assert s[1..] == a[1..] + [sep] + b;
      SplitCons(a[1..], b, sep);
      assert [a[0]] + a[1..] == a;
    }
  }

  // ---------------------------------------------------------------------------
  // Text files
  // ---------------------------------------------------------------------------

  /** Universal-newline translation done by `open(name, "r")`: "\r\n" and a
      lone "\r" both read as "\n". */
  function Newlines(t: string): (r: string)
    ensures '\r' !in r
    decreases |t|
  {
    if |t| == 0 then ""
    else if t[0] == '\r' then
      if |t| > 1 && t[1] == '\n' then "\n" + Newlines(t[2..]) else "\n" + Newlines(t[1..])
    else [t[0]] + Newlines(t[1..])
  }

  lemma {:induction false} NewlinesNoCR(t: string)
    requires '\r' !in t
    ensures Newlines(t) == t
    decreases |t|
  {
    if |t| > 0 {
      NewlinesNoCR(t[1..]);
      assert [t[0]] + t[1..] == t;
    }
  }

  /** The position of the first line feed. */
  function LineEnd(t: string): (i: nat)
    requires '\n' in t
    ensures i < |t| && t[i] == '\n' && '\n' !in t[..i]
  {
    if t[0] == '\n' then 0
    else
      var j := LineEnd(t[1..]);
      assert t[1..][..j] == t[1..j + 1];
      j + 1
  }

  /** The lines of a file put back together. */
  function Concat(ls: seq<string>): string
    decreases |ls|
  {
    if ls == [] then "" else ls[0] + Concat(ls[1..])
  }

  /** The lines `for line in f` yields: each keeps its "\n", the last one
      may lack it, and there is no line after a final "\n". */
  function Lines(t: string): (ls: seq<string>)
    ensures forall i :: 0 <= i < |ls| ==> ls[i] != []
    ensures forall i :: 0 <= i < |ls| - 1 ==> ls[i][|ls[i]| - 1] == '\n'
    ensures forall i :: 0 <= i < |ls| ==> '\n' !in ls[i][..|ls[i]| - 1]
    decreases |t|
  {
    if |t| == 0 then []
    else if '\n' in t then
      var i := LineEnd(t);
      [t[..i + 1]] + Lines(t[i + 1..])
    else [t]
  }

  /** Iterating over a file loses nothing: its lines, put back together,
      are the whole text. */
  lemma {:induction false} LinesConcat(t: string)
    ensures Concat(Lines(t)) == t
    decreases |t|
  {
    if |t| > 0 {
      if '\n' in t {
        var i := LineEnd(t);
        var ls := Lines(t);
        LinesConcat(t[i + 1..]);
        assert ls[1..] == Lines(t[i + 1..]);
        assert t[..i + 1] + t[i + 1..] == t;
      } else {
        assert Lines(t)[1..] == [];
      }
    }
  }

  /** The lines of a file whose text is one line followed by more text. */
  lemma LinesCons(line: string, rest: string)
    requires '\n' !in line
    ensures Lines(line + "\n" + rest) == [line + "\n"] + Lines(rest)
  {
    var t := line + "\n" + rest;
    assert t[|line|] == '\n';
    assert t[..|line|] == line;
    assert LineEnd(t) == |line|;
    assert t[..|line| + 1] == line + "\n";
    assert t[|line| + 1..] == rest;
  }

  /** No string occurs twice. */
  predicate Unique(ids: seq<string>) {
    forall i, j :: 0 <= i < j < |ids| ==> ids[i] != ids[j]
  }
}
