/**
  The parts of Python's `str` type that the orchestration engine and its
  readers rely on: `strip`, `find`, `rfind`, `count`, `replace`, `split`,
  `startswith` and (ASCII) `lower`, over strings as sequences of characters.
 */
module Text {

  /** Python's `str.isspace` for a single character. */
  predicate IsSpace(c: char) {
    c == ' ' || ('\t' <= c <= '\r') || ('\U{1C}' <= c <= '\U{1F}') ||
    c == '\U{85}' || c == '\U{A0}' || c == '\U{1680}' || ('\U{2000}' <= c <= '\U{200A}') ||
    c == '\U{2028}' || c == '\U{2029}' || c == '\U{202F}' || c == '\U{205F}' || c == '\U{3000}'
  }

  predicate StartsWith(s: string, prefix: string) {
    |prefix| <= |s| && s[..|prefix|] == prefix
  }

  /** `r` is `s` with the whitespace before position `i` and after `r` cut off. */
  predicate TrimmedAt(s: string, r: string, i: nat) {
    i + |r| <= |s| && r == s[i..i + |r|] &&
    (forall k :: 0 <= k < i ==> IsSpace(s[k])) &&
    (forall k :: i + |r| <= k < |s| ==> IsSpace(s[k]))
  }

  /** `s.strip()`: the result neither starts nor ends with whitespace. */
  function Strip(s: string): (r: string)
    ensures |r| <= |s|
    ensures r == [] || (!IsSpace(r[0]) && !IsSpace(r[|r| - 1]))
  {
    if s == [] then s
    else if IsSpace(s[0]) then Strip(s[1..])
    else if IsSpace(s[|s| - 1]) then Strip(s[..|s| - 1])
    else s
  }

  /** A slice trimmed out of `s[1..]` is trimmed out of `s` when `s` starts with whitespace. */
  lemma TrimmedAtFront(s: string, r: string, i: nat)
    requires s != [] && IsSpace(s[0]) && TrimmedAt(s[1..], r, i)
    ensures TrimmedAt(s, r, i + 1)
  {
    var t := s[1..];
    assert r == s[i + 1..i + 1 + |r|];
    assert forall k :: 0 < k < i + 1 ==> s[k] == t[k - 1];
    assert forall k :: i + 1 + |r| <= k < |s| ==> s[k] == t[k - 1];
  }

  /** A slice trimmed out of `s` without its last character is trimmed out of `s` when that is whitespace. */
  lemma TrimmedAtBack(s: string, r: string, i: nat)
    requires s != [] && IsSpace(s[|s| - 1]) && TrimmedAt(s[..|s| - 1], r, i)
    ensures TrimmedAt(s, r, i)
  {
    var t := s[..|s| - 1];
    assert r == s[i..i + |r|];
    assert forall k :: 0 <= k < |t| ==> s[k] == t[k];
  }

  /**
    `strip` cuts whitespace only: its result is a contiguous slice of `s`
    and everything before and after that slice is whitespace.
   */
  lemma {:induction false} StripTrims(s: string)
    ensures exists i: nat :: TrimmedAt(s, Strip(s), i)
  {
    var r := Strip(s);
    if s == [] {
      assert TrimmedAt(s, r, 0);
    } else if IsSpace(s[0]) {
      StripTrims(s[1..]);
      var i: nat :| TrimmedAt(s[1..], r, i);
      TrimmedAtFront(s, r, i);
    } else if IsSpace(s[|s| - 1]) {
      StripTrims(s[..|s| - 1]);
      var i: nat :| TrimmedAt(s[..|s| - 1], r, i);
      TrimmedAtBack(s, r, i);
    } else {
      assert s[0..|s|] == s;
      assert TrimmedAt(s, r, 0);
    }
  }

  /** A string with no whitespace at either end is left alone by `strip`. */
  lemma StripNoOp(s: string)
    requires s == [] || (!IsSpace(s[0]) && !IsSpace(s[|s| - 1]))
    ensures Strip(s) == s
  {
  }

  /**
    After leading whitespace, a text that starts and ends with non-space
    characters survives `strip` at the front of the result.
   */
  lemma StripKeepsCore(lead: string, core: string, rest: string)
    requires forall k :: 0 <= k < |lead| ==> IsSpace(lead[k])
    requires core != [] && !IsSpace(core[0]) && !IsSpace(core[|core| - 1])
    ensures StartsWith(Strip(lead + core + rest), core)
  {
    var t := lead + core + rest;
    var r := Strip(t);
    StripTrims(t);
    var i: nat :| TrimmedAt(t, r, i);
    assert t[|lead|] == core[0];
    assert t[|lead| + |core| - 1] == core[|core| - 1];
    assert i == |lead|;
    assert i + |r| >= |lead| + |core|;
    assert r[..|core|] == t[|lead|..|lead| + |core|] == core;
  }

  /** `strip` only removes characters, so it adds no character. */
  lemma StripKeepsAbsent(s: string, c: char)
    requires c !in s
    ensures c !in Strip(s)
  {
    var r := Strip(s);
    StripTrims(s);
    var i: nat :| TrimmedAt(s, r, i);
    assert forall k :: 0 <= k < |r| ==> r[k] == s[i + k];
  }

  /** `s.find(c)`: the index of the first `c`, or -1. */
  function Find(s: string, c: char): (r: int)
    ensures -1 <= r < |s|
    ensures r == -1 <==> c !in s
    ensures 0 <= r ==> s[r] == c && forall k :: 0 <= k < r ==> s[k] != c
  {
    if s == [] then -1
    else if s[0] == c then 0
    else
      var k := Find(s[1..], c);
      if k < 0 then -1 else k + 1
  }

  /** `s.rfind(c)`: the index of the last `c`, or -1. */
  function RFind(s: string, c: char): (r: int)
    ensures -1 <= r < |s|
    ensures r == -1 <==> c !in s
    ensures 0 <= r ==> s[r] == c && forall k :: r < k < |s| ==> s[k] != c
  {
    if s == [] then -1
    else if s[|s| - 1] == c then |s| - 1
    else
      var k := RFind(s[..|s| - 1], c);
      assert c in s ==> c in s[..|s| - 1] by {
        if c in s {
          var j :| 0 <= j < |s| && s[j] == c;
          assert s[..|s| - 1][j] == c;
        }
      }
      k
  }

  /** `s.count(c)` for a one-character needle. */
  function Count(s: string, c: char): (n: nat)
    ensures n <= |s|
    ensures n == 0 <==> c !in s
  {
    if s == [] then 0 else (if s[0] == c then 1 else 0) + Count(s[1..], c)
  }

  lemma {:induction false} CountAppend(a: string, b: string, c: char)
    ensures Count(a + b, c) == Count(a, c) + Count(b, c)
  {
    if a == [] {
      assert a + b == b;
    } else {
      assert (a + b)[1..] == a[1..] + b;
      CountAppend(a[1..], b, c);
    }
  }

  /** `c * n` for a character `c`. */
  function Repeat(c: char, n: nat): (r: string)
    ensures |r| == n && forall i :: 0 <= i < n ==> r[i] == c
  {
    if n == 0 then [] else [c] + Repeat(c, n - 1)
  }

  lemma {:induction false} CountRepeat(c: char, d: char, n: nat)
    ensures Count(Repeat(c, n), d) == if c == d then n else 0
  {
    if n > 0 {
      assert Repeat(c, n)[1..] == Repeat(c, n - 1);
      CountRepeat(c, d, n - 1);
    }
  }

  /** `pattern` occurs somewhere in `s`. */
  predicate Occurs(s: string, pattern: string) {
    exists i :: 0 <= i <= |s| - |pattern| && StartsWith(s[i..], pattern)
  }

  /**
    `s.replace(pattern, repl)`: scans left to right and replaces every
    non-overlapping occurrence of a non-empty `pattern`.
   */
  function Replace(s: string, pattern: string, repl: string): string
    requires pattern != []
    decreases |s|
  {
    if |s| < |pattern| then s
    else if StartsWith(s, pattern) then repl + Replace(s[|pattern|..], pattern, repl)
    else [s[0]] + Replace(s[1..], pattern, repl)
  }

  /** Replacing a pattern that does not occur leaves the string unchanged. */
  lemma {:induction false} ReplaceAbsent(s: string, pattern: string, repl: string)
    requires pattern != [] && !Occurs(s, pattern)
    ensures Replace(s, pattern, repl) == s
  {
    if |s| >= |pattern| {
      assert s[0..] == s;
      forall i | 0 <= i <= |s[1..]| - |pattern|
        ensures !StartsWith(s[1..][i..], pattern)
      {
        assert s[1..][i..] == s[i + 1..];
      }
      ReplaceAbsent(s[1..], pattern, repl);
    }
  }

  /** Replacing a pattern by itself is the identity. */
  lemma {:induction false} ReplaceSelf(s: string, pattern: string)
    requires pattern != []
    ensures Replace(s, pattern, pattern) == s
  {
    if |s| >= |pattern| {
      if StartsWith(s, pattern) {
        ReplaceSelf(s[|pattern|..], pattern);
        assert s == pattern + s[|pattern|..];
      } else {
        ReplaceSelf(s[1..], pattern);
        assert s == [s[0]] + s[1..];
      }
    }
  }

  /** After replacing every `c` by a text without `c`, no `c` is left. */
  lemma {:induction false} ReplaceCharRemoves(s: string, c: char, repl: string)
    requires c !in repl
    ensures c !in Replace(s, [c], repl)
  {
    if |s| >= 1 {
      ReplaceCharRemoves(s[1..], c, repl);
      if !StartsWith(s, [c]) {
        assert s[0] != c;
      }
    }
  }

  /** A character absent from the input and from the replacement stays absent. */
  lemma {:induction false} ReplaceKeepsAbsent(s: string, pattern: string, repl: string, c: char)
    requires pattern != [] && c !in s && c !in repl
    ensures c !in Replace(s, pattern, repl)
    decreases |s|
  {
    if |s| >= |pattern| {
      if StartsWith(s, pattern) {
        ReplaceKeepsAbsent(s[|pattern|..], pattern, repl, c);
      } else {
        ReplaceKeepsAbsent(s[1..], pattern, repl, c);
      }
    }
  }

  /** A pattern holding a character the text lacks does not occur, so `replace` changes nothing. */
  lemma ReplaceMissingChar(s: string, pattern: string, repl: string, k: nat)
    requires pattern != [] && k < |pattern| && pattern[k] !in s
    ensures Replace(s, pattern, repl) == s
  {
    forall i | 0 <= i <= |s| - |pattern|
      ensures !StartsWith(s[i..], pattern)
    {
      assert s[i..][k] == s[i + k];
    }
    ReplaceAbsent(s, pattern, repl);
  }

  /** Where the pattern does not start, `replace` keeps the character and moves on. */
  lemma ReplaceSkip(c: char, t: string, pattern: string, repl: string)
    requires pattern != [] && !StartsWith([c] + t, pattern)
    ensures Replace([c] + t, pattern, repl) == [c] + Replace(t, pattern, repl)
  {
    var s := [c] + t;
    assert s[1..] == t;
  }

  /** Where the pattern starts, `replace` emits the replacement and resumes after the pattern. */
  lemma ReplaceHit(pattern: string, t: string, repl: string)
    requires pattern != []
    ensures Replace(pattern + t, pattern, repl) == repl + Replace(t, pattern, repl)
  {
    assert (pattern + t)[..|pattern|] == pattern;
    assert (pattern + t)[|pattern|..] == t;
  }

  /**
    `s.split(sep)` for a one-character separator: one piece more than there
    are separators, and no piece contains the separator.
   */
  function Split(s: string, sep: char): (r: seq<string>)
    ensures |r| == Count(s, sep) + 1
    ensures forall k :: 0 <= k < |r| ==> sep !in r[k]
  {
    if s == [] then [""]
    else
      var rest := Split(s[1..], sep);
      if s[0] == sep then [""] + rest
      else [[s[0]] + rest[0]] + rest[1..]
  }

  /** Joining the pieces of a split with the separator gives back the string. */
  lemma {:induction false} SplitJoin(s: string, sep: char)
    ensures Join(Split(s, sep), sep) == s
  {
    if s != [] {
      var rest := Split(s[1..], sep);
      SplitJoin(s[1..], sep);
      if s[0] != sep {
        var r := Split(s, sep);
        assert r[1..] == rest[1..];
        if |rest| == 1 {
          assert Join(r, sep) == [s[0]] + rest[0];
        } else {
          assert Join(r, sep) == [s[0]] + rest[0] + [sep] + Join(rest[1..], sep);
        }
      }
    }
  }

  /** A string without the separator splits into itself alone. */
  lemma {:induction false} SplitNoSeparator(s: string, sep: char)
    requires sep !in s
    ensures Split(s, sep) == [s]
  {
    if s != [] {
      SplitNoSeparator(s[1..], sep);
      assert [s[0]] + s[1..] == s;
    }
  }

  /** Splitting at the first separator: the text before it is the first piece. */
  lemma {:induction false} SplitFirst(a: string, sep: char, b: string)
    requires sep !in a
    ensures Split(a + [sep] + b, sep) == [a] + Split(b, sep)
  {
    if a == [] {
      assert a + [sep] + b == [sep] + b;
      assert ([sep] + b)[1..] == b;
    } else {
      var s := a + [sep] + b;
      assert s[1..] == a[1..] + [sep] + b;
      SplitFirst(a[1..], sep, b);
      assert [a[0]] + a[1..] == a;
    }
  }

  /** `sep.join(pieces)`. */
  function Join(pieces: seq<string>, sep: char): string {
    if pieces == [] then ""
    else if |pieces| == 1 then pieces[0]
    else pieces[0] + [sep] + Join(pieces[1..], sep)
  }

  /** `c.lower()` for ASCII letters; every other character is its own lower case here. */
  function LowerChar(c: char): char {
    if 'A' <= c <= 'Z' then (c as int + 32) as char else c
  }

  predicate IsAsciiUpper(c: char) {
    'A' <= c <= 'Z'
  }

  /**
    `s.lower()`, restricted to ASCII case mapping: no upper-case ASCII letter
    is left, and a character changes only when it was an upper-case ASCII
    letter, which becomes the lower-case letter 32 code points above it.
   */
  function Lower(s: string): (r: string)
    ensures |r| == |s|
    ensures forall i :: 0 <= i < |r| ==> !IsAsciiUpper(r[i])
    ensures forall i :: 0 <= i < |s| && r[i] != s[i] ==>
      IsAsciiUpper(s[i]) && r[i] as int == s[i] as int + 32
    ensures forall i :: 0 <= i < |s| && IsAsciiUpper(s[i]) ==> r[i] != s[i]
  {
    seq(|s|, i requires 0 <= i < |s| => LowerChar(s[i]))
  }

  /** Lower-casing twice is lower-casing once. */
  lemma LowerIdempotent(s: string)
    ensures Lower(Lower(s)) == Lower(s)
  {
    var r := Lower(s);
    assert forall i :: 0 <= i < |r| ==> Lower(r)[i] == r[i];
  }
}
