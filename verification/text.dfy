/** The handful of Python `str` operations the scripts use, on `seq<char>`. */
module Text {

  /** Python's `str.isspace()` characters: the ones `strip()` removes. */
  const Whitespace: set<char> :=
    { ' ', '\t', '\n', '\r', '\U{b}', '\U{c}', '\U{1c}', '\U{1d}', '\U{1e}', '\U{1f}',
      '\U{85}', '\U{a0}', '\U{1680}', '\U{2000}', '\U{2001}', '\U{2002}', '\U{2003}',
      '\U{2004}', '\U{2005}', '\U{2006}', '\U{2007}', '\U{2008}', '\U{2009}', '\U{200a}',
      '\U{2028}', '\U{2029}', '\U{202f}', '\U{205f}', '\U{3000}' }

  predicate IsSpace(c: char)
  {
    c in Whitespace
  }

  /** `s.startswith(p)` */
  predicate StartsWith(s: string, p: string)
  {
    |p| <= |s| && s[..|p|] == p
  }

  /** `p` occurs in `s` starting at position `i`. */
  predicate OccursAt(s: string, p: string, i: int)
  {
    0 <= i <= |s| - |p| && s[i..i + |p|] == p
  }

  /** `p in s` for strings: `p` occurs somewhere in `s` as a contiguous piece. */
  predicate Contains(s: string, p: string)
  {
    exists i :: 0 <= i <= |s| && OccursAt(s, p, i)
  }

  /** Number of whitespace characters at the start of `s`. */
  function Indent(s: string): (n: nat)
    ensures n <= |s|
    ensures forall k :: 0 <= k < n ==> IsSpace(s[k])
    ensures n == |s| || !IsSpace(s[n])
    decreases |s|
  {
    if |s| > 0 && IsSpace(s[0]) then 1 + Indent(s[1..]) else 0
  }

  /** Number of whitespace characters at the end of `s`. */
  function Trailing(s: string): (n: nat)
    ensures n <= |s|
    ensures forall k :: |s| - n <= k < |s| ==> IsSpace(s[k])
    ensures n == |s| || !IsSpace(s[|s| - n - 1])
    decreases |s|
  {
    if |s| > 0 && IsSpace(s[|s| - 1]) then 1 + Trailing(s[..|s| - 1]) else 0
  }

  /** `s.strip()`: what is left of `s` once its leading and its trailing
      whitespace are cut off; empty exactly when `s` is all whitespace. */
  function Strip(s: string): (r: string)
    ensures |r| <= |s|
    ensures r == [] || (!IsSpace(r[0]) && !IsSpace(r[|r| - 1]))
    ensures r == [] <==> Indent(s) == |s|
    ensures r != [] ==> Indent(s) + |r| + Trailing(s) == |s| && r == s[Indent(s)..Indent(s) + |r|]
  {
    if Indent(s) == |s| then []
    else
      assert Trailing(s) < |s| - Indent(s);
      s[Indent(s)..|s| - Trailing(s)]
  }

  /** Stripping keeps a prefix that starts and ends with non-whitespace. */
  lemma StripKeepsHead(s: string, p: string)
    requires StartsWith(s, p) && p != []
    requires !IsSpace(p[0]) && !IsSpace(p[|p| - 1])
    ensures StartsWith(Strip(s), p)
  {
    assert s[0] == p[0] && Indent(s) == 0;
    assert s[|p| - 1] == p[|p| - 1] && !IsSpace(s[|p| - 1]);
    var t := Trailing(s);
    assert t <= |s| - |p|;
    var r := Strip(s);
    assert r != [];
    assert r == s[0..|r|] && |r| == |s| - t;
    assert r[..|p|] == s[..|p|];
  }

  /** A string that neither starts nor ends with whitespace is its own strip. */
  lemma StripNoop(s: string)
    requires s == [] || (!IsSpace(s[0]) && !IsSpace(s[|s| - 1]))
    ensures Strip(s) == s
  {
    if s != [] {
      assert Indent(s) == 0;
      assert Trailing(s) == 0;
    }
  }

  /** Trailing whitespace after a non-whitespace end is all that is counted. */
  lemma {:induction false} TrailingOfPadded(s: string, w: string)
    requires s != [] && !IsSpace(s[|s| - 1])
    requires forall k :: 0 <= k < |w| ==> IsSpace(w[k])
    ensures Trailing(s + w) == |w|
    decreases |w|
  {
    if w == [] {
      assert s + w == s;
    } else {
      var w' := w[..|w| - 1];
      assert (s + w)[..|s + w| - 1] == s + w';
      assert (s + w)[|s + w| - 1] == w[|w| - 1];
      TrailingOfPadded(s, w');
    }
  }

  /** Whitespace appended to a string that is its own strip is stripped off
      again: `(s + w).strip() == s`. */
  lemma StripPadded(s: string, w: string)
    requires s != [] && !IsSpace(s[0]) && !IsSpace(s[|s| - 1])
    requires forall k :: 0 <= k < |w| ==> IsSpace(w[k])
    ensures Strip(s + w) == s
  {
    assert (s + w)[0] == s[0];
    assert Indent(s + w) == 0;
    TrailingOfPadded(s, w);
    assert (s + w)[0..|s|] == s;
  }

  /** Appending to a string that does not start with whitespace throughout
      keeps its leading whitespace count. */
  lemma {:induction false} IndentAppend(s: string, t: string)
    requires Indent(s) < |s|
    ensures Indent(s + t) == Indent(s)
    decreases |s|
  {
    assert (s + t)[0] == s[0];
    if IsSpace(s[0]) {
      assert (s + t)[1..] == s[1..] + t;
      IndentAppend(s[1..], t);
    }
  }

  /** Trailing whitespace makes no difference to the strip. */
  lemma StripTrailingSpace(s: string, w: string)
    requires forall k :: 0 <= k < |w| ==> IsSpace(w[k])
    requires s == [] || !IsSpace(s[|s| - 1])
    ensures Strip(s + w) == Strip(s)
  {
    if s == [] {
      assert s + w == w;
      AllSpaceIndent(w);
    } else {
      StripPaddedTail(s, w);
    }
  }

  /** A string of whitespace is all indentation. */
  lemma {:induction false} AllSpaceIndent(w: string)
    requires forall k :: 0 <= k < |w| ==> IsSpace(w[k])
    ensures Indent(w) == |w|
    decreases |w|
  {
    if |w| > 0 {
      assert forall k :: 0 <= k < |w[1..]| ==> w[1..][k] == w[k + 1];
      AllSpaceIndent(w[1..]);
    }
  }

  /** The non-empty case of `StripTrailingSpace`. */
  lemma StripPaddedTail(s: string, w: string)
    requires forall k :: 0 <= k < |w| ==> IsSpace(w[k])
    requires s != [] && !IsSpace(s[|s| - 1])
    ensures Strip(s + w) == Strip(s)
  {
    var i := Indent(s);
    assert i < |s|;
    IndentAppend(s, w);
    TrailingOfPadded(s, w);
    assert Trailing(s) == 0;
    assert Strip(s) == s[i..|s|];
    assert Strip(s + w) == (s + w)[i..|s|];
    assert (s + w)[i..|s|] == s[i..|s|];
  }

  /** Any string is a part ending in non-whitespace (or empty) followed by
      whitespace, and only the first part matters to the strip. */
  lemma TrimTrailing(h: string) returns (h0: string, w: string)
    ensures h == h0 + w
    ensures forall k :: 0 <= k < |w| ==> IsSpace(w[k])
    ensures h0 == [] || !IsSpace(h0[|h0| - 1])
    ensures Strip(h0) == Strip(h)
  {
    var n := Trailing(h);
    h0, w := h[..|h| - n], h[|h| - n..];
    assert h == h0 + w;
    assert forall k :: 0 <= k < |w| ==> IsSpace(w[k]) by {
      assert forall k :: 0 <= k < |w| ==> w[k] == h[|h| - n + k];
    }
    assert h0 == [] || !IsSpace(h0[|h0| - 1]) by {
      assert h0 == [] || h0[|h0| - 1] == h[|h| - n - 1];
    }
    StripTrailingSpace(h0, w);
  }

  /** ASCII upper-casing of one character. */
  function UpperChar(c: char): char
  {
    if 'a' <= c <= 'z' then (c as int - 32) as char else c
  }

  /** ASCII lower-casing of one character. */
  function LowerChar(c: char): char
  {
    if 'A' <= c <= 'Z' then (c as int + 32) as char else c
  }

  /** `s.upper()`, restricted to ASCII letters: every lower-case letter
      becomes its capital, every other character stays, and no lower-case
      letter is left. */
  function Upper(s: string): (r: string)
    ensures |r| == |s|
    ensures forall i :: 0 <= i < |s| ==> r[i] == s[i] || ('a' <= s[i] <= 'z' && r[i] as int == s[i] as int - 32)
    ensures forall i :: 0 <= i < |r| ==> !('a' <= r[i] <= 'z')
  {
    seq(|s|, i requires 0 <= i < |s| => UpperChar(s[i]))
  }

  /** `s.lower()`, restricted to ASCII letters: every capital becomes its
      lower-case letter, every other character stays, and no capital is left. */
  function Lower(s: string): (r: string)
    ensures |r| == |s|
    ensures forall i :: 0 <= i < |s| ==> r[i] == s[i] || ('A' <= s[i] <= 'Z' && r[i] as int == s[i] as int + 32)
    ensures forall i :: 0 <= i < |r| ==> !('A' <= r[i] <= 'Z')
  {
    seq(|s|, i requires 0 <= i < |s| => LowerChar(s[i]))
  }

  /** Position of the first occurrence of `c` in `s`. */
  function IndexOf(s: string, c: char): (k: nat)
    requires c in s
    ensures k < |s| && s[k] == c
    ensures c !in s[..k]
  {
    if s[0] == c then 0
    else
      var k' := IndexOf(s[1..], c);
      assert s[..k' + 1] == [s[0]] + s[1..][..k'];
      k' + 1
  }

  /** The first position holding `c` is the one `IndexOf` finds. */
  lemma IndexOfFirst(s: string, c: char, i: nat)
    requires i < |s| && s[i] == c
    requires forall j :: 0 <= j < i ==> s[j] != c
    ensures c in s && IndexOf(s, c) == i
  {
    if i > 0 {
      IndexOfFirst(s[1..], c, i - 1);
    }
  }

  /** The pieces of a `split(sep)` glued back together with `sep`. */
  function Join(parts: seq<string>, sep: char): string
    requires |parts| > 0
  {
    if |parts| == 1 then parts[0] else parts[0] + [sep] + Join(parts[1..], sep)
  }

  /** `s.split(sep)` for a one-character separator: the pieces between
      separators, so there is always at least one piece (Python's
      `"".split("\n")` is `[""]`). */
  function Split(s: string, sep: char): (parts: seq<string>)
    ensures |parts| > 0
    ensures forall i :: 0 <= i < |parts| ==> sep !in parts[i]
    ensures Join(parts, sep) == s
    decreases |s|
  {
    if sep !in s then [s]
    else
      var k := IndexOf(s, sep);
      var rest := Split(s[k + 1..], sep);
      assert s == s[..k] + [sep] + s[k + 1..];
      [s[..k]] + rest
  }

  /** Splitting undoes joining: `Split` and `Join` are inverse on separator-free pieces. */
  lemma {:induction false} SplitJoin(parts: seq<string>, sep: char)
    requires |parts| > 0
    requires forall i :: 0 <= i < |parts| ==> sep !in parts[i]
    ensures Split(Join(parts, sep), sep) == parts
    decreases |parts|
  {
    if |parts| > 1 {
      var s := Join(parts, sep);
      var tail := Join(parts[1..], sep);
      assert s == parts[0] + [sep] + tail;
      assert s[|parts[0]|] == sep;
      assert sep in s;
      var k := IndexOf(s, sep);
      assert s[..|parts[0]|] == parts[0];
      assert s[k + 1..] == tail;
      SplitJoin(parts[1..], sep);
    }
  }

  /** `s.replace(pat, "")`: one left-to-right pass removing every
      non-overlapping occurrence of `pat`. Only characters of `s` remain,
      and an occurrence anywhere costs at least one pattern's length. */
  function RemoveAll(s: string, pat: string): (r: string)
    requires |pat| > 0
    ensures |r| <= |s|
    ensures multiset(r) <= multiset(s)
    ensures Contains(s, pat) ==> |r| + |pat| <= |s|
    decreases |s|
  {
    if StartsWith(s, pat) then
      assert s == s[..|pat|] + s[|pat|..];
      RemoveAll(s[|pat|..], pat)
    else if |s| == 0 then s
    else
      ContainsTail(s, pat);
      assert s == [s[0]] + s[1..];
      [s[0]] + RemoveAll(s[1..], pat)
  }

  /** Characters before the first occurrence are copied through unchanged:
      if no occurrence of `pat` in `u + t` starts inside `u`, the pass keeps
      `u` and carries on with `t`. */
  lemma {:induction false} RemoveAllKeepsPrefix(u: string, t: string, pat: string)
    requires |pat| > 0
    requires forall i :: 0 <= i < |u| ==> !OccursAt(u + t, pat, i)
    ensures RemoveAll(u + t, pat) == u + RemoveAll(t, pat)
    decreases |u|
  {
    if |u| == 0 {
      assert u + t == t;
    } else {
      var s := u + t;
      assert s[1..] == u[1..] + t;
      assert !OccursAt(s, pat, 0);
      RemoveAllSkipsHead(s, pat);
      NoOccurrenceInTail(u, t, pat);
      RemoveAllKeepsPrefix(u[1..], t, pat);
      assert [u[0]] + (u[1..] + RemoveAll(t, pat)) == u + RemoveAll(t, pat);
    }
  }

  /** A string that does not open with the pattern keeps its first character. */
  lemma RemoveAllSkipsHead(s: string, pat: string)
    requires |pat| > 0 && |s| > 0 && !OccursAt(s, pat, 0)
    ensures RemoveAll(s, pat) == [s[0]] + RemoveAll(s[1..], pat)
  {
    assert !StartsWith(s, pat);
  }

  /** Dropping the first character of the occurrence-free prefix keeps it occurrence-free. */
  lemma NoOccurrenceInTail(u: string, t: string, pat: string)
    requires |u| > 0
    requires forall i :: 0 <= i < |u| ==> !OccursAt(u + t, pat, i)
    ensures forall i :: 0 <= i < |u[1..]| ==> !OccursAt(u[1..] + t, pat, i)
  {
    var s := u + t;
    assert s[1..] == u[1..] + t;
    forall i | 0 <= i < |u[1..]|
      ensures !OccursAt(u[1..] + t, pat, i)
    {
      assert !OccursAt(s, pat, i + 1);
      if 0 <= i <= |s| - 1 - |pat| {
        assert s[1..][i..i + |pat|] == s[i + 1..i + 1 + |pat|];
      }
    }
  }

  /** Python's left-to-right `replace(pat, "")`: the first occurrence is
      removed, the text before it kept, and the pass resumes right after it. */
  lemma RemoveAllFirstOccurrence(u: string, v: string, pat: string)
    requires |pat| > 0
    requires forall i :: 0 <= i < |u| ==> !OccursAt(u + pat + v, pat, i)
    ensures RemoveAll(u + pat + v, pat) == u + RemoveAll(v, pat)
  {
    assert u + pat + v == u + (pat + v);
    RemoveAllKeepsPrefix(u, pat + v, pat);
    assert (pat + v)[..|pat|] == pat && (pat + v)[|pat|..] == v;
  }

  /** An occurrence that is not at the front is an occurrence in the tail. */
  lemma ContainsTail(s: string, p: string)
    requires |s| > 0 && !StartsWith(s, p)
    ensures Contains(s, p) ==> Contains(s[1..], p)
  {
    if Contains(s, p) {
      var i :| 0 <= i <= |s| && OccursAt(s, p, i);
      assert i != 0;
      assert s[1..][i - 1..i - 1 + |p|] == s[i..i + |p|];
      assert OccursAt(s[1..], p, i - 1);
    }
  }

  /** A string without any occurrence of the pattern is left unchanged by `RemoveAll`. */
  lemma {:induction false} RemoveAllAbsent(s: string, pat: string)
    requires |pat| > 0
    requires !Contains(s, pat)
    ensures RemoveAll(s, pat) == s
    decreases |s|
  {
    assert !OccursAt(s, pat, 0);
    if |s| > 0 {
      if Contains(s[1..], pat) {
        var i :| 0 <= i <= |s[1..]| && OccursAt(s[1..], pat, i);
        assert 0 <= i <= |s| - 1 - |pat|;
        assert OccursAt(s, pat, i + 1) by {
          assert s[i + 1..i + 1 + |pat|] == s[1..][i..i + |pat|];
        }
        assert false;
      }
      RemoveAllAbsent(s[1..], pat);
    }
  }

  /** An occurrence in a prefix is an occurrence in the whole string. */
  lemma ContainsWithin(s: string, w: string, p: string)
    ensures Contains(s, p) ==> Contains(s + w, p)
  {
    if Contains(s, p) {
      ContainsExtended([], s, w, p);
      assert [] + s + w == s + w;
    }
  }

  /** A substring occurrence survives extending the string on either side. */
  lemma ContainsExtended(u: string, t: string, v: string, p: string)
    requires Contains(t, p)
    ensures Contains(u + t + v, p)
  {
    var i :| 0 <= i <= |t| && OccursAt(t, p, i);
    assert 0 <= i <= |t| - |p|;
    var s := u + t + v;
    assert s[|u| + i..|u| + i + |p|] == t[i..i + |p|];
    assert OccursAt(s, p, |u| + i);
  }
}
