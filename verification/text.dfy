/** The few Python string operations the tracker relies on, over `seq<char>`:
    substring test (`in`), `lower()`, `split()`, `split(sep)`, `splitlines()`,
    `strip()` and `rstrip(ch)`. */
module Text {

  /** `sub` occurs in `s` starting at index `i`. */
  ghost predicate OccursAt(s: string, sub: string, i: int) {
    0 <= i && i + |sub| <= |s| && s[i..i + |sub|] == sub
  }

  /** Python's `sub in s`. */
  function Contains(s: string, sub: string): (b: bool)
    ensures b <==> exists i :: OccursAt(s, sub, i)
    decreases |s|
  {
    if |sub| > |s| then
      assert forall i :: !OccursAt(s, sub, i);
      false
    else if s[..|sub|] == sub then
      assert OccursAt(s, sub, 0);
      true
    else
      var b := Contains(s[1..], sub);
      assert forall i :: OccursAt(s[1..], sub, i) <==> OccursAt(s, sub, i + 1) by {
        forall i ensures OccursAt(s[1..], sub, i) <==> OccursAt(s, sub, i + 1) {
          if 0 <= i && i + |sub| <= |s| - 1 {
            assert s[1..][i..i + |sub|] == s[i + 1..i + 1 + |sub|];
          }
        }
      }
      assert !OccursAt(s, sub, 0);
      assert (exists i :: OccursAt(s, sub, i)) ==> exists i :: OccursAt(s[1..], sub, i) by {
        if exists i :: OccursAt(s, sub, i) {
          var i :| OccursAt(s, sub, i);
          assert i >= 1;
          assert OccursAt(s[1..], sub, i - 1);
        }
      }
      b
  }

  /** The empty string occurs everywhere, and a string occurs in itself. */
  lemma ContainsSelf(s: string)
    ensures Contains(s, "")
    ensures Contains(s, s)
  {
    assert OccursAt(s, "", 0);
    assert OccursAt(s, s, 0);
  }

  /** A string that occurs in `s` also occurs in any extension of `s`. */
  lemma ContainsExtend(a: string, s: string, b: string, sub: string)
    requires Contains(s, sub)
    ensures Contains(a + s + b, sub)
  {
    var i :| OccursAt(s, sub, i);
    assert (a + s + b)[|a| + i..|a| + i + |sub|] == s[i..i + |sub|];
    assert OccursAt(a + s + b, sub, |a| + i);
  }

  /** ASCII case folding of one character, the part of `str.lower()` that
      device names and driver paths use. */
  function LowerChar(c: char): char {
    if 'A' <= c <= 'Z' then (c as int + 32) as char else c
  }

  /** `s.lower()` restricted to ASCII letters. */
  function Lower(s: string): (r: string)
    ensures |r| == |s|
    ensures forall i :: 0 <= i < |s| ==> r[i] == LowerChar(s[i])
  {
    seq(|s|, i requires 0 <= i < |s| => LowerChar(s[i]))
  }

  /** Lower-casing twice is lower-casing once. */
  lemma LowerIdempotent(s: string)
    ensures Lower(Lower(s)) == Lower(s)
  {
  }

  /** The characters for which Python's `str.isspace()` holds; `str.split()`
      and `str.strip()` with no argument split or strip on exactly these. */
  predicate IsSpace(c: char) {
    ('\U{9}' <= c <= '\U{D}') || ('\U{1C}' <= c <= '\U{20}') || c == '\U{85}'
    || c == '\U{A0}' || c == '\U{1680}' || ('\U{2000}' <= c <= '\U{200A}')
    || c == '\U{2028}' || c == '\U{2029}' || c == '\U{202F}' || c == '\U{205F}'
    || c == '\U{3000}'
  }

  /** The characters at which Python's `str.splitlines()` breaks a line
      (a `\r` directly followed by `\n` counts as one break). */
  predicate IsLineBreak(c: char) {
    ('\U{A}' <= c <= '\U{D}') || ('\U{1C}' <= c <= '\U{1E}') || c == '\U{85}'
    || c == '\U{2028}' || c == '\U{2029}'
  }

  /** Index of the first character of `s` satisfying `p`, or `|s|` if none does. */
  function FirstWhere(s: string, p: char -> bool): (n: nat)
    ensures n <= |s|
    ensures forall j :: 0 <= j < n ==> !p(s[j])
    ensures n < |s| ==> p(s[n])
  {
    if s == [] then 0
    else if p(s[0]) then 0
    else 1 + FirstWhere(s[1..], p)
  }

  /** Concatenation of a list of strings. */
  function Concat(ss: seq<string>): string {
    if ss == [] then [] else ss[0] + Concat(ss[1..])
  }

  lemma ConcatAppend(a: seq<string>, b: seq<string>)
    ensures Concat(a + b) == Concat(a) + Concat(b)
  {
    if a == [] {
      assert a + b == b;
    } else {
      assert (a + b)[0] == a[0];
      assert (a + b)[1..] == a[1..] + b;
      ConcatAppend(a[1..], b);
      assert Concat(a + b) == a[0] + (Concat(a[1..]) + Concat(b));
    }
  }

  /** `s` with every character satisfying `p` removed. */
  function Without(s: string, p: char -> bool): (r: string)
    ensures |r| <= |s|
    ensures forall i :: 0 <= i < |r| ==> !p(r[i])
  {
    if s == [] then []
    else if p(s[0]) then Without(s[1..], p)
    else [s[0]] + Without(s[1..], p)
  }

  lemma WithoutAppend(a: string, b: string, p: char -> bool)
    ensures Without(a + b, p) == Without(a, p) + Without(b, p)
  {
    if a == [] {
      assert a + b == b;
    } else {
      assert (a + b)[0] == a[0];
      assert (a + b)[1..] == a[1..] + b;
      WithoutAppend(a[1..], b, p);
    }
  }

  /** A string none of whose characters satisfies `p` is left alone by `Without`. */
  lemma WithoutNone(s: string, p: char -> bool)
    requires forall i :: 0 <= i < |s| ==> !p(s[i])
    ensures Without(s, p) == s
  {
    if s != [] {
      WithoutNone(s[1..], p);
    }
  }

  /** Python's `s.split()`: the maximal runs of non-whitespace characters, in order. */
  function Fields(s: string): (r: seq<string>)
    ensures forall k :: 0 <= k < |r| ==> |r[k]| > 0
    ensures forall k, i :: 0 <= k < |r| && 0 <= i < |r[k]| ==> !IsSpace(r[k][i])
    decreases |s|
  {
    if s == [] then []
    else if IsSpace(s[0]) then Fields(s[1..])
    else
      var n := FirstWhere(s, IsSpace);
      [s[..n]] + Fields(s[n..])
  }

  /** The fields of `s` are exactly its non-whitespace characters, cut into pieces:
      nothing is dropped, duplicated or reordered. */
  lemma {:induction false} FieldsKeepText(s: string)
    ensures Concat(Fields(s)) == Without(s, IsSpace)
    decreases |s|
  {
    if s == [] {
    } else if IsSpace(s[0]) {
      FieldsKeepText(s[1..]);
    } else {
      var n := FirstWhere(s, IsSpace);
      FieldsKeepText(s[n..]);
      assert s == s[..n] + s[n..];
      WithoutAppend(s[..n], s[n..], IsSpace);
      WithoutNone(s[..n], IsSpace);
      assert Fields(s)[1..] == Fields(s[n..]);
    }
  }

  /** How many characters the line break at index `n` of `s` consumes:
      two for `\r\n`, otherwise one. */
  function BreakLength(s: string, n: nat): nat
    requires n < |s|
  {
    if s[n] == '\r' && n + 1 < |s| && s[n + 1] == '\n' then 2 else 1
  }

  /** Python's `s.splitlines()`: lines without their terminators; a final
      terminator does not open an empty last line. */
  function Lines(s: string): (r: seq<string>)
    ensures forall k, i :: 0 <= k < |r| && 0 <= i < |r[k]| ==> !IsLineBreak(r[k][i])
    ensures s == [] <==> r == []
    decreases |s|
  {
    if s == [] then []
    else
      var n := FirstWhere(s, IsLineBreak);
      if n == |s| then [s]
      else [s[..n]] + Lines(s[n + BreakLength(s, n)..])
  }

  lemma WithoutSplit(s: string, k: nat, p: char -> bool)
    requires k <= |s|
    ensures Without(s, p) == Without(s[..k], p) + Without(s[k..], p)
  {
    assert s == s[..k] + s[k..];
    WithoutAppend(s[..k], s[k..], p);
  }

  /** Removing line-break characters around the first break of `s`; stated
      for any set of break characters that includes `\n`. */
  lemma WithoutFirstBreak(s: string, n: nat, p: char -> bool)
    requires p('\n')
    requires n < |s| && n == FirstWhere(s, p)
    ensures Without(s, p) == s[..n] + Without(s[n + BreakLength(s, n)..], p)
  {
    BreakIsRemoved(s, n, p);
    WithoutDropRun(s, n, BreakLength(s, n), p);
  }

  /** Every character of the first break satisfies `p`. */
  lemma BreakIsRemoved(s: string, n: nat, p: char -> bool)
    requires p('\n')
    requires n < |s| && n == FirstWhere(s, p)
    ensures forall j :: n <= j < n + BreakLength(s, n) ==> p(s[j])
  {
    var m := BreakLength(s, n);
    assert p(s[n]);
    if m == 2 {
      assert s[n + 1] == '\n';
    }
    forall j | n <= j < n + m ensures p(s[j]) {
      if j != n {
        assert j == n + 1 && m == 2;
      }
    }
  }

  /** Removing characters from a text whose first `n` characters are kept
      and whose next `m` are all removed. */
  lemma WithoutDropRun(s: string, n: nat, m: nat, p: char -> bool)
    requires n + m <= |s|
    requires forall j :: 0 <= j < n ==> !p(s[j])
    requires forall j :: n <= j < n + m ==> p(s[j])
    ensures Without(s, p) == s[..n] + Without(s[n + m..], p)
  {
    WithoutSplit(s, n, p);
    WithoutKeepsPrefix(s, n, p);
    WithoutSkipsRun(s, n, m, p);
  }

  lemma WithoutKeepsPrefix(s: string, n: nat, p: char -> bool)
    requires n <= |s|
    requires forall j :: 0 <= j < n ==> !p(s[j])
    ensures Without(s[..n], p) == s[..n]
  {
    var a := s[..n];
    assert forall j :: 0 <= j < |a| ==> a[j] == s[j];
    WithoutNone(a, p);
  }

  lemma {:induction false} WithoutSkipsRun(s: string, n: nat, m: nat, p: char -> bool)
    requires n + m <= |s|
    requires forall j :: n <= j < n + m ==> p(s[j])
    ensures Without(s[n..], p) == Without(s[n + m..], p)
    decreases m
  {
    if m > 0 {
      var t := s[n..];
      assert t[0] == s[n];
      assert t[1..] == s[n + 1..];
      WithoutSkipsRun(s, n + 1, m - 1, p);
    }
  }

  /** `splitlines` keeps every character that is not a line break, in order. */
  lemma {:induction false} LinesKeepText(s: string)
    ensures Concat(Lines(s)) == Without(s, IsLineBreak)
    decreases |s|
  {
    if s != [] {
      var n := FirstWhere(s, IsLineBreak);
      if n == |s| {
        WithoutNone(s, IsLineBreak);
        assert Lines(s) == [s];
        assert Concat([s]) == s + Concat([]);
      } else {
        var tail := s[n + BreakLength(s, n)..];
        LinesKeepText(tail);
        WithoutFirstBreak(s, n, IsLineBreak);
        assert Lines(s) == [s[..n]] + Lines(tail);
        assert Concat(Lines(s)) == s[..n] + Concat(Lines(tail));
      }
    }
  }

  /** A space-free word followed by a space and more text splits into that
      word and the fields of the rest. */
  lemma FieldsCons(w: string, rest: string)
    requires w != [] && forall i :: 0 <= i < |w| ==> !IsSpace(w[i])
    ensures Fields(w + [' '] + rest) == [w] + Fields(rest)
  {
    var s := w + [' '] + rest;
    var n := FirstWhere(s, IsSpace);
    assert s[|w|] == ' ';
    assert n == |w|;
    assert s[..n] == w;
    assert s[n..] == [' '] + rest;
    assert ([' '] + rest)[1..] == rest;
  }

  /** Python's `" ".join(words).split()` gives back the words when they are
      non-empty and contain no whitespace: `split()` undoes joining with spaces. */
  lemma {:induction false} FieldsJoin(words: seq<string>)
    requires |words| >= 1
    requires forall k :: 0 <= k < |words| ==> words[k] != []
    requires forall k, i :: 0 <= k < |words| && 0 <= i < |words[k]| ==> !IsSpace(words[k][i])
    ensures Fields(Join(words, ' ')) == words
    decreases |words|
  {
    var w := words[0];
    if |words| == 1 {
      var n := FirstWhere(w, IsSpace);
      assert n == |w|;
      assert w[..n] == w && w[n..] == [];
    } else {
      FieldsJoin(words[1..]);
      FieldsCons(w, Join(words[1..], ' '));
    }
  }

  /** Text without line breaks is one line. */
  lemma LinesSingle(s: string)
    requires s != [] && forall i :: 0 <= i < |s| ==> !IsLineBreak(s[i])
    ensures Lines(s) == [s]
  {
    assert FirstWhere(s, IsLineBreak) == |s|;
  }

  /** Index of the first `c` in `s`, or `|s|` if there is none. */
  function IndexOf(s: string, c: char): (n: nat)
    ensures n <= |s|
    ensures forall j :: 0 <= j < n ==> s[j] != c
    ensures n < |s| ==> s[n] == c
  {
    if s == [] then 0
    else if s[0] == c then 0
    else 1 + IndexOf(s[1..], c)
  }

  /** Python's `s.split(sep)` for a one-character separator: never empty, and
      empty pieces are kept. */
  function SplitOn(s: string, sep: char): (r: seq<string>)
    ensures |r| >= 1
    ensures forall k, i :: 0 <= k < |r| && 0 <= i < |r[k]| ==> r[k][i] != sep
    decreases |s|
  {
    var n := IndexOf(s, sep);
    if n == |s| then [s] else [s[..n]] + SplitOn(s[n + 1..], sep)
  }

  /** Python's `sep.join(pieces)`. */
  function Join(pieces: seq<string>, sep: char): string
    requires |pieces| >= 1
  {
    if |pieces| == 1 then pieces[0] else pieces[0] + [sep] + Join(pieces[1..], sep)
  }

  /** Splitting and joining on the same separator gives back the string. */
  lemma {:induction false} JoinSplitOn(s: string, sep: char)
    ensures Join(SplitOn(s, sep), sep) == s
    decreases |s|
  {
    var n := IndexOf(s, sep);
    if n < |s| {
      var rest := SplitOn(s[n + 1..], sep);
      JoinSplitOn(s[n + 1..], sep);
      assert SplitOn(s, sep) == [s[..n]] + rest;
      assert ([s[..n]] + rest)[1..] == rest;
      assert Join(SplitOn(s, sep), sep) == s[..n] + [sep] + Join(rest, sep);
      assert s == s[..n] + [sep] + s[n + 1..];
    }
  }

  /** `c` does not occur in `s`. */
  predicate Free(s: string, c: char) {
    forall i :: 0 <= i < |s| ==> s[i] != c
  }

  /** Joining separator-free pieces and splitting again gives back the pieces. */
  lemma {:induction false} SplitOnJoin(pieces: seq<string>, sep: char)
    requires |pieces| >= 1
    requires forall k :: 0 <= k < |pieces| ==> Free(pieces[k], sep)
    ensures SplitOn(Join(pieces, sep), sep) == pieces
    decreases |pieces|
  {
    var p := pieces[0];
    if |pieces| == 1 {
      IndexOfAbsent(p, sep);
    } else {
      var tail := pieces[1..];
      FreeTail(pieces, sep);
      SplitOnJoin(tail, sep);
      SplitAtFirst(p, Join(tail, sep), sep);
      assert pieces == [p] + tail;
    }
  }

  lemma FreeTail(pieces: seq<string>, sep: char)
    requires |pieces| >= 1 && forall k :: 0 <= k < |pieces| ==> Free(pieces[k], sep)
    ensures forall k :: 0 <= k < |pieces[1..]| ==> Free(pieces[1..][k], sep)
  {
    forall k | 0 <= k < |pieces[1..]| ensures Free(pieces[1..][k], sep) {
      assert pieces[1..][k] == pieces[k + 1];
    }
  }

  /** Splitting a separator-free piece, a separator and more text. */
  lemma SplitAtFirst(p: string, rest: string, sep: char)
    requires Free(p, sep)
    ensures SplitOn(p + [sep] + rest, sep) == [p] + SplitOn(rest, sep)
  {
    var s := p + [sep] + rest;
    assert s == p + ([sep] + rest);
    IndexOfPrefix(p, [sep] + rest, sep);
    assert s[..|p|] == p;
    assert s[|p| + 1..] == rest;
  }

  lemma IndexOfAbsent(s: string, c: char)
    requires forall i :: 0 <= i < |s| ==> s[i] != c
    ensures IndexOf(s, c) == |s|
  {
  }

  lemma IndexOfPrefix(p: string, t: string, c: char)
    requires forall i :: 0 <= i < |p| ==> p[i] != c
    requires t != [] && t[0] == c
    ensures IndexOf(p + t, c) == |p|
  {
    assert (p + t)[|p|] == c;
  }

  /** Python's `s.rstrip(ch)`: every trailing `ch` removed. */
  function RStripChar(s: string, ch: char): (r: string)
    ensures |r| <= |s| && r == s[..|r|]
    ensures r == [] || r[|r| - 1] != ch
    ensures forall i :: |r| <= i < |s| ==> s[i] == ch
  {
    if s == [] then []
    else if s[|s| - 1] == ch then RStripChar(s[..|s| - 1], ch)
    else s
  }

  /** Leading characters satisfying `p` removed. */
  function LStripBy(s: string, p: char -> bool): (r: string)
    ensures |r| <= |s| && r == s[|s| - |r|..]
    ensures r == [] || !p(r[0])
    ensures forall i :: 0 <= i < |s| - |r| ==> p(s[i])
  {
    if s != [] && p(s[0]) then LStripBy(s[1..], p) else s
  }

  /** Trailing characters satisfying `p` removed. */
  function RStripBy(s: string, p: char -> bool): (r: string)
    ensures |r| <= |s| && r == s[..|r|]
    ensures r == [] || !p(r[|r| - 1])
    ensures forall i :: |r| <= i < |s| ==> p(s[i])
  {
    if s != [] && p(s[|s| - 1]) then RStripBy(s[..|s| - 1], p) else s
  }

  /** `r` is `s` with characters satisfying `p` cut from both ends, starting
      at index `i`. */
  ghost predicate TrimmedBy(s: string, r: string, i: int, p: char -> bool) {
    && OccursAt(s, r, i)
    && (forall j :: 0 <= j < i ==> p(s[j]))
    && (forall j :: i + |r| <= j < |s| ==> p(s[j]))
  }

  /** Python's `s.strip()`; `StripSlice` states what it keeps. */
  function Strip(s: string): string {
    RStripBy(LStripBy(s, IsSpace), IsSpace)
  }

  /** Stripping the left, then the right, leaves a slice of `s` preceded and
      followed only by stripped characters. */
  lemma StripSlice(s: string, p: char -> bool)
    ensures var l := LStripBy(s, p);
            var r := RStripBy(l, p);
            && TrimmedBy(s, r, |s| - |l|, p)
            && (r == [] || (!p(r[0]) && !p(r[|r| - 1])))
  {
    var l := LStripBy(s, p);
    var r := RStripBy(l, p);
    var i := |s| - |l|;
    PrefixOfSuffix(s, i, l, r);
    SuffixShift(s, i, l, |r|, p);
    if r != [] {
      assert r[0] == l[0];
    }
  }

  lemma PrefixOfSuffix(s: string, i: nat, l: string, r: string)
    requires i <= |s| && l == s[i..] && |r| <= |l| && r == l[..|r|]
    ensures OccursAt(s, r, i)
  {
  }

  lemma SuffixShift(s: string, i: nat, l: string, m: nat, p: char -> bool)
    requires i <= |s| && l == s[i..]
    requires forall k :: m <= k < |l| ==> p(l[k])
    ensures forall j :: i + m <= j < |s| ==> p(s[j])
  {
    forall j | i + m <= j < |s| ensures p(s[j]) {
      assert s[j] == l[j - i];
    }
  }
}
