/**
 * The JavaScript `String` and `Array` operations the pipeline relies on,
 * stated over `string` (= `seq<char>`).
 */
module Strings {

  /** `pat` occurs in `s` starting at index `i`. */
  predicate OccursAt(s: string, pat: string, i: nat) {
    i + |pat| <= |s| && s[i..i + |pat|] == pat
  }

  /** `i` is the first index of `s` where `pat` occurs. */
  predicate FirstAt(s: string, pat: string, i: nat) {
    OccursAt(s, pat, i) && forall j :: 0 <= j < i ==> !OccursAt(s, pat, j)
  }

  /** `s.startsWith(p)` */
  predicate StartsWith(s: string, p: string) {
    OccursAt(s, p, 0)
  }

  /** `s.endsWith(p)` */
  predicate EndsWith(s: string, p: string) {
    |p| <= |s| && s[|s| - |p|..] == p
  }

  /**
   * `s.indexOf(pat, from)`: the first index at or after `from` where `pat`
   * occurs, or -1.  Every call in the pipeline passes a non-empty literal.
   */
  function IndexOf(s: string, pat: string, from: nat): (r: int)
    requires |pat| > 0
    ensures r == -1 || (from <= r && OccursAt(s, pat, r))
    decreases |s| - from
  {
    if from + |pat| > |s| then -1
    else if OccursAt(s, pat, from) then from
    else IndexOf(s, pat, from + 1)
  }

  /** `indexOf` finds the first occurrence at or after `from`, and -1 only when there is none. */
  lemma {:induction false} IndexOfSpec(s: string, pat: string, from: nat)
    requires |pat| > 0
    ensures IndexOf(s, pat, from) == -1 ==> forall i :: from <= i ==> !OccursAt(s, pat, i)
    ensures IndexOf(s, pat, from) != -1 ==> forall i :: from <= i < IndexOf(s, pat, from) ==> !OccursAt(s, pat, i)
    decreases |s| - from
  {
    if from + |pat| <= |s| && !OccursAt(s, pat, from) {
      IndexOfSpec(s, pat, from + 1);
    }
  }

  /** An occurrence with none before it is what `indexOf` finds. */
  lemma IndexOfIsFirst(s: string, pat: string, from: nat, e: nat)
    requires |pat| > 0 && from <= e && OccursAt(s, pat, e)
    requires forall i :: from <= i < e ==> !OccursAt(s, pat, i)
    ensures IndexOf(s, pat, from) == e
  {
    IndexOfSpec(s, pat, from);
  }

  /** With no occurrence at or after `from`, `indexOf` gives -1. */
  lemma IndexOfNone(s: string, pat: string, from: nat)
    requires |pat| > 0
    requires forall i :: from <= i ==> !OccursAt(s, pat, i)
    ensures IndexOf(s, pat, from) == -1
  {
    IndexOfSpec(s, pat, from);
  }

  /**
   * `s.replace(pat, rep)` with a string pattern: only the first occurrence of
   * `pat` is rewritten, wherever it is; without one, `s` is returned as is.
   */
  function ReplaceFirst(s: string, pat: string, rep: string): (r: string)
    requires |pat| > 0
  {
    var i := IndexOf(s, pat, 0);
    if i < 0 then s else s[..i] + rep + s[i + |pat|..]
  }

  /** Without an occurrence, `replace` returns the string unchanged. */
  lemma ReplaceFirstAbsent(s: string, pat: string, rep: string)
    requires |pat| > 0
    requires forall i: nat :: !OccursAt(s, pat, i)
    ensures ReplaceFirst(s, pat, rep) == s
  {
    IndexOfNone(s, pat, 0);
  }

  /** With a first occurrence at `i`, exactly that occurrence is rewritten. */
  lemma ReplaceFirstAt(s: string, pat: string, rep: string, i: nat)
    requires |pat| > 0 && FirstAt(s, pat, i)
    ensures ReplaceFirst(s, pat, rep) == s[..i] + rep + s[i + |pat|..]
  {
    IndexOfIsFirst(s, pat, 0, i);
  }

  /** `ReplaceFirst` either leaves `s` alone or contains `rep`, and it is made of characters of `s` and `rep`. */
  lemma ReplaceFirstShape(s: string, pat: string, rep: string, c: char)
    requires |pat| > 0
    ensures var r := ReplaceFirst(s, pat, rep); r == s || exists j: nat :: OccursAt(r, rep, j)
    ensures c !in s && c !in rep ==> c !in ReplaceFirst(s, pat, rep)
  {
    var i := IndexOf(s, pat, 0);
    if i >= 0 {
      var r := ReplaceFirst(s, pat, rep);
      assert r == s[..i] + rep + s[i + |pat|..];
      assert r[i..i + |rep|] == rep;
      assert OccursAt(r, rep, i);
      assert forall x :: x in s[..i] || x in s[i + |pat|..] ==> x in s;
    }
  }

  /**
   * No occurrence of `pat` starts inside `p` in `p + t` when there is none in
   * `p` alone and `t` starts with a character that `pat` holds only at its start.
   */
  lemma NoOccurrenceAcross(p: string, t: string, pat: string, c: char)
    requires |pat| > 0 && |t| > 0 && t[0] == c
    requires forall j :: 0 < j < |pat| ==> pat[j] != c
    requires forall i: nat :: !OccursAt(p, pat, i)
    ensures forall i: nat :: i < |p| ==> !OccursAt(p + t, pat, i)
  {
    forall i: nat | i < |p| ensures !OccursAt(p + t, pat, i) {
      if i + |pat| <= |p| {
        assert !OccursAt(p, pat, i);
        assert (p + t)[i..i + |pat|] == p[i..i + |pat|];
      } else {
        assert (p + t)[|p|] == c;
      }
    }
  }
  /** An occurrence in `t` is one in `p + t`, shifted by `|p|`. */
  lemma OccursShifted(p: string, t: string, pat: string, j: nat)
    ensures OccursAt(p + t, pat, |p| + j) == OccursAt(t, pat, j)
  {
    if |p| + j + |pat| <= |p + t| {
      assert (p + t)[|p| + j..|p| + j + |pat|] == t[j..j + |pat|];
    }
  }
  /** Where no occurrence starts inside `p`, replacing in `p + t` replaces in `t`. */
  lemma ReplaceFirstSkip(p: string, t: string, pat: string, rep: string)
    requires |pat| > 0
    requires forall i: nat :: i < |p| ==> !OccursAt(p + t, pat, i)
    ensures ReplaceFirst(p + t, pat, rep) == p + ReplaceFirst(t, pat, rep)
  {
    var k := IndexOf(t, pat, 0);
    if k == -1 {
      IndexOfSpec(t, pat, 0);
      assert forall i: nat :: !OccursAt(t, pat, i);
      ReplaceFirstSkipNone(p, t, pat, rep);
    } else {
      assert 0 <= k && OccursAt(t, pat, k);
      IndexOfSpec(t, pat, 0);
      assert forall i: nat :: i < k ==> !OccursAt(t, pat, i);
      ReplaceFirstSkipAt(p, t, pat, rep, k);
    }
  }

  lemma ReplaceFirstSkipNone(p: string, t: string, pat: string, rep: string)
    requires |pat| > 0
    requires forall i: nat :: i < |p| ==> !OccursAt(p + t, pat, i)
    requires forall i: nat :: !OccursAt(t, pat, i)
    ensures ReplaceFirst(p + t, pat, rep) == p + t
  {
    forall i: nat | |p| <= i ensures !OccursAt(p + t, pat, i) {
      OccursShifted(p, t, pat, i - |p|);
    }
    IndexOfNone(p + t, pat, 0);
  }

  lemma ReplaceFirstSkipAt(p: string, t: string, pat: string, rep: string, k: nat)
    requires |pat| > 0 && OccursAt(t, pat, k)
    requires forall i: nat :: i < k ==> !OccursAt(t, pat, i)
    requires forall i: nat :: i < |p| ==> !OccursAt(p + t, pat, i)
    ensures ReplaceFirst(p + t, pat, rep) == p + (t[..k] + rep + t[k + |pat|..])
  {
    forall i: nat | |p| <= i <= |p| + k ensures OccursAt(p + t, pat, i) <==> i == |p| + k {
      OccursShifted(p, t, pat, i - |p|);
    }
    IndexOfIsFirst(p + t, pat, 0, |p| + k);
    assert (p + t)[..|p| + k] == p + t[..k];
    assert (p + t)[|p| + k + |pat|..] == t[k + |pat|..];
  }

  /**
   * For a pattern whose only `.` is its first character, replacing in
   * `base + ext`, where `ext` starts with `.` and `base` holds no occurrence,
   * replaces in `ext`.
   */
  lemma ReplaceFirstInSuffix(base: string, ext: string, pat: string, rep: string)
    requires |pat| > 0 && pat[0] == '.' && forall j :: 0 < j < |pat| ==> pat[j] != '.'
    requires |ext| > 0 && ext[0] == '.'
    requires forall i: nat :: !OccursAt(base, pat, i)
    ensures ReplaceFirst(base + ext, pat, rep) == base + ReplaceFirst(ext, pat, rep)
  {
    NoOccurrenceAcross(base, ext, pat, '.');
    ReplaceFirstSkip(base, ext, pat, rep);
  }

  /** `parts.join(sep)` */
  function Join(parts: seq<string>, sep: char): string {
    if |parts| == 0 then ""
    else if |parts| == 1 then parts[0]
    else parts[0] + [sep] + Join(parts[1..], sep)
  }

  /** The index of the first `c` in `s`, or `|s|` when there is none. */
  function FirstIndex(s: string, c: char): (r: nat)
    ensures r <= |s| && c !in s[..r]
    ensures r < |s| ==> s[r] == c
  {
    if |s| == 0 || s[0] == c then 0
    else
      var r' := FirstIndex(s[1..], c);
      assert s[..1 + r'] == [s[0]] + s[1..][..r'];
      1 + r'
  }

  /** `s.split(sep)` for a one-character separator: never empty, and joining undoes it. */
  function Split(s: string, sep: char): (parts: seq<string>)
    ensures |parts| >= 1
    ensures forall i :: 0 <= i < |parts| ==> sep !in parts[i]
    ensures Join(parts, sep) == s
    decreases |s|
  {
    var i := FirstIndex(s, sep);
    if i == |s| then [s]
    else
      var rest := Split(s[i + 1..], sep);
      var parts := [s[..i]] + rest;
      assert parts[1..] == rest;
      assert s == s[..i] + [sep] + s[i + 1..];
      parts
  }

  lemma FirstIndexIs(s: string, c: char, k: nat)
    requires k < |s| && s[k] == c && c !in s[..k]
    ensures FirstIndex(s, c) == k
  {
  }

  /** Joining the pieces of a split gives back the pieces: the other half of the round trip. */
  lemma {:induction false} SplitOfJoin(parts: seq<string>, sep: char)
    requires |parts| >= 1
    requires forall i :: 0 <= i < |parts| ==> sep !in parts[i]
    ensures Split(Join(parts, sep), sep) == parts
    decreases |parts|
  {
    if |parts| == 1 {
      assert FirstIndex(parts[0], sep) == |parts[0]|;
    } else {
      var s := Join(parts, sep);
      var rest := Join(parts[1..], sep);
      assert s == parts[0] + [sep] + rest;
      assert s[..|parts[0]|] == parts[0];
      FirstIndexIs(s, sep, |parts[0]|);
      assert s[|parts[0]| + 1..] == rest;
      SplitOfJoin(parts[1..], sep);
      assert [parts[0]] + parts[1..] == parts;
    }
  }

  /** Joining non-empty pieces is empty exactly when there are none. */
  lemma JoinEmpty(parts: seq<string>, sep: char)
    requires forall i :: 0 <= i < |parts| ==> parts[i] != ""
    ensures Join(parts, sep) == "" <==> parts == []
  {
    if |parts| > 1 {
      assert |Join(parts, sep)| >= |parts[0]| + 1;
    }
  }

  /** Joining one more piece appends the separator and that piece. */
  lemma {:induction false} JoinSnoc(parts: seq<string>, x: string, sep: char)
    requires |parts| >= 1
    ensures Join(parts + [x], sep) == Join(parts, sep) + [sep] + x
    decreases |parts|
  {
    if |parts| == 1 {
      assert (parts + [x])[1..] == [x];
    } else {
      assert (parts + [x])[1..] == parts[1..] + [x];
      JoinSnoc(parts[1..], x, sep);
    }
  }

  lemma ConcatAssociative(a: string, b: string, c: string)
    ensures a + b + c == a + (b + c)
  {
  }

  /** The ECMAScript WhiteSpace and LineTerminator code points, which `trim` removes. */
  predicate IsWhitespace(c: char) {
    var n := c as int;
    (9 <= n <= 13) || n == 0x20 || n == 0xA0 || n == 0x1680 || (0x2000 <= n <= 0x200A)
    || n == 0x2028 || n == 0x2029 || n == 0x202F || n == 0x205F || n == 0x3000 || n == 0xFEFF
  }

  predicate AllWhitespace(s: string) {
    forall i :: 0 <= i < |s| ==> IsWhitespace(s[i])
  }

  /** `s.trimStart()` */
  function TrimStart(s: string): (r: string)
    ensures |r| <= |s| && r == s[|s| - |r|..]
    ensures AllWhitespace(s[..|s| - |r|])
    ensures r == [] || !IsWhitespace(r[0])
  {
    if |s| > 0 && IsWhitespace(s[0]) then
      var r := TrimStart(s[1..]);
      assert s[..|s| - |r|] == [s[0]] + s[1..][..|s| - 1 - |r|];
      r
    else s
  }

  /** `s.trimEnd()` */
  function TrimEnd(s: string): (r: string)
    ensures |r| <= |s| && r == s[..|r|]
    ensures AllWhitespace(s[|r|..])
    ensures r == [] || !IsWhitespace(r[|r| - 1])
  {
    if |s| > 0 && IsWhitespace(s[|s| - 1]) then
      var r := TrimEnd(s[..|s| - 1]);
      assert s[|r|..] == s[..|s| - 1][|r|..] + [s[|s| - 1]];
      r
    else s
  }

  /** `s.trim()` */
  function Trim(s: string): (r: string)
    ensures r == [] || (!IsWhitespace(r[0]) && !IsWhitespace(r[|r| - 1]))
  {
    TrimEnd(TrimStart(s))
  }

  /** `Trim(s)` is the part of `s` left after removing whitespace at both ends. */
  lemma TrimIsInfix(s: string)
    ensures var r := Trim(s);
            exists i :: 0 <= i <= |s| - |r| && s[i..i + |r|] == r
                        && AllWhitespace(s[..i]) && AllWhitespace(s[i + |r|..])
  {
    var t := TrimStart(s);
    var r := TrimEnd(t);
    var i := |s| - |t|;
    assert r == Trim(s);
    assert AllWhitespace(s[..i]);
    assert s[i..] == t;
    assert s[i..i + |r|] == t[..|r|] == r;
    assert s[i + |r|..] == t[|r|..];
    assert AllWhitespace(t[|r|..]);
  }

  /** Trimming a trimmed string behind one space removes just that space. */
  lemma TrimSpaced(s: string)
    requires s == [] || (!IsWhitespace(s[0]) && !IsWhitespace(s[|s| - 1]))
    ensures Trim(" " + s) == s
  {
    var spaced := " " + s;
    assert spaced[0] == ' ' && IsWhitespace(' ');
    assert spaced[1..] == s;
    assert TrimStart(spaced) == TrimStart(s) == s;
  }

  /** Trimming a string that neither starts nor ends with whitespace leaves it unchanged. */
  lemma TrimTrimmed(s: string)
    requires s == [] || (!IsWhitespace(s[0]) && !IsWhitespace(s[|s| - 1]))
    ensures Trim(s) == s
  {
  }
}
