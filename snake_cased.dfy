/**
 * `snakeCased(str)`: every ASCII capital gets an underscore in front of it,
 * the whole string is lower-cased, and then one leading underscore (if
 * any) is dropped.  Only ASCII letters are case-mapped here.
 */
module SnakeCase {
  import opened Strings

  /** The regular-expression class `[A-Z]`. */
  predicate IsUpper(c: char) {
    'A' <= c <= 'Z'
  }

  /** `toLowerCase` on one character, over ASCII. */
  function ToLower(c: char): (r: char)
    ensures !IsUpper(r)
    ensures IsUpper(c) ==> r != '_'
    ensures !IsUpper(c) ==> r == c
  {
    if IsUpper(c) then (c as int + 32) as char else c
  }

  /** `str.replace(/([A-Z])/g, "_$1")`: every capital is prefixed by `_`. */
  function Underscored(s: string): string {
    if s == [] then []
    else (if IsUpper(s[0]) then ['_', s[0]] else [s[0]]) + Underscored(s[1..])
  }

  /** `str.toLowerCase()`, character by character. */
  function Lowered(s: string): string {
    if s == [] then [] else [ToLower(s[0])] + Lowered(s[1..])
  }

  /** `str.replace(/^_/, "")`: removes one underscore at the start, if there is one. */
  function StripLeadingUnderscore(s: string): string {
    if |s| > 0 && s[0] == '_' then s[1..] else s
  }

  /** The result is a suffix of `s`, at most one character shorter, and shorter exactly when `s` starts with `_`. */
  lemma StripLeadingUnderscoreSuffix(s: string)
    ensures var r := StripLeadingUnderscore(s);
      && |s| - 1 <= |r| <= |s| && r == s[|s| - |r|..]
      && (|r| < |s| <==> (|s| > 0 && s[0] == '_'))
  {
  }

  /** The string after the first two steps, before the leading underscore is stripped. */
  function Intermediate(s: string): string {
    Lowered(Underscored(s))
  }

  function SnakeCased(s: string): string {
    StripLeadingUnderscore(Intermediate(s))
  }

  // ---- a reference definition, one input character at a time ----

  /** What one input character becomes: `_x` for a capital `X`, itself otherwise. */
  function Expand(c: char): (r: string)
    ensures |r| >= 1 && r[|r| - 1] == ToLower(c)
    ensures IsUpper(c) <==> |r| == 2
  {
    if IsUpper(c) then ['_', ToLower(c)] else [c]
  }

  function Expanded(s: string): string {
    if s == [] then [] else Expand(s[0]) + Expanded(s[1..])
  }

  function CountUpper(s: string): nat {
    if s == [] then 0 else (if IsUpper(s[0]) then 1 else 0) + CountUpper(s[1..])
  }

  lemma {:induction false} LoweredAppend(a: string, b: string)
    ensures Lowered(a + b) == Lowered(a) + Lowered(b)
  {
    if a == [] {
      assert a + b == b;
    } else {
      assert (a + b)[0] == a[0] && (a + b)[1..] == a[1..] + b;
      LoweredAppend(a[1..], b);
    }
  }

  lemma {:induction false} ExpandedAppend(a: string, b: string)
    ensures Expanded(a + b) == Expanded(a) + Expanded(b)
  {
    if a == [] {
      assert a + b == b;
    } else {
      assert (a + b)[0] == a[0] && (a + b)[1..] == a[1..] + b;
      ExpandedAppend(a[1..], b);
    }
  }

  /** Underscoring then lower-casing is the character-by-character expansion. */
  lemma {:induction false} IntermediateIsExpanded(s: string)
    ensures Intermediate(s) == Expanded(s)
  {
    if s != [] {
      var head: string := if IsUpper(s[0]) then ['_', s[0]] else [s[0]];
      assert Underscored(s) == head + Underscored(s[1..]);
      LoweredAppend(head, Underscored(s[1..]));
      assert Lowered(head) == Expand(s[0]);
      IntermediateIsExpanded(s[1..]);
    }
  }

  /** Lower-casing leaves no capital behind. */
  lemma {:induction false} LoweredHasNoUpper(s: string)
    ensures forall i :: 0 <= i < |Lowered(s)| ==> !IsUpper(Lowered(s)[i])
  {
    if s != [] {
      LoweredHasNoUpper(s[1..]);
    }
  }

  /** The output contains no ASCII capital. */
  lemma NoUpperInOutput(s: string)
    ensures forall i :: 0 <= i < |SnakeCased(s)| ==> !IsUpper(SnakeCased(s)[i])
  {
    LoweredHasNoUpper(Underscored(s));
  }

  /** The intermediate string starts with `_` exactly when the input starts with `_` or a capital. */
  lemma IntermediateLeading(s: string)
    ensures (|Intermediate(s)| > 0 && Intermediate(s)[0] == '_')
        <==> (|s| > 0 && (s[0] == '_' || IsUpper(s[0])))
  {
    IntermediateIsExpanded(s);
    if s != [] {
      assert Expanded(s) == Expand(s[0]) + Expanded(s[1..]);
      assert Expanded(s)[0] == Expand(s[0])[0];
    }
  }

  /** A capital `c` between `p` and `t` becomes `_` followed by its lower case. */
  lemma UpperExpands(p: string, c: char, t: string)
    requires IsUpper(c)
    ensures Intermediate(p + [c] + t) == Expanded(p) + ['_', ToLower(c)] + Expanded(t)
  {
    IntermediateIsExpanded(p + [c] + t);
    ExpandedAppend(p + [c], t);
    ExpandedAppend(p, [c]);
    ExpandedOne(c);
  }

  /**
   * In the output, the underscore in front of a capital's lower case is
   * the one removed only when nothing precedes the capital.
   */
  lemma UpperBecomesUnderscore(p: string, c: char, t: string)
    requires IsUpper(c)
    ensures p == [] ==> SnakeCased(p + [c] + t) == [ToLower(c)] + Expanded(t)
    ensures p != [] ==>
      SnakeCased(p + [c] + t) == StripLeadingUnderscore(Expanded(p)) + ['_', ToLower(c)] + Expanded(t)
  {
    var u := ['_', ToLower(c)];
    var ep, et := Expanded(p), Expanded(t);
    UpperExpands(p, c, t);
    assert Intermediate(p + [c] + t) == ep + u + et;
    if p != [] {
      ExpandedNonEmpty(p);
      StripAppend(ep, u + et);
      ConcatAssociative(ep, u, et);
    } else {
      assert ep == [];
      assert ep + u + et == ['_'] + ([ToLower(c)] + et);
      StripUnderscore([ToLower(c)] + et);
    }
  }

  lemma ExpandedOne(c: char)
    ensures Expanded([c]) == Expand(c)
  {
    assert [c][1..] == [];
  }

  lemma ExpandedNonEmpty(s: string)
    requires s != []
    ensures |Expanded(s)| > 0
  {
  }

  lemma StripUnderscore(t: string)
    ensures StripLeadingUnderscore(['_'] + t) == t
  {
    assert (['_'] + t)[1..] == t;
  }

  lemma StripAppend(a: string, b: string)
    requires |a| > 0
    ensures StripLeadingUnderscore(a + b) == StripLeadingUnderscore(a) + b
  {
    assert (a + b)[0] == a[0];
    if a[0] == '_' {
      assert (a + b)[1..] == a[1..] + b;
    }
  }

  /** The length grows by one per capital and shrinks by one if a leading `_` is stripped. */
  lemma {:induction false} ExpandedLength(s: string)
    ensures |Expanded(s)| == |s| + CountUpper(s)
  {
    if s != [] {
      ExpandedLength(s[1..]);
    }
  }

  lemma OutputLength(s: string)
    ensures |SnakeCased(s)| ==
      |s| + CountUpper(s) - (if |Intermediate(s)| > 0 && Intermediate(s)[0] == '_' then 1 else 0)
  {
    IntermediateIsExpanded(s);
    ExpandedLength(s);
  }

  /** Only one underscore is removed: an input starting with `__` keeps one. */
  lemma OneUnderscoreStripped(t: string)
    ensures SnakeCased("__" + t) == "_" + Expanded(t)
  {
    IntermediateIsExpanded("__" + t);
    ExpandedAppend("__", t);
    assert Expanded("__") == "__" by {
      assert Expanded("__") == Expand('_') + Expanded("_");
      assert Expanded("_") == Expand('_') + Expanded([]);
    }
    assert ("__" + Expanded(t))[1..] == "_" + Expanded(t);
  }

  lemma DoubleUnderscoreExample()
    ensures SnakeCased("__a") == "_a"
  {
    OneUnderscoreStripped("a");
    assert Expanded("a") == Expand('a') + Expanded([]);
  }

  lemma {:induction false} ExpandedWithoutUpper(s: string)
    requires forall i :: 0 <= i < |s| ==> !IsUpper(s[i])
    ensures Expanded(s) == s
  {
    if s != [] {
      ExpandedWithoutUpper(s[1..]);
    }
  }

  /** An input without capitals and without a leading `_` comes back unchanged. */
  lemma UnchangedWithoutUpper(s: string)
    requires forall i :: 0 <= i < |s| ==> !IsUpper(s[i])
    requires |s| == 0 || s[0] != '_'
    ensures SnakeCased(s) == s
  {
    IntermediateIsExpanded(s);
    ExpandedWithoutUpper(s);
  }

  /**
   * On an output, the function is the identity when the output does not
   * start with `_`, and otherwise strips that underscore.
   */
  lemma Idempotent(s: string)
    ensures var r := SnakeCased(s);
      (|r| == 0 || r[0] != '_' ==> SnakeCased(r) == r) &&
      (|r| > 0 && r[0] == '_' ==> SnakeCased(r) == r[1..])
  {
    var r := SnakeCased(s);
    NoUpperInOutput(s);
    IntermediateIsExpanded(r);
    ExpandedWithoutUpper(r);
  }
}
