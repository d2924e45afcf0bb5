/**
 * Node's `path` module on POSIX, for normalised absolute paths.  A path is
 * the sequence of its segments below the filesystem root `/`; the root
 * itself is the empty sequence.
 */
module Paths {
  import opened Strings

  type Path = seq<string>

  /** A segment of a normalised path: a directory entry name. */
  predicate ValidSegment(x: string) {
    x != "" && '/' !in x && x != "." && x != ".."
  }

  predicate ValidPath(p: Path) {
    forall i :: 0 <= i < |p| ==> ValidSegment(p[i])
  }

  /** The number of leading segments two paths share. */
  function CommonPrefixLength(a: Path, b: Path): (k: nat)
    ensures k <= |a| && k <= |b| && a[..k] == b[..k]
    ensures k < |a| && k < |b| ==> a[k] != b[k]
  {
    if |a| == 0 || |b| == 0 || a[0] != b[0] then 0
    else
      var k := CommonPrefixLength(a[1..], b[1..]);
      assert a[..1 + k] == [a[0]] + a[1..][..k];
      assert b[..1 + k] == [b[0]] + b[1..][..k];
      1 + k
  }

  /**
   * `path.relative(from, to)`: climb out of `from` to the common ancestor
   * with `..` segments, then descend to `to`.
   */
  function Relative(from: Path, to: Path): string {
    var k := CommonPrefixLength(from, to);
    Join(seq(|from| - k, _ => "..") + to[k..], '/')
  }

  /** Below `from`, the relative path is the remaining segments joined by `/`. */
  lemma RelativeBelow(from: Path, to: Path)
    requires from <= to
    ensures Relative(from, to) == Join(to[|from|..], '/')
  {
    var k := CommonPrefixLength(from, to);
    assert k == |from|;
    assert seq(|from| - k, _ => "..") + to[k..] == to[|from|..];
  }

  /** The relative path is empty exactly when both paths are the same. */
  lemma RelativeEmpty(from: Path, to: Path)
    requires ValidPath(from) && ValidPath(to)
    ensures Relative(from, to) == "" <==> from == to
  {
    var k := CommonPrefixLength(from, to);
    var parts := seq(|from| - k, _ => "..") + to[k..];
    forall i | 0 <= i < |parts| ensures parts[i] != "" {
      if i >= |from| - k {
        assert parts[i] == to[k + i - (|from| - k)];
      }
    }
    JoinEmpty(parts, '/');
    if parts == [] {
      assert |from| == k && |to| == k;
      assert from == from[..k] && to == to[..k];
    }
  }

  /** `path.dirname(p)`; the root is its own parent. */
  function Parent(p: Path): (d: Path)
    ensures d <= p
    ensures p != [] ==> |d| == |p| - 1
  {
    if |p| == 0 then p else p[..|p| - 1]
  }

  /** Every directory on the way from the root down to `p`, both included. */
  function Ancestors(p: Path): set<Path> {
    set i | 0 <= i <= |p| :: p[..i]
  }

  /** The ancestors of `p` are exactly its prefixes. */
  lemma AncestorsArePrefixes(p: Path, d: Path)
    ensures d in Ancestors(p) <==> d <= p
  {
    if d <= p {
      assert d == p[..|d|];
    }
  }

  /** One step of POSIX normalisation: `""` and `"."` vanish, `".."` climbs but never above the root. */
  function Step(base: Path, seg: string): Path {
    if seg == "" || seg == "." then base
    else if seg == ".." then Parent(base)
    else base + [seg]
  }

  /** Normalise the segments `segs` onto `base`, left to right. */
  function Resolve(base: Path, segs: seq<string>): Path
    decreases |segs|
  {
    if |segs| == 0 then base else Resolve(Step(base, segs[0]), segs[1..])
  }

  /**
   * `path.join(base, rel)` for a normalised `base`: `rel` is split at `/`
   * and normalised onto `base`.  The result is again a normalised path.
   */
  function JoinPath(base: Path, rel: string): (p: Path)
    ensures ValidPath(base) ==> ValidPath(p)
  {
    var segs := Split(rel, '/');
    ResolveValid(base, segs);
    Resolve(base, segs)
  }

  lemma {:induction false} ResolveValid(base: Path, segs: seq<string>)
    requires forall i :: 0 <= i < |segs| ==> '/' !in segs[i]
    ensures ValidPath(base) ==> ValidPath(Resolve(base, segs))
    decreases |segs|
  {
    if |segs| > 0 {
      ResolveValid(Step(base, segs[0]), segs[1..]);
    }
  }

  /** Normalising segments that are already normal just appends them. */
  lemma {:induction false} ResolveNormal(base: Path, segs: Path)
    requires ValidPath(segs)
    ensures Resolve(base, segs) == base + segs
    decreases |segs|
  {
    if |segs| > 0 {
      ResolveNormal(base + [segs[0]], segs[1..]);
      assert base + [segs[0]] + segs[1..] == base + segs;
    }
  }

  /** Joining a relative path made of normal segments appends those segments. */
  lemma JoinPathNormal(base: Path, rel: Path)
    requires ValidPath(rel)
    ensures JoinPath(base, Join(rel, '/')) == base + rel
  {
    if rel == [] {
      assert Split("", '/') == [""];
      assert Resolve(base, [""]) == Resolve(base, []);
    } else {
      SplitOfJoin(rel, '/');
      ResolveNormal(base, rel);
    }
  }

  /** `path.relative(root, path.join(root, name))` of an entry name is the name itself. */
  lemma RelativeChild(root: Path, name: string)
    requires ValidSegment(name)
    ensures Relative(root, root + [name]) == name
  {
    RelativeBelow(root, root + [name]);
    assert (root + [name])[|root|..] == [name];
  }
}
