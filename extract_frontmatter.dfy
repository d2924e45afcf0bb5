/**
 * src/extractFrontmatter.ts: split a file's text into its frontmatter
 * block and its body.  The file read is left to the caller: the text is
 * a parameter.
 */
module FrontmatterParser {
  import opened Wrappers
  import opened Strings
  import opened Paths
  import opened Types

  const Delimiter: string := "---"

  /**
   * The block is closed by the first `---` at or after index 3 of a text
   * that opens with `---`.  The search is on the whole text, not on lines:
   * a `---` inside a value also closes the block.
   */
  predicate ClosesAt(content: string, e: nat) {
    StartsWith(content, Delimiter) && 3 <= e && OccursAt(content, Delimiter, e)
    && forall i :: 3 <= i < e ==> !OccursAt(content, Delimiter, i)
  }

  /**
   * One line of the block: split at its first colon, the key is the trimmed
   * text before it and the value the trimmed text after it (later colons
   * kept).  A line without a colon, or with nothing before its first colon,
   * gives no key.
   */
  function ParseLine(line: string): Option<(string, string)> {
    var parts := Split(line, ':');
    var key := parts[0];
    var valueParts := parts[1..];
    if key != "" && |valueParts| > 0 then Some((Trim(key), Trim(Join(valueParts, ':'))))
    else None
  }

  lemma {:induction false} ParseLineNoColon(line: string)
    requires ':' !in line
    ensures ParseLine(line) == None
  {
    SplitAtFirst(line, ':');
  }

  lemma {:induction false} ParseLineAt(line: string, c: nat)
    requires c < |line| && line[c] == ':' && ':' !in line[..c]
    ensures ParseLine(line) == if c == 0 then None else Some((Trim(line[..c]), Trim(line[c + 1..])))
  {
    FirstIndexIs(line, ':', c);
    SplitAtFirst(line, ':');
  }

  /** How `split` divides a string at the first separator. */
  lemma SplitAtFirst(s: string, sep: char)
    ensures var parts, i := Split(s, sep), FirstIndex(s, sep);
            && (i == |s| <==> |parts| == 1)
            && (i == |s| ==> parts[0] == s)
            && (i < |s| ==> parts[0] == s[..i] && Join(parts[1..], sep) == s[i + 1..])
  {
    var parts, i := Split(s, sep), FirstIndex(s, sep);
    if i < |s| {
      assert parts[1..] == Split(s[i + 1..], sep);
    }
  }

  /** The parsed pair `kv` sets key `k`. */
  predicate Sets(kv: Option<(string, string)>, k: string) {
    kv.Some? && kv.value.0 == k
  }

  /** Assigning the parsed pairs in order, each one overwriting: `frontmatter[key] = value`. */
  function Assign(pairs: seq<Option<(string, string)>>): Frontmatter
    decreases |pairs|
  {
    if |pairs| == 0 then map[]
    else
      var fm := Assign(pairs[..|pairs| - 1]);
      match pairs[|pairs| - 1]
      case None => fm
      case Some((k, v)) => fm[k := v]
  }

  /** Every line of the block, parsed. */
  function ParseLines(lines: seq<string>): seq<Option<(string, string)>> {
    seq(|lines|, i requires 0 <= i < |lines| => ParseLine(lines[i]))
  }

  /** The `forEach` over the block's lines: every key-setting line assigns its key. */
  function Keys(lines: seq<string>): Frontmatter {
    Assign(ParseLines(lines))
  }

  /** A key is present exactly when some line sets it ... */
  lemma {:induction false} AssignDomain(pairs: seq<Option<(string, string)>>, k: string)
    ensures k in Assign(pairs) <==> exists i :: 0 <= i < |pairs| && Sets(pairs[i], k)
    decreases |pairs|
  {
    if |pairs| > 0 {
      var n := |pairs| - 1;
      var init := pairs[..n];
      AssignDomain(init, k);
      if k in Assign(pairs) {
        if k in Assign(init) {
          var i :| 0 <= i < n && Sets(init[i], k);
          assert pairs[i] == init[i];
        }
      } else {
        forall i | 0 <= i < |pairs| ensures !Sets(pairs[i], k) {
          if i < n {
            assert pairs[i] == init[i];
          }
        }
      }
    }
  }

  /** ... and its value is the one from the last line that sets it. */
  lemma {:induction false} AssignLastWins(pairs: seq<Option<(string, string)>>, k: string, i: nat)
    requires i < |pairs| && Sets(pairs[i], k)
    requires forall j :: i < j < |pairs| ==> !Sets(pairs[j], k)
    ensures k in Assign(pairs) && Assign(pairs)[k] == pairs[i].value.1
    decreases |pairs|
  {
    var init := pairs[..|pairs| - 1];
    if i < |pairs| - 1 {
      forall j | i < j < |init| ensures !Sets(init[j], k) {
        assert init[j] == pairs[j];
      }
      AssignLastWins(init, k, i);
    }
  }

  /** The frontmatter has a key exactly when some line of the block sets it ... */
  lemma KeysDomain(lines: seq<string>, k: string)
    ensures k in Keys(lines) <==> exists i :: 0 <= i < |lines| && Sets(ParseLine(lines[i]), k)
  {
    var pairs := ParseLines(lines);
    AssignDomain(pairs, k);
    assert |pairs| == |lines|;
    if k in Keys(lines) {
      var i :| 0 <= i < |pairs| && Sets(pairs[i], k);
      assert pairs[i] == ParseLine(lines[i]);
    } else {
      forall i | 0 <= i < |lines| ensures !Sets(ParseLine(lines[i]), k) {
        assert pairs[i] == ParseLine(lines[i]);
      }
    }
  }

  /** ... and a key set by several lines takes the value of the last of them. */
  lemma KeysLastWins(lines: seq<string>, k: string, i: nat)
    requires i < |lines| && Sets(ParseLine(lines[i]), k)
    requires forall j :: i < j < |lines| ==> !Sets(ParseLine(lines[j]), k)
    ensures k in Keys(lines) && Keys(lines)[k] == ParseLine(lines[i]).value.1
  {
    AssignLastWins(ParseLines(lines), k, i);
  }

  /** A line `key:value` whose key has no colon yields the trimmed key and the trimmed value. */
  lemma ParseKeyValue(key: string, value: string)
    requires key != "" && ':' !in key
    ensures ParseLine(key + ":" + value) == Some((Trim(key), Trim(value)))
  {
    var line := key + ":" + value;
    assert line[..|key|] == key;
    assert line[|key|] == ':';
    assert line[|key| + 1..] == value;
  }

  /** A value keeps its own colons: `time: 12:30:00` sets `time` to `12:30:00`. */
  lemma ValueKeepsColons()
    ensures ParseLine("time" + ":" + (" " + "12:30:00")) == Some(("time", "12:30:00"))
  {
    var key, value := "time", "12:30:00";
    assert ':' !in key;
    assert !IsWhitespace(key[0]) && !IsWhitespace(key[|key| - 1]);
    assert !IsWhitespace(value[0]) && !IsWhitespace(value[|value| - 1]);
    SpacedPair(key, value);
  }

  lemma SpacedPair(key: string, value: string)
    requires key != "" && ':' !in key
    requires !IsWhitespace(key[0]) && !IsWhitespace(key[|key| - 1])
    requires value == [] || (!IsWhitespace(value[0]) && !IsWhitespace(value[|value| - 1]))
    ensures ParseLine(key + ":" + (" " + value)) == Some((key, value))
  {
    ParseKeyValue(key, " " + value);
    TrimTrimmed(key);
    TrimSpaced(value);
  }

  /** `extractFrontmatter` on the text `content` read from `path`. */
  function Extract(content: string, path: Path): (r: ParseResult)
    ensures r.fullPath == path
  {
    if !StartsWith(content, Delimiter) then ParseResult(map[], content, path)
    else
      var e := IndexOf(content, Delimiter, 3);
      if e == -1 then ParseResult(map[], content, path)
      else ParseResult(Keys(Split(Trim(content[3..e]), '\n')), Trim(content[e + 3..]), path)
  }

  /** A text that does not open with `---` is all body, with no keys. */
  lemma ExtractWithoutOpening(content: string, path: Path)
    requires !StartsWith(content, Delimiter)
    ensures Extract(content, path) == ParseResult(map[], content, path)
  {
  }

  /**
   * Without a `---` at or after index 3 the block is never closed: the text,
   * dangling delimiter included, is all body, with no keys.
   */
  lemma ExtractUnclosed(content: string, path: Path)
    requires forall i: nat :: 3 <= i ==> !OccursAt(content, Delimiter, i)
    ensures Extract(content, path) == ParseResult(map[], content, path)
  {
  }

  /**
   * When the block closes at `e`, the keys come from the lines of the trimmed
   * text between index 3 and `e`, and the body is the trimmed text after the
   * closing delimiter.
   */
  lemma ExtractClosed(content: string, path: Path, e: nat)
    requires ClosesAt(content, e)
    ensures Extract(content, path).frontmatter == Keys(Split(Trim(content[3..e]), '\n'))
    ensures Extract(content, path).content == Trim(content[e + 3..])
  {
    IndexOfIsFirst(content, Delimiter, 3, e);
    ExtractFound(content, path, e);
  }

  /** Unfolds the third branch of `Extract` for the closing position `e`. */
  lemma ExtractFound(content: string, path: Path, e: nat)
    requires StartsWith(content, Delimiter) && 3 <= e && e + 3 <= |content|
    requires IndexOf(content, Delimiter, 3) == e
    ensures Extract(content, path) == ParseResult(Keys(Split(Trim(content[3..e]), '\n')), Trim(content[e + 3..]), path)
  {
  }

  /** The `forEach` that fills the frontmatter dictionary line by line. */
  method CollectKeys(lines: seq<string>) returns (fm: Frontmatter)
    ensures fm == Keys(lines)
  {
    fm := map[];
    for i := 0 to |lines|
      invariant fm == Assign(ParseLines(lines[..i]))
    {
      match ParseLine(lines[i]) {
        case None =>
        case Some((k, v)) => fm := fm[k := v];
      }
      assert ParseLines(lines[..i + 1])[..i] == ParseLines(lines[..i]);
    }
    assert lines[..|lines|] == lines;
  }

  /** `extractFrontmatter` as the source runs it: delimiter checks, slicing, then the key loop. */
  method ExtractFrontmatter(content: string, path: Path) returns (r: ParseResult)
    ensures r == Extract(content, path)
  {
    if !StartsWith(content, Delimiter) {
      return ParseResult(map[], content, path);
    }
    var endOfFrontmatter := IndexOf(content, Delimiter, 3);
    if endOfFrontmatter == -1 {
      return ParseResult(map[], content, path);
    }
    var frontmatterRaw := Trim(content[3..endOfFrontmatter]);
    var body := Trim(content[endOfFrontmatter + 3..]);
    var frontmatter := CollectKeys(Split(frontmatterRaw, '\n'));
    r := ParseResult(frontmatter, body, path);
    ExtractFound(content, path, endOfFrontmatter);
  }
}
