/**
 * `build`, `processIndexFile` and `parseCollectionContent` of src/build.ts.
 *
 * Each step is specified by a function that gives its trace: the
 * `generateHtml` calls it makes, in order, and what it returns.  The methods
 * run those calls against a `Site` and are proved to leave exactly what
 * executing the trace leaves.
 */
module Builder {
  import opened Wrappers
  import opened Strings
  import opened Paths
  import opened Types
  import opened FrontmatterParser
  import opened FsHelpers
  import opened HtmlGeneration
  import opened MarkdownPages

  /** The collections of a site: the records of each top-level directory, by directory name. */
  type Collections = map<string, seq<Frontmatter>>

  /** The filter of `parseCollectionContent`: files not named `index.*`. */
  predicate IsMember(e: Entry) {
    e.kind == File && !StartsWith(e.name, "index.")
  }

  /** `entries.filter(IsMember)` */
  function Members(entries: seq<Entry>): seq<Entry>
    decreases |entries|
  {
    if |entries| == 0 then []
    else
      var last := entries[|entries| - 1];
      Members(entries[..|entries| - 1]) + (if IsMember(last) then [last] else [])
  }

  /** `getPathname(file).replace(".liquid", "").replace(".md", "")` */
  function RecordPathname(cfg: Config, file: Path): string {
    ReplaceFirst(ReplaceFirst(GetPathname(cfg.pagesPath, file), ".liquid", ""), ".md", "")
  }

  /** Stripping a pattern free of `/` from the site path of a page strips it from the page's name. */
  lemma StripInPathname(dirs: seq<string>, name: string, pat: string)
    requires |pat| > 0 && pat[0] == '.' && '/' !in pat
    requires forall k: nat, i: nat :: k < |dirs| ==> !OccursAt(dirs[k], pat, i)
    ensures ReplaceFirst("/" + Join(dirs + [name], '/'), pat, "") == "/" + Join(dirs + [ReplaceFirst(name, pat, "")], '/')
  {
    var joined := Join(dirs + [name], '/');
    assert ("/" + joined)[0] == '/';
    ReplaceFirstSkip("/", joined, pat, "");
    ReplaceInLast(dirs, name, pat, "");
  }

  /**
   * The record of a page `dirs/base.liquid` or `dirs/base.md` below the pages
   * root has the pathname `/dirs/base`, when neither pattern occurs elsewhere
   * in the path.
   */
  lemma RecordPathnameOfPage(cfg: Config, dirs: Path, base: string, ext: string)
    requires ext == ".liquid" || ext == ".md"
    requires forall i: nat :: !OccursAt(base, ".liquid", i) && !OccursAt(base, ".md", i)
    requires forall k: nat, i: nat :: k < |dirs| ==> !OccursAt(dirs[k], ".liquid", i) && !OccursAt(dirs[k], ".md", i)
    ensures RecordPathname(cfg, cfg.pagesPath + dirs + [base + ext]) == "/" + Join(dirs + [base], '/')
  {
    var segs := dirs + [base + ext];
    assert cfg.pagesPath + dirs + [base + ext] == cfg.pagesPath + segs;
    RecordPathnameBelow(cfg, segs);
    StripPage(dirs, base, ext);
    assert RecordPathname(cfg, cfg.pagesPath + segs) == "/" + Join(dirs + [base], '/');
  }

  /** Stripping the patterns from the site path of `dirs/base.ext` leaves `/dirs/base`. */
  lemma StripPage(dirs: seq<string>, base: string, ext: string)
    requires ext == ".liquid" || ext == ".md"
    requires forall i: nat :: !OccursAt(base, ".liquid", i) && !OccursAt(base, ".md", i)
    requires forall k: nat, i: nat :: k < |dirs| ==> !OccursAt(dirs[k], ".liquid", i) && !OccursAt(dirs[k], ".md", i)
    ensures ReplaceFirst(ReplaceFirst("/" + Join(dirs + [base + ext], '/'), ".liquid", ""), ".md", "") == "/" + Join(dirs + [base], '/')
  {
    var liquid, md := ".liquid", ".md";
    var name := ReplaceFirst(ReplaceFirst(base + ext, liquid, ""), md, "");
    assert name == base by {
      StripExtension(base, ext);
    }
    assert |liquid| > 0 && liquid[0] == '.' && '/' !in liquid;
    assert |md| > 0 && md[0] == '.' && '/' !in md;
    StripBoth(dirs, base + ext, liquid, md);
  }

  /** Below the pages root, the pathname of a record is its site path with the patterns stripped. */
  lemma RecordPathnameBelow(cfg: Config, segs: Path)
    ensures RecordPathname(cfg, cfg.pagesPath + segs) == ReplaceFirst(ReplaceFirst("/" + Join(segs, '/'), ".liquid", ""), ".md", "")
  {
    PathnameBelow(cfg.pagesPath, segs);
  }

  lemma StripBoth(dirs: seq<string>, name: string, p1: string, p2: string)
    requires |p1| > 0 && p1[0] == '.' && '/' !in p1
    requires |p2| > 0 && p2[0] == '.' && '/' !in p2
    requires forall k: nat, i: nat :: k < |dirs| ==> !OccursAt(dirs[k], p1, i) && !OccursAt(dirs[k], p2, i)
    ensures ReplaceFirst(ReplaceFirst("/" + Join(dirs + [name], '/'), p1, ""), p2, "")
      == "/" + Join(dirs + [ReplaceFirst(ReplaceFirst(name, p1, ""), p2, "")], '/')
  {
    StripInPathname(dirs, name, p1);
    StripInPathname(dirs, ReplaceFirst(name, p1, ""), p2);
  }

  /** Stripping `.liquid`, then `.md`, from `base + ext` leaves `base`. */
  lemma StripExtension(base: string, ext: string)
    requires ext == ".liquid" || ext == ".md"
    requires forall i: nat :: !OccursAt(base, ".liquid", i) && !OccursAt(base, ".md", i)
    ensures ReplaceFirst(ReplaceFirst(base + ext, ".liquid", ""), ".md", "") == base
  {
    ReplaceFirstInSuffix(base, ext, ".liquid", "");
    if ext == ".liquid" {
      assert FirstAt(ext, ".liquid", 0);
      ReplaceFirstAt(ext, ".liquid", "", 0);
      assert base + "" == base;
      ReplaceFirstAbsent(base, ".md", "");
    } else {
      ReplaceFirstAbsent(ext, ".liquid", "");
      ReplaceFirstInSuffix(base, ext, ".md", "");
      assert FirstAt(ext, ".md", 0);
      ReplaceFirstAt(ext, ".md", "", 0);
      assert base + "" == base;
    }
  }

  /** `{ ...frontmatter, pathname }`: the record a page contributes to its collection. */
  function MakeRecord(frontmatter: Frontmatter, pathname: string): (fm: Frontmatter)
    ensures fm.Keys == frontmatter.Keys + {"pathname"}
    ensures fm["pathname"] == pathname
    ensures forall k :: k in frontmatter && k != "pathname" ==> fm[k] == frontmatter[k]
  {
    frontmatter["pathname" := pathname]
  }

  /** The file of a directory entry: `path.join(dir, entry.name)` of a normal entry name. */
  function EntryPath(dir: Path, e: Entry): Path {
    dir + [e.name]
  }

  /**
   * The callback of `parseCollectionContent` for one member: read and split
   * the file, build its record, and render a `.liquid` page directly or a
   * `.md` page through its template.
   */
  function MemberTrace(cfg: Config, tree: Tree, lib: Lib, dir: Path, e: Entry): Trace<Frontmatter> {
    var file := EntryPath(dir, e);
    match ReadFile(tree, file)
    case Failure(err) => Trace([], Failure(err))
    case Success(text) =>
      var parsed := Extract(text, file);
      var fm := MakeRecord(parsed.frontmatter, RecordPathname(cfg, file));
      if EndsWith(e.name, ".liquid") then
        Trace([Job(parsed.fullPath, parsed.content, AsBindings(fm))], Success(fm))
      else if EndsWith(e.name, ".md") then
        var t := MarkdownTrace(cfg, tree, lib, parsed.fullPath, parsed.content, fm);
        Trace(t.jobs, if t.result.Failure? then Failure(t.result.error) else Success(fm))
      else
        Trace([], Success(fm))
  }

  /** The `.map` of `parseCollectionContent` over `members`, in order, stopping at the first error. */
  function CollectionTrace(cfg: Config, tree: Tree, lib: Lib, dir: Path, members: seq<Entry>): Trace<seq<Frontmatter>>
    decreases |members|
  {
    if |members| == 0 then Trace([], Success([]))
    else
      var prev := CollectionTrace(cfg, tree, lib, dir, members[..|members| - 1]);
      if prev.result.Failure? then prev
      else
        var m := MemberTrace(cfg, tree, lib, dir, members[|members| - 1]);
        Trace(prev.jobs + m.jobs,
              if m.result.Failure? then Failure(m.result.error) else Success(prev.result.value + [m.result.value]))
  }

  /** `parseCollectionContent(dir)` */
  function ParseCollectionTrace(cfg: Config, tree: Tree, lib: Lib, dir: Path): Trace<seq<Frontmatter>> {
    match ReadDir(tree, dir)
    case Failure(err) => Trace([], Failure(err))
    case Success(entries) => CollectionTrace(cfg, tree, lib, dir, Members(entries))
  }

  /** The first pass of `build` over `entries`: each directory's collection, keyed by its relative path. */
  function CollectPass(cfg: Config, tree: Tree, lib: Lib, entries: seq<Entry>): Trace<Collections>
    decreases |entries|
  {
    if |entries| == 0 then Trace([], Success(map[]))
    else
      var prev := CollectPass(cfg, tree, lib, entries[..|entries| - 1]);
      var e := entries[|entries| - 1];
      if prev.result.Failure? || e.kind != Directory then prev
      else
        var fullPath := EntryPath(cfg.sourcePath, e);
        var c := ParseCollectionTrace(cfg, tree, lib, fullPath);
        Trace(prev.jobs + c.jobs,
              if c.result.Failure? then Failure(c.result.error)
              else Success(prev.result.value[Relative(cfg.sourcePath, fullPath) := c.result.value]))
  }

  /** `{ ...collections, pathname }` */
  function IndexBindings(collections: Collections, pathname: string): Bindings {
    (map k | k in collections :: Records(collections[k]))["pathname" := Str(pathname)]
  }

  /** An index page sees every collection under its name, and `pathname`, which wins over a collection of that name. */
  lemma IndexBindingsSpec(collections: Collections, pathname: string)
    ensures var b := IndexBindings(collections, pathname);
      && b.Keys == collections.Keys + {"pathname"}
      && b["pathname"] == Str(pathname)
      && forall k :: k in collections && k != "pathname" ==> b[k] == Records(collections[k])
  {
  }

  /** The index page of a directory. */
  function IndexPath(dirPath: Path): Path {
    dirPath + ["index.liquid"]
  }

  /** `processIndexFile(dirPath, collections)` */
  function IndexTrace(cfg: Config, tree: Tree, dirPath: Path, collections: Collections): Trace<()> {
    var indexPath := IndexPath(dirPath);
    if !Exists(tree, indexPath) then Trace([], Success(()))
    else
      match ReadFile(tree, indexPath)
      case Failure(err) => Trace([], Failure(err))
      case Success(content) =>
        Trace([Job(indexPath, content, IndexBindings(collections, GetPathname(cfg.pagesPath, dirPath)))], Success(()))
  }

  /** The loop of the second pass of `build`: the index page of each directory, in listing order. */
  function IndexPass(cfg: Config, tree: Tree, entries: seq<Entry>, collections: Collections): Trace<()>
    decreases |entries|
  {
    if |entries| == 0 then Trace([], Success(()))
    else
      var prev := IndexPass(cfg, tree, entries[..|entries| - 1], collections);
      var e := entries[|entries| - 1];
      if prev.result.Failure? || e.kind != Directory then prev
      else
        var t := IndexTrace(cfg, tree, EntryPath(cfg.sourcePath, e), collections);
        Trace(prev.jobs + t.jobs, t.result)
  }

  /** The second pass of `build`: the root's index page, then the directories'. */
  function SecondPass(cfg: Config, tree: Tree, entries: seq<Entry>, collections: Collections): Trace<()> {
    var root := IndexTrace(cfg, tree, cfg.sourcePath, collections);
    if root.result.Failure? then root
    else
      var subs := IndexPass(cfg, tree, entries, collections);
      Trace(root.jobs + subs.jobs, subs.result)
  }

  /** `build(config)` */
  function BuildTrace(cfg: Config, tree: Tree, lib: Lib): Trace<()> {
    match ReadDir(tree, cfg.sourcePath)
    case Failure(err) => Trace([], Failure(err))
    case Success(entries) =>
      var c := CollectPass(cfg, tree, lib, entries);
      if c.result.Failure? then Trace(c.jobs, Failure(c.result.error))
      else
        var second := SecondPass(cfg, tree, entries, c.result.value);
        Trace(c.jobs + second.jobs, second.result)
  }

  // Prefixes: a pass over a prefix of the entries is a prefix of the pass, and an error there ends it.

  lemma {:induction false} CollectionPrefix(cfg: Config, tree: Tree, lib: Lib, dir: Path, members: seq<Entry>, k: nat)
    requires k <= |members|
    ensures var a, b := CollectionTrace(cfg, tree, lib, dir, members[..k]), CollectionTrace(cfg, tree, lib, dir, members);
      a.jobs <= b.jobs && (a.result.Failure? ==> b == a)
    decreases |members|
  {
    if k < |members| {
      var init := members[..|members| - 1];
      assert init[..k] == members[..k];
      CollectionPrefix(cfg, tree, lib, dir, init, k);
    } else {
      assert members[..k] == members;
    }
  }

  lemma {:induction false} CollectPassPrefix(cfg: Config, tree: Tree, lib: Lib, entries: seq<Entry>, k: nat)
    requires k <= |entries|
    ensures var a, b := CollectPass(cfg, tree, lib, entries[..k]), CollectPass(cfg, tree, lib, entries);
      a.jobs <= b.jobs && (a.result.Failure? ==> b == a)
    decreases |entries|
  {
    if k < |entries| {
      var init := entries[..|entries| - 1];
      assert init[..k] == entries[..k];
      CollectPassPrefix(cfg, tree, lib, init, k);
    } else {
      assert entries[..k] == entries;
    }
  }

  lemma {:induction false} IndexPassPrefix(cfg: Config, tree: Tree, entries: seq<Entry>, collections: Collections, k: nat)
    requires k <= |entries|
    ensures var a, b := IndexPass(cfg, tree, entries[..k], collections), IndexPass(cfg, tree, entries, collections);
      a.jobs <= b.jobs && (a.result.Failure? ==> b == a)
    decreases |entries|
  {
    if k < |entries| {
      var init := entries[..|entries| - 1];
      assert init[..k] == entries[..k];
      IndexPassPrefix(cfg, tree, init, collections, k);
    } else {
      assert entries[..k] == entries;
    }
  }

  // The filter.

  /** Filtering a listing in two parts filters each part, keeping their order. */
  lemma {:induction false} MembersAppend(a: seq<Entry>, b: seq<Entry>)
    ensures Members(a + b) == Members(a) + Members(b)
    decreases |b|
  {
    if |b| == 0 {
      assert a + b == a;
    } else {
      var init := b[..|b| - 1];
      assert (a + b)[..|a + b| - 1] == a + init;
      MembersAppend(a, init);
    }
  }

  /** A single entry survives the filter exactly when it is a member. */
  lemma MembersOne(e: Entry)
    ensures Members([e]) == if IsMember(e) then [e] else []
  {
    assert [e][..0] == [];
  }

  /** The members of a listing are its entries that pass the filter. */
  lemma {:induction false} MembersSpec(entries: seq<Entry>)
    ensures forall e :: e in Members(entries) <==> e in entries && IsMember(e)
    decreases |entries|
  {
    if |entries| > 0 {
      var init := entries[..|entries| - 1];
      MembersSpec(init);
      assert entries == init + [entries[|entries| - 1]];
    }
  }

  // The records of a collection.

  /**
   * The callback for one member: a file that is not there is a read error;
   * otherwise its record is its frontmatter with `pathname` set, a `.liquid`
   * page renders its own body with the record, a `.md` page without a
   * template is an error before anything renders, one with a template
   * renders that template's text, and any other file only contributes its
   * record.
   */
  lemma MemberSpec(cfg: Config, tree: Tree, lib: Lib, dir: Path, e: Entry)
    ensures var file, t := EntryPath(dir, e), MemberTrace(cfg, tree, lib, dir, e);
      && (file !in tree.files ==> t == Trace([], Failure(ReadFailed(file))))
      && (file in tree.files ==>
            var parsed := Extract(tree.files[file], file);
            var fm := MakeRecord(parsed.frontmatter, RecordPathname(cfg, file));
            && (t.result.Success? ==> t.result.value == fm)
            && (EndsWith(e.name, ".liquid") ==>
                  t == Trace([Job(file, parsed.content, AsBindings(fm))], Success(fm)))
            && (EndsWith(e.name, ".md") && !HasTemplate(parsed.frontmatter) ==>
                  t == Trace([], Failure(MissingTemplate(file))))
            && (EndsWith(e.name, ".md") && HasTemplate(parsed.frontmatter) ==>
                  var template := TemplateFile(cfg, parsed.frontmatter["template"]);
                  && (template !in tree.files ==> t == Trace([], Failure(ReadFailed(template))))
                  && (template in tree.files ==>
                        t == Trace([Job(file, tree.files[template], MarkdownBindings(lib.markdown, parsed.content, fm))], Success(fm))))
            && (!EndsWith(e.name, ".liquid") && !EndsWith(e.name, ".md") ==> t == Trace([], Success(fm))))
  {
    var file := EntryPath(dir, e);
    if file in tree.files && EndsWith(e.name, ".liquid") {
      LiquidIsNotMd(e.name);
    }
  }

  /** A collection that was gathered holds one record per member, in listing order. */
  lemma {:induction false} CollectionRecords(cfg: Config, tree: Tree, lib: Lib, dir: Path, members: seq<Entry>)
    requires CollectionTrace(cfg, tree, lib, dir, members).result.Success?
    ensures var records := CollectionTrace(cfg, tree, lib, dir, members).result.value;
      && |records| == |members|
      && forall j :: 0 <= j < |members| ==> MemberTrace(cfg, tree, lib, dir, members[j]).result == Success(records[j])
    decreases |members|
  {
    if |members| > 0 {
      var n := |members| - 1;
      var init := members[..n];
      var prev := CollectionTrace(cfg, tree, lib, dir, init);
      var m := MemberTrace(cfg, tree, lib, dir, members[n]);
      assert prev.result.Success? && m.result.Success?;
      var pv, mv := prev.result.value, m.result.value;
      var records := CollectionTrace(cfg, tree, lib, dir, members).result.value;
      assert records == pv + [mv];
      CollectionRecords(cfg, tree, lib, dir, init);
      assert |pv| == n;
      forall j | 0 <= j < |members|
        ensures MemberTrace(cfg, tree, lib, dir, members[j]).result == Success(records[j])
      {
        if j < n {
          assert members[j] == init[j] && records[j] == pv[j];
        } else {
          assert j == n && records[n] == mv;
        }
      }
    }
  }

  /**
   * After the first pass, there is a collection for each directory entry,
   * under the entry's name, and none other; each is what
   * `parseCollectionContent` gives for that directory.
   */
  lemma {:induction false} CollectionKeys(cfg: Config, tree: Tree, lib: Lib, entries: seq<Entry>)
    requires ValidListing(entries)
    requires CollectPass(cfg, tree, lib, entries).result.Success?
    ensures var collections := CollectPass(cfg, tree, lib, entries).result.value;
      && (forall name :: name in collections <==> exists e :: e in entries && e.kind == Directory && e.name == name)
      && (forall e :: e in entries && e.kind == Directory ==>
            ParseCollectionTrace(cfg, tree, lib, EntryPath(cfg.sourcePath, e)).result == Success(collections[e.name]))
    decreases |entries|
  {
    if |entries| > 0 {
      var init := entries[..|entries| - 1];
      var last := entries[|entries| - 1];
      assert entries == init + [last];
      assert ValidListing(init) by {
        forall i | 0 <= i < |init| ensures ValidSegment(init[i].name) {
          assert init[i] == entries[i];
        }
      }
      CollectionKeys(cfg, tree, lib, init);
      if last.kind == Directory {
        RelativeChild(cfg.sourcePath, last.name);
      }
    }
  }

  // The order of the build.

  /** A job rendering some directory's `index.liquid`. */
  predicate IsIndexJob(job: Job) {
    |job.fullPath| > 0 && job.fullPath[|job.fullPath| - 1] == "index.liquid"
  }

  /** A job the first pass makes: a page that is not an index page. */
  predicate IsPageJob(job: Job) {
    |job.fullPath| > 0 && !StartsWith(job.fullPath[|job.fullPath| - 1], "index.")
  }

  lemma MemberJobs(cfg: Config, tree: Tree, lib: Lib, dir: Path, e: Entry)
    requires IsMember(e)
    ensures forall job :: job in MemberTrace(cfg, tree, lib, dir, e).jobs ==> IsPageJob(job) && job.fullPath == EntryPath(dir, e)
  {
    MemberJobPaths(cfg, tree, lib, dir, e);
    assert EntryPath(dir, e)[|EntryPath(dir, e)| - 1] == e.name;
  }

  /** A member's step renders at most the member's own file. */
  lemma MemberJobPaths(cfg: Config, tree: Tree, lib: Lib, dir: Path, e: Entry)
    ensures forall job :: job in MemberTrace(cfg, tree, lib, dir, e).jobs ==> job.fullPath == EntryPath(dir, e)
  {
    MemberSpec(cfg, tree, lib, dir, e);
  }

  lemma {:induction false} CollectionJobs(cfg: Config, tree: Tree, lib: Lib, dir: Path, members: seq<Entry>)
    requires forall e :: e in members ==> IsMember(e)
    ensures forall job :: job in CollectionTrace(cfg, tree, lib, dir, members).jobs ==> IsPageJob(job)
    decreases |members|
  {
    if |members| > 0 {
      CollectionJobs(cfg, tree, lib, dir, members[..|members| - 1]);
      MemberJobs(cfg, tree, lib, dir, members[|members| - 1]);
    }
  }

  /** Every page the first pass renders is a collection member, never an index page. */
  lemma {:induction false} CollectPassJobs(cfg: Config, tree: Tree, lib: Lib, entries: seq<Entry>)
    ensures forall job :: job in CollectPass(cfg, tree, lib, entries).jobs ==> IsPageJob(job)
    decreases |entries|
  {
    if |entries| > 0 {
      CollectPassJobs(cfg, tree, lib, entries[..|entries| - 1]);
      var e := entries[|entries| - 1];
      var dir := EntryPath(cfg.sourcePath, e);
      if dir in tree.listings {
        MembersSpec(tree.listings[dir]);
        CollectionJobs(cfg, tree, lib, dir, Members(tree.listings[dir]));
      }
    }
  }

  /** Every page the second pass renders is an index page, bound to the complete collections and its directory's path. */
  lemma {:induction false} IndexPassJobs(cfg: Config, tree: Tree, entries: seq<Entry>, collections: Collections)
    ensures forall job :: job in IndexPass(cfg, tree, entries, collections).jobs ==>
      IsIndexJob(job) && job.bindings == IndexBindings(collections, GetPathname(cfg.pagesPath, Parent(job.fullPath)))
    decreases |entries|
  {
    if |entries| > 0 {
      IndexPassJobs(cfg, tree, entries[..|entries| - 1], collections);
    }
  }

  /**
   * `build` renders every collection page before any index page, and every
   * index page sees the collections of all directories.
   */
  lemma BuildPhases(cfg: Config, tree: Tree, lib: Lib, entries: seq<Entry>)
    requires ReadDir(tree, cfg.sourcePath) == Success(entries)
    requires CollectPass(cfg, tree, lib, entries).result.Success?
    ensures var c := CollectPass(cfg, tree, lib, entries);
      var jobs := BuildTrace(cfg, tree, lib).jobs;
      && c.jobs <= jobs
      && (forall j :: 0 <= j < |c.jobs| ==> IsPageJob(jobs[j]))
      && (forall j :: |c.jobs| <= j < |jobs| ==>
            IsIndexJob(jobs[j]) &&
            jobs[j].bindings == IndexBindings(c.result.value, GetPathname(cfg.pagesPath, Parent(jobs[j].fullPath))))
  {
    var c := CollectPass(cfg, tree, lib, entries);
    var cols := c.result.value;
    BuildTraceSteps(cfg, tree, lib, entries);
    CollectPassJobs(cfg, tree, lib, entries);
    IndexPassJobs(cfg, tree, entries, cols);
    var second := SecondPass(cfg, tree, entries, cols);
    var jobs := BuildTrace(cfg, tree, lib).jobs;
    assert jobs == c.jobs + second.jobs;
    forall j | |c.jobs| <= j < |jobs|
      ensures IsIndexJob(jobs[j]) && jobs[j].bindings == IndexBindings(cols, GetPathname(cfg.pagesPath, Parent(jobs[j].fullPath)))
    {
      assert jobs[j] == second.jobs[j - |c.jobs|];
      assert jobs[j] in second.jobs;
      var root := IndexTrace(cfg, tree, cfg.sourcePath, cols);
      if jobs[j] in root.jobs {
        assert Parent(IndexPath(cfg.sourcePath)) == cfg.sourcePath;
      }
    }
    forall j | 0 <= j < |c.jobs| ensures IsPageJob(jobs[j]) {
      assert jobs[j] == c.jobs[j];
    }
  }

  /** The second pass over a listing in two parts renders the first part's index pages, then the second's. */
  lemma {:induction false} IndexPassAppend(cfg: Config, tree: Tree, a: seq<Entry>, b: seq<Entry>, collections: Collections)
    requires IndexPass(cfg, tree, a, collections).result.Success?
    ensures var ab, pa, pb := IndexPass(cfg, tree, a + b, collections), IndexPass(cfg, tree, a, collections), IndexPass(cfg, tree, b, collections);
      ab.jobs == pa.jobs + pb.jobs && ab.result == pb.result
    decreases |b|
  {
    if |b| == 0 {
      assert a + b == a;
      var u: () := IndexPass(cfg, tree, a, collections).result.value;
      assert u == ();
    } else {
      var init := b[..|b| - 1];
      assert (a + b)[..|a + b| - 1] == a + init;
      IndexPassAppend(cfg, tree, a, init, collections);
    }
  }

  /** For a single entry, the second pass renders that directory's index page, or nothing for a file. */
  lemma IndexPassOne(cfg: Config, tree: Tree, e: Entry, collections: Collections)
    ensures IndexPass(cfg, tree, [e], collections) ==
      if e.kind == Directory then IndexTrace(cfg, tree, EntryPath(cfg.sourcePath, e), collections) else Trace([], Success(()))
  {
    assert [e][..0] == [];
  }

  /**
   * Index pages render in order: the root's first, then those of the
   * directories before entry `k`, then entry `k`'s own.
   */
  lemma IndexOrder(cfg: Config, tree: Tree, entries: seq<Entry>, collections: Collections, k: nat)
    requires k < |entries| && entries[k].kind == Directory
    requires IndexTrace(cfg, tree, cfg.sourcePath, collections).result.Success?
    requires IndexPass(cfg, tree, entries[..k], collections).result.Success?
    ensures var root, before := IndexTrace(cfg, tree, cfg.sourcePath, collections), IndexPass(cfg, tree, entries[..k], collections);
      var here := IndexTrace(cfg, tree, EntryPath(cfg.sourcePath, entries[k]), collections);
      root.jobs + before.jobs + here.jobs <= SecondPass(cfg, tree, entries, collections).jobs
  {
    var e, rest := entries[k], entries[k + 1..];
    var tail := [e] + rest;
    var root := IndexTrace(cfg, tree, cfg.sourcePath, collections);
    var before := IndexPass(cfg, tree, entries[..k], collections);
    var here := IndexTrace(cfg, tree, EntryPath(cfg.sourcePath, e), collections);
    var all, rem := IndexPass(cfg, tree, entries, collections), IndexPass(cfg, tree, tail, collections);
    assert SecondPass(cfg, tree, entries, collections).jobs == root.jobs + all.jobs;
    assert entries == entries[..k] + tail;
    IndexPassAppend(cfg, tree, entries[..k], tail, collections);
    assert all.jobs == before.jobs + rem.jobs;
    IndexPassPrefix(cfg, tree, tail, collections, 1);
    assert tail[..1] == [e];
    IndexPassOne(cfg, tree, e, collections);
    assert here.jobs <= rem.jobs;
    PrefixAfter(root.jobs, before.jobs, here.jobs, rem.jobs);
  }

  lemma PrefixAfter<T>(a: seq<T>, b: seq<T>, c: seq<T>, d: seq<T>)
    requires c <= d
    ensures a + b + c <= a + (b + d)
  {
    assert a + (b + d) == (a + b) + d;
    assert (a + b + d)[..|a + b + c|] == a + b + c;
  }

  /**
   * `processIndexFile` renders nothing when `index.liquid` is absent, and
   * otherwise at most that file's own text, under its own path, bound to
   * every collection and the directory's site path.
   */
  lemma IndexTraceSpec(cfg: Config, tree: Tree, dirPath: Path, collections: Collections)
    ensures var t := IndexTrace(cfg, tree, dirPath, collections);
      && (!Exists(tree, IndexPath(dirPath)) ==> t == Trace([], Success(())))
      && (Exists(tree, IndexPath(dirPath)) && IndexPath(dirPath) !in tree.files ==>
            t == Trace([], Failure(ReadFailed(IndexPath(dirPath)))))
      && (forall job :: job in t.jobs ==>
            && IndexPath(dirPath) in tree.files
            && job == Job(IndexPath(dirPath), tree.files[IndexPath(dirPath)],
                          IndexBindings(collections, GetPathname(cfg.pagesPath, dirPath))))
  {
  }

  /** No name ends in both `.liquid` and `.md`, so the two tests of the callback never both hold. */
  lemma LiquidIsNotMd(name: string)
    requires EndsWith(name, ".liquid")
    ensures !EndsWith(name, ".md")
  {
    assert name[|name| - 2] == 'i';
  }

  /** The callback of `parseCollectionContent` for one member. */
  method ParseMember(site: Site, cfg: Config, tree: Tree, lib: Lib, dir: Path, entry: Entry)
    returns (res: Result<Frontmatter, BuildError>)
    requires site.Valid()
    modifies site
    ensures site.Valid()
    ensures (site.State(), res) == Exec(old(site.State()), cfg, lib, MemberTrace(cfg, tree, lib, dir, entry))
  {
    var file := EntryPath(dir, entry);
    var text := ReadFile(tree, file);
    if text.Failure? {
      return Failure(text.error);
    }
    var parsed := ExtractFrontmatter(text.value, file);
    var fm := MakeRecord(parsed.frontmatter, RecordPathname(cfg, file));
    if EndsWith(entry.name, ".liquid") {
      LiquidIsNotMd(entry.name);
      var r := site.GenerateHtml(cfg, lib, parsed.fullPath, parsed.content, AsBindings(fm));
      if r.Failure? {
        return Failure(r.error);
      }
    }
    if EndsWith(entry.name, ".md") {
      var r := ProcessMarkdownFile(site, cfg, tree, lib, parsed.fullPath, parsed.content, fm);
      if r.Failure? {
        return Failure(r.error);
      }
    }
    res := Success(fm);
  }

  /** `parseCollectionContent(dir)`: the records of the members of `dir`, in listing order. */
  method ParseCollectionContent(site: Site, cfg: Config, tree: Tree, lib: Lib, dir: Path)
    returns (res: Result<seq<Frontmatter>, BuildError>)
    requires site.Valid()
    modifies site
    ensures site.Valid()
    ensures (site.State(), res) == Exec(old(site.State()), cfg, lib, ParseCollectionTrace(cfg, tree, lib, dir))
  {
    var listing := ReadDir(tree, dir);
    if listing.Failure? {
      return Failure(listing.error);
    }
    var members := Members(listing.value);
    ghost var start := site.State();
    var frontmatters: seq<Frontmatter> := [];
    for i := 0 to |members|
      invariant site.Valid()
      invariant CollectionTrace(cfg, tree, lib, dir, members[..i]).result == Success(frontmatters)
      invariant RunJobs(start, cfg, lib, CollectionTrace(cfg, tree, lib, dir, members[..i]).jobs) == Run(site.State(), None)
    {
      ghost var before := site.State();
      ghost var prev := CollectionTrace(cfg, tree, lib, dir, members[..i]);
      ghost var m := MemberTrace(cfg, tree, lib, dir, members[i]);
      ghost var next := CollectionTrace(cfg, tree, lib, dir, members[..i + 1]);
      assert members[..i + 1][..i] == members[..i];
      assert next.jobs == prev.jobs + m.jobs;
      RunThen(start, before, cfg, lib, prev.jobs, m.jobs);
      var fm := ParseMember(site, cfg, tree, lib, dir, members[i]);
      assert RunJobs(start, cfg, lib, next.jobs) == RunJobs(before, cfg, lib, m.jobs);
      if fm.Failure? {
        assert Exec(start, cfg, lib, next) == (site.State(), Failure(fm.error));
        CollectionPrefix(cfg, tree, lib, dir, members, i + 1);
        ExecExtends(start, cfg, lib, next, CollectionTrace(cfg, tree, lib, dir, members));
        return Failure(fm.error);
      }
      assert m.result == fm && next.result == Success(frontmatters + [fm.value]);
      frontmatters := frontmatters + [fm.value];
    }
    assert members[..|members|] == members;
    res := Success(frontmatters);
  }

  /** `processIndexFile(dirPath, collections)`: render the directory's `index.liquid`, if there is one. */
  method ProcessIndexFile(site: Site, cfg: Config, tree: Tree, lib: Lib, dirPath: Path, collections: Collections)
    returns (res: Result<(), BuildError>)
    requires site.Valid()
    modifies site
    ensures site.Valid()
    ensures (site.State(), res) == Exec(old(site.State()), cfg, lib, IndexTrace(cfg, tree, dirPath, collections))
  {
    var indexPath := IndexPath(dirPath);
    if Exists(tree, indexPath) {
      var content := ReadFile(tree, indexPath);
      if content.Failure? {
        return Failure(content.error);
      }
      res := site.GenerateHtml(cfg, lib, indexPath, content.value,
                               IndexBindings(collections, GetPathname(cfg.pagesPath, dirPath)));
    } else {
      res := Success(());
    }
  }

  /** The first pass of `build`: the collection of every directory among `entries`. */
  method GatherCollections(site: Site, cfg: Config, tree: Tree, lib: Lib, entries: seq<Entry>)
    returns (res: Result<Collections, BuildError>)
    requires site.Valid()
    modifies site
    ensures site.Valid()
    ensures (site.State(), res) == Exec(old(site.State()), cfg, lib, CollectPass(cfg, tree, lib, entries))
  {
    ghost var start := site.State();
    var collections: Collections := map[];
    for i := 0 to |entries|
      invariant site.Valid()
      invariant CollectPass(cfg, tree, lib, entries[..i]).result == Success(collections)
      invariant RunJobs(start, cfg, lib, CollectPass(cfg, tree, lib, entries[..i]).jobs) == Run(site.State(), None)
    {
      var entry := entries[i];
      var fullPath := EntryPath(cfg.sourcePath, entry);
      var relativePath := Relative(cfg.sourcePath, fullPath);
      assert entries[..i + 1][..i] == entries[..i];
      if entry.kind == Directory {
        ghost var before := site.State();
        ghost var prev := CollectPass(cfg, tree, lib, entries[..i]);
        ghost var c := ParseCollectionTrace(cfg, tree, lib, fullPath);
        ghost var next := CollectPass(cfg, tree, lib, entries[..i + 1]);
        RunThen(start, before, cfg, lib, prev.jobs, c.jobs);
        var records := ParseCollectionContent(site, cfg, tree, lib, fullPath);
        if records.Failure? {
          CollectPassPrefix(cfg, tree, lib, entries, i + 1);
          ExecExtends(start, cfg, lib, next, CollectPass(cfg, tree, lib, entries));
          return Failure(records.error);
        }
        collections := collections[relativePath := records.value];
      }
    }
    assert entries[..|entries|] == entries;
    res := Success(collections);
  }

  /** The loop of the second pass of `build`: the index page of every directory among `entries`. */
  method ProcessIndexFiles(site: Site, cfg: Config, tree: Tree, lib: Lib, entries: seq<Entry>, collections: Collections)
    returns (res: Result<(), BuildError>)
    requires site.Valid()
    modifies site
    ensures site.Valid()
    ensures (site.State(), res) == Exec(old(site.State()), cfg, lib, IndexPass(cfg, tree, entries, collections))
  {
    ghost var start := site.State();
    for i := 0 to |entries|
      invariant site.Valid()
      invariant IndexPass(cfg, tree, entries[..i], collections).result == Success(())
      invariant RunJobs(start, cfg, lib, IndexPass(cfg, tree, entries[..i], collections).jobs) == Run(site.State(), None)
    {
      var entry := entries[i];
      assert entries[..i + 1][..i] == entries[..i];
      if entry.kind == Directory {
        ghost var before := site.State();
        var r := ProcessIndexFile(site, cfg, tree, lib, EntryPath(cfg.sourcePath, entry), collections);
        IndexStep(start, before, site.State(), cfg, tree, lib, entries, collections, i, r);
        if r.Failure? {
          return Failure(r.error);
        }
      } else {
        assert IndexPass(cfg, tree, entries[..i + 1], collections) == IndexPass(cfg, tree, entries[..i], collections);
      }
    }
    assert entries[..|entries|] == entries;
    res := Success(());
  }

  /**
   * One step of the second loop: after the index page of directory entry
   * `i`, the loop either goes on from the new state or ends with the error
   * the whole pass ends with.
   */
  lemma IndexStep(start: OutFs, before: OutFs, after: OutFs, cfg: Config, tree: Tree, lib: Lib,
                  entries: seq<Entry>, collections: Collections, i: nat, r: Result<(), BuildError>)
    requires i < |entries| && entries[i].kind == Directory
    requires IndexPass(cfg, tree, entries[..i], collections).result == Success(())
    requires RunJobs(start, cfg, lib, IndexPass(cfg, tree, entries[..i], collections).jobs) == Run(before, None)
    requires (after, r) == Exec(before, cfg, lib, IndexTrace(cfg, tree, EntryPath(cfg.sourcePath, entries[i]), collections))
    ensures r.Success? ==>
      && IndexPass(cfg, tree, entries[..i + 1], collections).result == Success(())
      && RunJobs(start, cfg, lib, IndexPass(cfg, tree, entries[..i + 1], collections).jobs) == Run(after, None)
    ensures r.Failure? ==> Exec(start, cfg, lib, IndexPass(cfg, tree, entries, collections)) == (after, Failure(r.error))
  {
    var prev := IndexPass(cfg, tree, entries[..i], collections);
    var t := IndexTrace(cfg, tree, EntryPath(cfg.sourcePath, entries[i]), collections);
    var next := IndexPass(cfg, tree, entries[..i + 1], collections);
    assert entries[..i + 1][..i] == entries[..i];
    assert next == Trace(prev.jobs + t.jobs, t.result);
    RunThen(start, before, cfg, lib, prev.jobs, t.jobs);
    assert Exec(start, cfg, lib, next) == (after, r);
    if r.Failure? {
      IndexPassPrefix(cfg, tree, entries, collections, i + 1);
      ExecExtends(start, cfg, lib, next, IndexPass(cfg, tree, entries, collections));
    } else {
      var u: () := r.value;
      assert u == ();
    }
  }

  /** Unfolds `BuildTrace` once the listing has been read. */
  lemma BuildTraceSteps(cfg: Config, tree: Tree, lib: Lib, entries: seq<Entry>)
    requires ReadDir(tree, cfg.sourcePath) == Success(entries)
    ensures var c := CollectPass(cfg, tree, lib, entries);
      && (c.result.Failure? ==> BuildTrace(cfg, tree, lib) == Trace(c.jobs, Failure(c.result.error)))
      && (c.result.Success? ==>
            var second := SecondPass(cfg, tree, entries, c.result.value);
            BuildTrace(cfg, tree, lib) == Trace(c.jobs + second.jobs, second.result))
  {
  }

  /** `build(config)`: gather every collection, then render the index pages. */
  method Build(site: Site, cfg: Config, tree: Tree, lib: Lib) returns (res: Result<(), BuildError>)
    requires site.Valid()
    modifies site
    ensures site.Valid()
    ensures (site.State(), res) == Exec(old(site.State()), cfg, lib, BuildTrace(cfg, tree, lib))
  {
    var listing := ReadDir(tree, cfg.sourcePath);
    if listing.Failure? {
      return Failure(listing.error);
    }
    var entries := listing.value;
    ghost var start := site.State();
    ghost var c := CollectPass(cfg, tree, lib, entries);
    ghost var whole := BuildTrace(cfg, tree, lib);
    BuildTraceSteps(cfg, tree, lib, entries);

    // First pass: gather all collections.
    var collections := GatherCollections(site, cfg, tree, lib, entries);
    if collections.Failure? {
      ExecExtends(start, cfg, lib, c, whole);
      return Failure(collections.error);
    }
    ghost var mid := site.State();
    assert c.result == collections && RunJobs(start, cfg, lib, c.jobs) == Run(mid, None);
    ghost var second := SecondPass(cfg, tree, entries, collections.value);
    ExecAfter(start, mid, cfg, lib, c.jobs, second);

    // Second pass: the root's index page, then each directory's.
    ghost var root := IndexTrace(cfg, tree, cfg.sourcePath, collections.value);
    var r := ProcessIndexFile(site, cfg, tree, lib, cfg.sourcePath, collections.value);
    ghost var subs := IndexPass(cfg, tree, entries, collections.value);
    assert root.result.Failure? ==> second == root;
    assert root.result.Success? ==> second == Trace(root.jobs + subs.jobs, subs.result);
    if r.Failure? {
      ExecExtends(mid, cfg, lib, root, second);
      return Failure(r.error);
    }
    ExecAfter(mid, site.State(), cfg, lib, root.jobs, subs);
    res := ProcessIndexFiles(site, cfg, tree, lib, entries, collections.value);
  }
}
