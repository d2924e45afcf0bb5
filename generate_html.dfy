/**
 * `generateHtml` of src/generateHtml.ts: where a page is written, and the
 * output filesystem it is written into.
 */
module HtmlGeneration {
  import opened Wrappers
  import opened Strings
  import opened Paths
  import opened Types

  /** `.replace(".liquid", ".html").replace(".md", ".html")`: each rewrites its first occurrence, anywhere. */
  function RewriteExtension(rel: string): string {
    ReplaceFirst(ReplaceFirst(rel, ".liquid", ".html"), ".md", ".html")
  }

  /** `path.join(buildPath, path.relative(sourcePath, fullPath)` rewritten`)`: the output file of `fullPath`. */
  function OutputFile(cfg: Config, fullPath: Path): Path {
    JoinPath(cfg.buildPath, RewriteExtension(Relative(cfg.sourcePath, fullPath)))
  }

  /** A relative path holding neither pattern is not rewritten. */
  lemma RewriteAbsent(rel: string)
    requires forall i: nat :: !OccursAt(rel, ".liquid", i) && !OccursAt(rel, ".md", i)
    ensures RewriteExtension(rel) == rel
  {
    ReplaceFirstAbsent(rel, ".liquid", ".html");
    ReplaceFirstAbsent(rel, ".md", ".html");
  }

  /** `".html"` holds no `".md"`. */
  lemma HtmlHasNoMd()
    ensures forall i: nat :: !OccursAt(".html", ".md", i)
  {
    forall i: nat ensures !OccursAt(".html", ".md", i) {
      if i + 3 <= 5 {
        assert ".html"[i..i + 3][0] == ".html"[i];
        assert ".html"[i..i + 3][1] == ".html"[i + 1];
      }
    }
  }

  /** A name whose only pattern is a trailing `.liquid` or `.md` ends in `.html` instead. */
  lemma RewriteTrailing(base: string, ext: string)
    requires ext == ".liquid" || ext == ".md"
    requires forall i: nat :: !OccursAt(base, ".liquid", i) && !OccursAt(base, ".md", i)
    ensures RewriteExtension(base + ext) == base + ".html"
  {
    NoOccurrenceAcross(base, ext, ".liquid", '.');
    ReplaceFirstSkip(base, ext, ".liquid", ".html");
    if ext == ".liquid" {
      assert FirstAt(ext, ".liquid", 0);
      ReplaceFirstAt(ext, ".liquid", ".html", 0);
    } else {
      ReplaceFirstAbsent(ext, ".liquid", ".html");
      assert FirstAt(ext, ".md", 0);
      ReplaceFirstAt(ext, ".md", ".html", 0);
    }
    assert ReplaceFirst(base + ext, ".liquid", ".html") == base + (if ext == ".liquid" then ".html" else ".md");
    if ext == ".liquid" {
      NoOccurrenceAcross(base, ".html", ".md", '.');
      ReplaceFirstSkip(base, ".html", ".md", ".html");
      HtmlHasNoMd();
      ReplaceFirstAbsent(".html", ".md", ".html");
    } else {
      NoOccurrenceAcross(base, ".md", ".md", '.');
      ReplaceFirstSkip(base, ".md", ".md", ".html");
    }
  }

  /** Rewriting a normal segment yields a normal segment. */
  lemma RewriteValid(name: string)
    requires ValidSegment(name)
    ensures ValidSegment(RewriteExtension(name))
  {
    ReplaceFirstShape(name, ".liquid", ".html", '/');
    var once := ReplaceFirst(name, ".liquid", ".html");
    ReplaceFirstShape(once, ".md", ".html", '/');
  }

  /**
   * The first occurrence of a pattern free of `/` in a joined path, when no
   * directory segment holds the pattern, is in the last segment.
   */
  lemma {:induction false} ReplaceInLast(dirs: seq<string>, name: string, pat: string, rep: string)
    requires |pat| > 0 && '/' !in pat
    requires forall k: nat, i: nat :: k < |dirs| ==> !OccursAt(dirs[k], pat, i)
    ensures ReplaceFirst(Join(dirs + [name], '/'), pat, rep) == Join(dirs + [ReplaceFirst(name, pat, rep)], '/')
    decreases |dirs|
  {
    if dirs == [] {
      assert dirs + [name] == [name];
      assert dirs + [ReplaceFirst(name, pat, rep)] == [ReplaceFirst(name, pat, rep)];
    } else {
      var d, rest := dirs[0], dirs[1..];
      var newName := ReplaceFirst(name, pat, rep);
      assert (dirs + [name])[1..] == rest + [name];
      assert (dirs + [newName])[1..] == rest + [newName];
      forall k: nat, i: nat | k < |rest| ensures !OccursAt(rest[k], pat, i) {
        assert rest[k] == dirs[k + 1];
      }
      ReplaceInLast(rest, name, pat, rep);
      var tail := Join(rest + [name], '/');
      assert Join(dirs + [name], '/') == (d + "/") + tail;
      assert Join(dirs + [newName], '/') == (d + "/") + Join(rest + [newName], '/');
      forall i: nat | i < |d| + 1 ensures !OccursAt((d + "/") + tail, pat, i) {
        if i < |d| {
          assert !OccursAt(dirs[0], pat, i);
          NoOccurrenceAcross(d, "/" + tail, pat, '/');
          assert (d + "/") + tail == d + ("/" + tail);
        } else {
          assert ((d + "/") + tail)[i] == '/';
        }
      }
      ReplaceFirstSkip(d + "/", tail, pat, rep);
    }
  }

  /**
   * A page `dirs/name` below the source root is written to `dirs/name'` below
   * the build root, `name'` being `name` rewritten, when no directory on the
   * way holds either pattern.
   */
  lemma OutputFileBelow(cfg: Config, dirs: Path, name: string)
    requires ValidPath(dirs) && ValidSegment(name)
    requires forall k: nat, i: nat :: k < |dirs| ==> !OccursAt(dirs[k], ".liquid", i) && !OccursAt(dirs[k], ".md", i)
    ensures OutputFile(cfg, cfg.sourcePath + dirs + [name]) == cfg.buildPath + dirs + [RewriteExtension(name)]
  {
    var full := cfg.sourcePath + dirs + [name];
    RelativeBelow(cfg.sourcePath, full);
    assert full[|cfg.sourcePath|..] == dirs + [name];
    ReplaceInLast(dirs, name, ".liquid", ".html");
    ReplaceInLast(dirs, ReplaceFirst(name, ".liquid", ".html"), ".md", ".html");
    RewriteValid(name);
    JoinPathNormal(cfg.buildPath, dirs + [RewriteExtension(name)]);
    assert cfg.buildPath + (dirs + [RewriteExtension(name)]) == cfg.buildPath + dirs + [RewriteExtension(name)];
  }

  /** The output filesystem: the directories that exist and the files written. */
  datatype OutFs = OutFs(dirs: set<Path>, files: map<Path, string>)

  /** The root exists, and a directory exists only with all its parents. */
  predicate ValidDirs(dirs: set<Path>) {
    [] in dirs && forall d, i :: d in dirs && 0 <= i <= |d| ==> d[..i] in dirs
  }

  predicate ValidFs(fs: OutFs) {
    ValidDirs(fs.dirs)
  }

  /** `mkdir(dirPath)` of src/utils/fsHelpers.ts: unless it exists, create it with its parents. */
  function CreateDir(dirs: set<Path>, dirPath: Path): set<Path> {
    if dirPath in dirs then dirs else dirs + Ancestors(dirPath)
  }

  /** On a consistent filesystem the guard only saves work: afterwards the directory and all its parents exist. */
  lemma CreateDirAncestors(dirs: set<Path>, dirPath: Path)
    ensures ValidDirs(dirs) ==> CreateDir(dirs, dirPath) == dirs + Ancestors(dirPath) && ValidDirs(CreateDir(dirs, dirPath))
  {
    if ValidDirs(dirs) {
      forall a | a in Ancestors(dirPath) ensures a <= dirPath {
        AncestorsArePrefixes(dirPath, a);
      }
      if dirPath in dirs {
        forall a | a in Ancestors(dirPath) ensures a in dirs {
          assert a == dirPath[..|a|];
        }
      }
      var after := dirs + Ancestors(dirPath);
      forall d, i | d in after && 0 <= i <= |d| ensures d[..i] in after {
        if d in Ancestors(dirPath) {
          assert d[..i] == dirPath[..i];
          AncestorsArePrefixes(dirPath, d[..i]);
        }
      }
    }
  }

  /** What running some `generateHtml` calls leaves behind: the output, and the failure that stopped them. */
  datatype Run = Run(fs: OutFs, failed: Option<BuildError>)

  /**
   * One `generateHtml` call: render, create the output file's directory,
   * format, write.  A template the engine rejects stops before any of that.
   */
  function Generate(fs: OutFs, cfg: Config, lib: Lib, job: Job): Run {
    var outputFile := OutputFile(cfg, job.fullPath);
    match lib.render(job.template, job.bindings)
    case None => Run(fs, Some(RenderFailed(job.fullPath)))
    case Some(html) => Run(OutFs(CreateDir(fs.dirs, Parent(outputFile)), fs.files[outputFile := lib.format(html)]), None)
  }

  /**
   * A rejected template leaves the output as it was and names the page;
   * otherwise the output file holds the formatted page, no other file
   * changes, and the file's directory exists with all its parents.
   */
  lemma GenerateSpec(fs: OutFs, cfg: Config, lib: Lib, job: Job)
    ensures var r := Generate(fs, cfg, lib, job);
      && (r.failed.Some? <==> lib.render(job.template, job.bindings).None?)
      && (r.failed.Some? ==> r == Run(fs, Some(RenderFailed(job.fullPath))))
      && (r.failed.None? ==>
            var out := OutputFile(cfg, job.fullPath);
            && out in r.fs.files
            && r.fs.files[out] == lib.format(lib.render(job.template, job.bindings).value)
            && (forall p :: p != out ==> (p in r.fs.files <==> p in fs.files))
            && (forall p :: p != out && p in fs.files ==> r.fs.files[p] == fs.files[p]))
      && (r.failed.None? && ValidFs(fs) ==>
            ValidFs(r.fs) && r.fs.dirs == fs.dirs + Ancestors(Parent(OutputFile(cfg, job.fullPath))))
  {
    CreateDirAncestors(fs.dirs, Parent(OutputFile(cfg, job.fullPath)));
  }

  /** The `generateHtml` calls a step of the build makes, in order, and what the step itself returns. */
  datatype Trace<T> = Trace(jobs: seq<Job>, result: Result<T, BuildError>)

  /** Run `jobs` in order from `fs`, stopping at the first template the engine rejects. */
  function RunJobs(fs: OutFs, cfg: Config, lib: Lib, jobs: seq<Job>): (r: Run)
    decreases |jobs|
  {
    if |jobs| == 0 then Run(fs, None)
    else
      var prev := RunJobs(fs, cfg, lib, jobs[..|jobs| - 1]);
      if prev.failed.Some? then prev else Generate(prev.fs, cfg, lib, jobs[|jobs| - 1])
  }

  /** Running jobs keeps the output's directories consistent. */
  lemma {:induction false} RunValid(fs: OutFs, cfg: Config, lib: Lib, jobs: seq<Job>)
    requires ValidFs(fs)
    ensures ValidFs(RunJobs(fs, cfg, lib, jobs).fs)
    decreases |jobs|
  {
    if |jobs| > 0 {
      RunValid(fs, cfg, lib, jobs[..|jobs| - 1]);
      GenerateSpec(RunJobs(fs, cfg, lib, jobs[..|jobs| - 1]).fs, cfg, lib, jobs[|jobs| - 1]);
    }
  }

  /** Running a trace: its calls, then its own result unless a call failed first. */
  function Exec<T>(fs: OutFs, cfg: Config, lib: Lib, t: Trace<T>): (OutFs, Result<T, BuildError>) {
    var r := RunJobs(fs, cfg, lib, t.jobs);
    (r.fs, if r.failed.Some? then Failure(r.failed.value) else t.result)
  }

  /** Running `a + b` runs `a`, then `b` unless `a` failed. */
  lemma {:induction false} RunAppend(fs: OutFs, cfg: Config, lib: Lib, a: seq<Job>, b: seq<Job>)
    ensures RunJobs(fs, cfg, lib, a + b) ==
      var r := RunJobs(fs, cfg, lib, a);
      if r.failed.Some? then r else RunJobs(r.fs, cfg, lib, b)
    decreases |b|
  {
    if |b| == 0 {
      assert a + b == a;
    } else {
      var b0 := b[..|b| - 1];
      assert (a + b)[..|a + b| - 1] == a + b0;
      assert (a + b)[|a + b| - 1] == b[|b| - 1];
      RunAppend(fs, cfg, lib, a, b0);
    }
  }

  /** Jobs after a prefix that ran cleanly run from where the prefix left the output. */
  lemma RunThen(fs: OutFs, mid: OutFs, cfg: Config, lib: Lib, a: seq<Job>, b: seq<Job>)
    requires RunJobs(fs, cfg, lib, a) == Run(mid, None)
    ensures RunJobs(fs, cfg, lib, a + b) == RunJobs(mid, cfg, lib, b)
  {
    RunAppend(fs, cfg, lib, a, b);
  }

  /** Executing a trace after jobs that ran cleanly is executing it from where they left the output. */
  lemma ExecAfter<T>(fs: OutFs, mid: OutFs, cfg: Config, lib: Lib, pre: seq<Job>, t: Trace<T>)
    requires RunJobs(fs, cfg, lib, pre) == Run(mid, None)
    ensures Exec(fs, cfg, lib, Trace(pre + t.jobs, t.result)) == Exec(mid, cfg, lib, t)
  {
    RunThen(fs, mid, cfg, lib, pre, t.jobs);
  }

  /**
   * A trace that failed decides every trace extending it: one whose jobs
   * start with its jobs and which, when its own result is a failure, ends
   * the same way.
   */
  lemma ExecExtends<A, B>(fs: OutFs, cfg: Config, lib: Lib, a: Trace<A>, b: Trace<B>)
    requires a.jobs <= b.jobs
    requires a.result.Failure? ==> b == Trace(a.jobs, Failure(a.result.error))
    requires Exec(fs, cfg, lib, a).1.Failure?
    ensures Exec(fs, cfg, lib, b).0 == Exec(fs, cfg, lib, a).0
    ensures Exec(fs, cfg, lib, b).1 == Failure(Exec(fs, cfg, lib, a).1.error)
  {
    if RunJobs(fs, cfg, lib, a.jobs).failed.Some? {
      assert b.jobs == a.jobs + b.jobs[|a.jobs|..];
      RunAppend(fs, cfg, lib, a.jobs, b.jobs[|a.jobs|..]);
    }
  }

  /**
   * The first job whose template the engine rejects stops the run: the output
   * is what the jobs before it left, and the failure names its page.
   */
  lemma RunStopsAtFailure(fs: OutFs, cfg: Config, lib: Lib, jobs: seq<Job>, k: nat)
    requires k < |jobs| && lib.render(jobs[k].template, jobs[k].bindings).None?
    requires forall j :: 0 <= j < k ==> lib.render(jobs[j].template, jobs[j].bindings).Some?
    ensures RunJobs(fs, cfg, lib, jobs[..k]).failed == None
    ensures RunJobs(fs, cfg, lib, jobs) == Run(RunJobs(fs, cfg, lib, jobs[..k]).fs, Some(RenderFailed(jobs[k].fullPath)))
  {
    RunSucceeds(fs, cfg, lib, jobs[..k]);
    assert jobs[..k + 1][..k] == jobs[..k];
    assert jobs == jobs[..k + 1] + jobs[k + 1..];
    RunAppend(fs, cfg, lib, jobs[..k + 1], jobs[k + 1..]);
  }

  /** When every template renders, the run does not fail. */
  lemma {:induction false} RunSucceeds(fs: OutFs, cfg: Config, lib: Lib, jobs: seq<Job>)
    requires forall j :: 0 <= j < |jobs| ==> lib.render(jobs[j].template, jobs[j].bindings).Some?
    ensures RunJobs(fs, cfg, lib, jobs).failed == None
    decreases |jobs|
  {
    if |jobs| > 0 {
      RunSucceeds(fs, cfg, lib, jobs[..|jobs| - 1]);
    }
  }

  /**
   * When every template renders, the run does not fail, every job's output
   * file exists, the last job's file holds its formatted page, and every
   * other file is as it was.
   */
  lemma {:induction false} RunRenders(fs: OutFs, cfg: Config, lib: Lib, jobs: seq<Job>)
    requires forall j :: 0 <= j < |jobs| ==> lib.render(jobs[j].template, jobs[j].bindings).Some?
    ensures RunJobs(fs, cfg, lib, jobs).failed == None
    ensures forall j :: 0 <= j < |jobs| ==> OutputFile(cfg, jobs[j].fullPath) in RunJobs(fs, cfg, lib, jobs).fs.files
    ensures |jobs| > 0 ==>
      var last := jobs[|jobs| - 1];
      RunJobs(fs, cfg, lib, jobs).fs.files[OutputFile(cfg, last.fullPath)] == lib.format(lib.render(last.template, last.bindings).value)
    ensures forall p :: (forall j :: 0 <= j < |jobs| ==> p != OutputFile(cfg, jobs[j].fullPath)) ==>
      (p in RunJobs(fs, cfg, lib, jobs).fs.files <==> p in fs.files) &&
      (p in fs.files ==> RunJobs(fs, cfg, lib, jobs).fs.files[p] == fs.files[p])
    decreases |jobs|
  {
    if |jobs| > 0 {
      var init := jobs[..|jobs| - 1];
      RunRenders(fs, cfg, lib, init);
      var prev := RunJobs(fs, cfg, lib, init);
      var r := RunJobs(fs, cfg, lib, jobs);
      GenerateSpec(prev.fs, cfg, lib, jobs[|jobs| - 1]);
      assert r == Generate(prev.fs, cfg, lib, jobs[|jobs| - 1]);
      forall j | 0 <= j < |jobs| ensures OutputFile(cfg, jobs[j].fullPath) in r.fs.files {
        if j < |jobs| - 1 {
          assert jobs[j] == init[j];
        }
      }
      forall p | (forall j :: 0 <= j < |jobs| ==> p != OutputFile(cfg, jobs[j].fullPath))
        ensures (p in r.fs.files <==> p in fs.files) && (p in fs.files ==> r.fs.files[p] == fs.files[p])
      {
        assert forall j :: 0 <= j < |init| ==> init[j] == jobs[j];
        assert p != OutputFile(cfg, jobs[|jobs| - 1].fullPath);
      }
    }
  }

  /**
   * The output filesystem a build writes into.  Its directories are kept
   * consistent; writing a file needs its directory to exist, as
   * `fs.writeFileSync` does.
   */
  class Site {
    var dirs: set<Path>
    var files: map<Path, string>

    function State(): OutFs
      reads this
    {
      OutFs(dirs, files)
    }

    ghost predicate Valid()
      reads this
    {
      ValidFs(State())
    }

    constructor (start: OutFs)
      requires ValidFs(start)
      ensures State() == start && Valid()
    {
      dirs := start.dirs;
      files := start.files;
    }

    /** `mkdir(dirPath)`: unless the directory exists, create it with its parents. */
    method Mkdir(dirPath: Path)
      requires Valid()
      modifies this
      ensures Valid()
      ensures dirs == old(dirs) + Ancestors(dirPath) && files == old(files)
    {
      CreateDirAncestors(dirs, dirPath);
      if dirPath !in dirs {
        dirs := dirs + Ancestors(dirPath);
      }
    }

    /** `fs.writeFileSync(p, text)` into an existing directory. */
    method WriteFile(p: Path, text: string)
      requires Valid() && Parent(p) in dirs
      modifies this
      ensures Valid()
      ensures dirs == old(dirs) && files == old(files)[p := text]
    {
      files := files[p := text];
    }

    /**
     * `generateHtml(fullPath, content, variables)`: render `content` with
     * `variables`, create the output file's directory, format the page and
     * write it there.  A rejected template leaves the output untouched.
     */
    method GenerateHtml(cfg: Config, lib: Lib, fullPath: Path, content: string, variables: Bindings)
      returns (res: Result<(), BuildError>)
      requires Valid()
      modifies this
      ensures Valid()
      ensures (State(), res) == Exec(old(State()), cfg, lib, Trace([Job(fullPath, content, variables)], Success(())))
    {
      ghost var job := Job(fullPath, content, variables);
      assert [job][..0] == [];
      assert RunJobs(State(), cfg, lib, [job]) == Generate(State(), cfg, lib, job);
      var outputFile := OutputFile(cfg, fullPath);
      var html := lib.render(content, variables);
      if html.None? {
        return Failure(RenderFailed(fullPath));
      }
      CreateDirAncestors(dirs, Parent(outputFile));
      Mkdir(Parent(outputFile));
      AncestorsArePrefixes(Parent(outputFile), Parent(outputFile));
      var formattedHtml := lib.format(html.value);
      WriteFile(outputFile, formattedHtml);
      assert State() == Generate(old(State()), cfg, lib, job).fs;
      res := Success(());
    }
  }
}
