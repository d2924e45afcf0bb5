/**
 * The records of src/types.ts, the source filesystem the build reads, and
 * the external libraries it calls.
 */
module Types {
  import opened Wrappers
  import opened Paths

  /** The four roots of a build (DrippyConfig). */
  datatype Config = Config(buildPath: Path, templatesPath: Path, sourcePath: Path, pagesPath: Path)

  /** Flat string keys to string values. */
  type Frontmatter = map<string, string>

  /** What `extractFrontmatter` returns. */
  datatype ParseResult = ParseResult(frontmatter: Frontmatter, content: string, fullPath: Path)

  /** A value bound for rendering: a string, or a collection of records. */
  datatype Value = Str(s: string) | Records(records: seq<Frontmatter>)

  type Bindings = map<string, Value>

  /** One `generateHtml(fullPath, content, variables)` call: the template text and its bindings. */
  datatype Job = Job(fullPath: Path, template: string, bindings: Bindings)

  /** The errors that abort a build. */
  datatype BuildError =
    | ReadFailed(path: Path)          // readFileSync or readdirSync on something that is not there
    | MissingTemplate(fullPath: Path) // a Markdown file without a `template` value
    | RenderFailed(fullPath: Path)    // the template engine rejected a template

  /** What `readdirSync(…, { withFileTypes: true })` says an entry is. */
  datatype Kind = File | Directory | Other

  datatype Entry = Entry(name: string, kind: Kind)

  /** A snapshot of the input filesystem: directory listings in listing order, and file contents. */
  datatype Tree = Tree(listings: map<Path, seq<Entry>>, files: map<Path, string>)

  /** Directory entry names are normal path segments. */
  predicate ValidListing(entries: seq<Entry>) {
    forall i :: 0 <= i < |entries| ==> ValidSegment(entries[i].name)
  }

  /** `fs.readFileSync(p)` */
  function ReadFile(t: Tree, p: Path): Result<string, BuildError> {
    if p in t.files then Success(t.files[p]) else Failure(ReadFailed(p))
  }

  /** `fs.readdirSync(p, { withFileTypes: true })` */
  function ReadDir(t: Tree, p: Path): Result<seq<Entry>, BuildError> {
    if p in t.listings then Success(t.listings[p]) else Failure(ReadFailed(p))
  }

  /** `fs.existsSync(p)`: a file or a directory. */
  predicate Exists(t: Tree, p: Path) {
    p in t.files || p in t.listings
  }

  /**
   * The libraries, left uninterpreted: the Liquid engine (which may reject a
   * template), the Markdown converter and the HTML formatter.
   */
  datatype Lib = Lib(render: (string, Bindings) -> Option<string>,
                     markdown: string -> string,
                     format: string -> string)

  /** A record spread into rendering bindings: every key bound to its string. */
  function AsBindings(fm: Frontmatter): Bindings {
    map k | k in fm :: Str(fm[k])
  }
}
