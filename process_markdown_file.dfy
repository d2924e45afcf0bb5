/** `processMarkdownFile` of src/processMarkdownFile.ts: a Markdown page rendered through its template. */
module MarkdownPages {
  import opened Wrappers
  import opened Strings
  import opened Paths
  import opened Types
  import opened HtmlGeneration

  /** `variables.template` is truthy: present and not the empty string. */
  predicate HasTemplate(variables: Frontmatter) {
    "template" in variables && variables["template"] != ""
  }

  /** `path.join(templatesPath, template + ".liquid")` */
  function TemplateFile(cfg: Config, template: string): Path {
    JoinPath(cfg.templatesPath, template + ".liquid")
  }

  /** `{ ...variables, content: marked(content) }` */
  function MarkdownBindings(markdown: string -> string, content: string, variables: Frontmatter): Bindings {
    AsBindings(variables)["content" := Str(markdown(content))]
  }

  /** The `generateHtml` call `processMarkdownFile` makes, or the error it throws first. */
  function MarkdownJob(cfg: Config, tree: Tree, markdown: string -> string, fullPath: Path,
                       content: string, variables: Frontmatter): Result<Job, BuildError>
  {
    if !HasTemplate(variables) then Failure(MissingTemplate(fullPath))
    else
      match ReadFile(tree, TemplateFile(cfg, variables["template"]))
      case Failure(e) => Failure(e)
      case Success(template) => Success(Job(fullPath, template, MarkdownBindings(markdown, content, variables)))
  }

  /**
   * A missing or empty `template` is an error before anything is read;
   * otherwise the template file must exist, and the page renders that file's
   * text (not its own body) under its own path, with its variables and the
   * converted body bound to `content`.
   */
  lemma MarkdownJobSpec(cfg: Config, tree: Tree, markdown: string -> string, fullPath: Path,
                        content: string, variables: Frontmatter)
    ensures var r := MarkdownJob(cfg, tree, markdown, fullPath, content, variables);
      && (r.Failure? <==> !HasTemplate(variables) || TemplateFile(cfg, variables["template"]) !in tree.files)
      && (!HasTemplate(variables) ==> r == Failure(MissingTemplate(fullPath)))
      && (HasTemplate(variables) && TemplateFile(cfg, variables["template"]) !in tree.files ==>
            r == Failure(ReadFailed(TemplateFile(cfg, variables["template"]))))
      && (r.Success? ==>
            && r.value.fullPath == fullPath
            && r.value.template == tree.files[TemplateFile(cfg, variables["template"])]
            && r.value.bindings.Keys == variables.Keys + {"content"}
            && r.value.bindings["content"] == Str(markdown(content))
            && forall k :: k in variables && k != "content" ==> r.value.bindings[k] == Str(variables[k]))
  {
  }

  /** A template name that is a normal segment is looked up directly inside the templates directory. */
  lemma TemplateFileIn(cfg: Config, template: string)
    requires ValidSegment(template)
    ensures TemplateFile(cfg, template) == cfg.templatesPath + [template + ".liquid"]
  {
    var name := template + ".liquid";
    assert '/' !in name by {
      assert forall c :: c in name ==> c in template || c in ".liquid";
    }
    JoinPathNormal(cfg.templatesPath, [name]);
  }

  /** The trace of one `processMarkdownFile` call. */
  function MarkdownTrace(cfg: Config, tree: Tree, lib: Lib, fullPath: Path,
                         content: string, variables: Frontmatter): Trace<()>
  {
    match MarkdownJob(cfg, tree, lib.markdown, fullPath, content, variables)
    case Failure(e) => Trace([], Failure(e))
    case Success(job) => Trace([job], Success(()))
  }

  /** Without a template name nothing is read, nothing is rendered and the output is untouched. */
  lemma MissingTemplateFirst(fs: OutFs, cfg: Config, tree: Tree, lib: Lib, fullPath: Path,
                             content: string, variables: Frontmatter)
    requires !HasTemplate(variables)
    ensures MarkdownTrace(cfg, tree, lib, fullPath, content, variables).jobs == []
    ensures Exec(fs, cfg, lib, MarkdownTrace(cfg, tree, lib, fullPath, content, variables))
            == (fs, Failure(MissingTemplate(fullPath)))
  {
  }

  /** `processMarkdownFile(fullPath, content, variables)` */
  method ProcessMarkdownFile(site: Site, cfg: Config, tree: Tree, lib: Lib, fullPath: Path,
                             content: string, variables: Frontmatter)
    returns (res: Result<(), BuildError>)
    requires site.Valid()
    modifies site
    ensures site.Valid()
    ensures (site.State(), res) == Exec(old(site.State()), cfg, lib, MarkdownTrace(cfg, tree, lib, fullPath, content, variables))
  {
    if !HasTemplate(variables) {
      return Failure(MissingTemplate(fullPath));
    }
    var template := ReadFile(tree, TemplateFile(cfg, variables["template"]));
    if template.Failure? {
      return Failure(template.error);
    }
    res := site.GenerateHtml(cfg, lib, fullPath, template.value, MarkdownBindings(lib.markdown, content, variables));
  }
}
