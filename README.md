# drippy build pipeline, modelled in Dafny

drippy is a small static-site generator. A build reads the top-level
source directory. For every sub-directory it builds a *collection*: one
record per page file, holding the file's frontmatter and its site
`pathname`. Each `.liquid` page is rendered straight away, and each `.md`
page is rendered through the Liquid template its frontmatter names.
Once every collection exists, the build renders the root's `index.liquid`
and then each sub-directory's, with every collection in scope.

This project models that pipeline:

- frontmatter extraction (`extractFrontmatter`);
- the site path of a file (`getPathname`);
- the output path of a page and the order render → mkdir → format → write (`generateHtml`);
- the Markdown composition (`processMarkdownFile`);
- the two-pass orchestration (`build`, `processIndexFile`, `parseCollectionContent`);
- the `snakeCased` string helper.

Modelling choices:

- **Paths.** A path is a sequence of segments below the filesystem root.
  - `path.relative` is modelled in full: the common prefix, then `..` segments.
  - `path.join` is the normalisation of the split relative string onto the base.
- **Filesystems.** The input filesystem is an immutable `Tree` of directory listings and file texts.
- **Output.** The output side is a `Site` object:
  - its fields are the set of existing directories and the map of written files;
  - its methods update those fields in place.
- **Libraries.** LiquidJS, marked and prettier are uninterpreted functions in a `Lib` value. Rendering may fail.
- **Orchestration.** Each operation is specified by a *trace*: the `generateHtml` calls it makes, in order, and its final result.
  - `Exec` runs a trace against the output filesystem and stops at the first render failure.
  - Every method that makes `generateHtml` calls is proved to leave the `Site` exactly as `Exec` of its trace says, and to return what it says.
  - The `Site` constructor, `Site.Mkdir`, `Site.WriteFile`, `ExtractFrontmatter` and `CollectKeys` have no trace. Their contracts state their effect directly.
  - The properties of the traces are lemmas.
- **Configuration.** The configuration is a parameter, in place of `getConfig()`.

The model follows the code as written, including where a looser description would suggest otherwise:

- The output file is computed relative to `sourcePath`, not to the pages root (src/generateHtml.ts:19).
- The extension rewrite replaces the first `.liquid`, then the first `.md`, anywhere in the relative path. It is not a rewrite of a trailing extension.
- Collections are keyed relative to `sourcePath` (src/build.ts:17), not to the pages root.
- A `template` that is present but empty is rejected like a missing one (src/processMarkdownFile.ts:14).
- src/build.ts:8 imports `getPathname` from `./fsHelpers`, but only src/utils/fsHelpers.ts defines it. The model uses that definition.

## Model

| member | source | states |
|---|---|---|
| FrontmatterParser.Extract | src/extractFrontmatter.ts:35-39 | the result's `fullPath` is always the path it was given |
| FrontmatterParser.ExtractWithoutOpening | src/extractFrontmatter.ts:7-13 | a text not starting with `---` gives no keys, and the whole text is the body |
| FrontmatterParser.ExtractUnclosed | src/extractFrontmatter.ts:15-22 | with no `---` at or after index 3, there are no keys and the whole text is the body, dangling delimiter included |
| FrontmatterParser.ExtractClosed | src/extractFrontmatter.ts:15-25 | when the first `---` at or after index 3 is at `e` (even inside a value line), the keys come from the lines of the trimmed text `[3, e)`, and the body is the trimmed text after `e + 3` |
| FrontmatterParser.ExtractFrontmatter | src/extractFrontmatter.ts:4-40 | the step-by-step procedure (delimiter tests, slicing, the key loop) returns exactly `Extract` of the text |
| FrontmatterParser.CollectKeys | src/extractFrontmatter.ts:27-33 | the loop that assigns into the dictionary line by line ends with the frontmatter `Keys` of the lines |
| FrontmatterParser.ParseLine | src/extractFrontmatter.ts:29-31 | definition of one line's `split(":")`, the `key && valueParts.length` test and the trimmed pair; its contract is stated by ParseLineNoColon, ParseLineAt, ParseKeyValue and SpacedPair |
| FrontmatterParser.ParseLineNoColon | src/extractFrontmatter.ts:29-30 | a line with no colon sets no key |
| FrontmatterParser.ParseLineAt | src/extractFrontmatter.ts:29-31 | a line whose first colon is at `c` sets no key if `c == 0`; otherwise it sets the trimmed text before `c` to the trimmed text after it |
| FrontmatterParser.SplitAtFirst | src/extractFrontmatter.ts:29 | `split(":")` gives one part exactly when there is no colon; otherwise the first part is the text before the first colon, and re-joining the rest gives the text after it |
| FrontmatterParser.ParseKeyValue | src/extractFrontmatter.ts:29-31 | `key:value` with a non-empty, colon-free key maps the trimmed key to the trimmed value, and the value's own colons are kept |
| FrontmatterParser.SpacedPair | src/extractFrontmatter.ts:29-31 | `key: value` with trimmed key and value maps key to value |
| FrontmatterParser.ValueKeepsColons | src/extractFrontmatter.ts:29-31 | `time: 12:30:00` sets `time` to `12:30:00` |
| FrontmatterParser.ParseLines | src/extractFrontmatter.ts:28-29 | definition of one `ParseLine` per line of the block, in order; its contract is stated by KeysDomain, KeysLastWins and CollectKeys |
| FrontmatterParser.Assign | src/extractFrontmatter.ts:27-33 | definition of the dictionary filled by assigning the parsed pairs in order; its contract is stated by AssignDomain and AssignLastWins |
| FrontmatterParser.Keys | src/extractFrontmatter.ts:28-33 | definition of the frontmatter of the block's lines; its contract is stated by KeysDomain and KeysLastWins, and CollectKeys computes it |
| FrontmatterParser.AssignDomain | src/extractFrontmatter.ts:28-32 | after assigning the parsed pairs, a key is present exactly when some pair sets it |
| FrontmatterParser.AssignLastWins | src/extractFrontmatter.ts:28-32 | a key's value is the one from the last pair that sets it |
| FrontmatterParser.KeysDomain | src/extractFrontmatter.ts:28-32 | the frontmatter has a key exactly when some line of the block sets it |
| FrontmatterParser.KeysLastWins | src/extractFrontmatter.ts:28-32 | a key set by several lines takes the value from the last of them |
| Strings.StartsWith | src/extractFrontmatter.ts:7 | definition of `startsWith`, also used at src/build.ts:50; its contract is stated by ExtractWithoutOpening, MembersSpec and MemberJobs |
| Strings.EndsWith | src/build.ts:63-67 | definition of `endsWith`; its contract is stated by MemberSpec |
| Strings.IndexOf | src/extractFrontmatter.ts:15 | `indexOf` is -1 or an occurrence at or after `from` |
| Strings.IndexOfSpec | src/extractFrontmatter.ts:15-16 | -1 only when there is no occurrence at or after `from`; otherwise no occurrence lies between `from` and the result |
| Strings.IndexOfIsFirst | src/extractFrontmatter.ts:15 | the first occurrence at or after `from` is what `indexOf` returns |
| Strings.IndexOfNone | src/extractFrontmatter.ts:16 | with no occurrence at or after `from`, `indexOf` is -1 |
| Strings.ReplaceFirst | src/generateHtml.ts:20-21 | definition of `replace` with a string pattern, also used at src/build.ts:59-60; its contract is stated by ReplaceFirstAbsent, ReplaceFirstAt, ReplaceFirstShape and ReplaceFirstSkip |
| Strings.ReplaceFirstAbsent | src/generateHtml.ts:20-21 | `replace` with a string pattern that does not occur leaves the string unchanged |
| Strings.ReplaceFirstAt | src/generateHtml.ts:20-21 | `replace` with a string pattern substitutes only its first occurrence |
| Strings.ReplaceFirstShape | src/generateHtml.ts:20-21 | `replace` either leaves the string unchanged or the result contains the replacement; it introduces no character found in neither the string nor the replacement |
| Strings.NoOccurrenceAcross | src/generateHtml.ts:20-21 | a pattern whose only `c` is its first character, absent from `p`, cannot start inside `p` when `p` is followed by a text starting with `c` |
| Strings.OccursShifted | src/generateHtml.ts:20-21 | an occurrence in `t` at `j` is an occurrence in `p + t` at `j` plus the length of `p`, and the other way round |
| Strings.ReplaceFirstSkip | src/generateHtml.ts:20-21 | when no occurrence starts inside the prefix `p`, `replace` acts on the rest only |
| Strings.ReplaceFirstInSuffix | src/generateHtml.ts:20-21 | a `.`-led pattern absent from `base` is replaced in the `.`-led extension only |
| Strings.FirstIndex | src/extractFrontmatter.ts:29 | the index of the first separator, or the length when there is none |
| Strings.FirstIndexIs | src/extractFrontmatter.ts:29 | a separator with none before it is at the first index |
| Strings.Split | src/extractFrontmatter.ts:28-29 | `split` gives at least one part, no part contains the separator, and re-joining the parts gives the input back |
| Strings.Join | src/extractFrontmatter.ts:31 | definition of `valueParts.join(":")`; its contract is stated by Split, SplitOfJoin, JoinEmpty and JoinSnoc |
| Strings.SplitOfJoin | src/extractFrontmatter.ts:29-31 | joining separator-free parts and splitting again gives the parts back |
| Strings.JoinEmpty | src/utils/fsHelpers.ts:18-19 | a join of non-empty segments is empty exactly when there are no segments |
| Strings.JoinSnoc | src/utils/fsHelpers.ts:18-19 | joining one more segment appends the separator and that segment |
| Strings.TrimStart | src/extractFrontmatter.ts:24-25 | the result is a suffix of the input; every removed character is whitespace; it does not start with whitespace |
| Strings.TrimEnd | src/extractFrontmatter.ts:24-25 | the result is a prefix of the input; every removed character is whitespace; it does not end with whitespace |
| Strings.Trim | src/extractFrontmatter.ts:24-25 | the result neither starts nor ends with whitespace |
| Strings.TrimIsInfix | src/extractFrontmatter.ts:24-25 | the result is a slice of the input, and only whitespace lies on either side of it |
| Strings.TrimTrimmed | src/extractFrontmatter.ts:31 | trimming an already trimmed string is the identity |
| Strings.TrimSpaced | src/extractFrontmatter.ts:31 | trimming a trimmed value behind the space after a colon gives the value |
| Paths.CommonPrefixLength | src/utils/fsHelpers.ts:18 | the two paths agree up to the returned length and differ just after it |
| Paths.Relative | src/utils/fsHelpers.ts:18 | definition of `path.relative`: the common prefix, then one `..` per remaining `from` segment, then the remaining `to` segments; its contract is stated by RelativeBelow, RelativeEmpty and RelativeChild |
| Paths.RelativeBelow | src/utils/fsHelpers.ts:18 | below `from`, `path.relative` is the remaining segments joined by `/` |
| Paths.RelativeEmpty | src/utils/fsHelpers.ts:18-19 | for normal paths, `path.relative` is empty exactly when the two paths are equal |
| Paths.RelativeChild | src/build.ts:16-17 | the path relative to a directory of its child `name` is `name` |
| Paths.Parent | src/generateHtml.ts:25 | `path.dirname` is a prefix one segment shorter, except at the root |
| Paths.Ancestors | src/utils/fsHelpers.ts:7 | definition of the directories a recursive `mkdir` creates; its contract is stated by AncestorsArePrefixes |
| Paths.AncestorsArePrefixes | src/utils/fsHelpers.ts:5-9 | a recursive `mkdir` creates exactly the prefixes of the path |
| Paths.JoinPath | src/generateHtml.ts:16-22 | `path.join` of a normal base gives a normal path |
| Paths.Resolve | src/generateHtml.ts:16-22 | definition of `path.join`'s normalisation of segments onto a base; its contract is stated by ResolveValid and ResolveNormal |
| Paths.ResolveValid | src/generateHtml.ts:16-22 | normalising `/`-free segments onto a normal base gives a normal path |
| Paths.ResolveNormal | src/generateHtml.ts:16-22 | normalising normal segments appends them |
| Paths.JoinPathNormal | src/processMarkdownFile.ts:18-19 | `path.join(base, s1/.../sn)` with normal segments is `base` followed by those segments |
| Types.AsBindings | src/build.ts:56-64 | definition of the conversion from a record of strings to template bindings; its contract is stated by MemberSpec and MarkdownJobSpec |
| FsHelpers.GetPathname | src/utils/fsHelpers.ts:17-20 | the site path always starts with `/` |
| FsHelpers.PathnameIsRoot | src/utils/fsHelpers.ts:18-19 | the site path is `/` exactly when the relative path is empty |
| FsHelpers.PathnameRootOnly | src/utils/fsHelpers.ts:17-20 | for normal paths, the site path is `/` exactly for the pages directory itself |
| FsHelpers.PathnameBelow | src/utils/fsHelpers.ts:18-19 | for `pagesPath/s1/.../sn`, the site path is `/s1/.../sn` |
| FsHelpers.PathnameChild | src/utils/fsHelpers.ts:18-19 | for a child `name` of a directory strictly below the pages directory, the site path is the directory's site path, `/`, then `name` |
| HtmlGeneration.RewriteExtension | src/generateHtml.ts:18-21 | definition of the two first-occurrence rewrites to `.html`; its contract is stated by RewriteAbsent, RewriteTrailing and RewriteValid |
| HtmlGeneration.OutputFile | src/generateHtml.ts:16-22 | definition of the output path, `buildPath` joined with the rewritten path relative to `sourcePath`; its contract is stated by OutputFileBelow |
| HtmlGeneration.RewriteAbsent | src/generateHtml.ts:20-21 | a relative path containing neither `.liquid` nor `.md` is not rewritten |
| HtmlGeneration.RewriteTrailing | src/generateHtml.ts:20-21 | a path whose only occurrence is a trailing `.liquid` or `.md` ends in `.html`, and the rest is unchanged |
| HtmlGeneration.RewriteValid | src/generateHtml.ts:20-21 | rewriting a file name gives a file name |
| HtmlGeneration.ReplaceInLast | src/generateHtml.ts:16-22 | a rewrite whose pattern occurs in no directory segment acts on the last segment only |
| HtmlGeneration.OutputFileBelow | src/generateHtml.ts:16-22 | with no `.liquid` or `.md` in the directory segments, the output for `sourcePath/dirs/name` is `buildPath/dirs/` followed by the rewritten `name` |
| HtmlGeneration.CreateDir | src/utils/fsHelpers.ts:5-9 | definition of `mkdir` with its existence test; its contract is stated by CreateDirAncestors and Site.Mkdir |
| HtmlGeneration.CreateDirAncestors | src/utils/fsHelpers.ts:5-9 | on a consistent directory set, the existence test only saves work: afterwards the directory and all its parents exist |
| HtmlGeneration.Generate | src/generateHtml.ts:8-32 | definition of one `generateHtml` call on the output filesystem; its contract is stated by GenerateSpec and Site.GenerateHtml |
| HtmlGeneration.GenerateSpec | src/generateHtml.ts:24-31 | a render failure changes nothing and names the page; otherwise the output file holds the formatted render, no other file changes, and the file's directory and its parents are created |
| HtmlGeneration.RunJobs | src/build.ts:15-30 | definition of a sequence of `generateHtml` calls that stops at the first render failure; its contract is stated by RunValid, RunAppend, RunThen, RunStopsAtFailure, RunSucceeds and RunRenders |
| HtmlGeneration.Exec | src/build.ts:10-31 | definition of running a trace's calls and then returning its result, unless a call failed; its contract is stated by ExecAfter and ExecExtends |
| HtmlGeneration.RunValid | src/generateHtml.ts:25-31 | a sequence of `generateHtml` calls keeps the directory set consistent |
| HtmlGeneration.RunAppend | src/build.ts:15-30 | running `a + b` runs `a`, then `b` unless `a` failed |
| HtmlGeneration.RunThen | src/build.ts:15-30 | after a successful `a`, running `a + b` continues from where `a` left off |
| HtmlGeneration.ExecAfter | src/build.ts:15-30 | a trace run after a successful prefix behaves as if run from the prefix's final state |
| HtmlGeneration.ExecExtends | src/build.ts:15-30 | once a prefix of the calls fails, the longer trace ends in the same state with the same error |
| HtmlGeneration.RunStopsAtFailure | src/build.ts:15-30 | at the first template that fails to render, the run stops, with the state of the calls before it and that page's error |
| HtmlGeneration.RunSucceeds | src/build.ts:15-30 | when every template renders, the run does not fail |
| HtmlGeneration.RunRenders | src/generateHtml.ts:24-31 | when every template renders, every page's output exists, the last page's output holds its formatted render, and files that are no page's output are unchanged |
| HtmlGeneration.Site.constructor | src/generateHtml.ts:9-32 | the output filesystem starts in the given consistent state |
| HtmlGeneration.Site.Mkdir | src/utils/fsHelpers.ts:5-9 | `mkdir` adds the directory and its parents and writes no file |
| HtmlGeneration.Site.WriteFile | src/generateHtml.ts:31 | `writeFileSync` into an existing directory sets that one file and nothing else |
| HtmlGeneration.Site.GenerateHtml | src/generateHtml.ts:9-32 | the procedure render, then mkdir of the output directory, then format, then write leaves the output exactly as one `Generate` step: on a render failure, no directory is created and no file is written |
| MarkdownPages.HasTemplate | src/processMarkdownFile.ts:14 | definition of the `variables.template` truthiness test; its contract is stated by MarkdownJobSpec and MissingTemplateFirst |
| MarkdownPages.TemplateFile | src/processMarkdownFile.ts:18-21 | definition of the template file's path; its contract is stated by TemplateFileIn |
| MarkdownPages.MarkdownBindings | src/processMarkdownFile.ts:23-26 | definition of `{...variables, content: marked(content)}`; its contract is stated by MarkdownJobSpec |
| MarkdownPages.MarkdownJob | src/processMarkdownFile.ts:12-26 | definition of the one `generateHtml` call `processMarkdownFile` makes, or its error; its contract is stated by MarkdownJobSpec |
| MarkdownPages.MarkdownTrace | src/processMarkdownFile.ts:7-27 | definition of `processMarkdownFile` as a trace; its contract is stated by MissingTemplateFirst and ProcessMarkdownFile |
| MarkdownPages.MarkdownJobSpec | src/processMarkdownFile.ts:14-26 | a missing or empty `template` is an error before anything is read; otherwise the template file `templatesPath/<template>.liquid` must exist; the render gets that file's text (not the body) under the Markdown file's own path; the bindings are the variables with `content` set to the converted body, every other key unchanged |
| MarkdownPages.TemplateFileIn | src/processMarkdownFile.ts:18-21 | a template name that is a normal segment is looked up directly inside the templates directory |
| MarkdownPages.MissingTemplateFirst | src/processMarkdownFile.ts:14-16 | without a template name, no render is requested and the output is untouched |
| MarkdownPages.ProcessMarkdownFile | src/processMarkdownFile.ts:7-27 | the procedure changes the output, and returns, exactly what its trace says |
| Builder.EntryPath | src/build.ts:16 | definition of `path.join(dir, entry.name)` for a normal entry name, also at src/build.ts:26 and :53; its contract is stated by RelativeChild, CollectionKeys and MemberSpec |
| Builder.IsMember | src/build.ts:50 | definition of the filter's test; its contract is stated by MembersOne |
| Builder.Members | src/build.ts:48-50 | definition of the filtered listing; its contract is stated by MembersSpec and MembersAppend |
| Builder.MembersAppend | src/build.ts:50 | filtering a concatenation concatenates the filtered parts, so listing order is kept |
| Builder.MembersOne | src/build.ts:50 | one entry survives the filter exactly when it is a file not named `index.*` |
| Builder.MembersSpec | src/build.ts:50 | the members are exactly the listing's files not named `index.*`; sub-directories are never members |
| Builder.MakeRecord | src/build.ts:56-61 | the record has the frontmatter's keys plus `pathname`; `pathname` overrides the frontmatter's; every other key is unchanged |
| Builder.RecordPathname | src/build.ts:58-60 | definition of the record's `pathname`; its contract is stated by RecordPathnameBelow and RecordPathnameOfPage |
| Builder.RecordPathnameBelow | src/build.ts:56-61 | a record's pathname is the site path `/s1/.../sn` with the first `.liquid`, then the first `.md`, removed |
| Builder.StripInPathname | src/build.ts:58-60 | removing a `.`-led pattern found in no directory segment from a site path removes it from the file name only |
| Builder.StripBoth | src/build.ts:58-60 | the same holds for both removals in turn |
| Builder.StripExtension | src/build.ts:58-60 | a name `base.liquid` or `base.md`, with no such pattern in `base`, is stripped to `base` |
| Builder.StripPage | src/build.ts:58-60 | the site path of `dirs/base.ext` loses exactly its extension |
| Builder.RecordPathnameOfPage | src/build.ts:56-61 | for a page `pagesPath/dirs/base.liquid` or `.md`, with no such pattern in `dirs` or `base`, the record's pathname is `/dirs/base` |
| Builder.MemberTrace | src/build.ts:51-71 | definition of the `map` callback for one member as a trace; its contract is stated by MemberSpec, MemberJobs and MemberJobPaths |
| Builder.MemberSpec | src/build.ts:51-71 | an unreadable file is an error; the record is the frontmatter plus `pathname`; a `.liquid` member renders its own body with the record; a `.md` member goes through its template, or fails as the Markdown step does; any other file is collected but not rendered |
| Builder.CollectionTrace | src/build.ts:49-72 | definition of the callback run over the members in order; its contract is stated by CollectionRecords, CollectionPrefix and CollectionJobs |
| Builder.ParseCollectionTrace | src/build.ts:47-82 | definition of `parseCollectionContent` as a trace; its contract is stated by ParseCollectionContent |
| Builder.CollectionRecords | src/build.ts:49-72 | a successful collection has one record per member, in listing order, each the record its member's step produced |
| Builder.CollectionPrefix | src/build.ts:51-72 | the collection over a prefix of the members requests a prefix of the renders, and an error there ends it |
| Builder.CollectPassPrefix | src/build.ts:15-21 | the same holds for the first pass over a prefix of the entries |
| Builder.IndexPassPrefix | src/build.ts:25-30 | the same holds for the second pass over a prefix of the entries |
| Builder.CollectPass | src/build.ts:15-21 | definition of the first pass as a trace; its contract is stated by CollectionKeys, CollectPassJobs, CollectPassPrefix and GatherCollections |
| Builder.CollectionKeys | src/build.ts:15-21 | the collections have exactly one key per sub-directory of `sourcePath`, its name, bound to that directory's collection; files add no key |
| Builder.MemberJobs | src/build.ts:63-69 | a member renders at most its own file, and never an index page |
| Builder.MemberJobPaths | src/build.ts:63-69 | every render a member's step requests is for the member's own file |
| Builder.CollectionJobs | src/build.ts:51-72 | a collection renders only non-index pages |
| Builder.CollectPassJobs | src/build.ts:15-21 | the first pass renders only non-index pages |
| Builder.IndexPassJobs | src/build.ts:25-30 | the second pass renders only index pages, each bound to the collections and its directory's site path |
| Builder.IndexPath | src/build.ts:37 | definition of `path.join(dirPath, "index.liquid")`; its contract is stated by IndexTraceSpec |
| Builder.IndexBindings | src/build.ts:40-43 | definition of `{...collections, pathname}`; its contract is stated by IndexBindingsSpec |
| Builder.IndexTrace | src/build.ts:33-45 | definition of `processIndexFile` as a trace; its contract is stated by IndexTraceSpec and ProcessIndexFile |
| Builder.IndexPass | src/build.ts:25-30 | definition of the second loop as a trace; its contract is stated by IndexPassAppend, IndexPassOne, IndexPassJobs, IndexPassPrefix and ProcessIndexFiles |
| Builder.SecondPass | src/build.ts:23-30 | definition of the root index page followed by the second loop; its contract is stated by IndexOrder |
| Builder.IndexBindingsSpec | src/build.ts:40-43 | an index page sees every collection under its name, plus `pathname`, which overrides a collection of that name |
| Builder.IndexTraceSpec | src/build.ts:37-44 | nothing is rendered when `index.liquid` does not exist; one that exists but is not a file cannot be read; anything rendered is that file's text under its own path, bound to all collections and the directory's site path |
| Builder.IndexPassAppend | src/build.ts:25-30 | the second pass over a listing in two parts renders the first part's index pages, then the second's |
| Builder.IndexPassOne | src/build.ts:25-30 | for one entry, the second pass renders that directory's index page, or nothing for a file |
| Builder.IndexOrder | src/build.ts:24-30 | index pages render in order: the root's first, then each directory's in listing order |
| Builder.IndexStep | src/build.ts:25-30 | after the index page of one directory entry, the second loop either goes on from the new state or ends with the error the whole pass ends with |
| Builder.BuildTrace | src/build.ts:10-31 | definition of `build` as a trace; its contract is stated by BuildPhases, CollectionKeys, IndexOrder and Build |
| Builder.BuildPhases | src/build.ts:14-30 | every collection page is rendered before any index page, and every index page sees the complete collections |
| Builder.ParseMember | src/build.ts:51-71 | the per-member step changes the output, and returns, exactly what the member's trace says |
| Builder.ParseCollectionContent | src/build.ts:47-82 | the listing read, the filter and the loop over members change the output, and return, exactly what the collection's trace says |
| Builder.ProcessIndexFile | src/build.ts:33-45 | `processIndexFile` changes the output, and returns, exactly what its trace says |
| Builder.GatherCollections | src/build.ts:15-21 | the first loop fills the collections map, and changes the output, exactly as the first pass says |
| Builder.ProcessIndexFiles | src/build.ts:25-30 | the second loop changes the output exactly as the second pass says |
| Builder.Build | src/build.ts:10-31 | `build` changes the output, and returns, exactly what the build trace says |
| SnakeCase.SnakeCased | src/utils/snakeCased.ts:1-6 | definition of `snakeCased`; its contract is stated by IntermediateIsExpanded, NoUpperInOutput, OutputLength, UnchangedWithoutUpper and Idempotent |
| SnakeCase.ToLower | src/utils/snakeCased.ts:4 | lower-casing leaves no capital, maps no capital to `_` and leaves every other character alone |
| SnakeCase.StripLeadingUnderscore | src/utils/snakeCased.ts:5 | definition of `replace(/^_/, "")`; its contract is stated by StripLeadingUnderscoreSuffix, StripAppend, OneUnderscoreStripped and IntermediateLeading |
| SnakeCase.StripLeadingUnderscoreSuffix | src/utils/snakeCased.ts:5 | the result is a suffix of the input, at most one character shorter, and shorter exactly when the input starts with `_` |
| SnakeCase.Expand | src/utils/snakeCased.ts:3-4 | a capital becomes two characters, ending in its lower case; any other character stays one |
| SnakeCase.Underscored | src/utils/snakeCased.ts:3 | definition of `replace(/([A-Z])/g, "_$1")`, one character at a time; its contract is stated by IntermediateIsExpanded |
| SnakeCase.Lowered | src/utils/snakeCased.ts:4 | definition of `toLowerCase()` over ASCII; its contract is stated by LoweredAppend and LoweredHasNoUpper |
| SnakeCase.LoweredAppend | src/utils/snakeCased.ts:4 | lower-casing distributes over concatenation |
| SnakeCase.ExpandedAppend | src/utils/snakeCased.ts:3-4 | the per-character expansion distributes over concatenation |
| SnakeCase.IntermediateIsExpanded | src/utils/snakeCased.ts:3-4 | underscoring, then lower-casing, is the per-character expansion, which turns each capital `X` into `_x` |
| SnakeCase.LoweredHasNoUpper | src/utils/snakeCased.ts:4 | a lower-cased string has no ASCII capital |
| SnakeCase.NoUpperInOutput | src/utils/snakeCased.ts:3-5 | the output contains no ASCII capital |
| SnakeCase.IntermediateLeading | src/utils/snakeCased.ts:3-5 | the intermediate string starts with `_` exactly when the input starts with `_` or a capital |
| SnakeCase.UpperExpands | src/utils/snakeCased.ts:3-4 | a capital between `p` and `t` becomes `_` and its lower case, between the expansions of `p` and `t` |
| SnakeCase.UpperBecomesUnderscore | src/utils/snakeCased.ts:3-5 | in the output, a capital appears as `_x`, except that the underscore is removed when nothing precedes the capital |
| SnakeCase.StripAppend | src/utils/snakeCased.ts:5 | stripping the leading underscore of a non-empty prefix leaves the rest alone |
| SnakeCase.ExpandedLength | src/utils/snakeCased.ts:3-4 | the expansion is one character longer per capital |
| SnakeCase.OutputLength | src/utils/snakeCased.ts:3-5 | output length = input length + number of capitals − (1 if the intermediate string starts with `_`) |
| SnakeCase.OneUnderscoreStripped | src/utils/snakeCased.ts:5 | only one leading underscore is removed: `__t` becomes `_` followed by the expansion of `t` |
| SnakeCase.DoubleUnderscoreExample | src/utils/snakeCased.ts:5 | `__a` becomes `_a` |
| SnakeCase.ExpandedWithoutUpper | src/utils/snakeCased.ts:3-4 | an input with no capitals is its own expansion |
| SnakeCase.UnchangedWithoutUpper | src/utils/snakeCased.ts:3-5 | an input with no capitals and no leading `_` is returned unchanged |
| SnakeCase.Idempotent | src/utils/snakeCased.ts:3-5 | applied to an output not starting with `_`, the function returns it unchanged; applied to an output starting with `_`, it strips that `_` |

## Left out

- src/config.ts (`getConfig`): the configuration record is a parameter instead. There is no file lookup, no JSON parsing and no `process.cwd()`.
- src/index.ts (the command line, logging, exit codes) and src/createExample.ts (scaffolding that writes fixed files) are not part of this model.
- `rmdir` of src/utils/fsHelpers.ts and the duplicate helpers of src/fsHelpers.ts are not part of this model. The build never calls them.
- `mkdir` is modelled as adding the directory and its parents to the set of existing directories. Permissions and I/O errors are not modelled.
- A path that is both a file and a directory is not modelled as an error. `CreateDir` tests only the set of directories, while `existsSync` at src/utils/fsHelpers.ts:6 is also true for a file. So a page whose output directory is an existing output file is still written in the model, where `mkdirSync` or `writeFileSync` would fail with ENOTDIR or EEXIST. The same holds for a page whose output file is an existing directory, where `writeFileSync` would fail with EISDIR. For example, a top-level directory named `index.html` collides with the root's `buildPath/index.html`.
- LiquidJS, marked and prettier are uninterpreted functions.
  - The template language, and the rendering of undefined variables as empty, are not modelled.
  - prettier's options are not modelled.
  - A render either succeeds or fails. The formatter and the Markdown converter always succeed.
- Asynchrony is not modelled. `generateHtml` is async, and its promises are not awaited at src/build.ts:40, src/build.ts:64 and src/processMarkdownFile.ts:23. The model runs every call to completion in order. It stops the build at the first render failure and keeps every file written before it. The program's final set of files differs in two ways:
  - A synchronous throw ends the program before any pending render has written its file. Such a throw is a missing `template` (src/processMarkdownFile.ts:14-16), a failed `readFileSync`, or a failed `readdirSync` (src/build.ts:12, src/build.ts:48). It reaches `process.exit(1)` at src/index.ts:26-28. The model keeps the output of the earlier pages; the program writes none of the pages whose render was still pending.
  - A rejected render does not stop the loops at src/build.ts:15-30, so the later `generateHtml` calls are still started. The model starts none of them. Both of a call's writes come after an `await` (src/generateHtml.ts:24-26). Nothing handles a rejection: src/index.ts:19-29 wraps only the synchronous `build(config)`. A rejection can therefore end the process as an unhandled rejection. Which pages, earlier or later, end up written then depends on the order in which the promises settle, and the model does not capture that order.
- The `frontmatter.json` debug write of `parseCollectionContent` (src/build.ts:74-80) is not modelled. Its JSON serialisation and I/O are omitted. It writes into the parent of the collection directory.
- Reads come from an immutable snapshot of the source tree, so a page reads nothing the build itself wrote.
- Unicode is handled only partly:
  - `toLowerCase` maps ASCII capitals only;
  - `trim` removes the ECMAScript whitespace and line-terminator characters;
  - text is a sequence of characters, with no encoding.
- Frontmatter keys are an ordinary map. The JavaScript object's special keys (such as `__proto__`) are not modelled.
- Entry names are taken to be normal path segments. The path of an entry is its directory followed by its name (`EntryPath`). `path.join`'s handling of trailing slashes and of names containing `/` is not modelled.
- `path.relative` between paths on different roots, and Windows paths, are not modelled. All paths are POSIX paths from one root.
- The library calls behind `existsSync`, `readdirSync` and `readFileSync` become lookups in the source tree. A missing file or directory is a `ReadFailed` error.
- FrontmatterParser.Extract: its own contract states only the `fullPath` pass-through. Its other cases are stated by the `Extract*` lemmas.
- HtmlGeneration.RunRenders: it states the output content only for the last page. Every earlier page's output is shown to exist, but its content is not stated, because a later page with the same output file overwrites it.
