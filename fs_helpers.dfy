/** `getPathname` of src/utils/fsHelpers.ts: the site path of a directory or file. */
module FsHelpers {
  import opened Strings
  import opened Paths

  /** `path.relative(pagesPath, dirPath)` prefixed with `/`, or `/` itself when that is empty. */
  function GetPathname(pagesPath: Path, dirPath: Path): (r: string)
    ensures |r| >= 1 && r[0] == '/'
  {
    var relativePath := Relative(pagesPath, dirPath);
    if relativePath != "" then "/" + relativePath else "/"
  }

  /** The site path is `/` exactly when the relative path is empty ... */
  lemma PathnameIsRoot(pagesPath: Path, dirPath: Path)
    ensures GetPathname(pagesPath, dirPath) == "/" <==> Relative(pagesPath, dirPath) == ""
  {
  }

  /** ... that is, exactly for the pages root itself. */
  lemma PathnameRootOnly(pagesPath: Path, dirPath: Path)
    requires ValidPath(pagesPath) && ValidPath(dirPath)
    ensures GetPathname(pagesPath, dirPath) == "/" <==> dirPath == pagesPath
  {
    RelativeEmpty(pagesPath, dirPath);
  }

  /** Below the pages root, the site path is `/` followed by the segments joined by `/`. */
  lemma PathnameBelow(pagesPath: Path, segs: Path)
    ensures GetPathname(pagesPath, pagesPath + segs) == "/" + Join(segs, '/')
  {
    RelativeBelow(pagesPath, pagesPath + segs);
    assert (pagesPath + segs)[|pagesPath|..] == segs;
  }

  /** The site path of a child of a directory below the root extends the directory's by `/name`. */
  lemma PathnameChild(pagesPath: Path, dir: Path, name: string)
    requires pagesPath <= dir && dir != pagesPath
    ensures GetPathname(pagesPath, dir + [name]) == GetPathname(pagesPath, dir) + "/" + name
  {
    var segs := dir[|pagesPath|..];
    assert dir == pagesPath + segs;
    assert dir + [name] == pagesPath + (segs + [name]);
    PathnameBelow(pagesPath, segs);
    PathnameBelow(pagesPath, segs + [name]);
    JoinSnoc(segs, name, '/');
  }
}
