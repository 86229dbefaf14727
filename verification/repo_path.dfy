/** The repository's on-disk location and the short name derived from it.
    A path is its sequence of components, as Rust's `Path::components`
    yields them (Windows drive prefixes are not modelled). */
module RepoPath {
  import opened Wrappers

  datatype Component = RootDir | CurDir | ParentDir | Normal(name: string)

  type Path = seq<Component>

  /** `Path::parent`: the path without its last component, or `None` when the
      path is empty or ends at the root. */
  function Parent(p: Path): (r: Option<Path>)
    ensures r.Some? <==> |p| > 0 && p[|p| - 1] != RootDir
    ensures r.Some? ==> p == r.value + [p[|p| - 1]]
  {
    if |p| == 0 || p[|p| - 1] == RootDir then None else Some(p[..|p| - 1])
  }

  /** `Path::file_name`: the last component when it is an ordinary name. */
  function FileName(p: Path): (r: Option<string>)
    ensures r.Some? <==> |p| > 0 && p[|p| - 1].Normal?
    ensures r.Some? ==> p[|p| - 1] == Normal(r.value)
  {
    if |p| > 0 && p[|p| - 1].Normal? then Some(p[|p| - 1].name) else None
  }

  function ComponentText(c: Component): string
  {
    match c
    case RootDir => "/"
    case CurDir => "."
    case ParentDir => ".."
    case Normal(n) => n
  }

  /** `Path::to_string_lossy`: components joined by `/`, the root contributing
      the leading separator. */
  function Render(p: Path): string
  {
    if |p| == 0 then ""
    else if |p| == 1 || p[0] == RootDir then ComponentText(p[0]) + Render(p[1..])
    else ComponentText(p[0]) + "/" + Render(p[1..])
  }

  /** The repository's display name: the name of the directory holding the
      git directory, falling back to the whole parent path when that has no
      file name, and to the full path when there is no parent. */
  function RepoName(p: Path): (name: string)
    ensures Parent(p).Some? && FileName(Parent(p).value).Some? ==> name == FileName(Parent(p).value).value
    ensures Parent(p).Some? && FileName(Parent(p).value).None? ==> name == Render(Parent(p).value)
    ensures Parent(p).None? ==> name == Render(p)
  {
    match Parent(p)
    case Some(dir) =>
      (match FileName(dir)
       case Some(n) => n
       case None => Render(dir))
    case None => Render(p)
  }

  /** For the usual `<dir>/.git` layout the name is the directory's own name,
      whatever lies above it. */
  lemma RepoNameOfGitDir(above: Path, dir: string, last: Component)
    requires last != RootDir
    ensures RepoName(above + [Normal(dir), last]) == dir
  {
    var p := above + [Normal(dir), last];
    assert p[..|p| - 1] == above + [Normal(dir)];
  }

  /** The root directory has no parent, so its name is "/". */
  lemma RepoNameOfRoot()
    ensures RepoName([RootDir]) == "/"
  {
  }

  /** A one-component relative path has the empty path as parent, which has
      no file name and renders empty, so the name is "". */
  lemma RepoNameOfBareRelative(c: Component)
    requires c != RootDir
    ensures RepoName([c]) == ""
  {
  }
}
