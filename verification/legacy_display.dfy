/** The older `Display` implementations in src/display.rs, for the repository
    and for tree entries. The entry kind label there has no binary case and is
    never absent. */
module LegacyDisplay {
  import opened Wrappers
  import opened RepoPath
  import opened EntryDisplay

  /** `display_kind` for a repository: always the empty label. */
  function RepositoryKind(): (text: string)
    ensures |text| == 0
  {
    ""
  }

  /** `display_name` for a repository: the name derived from its path; the
      selection flag is ignored. */
  function RepositoryName(path: Path, selected: bool): (name: string)
    ensures name == RepoName(path)
  {
    RepoName(path)
  }

  /** `display_kind` for a tree entry in the older snapshot. */
  function KindLabel(e: Entry): (text: string)
    ensures text in {"tree", "blob", "unknown"}
    ensures text == "tree" <==> e.kind == Some(Tree)
    ensures text == "blob" <==> e.kind == Some(Blob)
  {
    match e.kind
    case Some(Tree) => "tree"
    case Some(Blob) => "blob"
    case _ => "unknown"
  }

  /** `display_name` for a tree entry in the older snapshot. Its contract is
      the newer snapshot's: `EntryNameAgrees` shows the two are equal. */
  function EntryName(e: Entry, selected: bool): (r: NameCell)
    ensures r.highlighted ==> selected
  {
    match (e.kind, e.name)
    case (Some(Tree), Some(n)) => NameCell(n + "/", selected)
    case (Some(Blob), Some(n)) => NameCell(n, selected)
    case _ => NameCell("unknown", false)
  }

  /** The two snapshots render names identically. */
  lemma EntryNameAgrees(e: Entry, selected: bool)
    ensures EntryName(e, selected) == EntryDisplay.DisplayName(e, selected)
  {
  }

  /** The two snapshots label kinds identically, except that the newer one
      says "binary" for binary blobs and drops unresolvable blobs. */
  lemma KindLabelAgrees(e: Entry)
    ensures EntryDisplay.KindLabel(e).Some? ==>
      KindLabel(e) == (if EntryDisplay.KindLabel(e).value == "binary" then "blob" else EntryDisplay.KindLabel(e).value)
    ensures EntryDisplay.KindLabel(e).None? ==> KindLabel(e) == "blob"
  {
  }
}
