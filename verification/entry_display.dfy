/** `Display for TreeEntry` in src/traits.rs: the kind label and the styled
    name of a row of a tree listing. The object store is replaced by the
    facts these functions ask of it. */
module EntryDisplay {
  import opened Wrappers

  /** git2's `ObjectType`. */
  datatype ObjectKind = Any | Commit | Tree | Blob | Tag

  /** A tree entry as the display code sees it: its kind and name (either may
      be missing), whether its object resolves (`to_object` succeeds), and,
      for a blob, whether it is binary. An entry of kind blob whose object
      resolves is a blob, so `peel_to_blob` on it cannot fail. */
  datatype Entry = Entry(kind: Option<ObjectKind>, name: Option<string>, isBinary: bool, resolvable: bool)

  /** The name column: its text, and whether it carries the selection
      background (Cyan). Colours and modifiers beyond that are not modelled. */
  datatype NameCell = NameCell(text: string, highlighted: bool)

  /** `display_kind`: the label of the kind column, or `None` when a blob
      entry cannot be resolved to a blob (the row is then not drawn). */
  function KindLabel(e: Entry): (r: Option<string>)
    ensures r.None? <==> e.kind == Some(Blob) && !e.resolvable
    ensures r.Some? ==> r.value in {"tree", "blob", "binary", "unknown"}
    ensures r == Some("tree") <==> e.kind == Some(Tree)
    ensures r == Some("binary") <==> e.kind == Some(Blob) && e.resolvable && e.isBinary
    ensures r == Some("blob") <==> e.kind == Some(Blob) && e.resolvable && !e.isBinary
    ensures r == Some("unknown") <==> e.kind.None? || e.kind.value !in {Tree, Blob}
  {
    match e.kind
    case Some(k) =>
      (match k
       case Tree => Some("tree")
       case Blob =>
         if !e.resolvable then None
         else if e.isBinary then Some("binary")
         else Some("blob")
       case _ => Some("unknown"))
    case None => Some("unknown")
  }

  /** Whether `display_name` takes its styled branch: a named tree or blob. */
  predicate Nameable(e: Entry)
  {
    e.name.Some? && e.kind.Some? && e.kind.value in {Tree, Blob}
  }

  /** `display_name`: trees get a trailing `/`, blobs their bare name, and
      anything else (no kind, no name, another kind) the fallback "unknown"
      in an error style that ignores the selection. */
  function DisplayName(e: Entry, selected: bool): (r: NameCell)
    ensures r.highlighted <==> selected && Nameable(e)
    ensures e.name.Some? && e.kind == Some(Tree) ==> r.text == e.name.value + "/"
    ensures e.name.Some? && e.kind == Some(Blob) ==> r.text == e.name.value
    ensures !Nameable(e) ==> r.text == "unknown"
  {
    if e.kind.Some? && e.name.Some? && e.kind.value == Tree then
      NameCell(e.name.value + "/", selected)
    else if e.kind.Some? && e.name.Some? && e.kind.value == Blob then
      NameCell(e.name.value, selected)
    else
      NameCell("unknown", false)
  }

  /** The selection changes only the background, never the text. */
  lemma NameTextIgnoresSelection(e: Entry)
    ensures DisplayName(e, true).text == DisplayName(e, false).text
    ensures !DisplayName(e, false).highlighted
  {
  }

  /** A name cell ends in `/` exactly for named trees, as long as entry names
      themselves never end in `/` (git forbids `/` in tree entry names). */
  lemma TreeNamesEndInSlash(e: Entry)
    requires e.name.Some? ==> |e.name.value| == 0 || e.name.value[|e.name.value| - 1] != '/'
    ensures var t := DisplayName(e, false).text;
      (|t| > 0 && t[|t| - 1] == '/') <==> e.kind == Some(Tree) && e.name.Some?
  {
  }
}
