/** `RefsPage` from src/app/refs_page.rs: the list of reference names with a
    selection. The repository is replaced by its location and the names its
    reference listing yields (a failed listing yields no names, which the
    Rust code treats the same way in `len` and `items`). */
module RefsPage {
  import opened Wrappers
  import opened Format
  import opened RepoPath
  import Pagination
  import LegacyDisplay
  import LS = ListSelection

  datatype Repository = Repository(path: Path, refNames: seq<string>)

  datatype RefsPage = RefsPage(repo: Repository, selected: nat)

  /** One drawn row: the dim kind column, the reference name, and whether it
      carries the selection colours. */
  datatype ListRow = ListRow(kind: string, text: string, highlighted: bool)

  /** `RefsPage::new`. */
  function New(repo: Repository): (p: RefsPage)
    ensures p.repo == repo && p.selected == 0
  {
    RefsPage(repo, 0)
  }

  /** `items`: the reference names, recomputed on every call. */
  function Items(p: RefsPage): seq<string>
  {
    p.repo.refNames
  }

  /** `len`: the number of references. */
  function Len(p: RefsPage): (n: nat)
    ensures n == |Items(p)|
  {
    |p.repo.refNames|
  }

  /** Selection inside the list or, after the `pagedown` overshoot, one past it. */
  predicate Valid(p: RefsPage)
  {
    p.selected <= Len(p)
  }

  function Home(p: RefsPage, h: LS.PageSize): (r: RefsPage)
    ensures r.repo == p.repo && r.selected == 0
  {
    p.(selected := 0)
  }

  function End(p: RefsPage, h: LS.PageSize): (r: RefsPage)
    ensures r.repo == p.repo
    ensures Len(p) > 0 ==> r.selected + 1 == Len(p)
    ensures Len(p) == 0 ==> r.selected == 0
  {
    p.(selected := LS.End(Len(p)))
  }

  function PageDown(p: RefsPage, h: LS.PageSize): (r: RefsPage)
    requires LS.PageDownDefined(p.selected, Len(p), h)
    ensures r.repo == p.repo && r.selected <= Len(p)
    ensures p.selected + h <= Len(p) ==> r.selected == p.selected + h
    ensures p.selected + h > Len(p) ==> r.selected + 1 == Len(p)
  {
    p.(selected := LS.PageDown(p.selected, Len(p), h))
  }

  function PageUp(p: RefsPage, h: LS.PageSize): (r: RefsPage)
    ensures r.repo == p.repo && r.selected <= p.selected
    ensures p.selected >= h ==> r.selected + h == p.selected
    ensures p.selected < h ==> r.selected == 0
  {
    p.(selected := LS.PageUp(p.selected, h))
  }

  function NextSelection(p: RefsPage): (r: RefsPage)
    requires Len(p) > 0
    ensures r.repo == p.repo && r.selected < Len(p)
    ensures p.selected + 1 < Len(p) ==> r.selected == p.selected + 1
    ensures p.selected + 1 >= Len(p) ==> r.selected == 0
  {
    p.(selected := LS.Next(p.selected, Len(p)))
  }

  function PreviousSelection(p: RefsPage): (r: RefsPage)
    requires p.selected > 0 || Len(p) > 0
    ensures r.repo == p.repo
    ensures p.selected > 0 ==> r.selected + 1 == p.selected
    ensures p.selected == 0 ==> r.selected + 1 == Len(p)
  {
    p.(selected := LS.Prev(p.selected, Len(p)))
  }

  /** `select`: the reference name to resolve, paired with the empty display
      name the Rust code returns. Indexing past the list panics. */
  function Select(p: RefsPage): (r: (string, string))
    requires p.selected < Len(p)
    ensures r.0 == Items(p)[p.selected] && r.1 == ""
  {
    (Items(p)[p.selected], "")
  }

  /** `selected_item`: "" for an empty list, else the selected name (which
      panics if the selection is past the end). */
  function SelectedItem(p: RefsPage): (r: string)
    requires Len(p) == 0 || p.selected < Len(p)
    ensures Len(p) > 0 ==> r == Items(p)[p.selected]
    ensures Len(p) == 0 ==> r == ""
  {
    if |Items(p)| == 0 then "" else Items(p)[p.selected]
  }

  /** `title`: the repository's name, the same one the older
      `Display for Repository` shows whatever the selection. */
  function Title(p: RefsPage): (r: string)
    ensures r == LegacyDisplay.RepositoryName(p.repo.path, false)
    ensures r == LegacyDisplay.RepositoryName(p.repo.path, true)
  {
    RepoName(p.repo.path)
  }

  /** End of the drawn slice: one window past its start, cut at the list end. */
  function EndSlice(start: nat, visible: nat, len: nat): (e: nat)
    ensures e <= len && e <= start + visible
    ensures e == len || e == start + visible
  {
    if start + visible >= len then len else start + visible
  }

  /** Where `draw` may be called: a non-zero window (pagination divides by it)
      and a page start inside the list (slicing past the end panics). */
  predicate DrawDefined(p: RefsPage, visible: nat)
  {
    visible > 0 && Pagination.PageStart(visible, p.selected) <= Len(p)
  }

  /** The rows `draw` renders for a window of `visible` rows. */
  function Draw(p: RefsPage, visible: nat): (rows: seq<ListRow>)
    requires DrawDefined(p, visible)
    ensures var start := Pagination.Paginate(Len(p), visible, p.selected).start;
      && |rows| <= visible
      && start + |rows| == EndSlice(start, visible, Len(p))
      && forall i :: 0 <= i < |rows| ==>
           && rows[i].text == Items(p)[start + i]
           && rows[i].kind == PadRight("ref", 10)
           && (rows[i].highlighted <==> start + i == p.selected)
  {
    var items := Items(p);
    var start := Pagination.Paginate(|items|, visible, p.selected).start;
    var stop := EndSlice(start, visible, |items|);
    seq(stop - start, i requires 0 <= i < stop - start => ListRow(PadRight("ref", 10), items[start + i], start + i == p.selected))
  }

  /** A selection inside the list is drawn, highlighted, on exactly one row,
      and that row shows the selected name. */
  lemma DrawShowsSelection(p: RefsPage, visible: nat)
    requires visible > 0 && p.selected < Len(p)
    ensures DrawDefined(p, visible)
    ensures var rows := Draw(p, visible);
      exists i :: 0 <= i < |rows| && rows[i].highlighted && rows[i].text == Items(p)[p.selected]
    ensures var rows := Draw(p, visible);
      forall i, j :: 0 <= i < |rows| && 0 <= j < |rows| && rows[i].highlighted && rows[j].highlighted ==> i == j
  {
    var start := Pagination.Paginate(Len(p), visible, p.selected).start;
    var rows := Draw(p, visible);
    var i := p.selected - start;
    assert rows[i].highlighted;
  }

  /** After the `pagedown` overshoot the selection is one past the end: the
      window still draws, but no row is highlighted. */
  lemma OvershootHighlightsNothing(p: RefsPage, visible: nat)
    requires visible > 0 && p.selected == Len(p)
    ensures DrawDefined(p, visible)
    ensures forall r :: r in Draw(p, visible) ==> !r.highlighted
  {
  }

  /** Every movement keeps the selection at most one past the end. */
  lemma MovesPreserveValid(p: RefsPage, h: LS.PageSize)
    requires Valid(p) && Len(p) > 0
    ensures Valid(Home(p, h)) && Valid(End(p, h)) && Valid(PageDown(p, h)) && Valid(PageUp(p, h))
    ensures Valid(NextSelection(p)) && Valid(PreviousSelection(p))
  {
  }

  /** A new page has its first reference selected, and the title names the
      repository regardless of the selection. */
  lemma NewPageSelectsFirst(repo: Repository)
    ensures New(repo).selected == 0
    ensures Len(New(repo)) > 0 ==> SelectedItem(New(repo)) == repo.refNames[0]
    ensures Title(New(repo)) == RepoName(repo.path)
  {
  }

  /** The scenario of three references: two steps forward select the third,
      a third step wraps back to the first. */
  lemma ThreeRefsScenario(path: Path)
    ensures var p := New(Repository(path, ["main", "dev", "v1"]));
      && SelectedItem(NextSelection(NextSelection(p))) == "v1"
      && NextSelection(NextSelection(NextSelection(p))).selected == 0
      && PreviousSelection(p).selected == 2
  {
  }

  /** `items` lists the repository's reference names whatever the selection
      is, so no movement changes the listing `draw` and `select` index into. */
  lemma ItemsFollowRepository(p: RefsPage, h: LS.PageSize)
    ensures Items(p) == p.repo.refNames && Len(p) == |p.repo.refNames|
    ensures Items(Home(p, h)) == Items(p) && Items(End(p, h)) == Items(p) && Items(PageUp(p, h)) == Items(p)
    ensures LS.PageDownDefined(p.selected, Len(p), h) ==> Items(PageDown(p, h)) == Items(p)
    ensures Len(p) > 0 ==> Items(NextSelection(p)) == Items(p) && Items(PreviousSelection(p)) == Items(p)
  {
  }
}
