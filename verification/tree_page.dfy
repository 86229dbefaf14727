/** `TreePage` from src/app/tree_page.rs: one directory level of a commit's
    tree, with a selection. The page's object is replaced by the result of
    peeling it to a tree: its entries, or `None` when peeling fails. */
module TreePage {
  import opened Wrappers
  import opened Format
  import opened EntryDisplay
  import Pagination
  import LS = ListSelection

  datatype TreePage = TreePage(tree: Option<seq<Entry>>, name: string, selected: nat)

  /** One drawn row: the padded kind label and the name cell. */
  datatype TreeRow = TreeRow(kind: string, name: NameCell)

  /** What `select` hands back: the entry whose object was resolved, and its name. */
  datatype Selection = Selection(entry: Entry, name: string)

  /** `TreePage::new`. */
  function New(tree: Option<seq<Entry>>, name: string): (p: TreePage)
    ensures p.tree == tree && p.name == name && p.selected == 0
  {
    TreePage(tree, name, 0)
  }

  function Entries(p: TreePage): seq<Entry>
  {
    match p.tree
    case Some(es) => es
    case None => []
  }

  /** `len`: the entry count, or 0 when the object does not peel to a tree. */
  function Len(p: TreePage): (n: nat)
    ensures p.tree.None? ==> n == 0
    ensures p.tree.Some? ==> n == |p.tree.value|
  {
    |Entries(p)|
  }

  /** `title`: the name given at construction. */
  function Title(p: TreePage): string
  {
    p.name
  }

  /** The page's tree and name, which no movement changes. */
  predicate SameListing(p: TreePage, r: TreePage)
  {
    r.tree == p.tree && r.name == p.name
  }

  function Home(p: TreePage, h: LS.PageSize): (r: TreePage)
    ensures SameListing(p, r) && r.selected == 0
  {
    p.(selected := 0)
  }

  function End(p: TreePage, h: LS.PageSize): (r: TreePage)
    ensures SameListing(p, r)
    ensures Len(p) > 0 ==> r.selected + 1 == Len(p)
    ensures Len(p) == 0 ==> r.selected == 0
  {
    p.(selected := LS.End(Len(p)))
  }

  function PageDown(p: TreePage, h: LS.PageSize): (r: TreePage)
    requires LS.PageDownDefined(p.selected, Len(p), h)
    ensures SameListing(p, r) && r.selected <= Len(p)
    ensures p.selected + h <= Len(p) ==> r.selected == p.selected + h
    ensures p.selected + h > Len(p) ==> r.selected + 1 == Len(p)
  {
    p.(selected := LS.PageDown(p.selected, Len(p), h))
  }

  function PageUp(p: TreePage, h: LS.PageSize): (r: TreePage)
    ensures SameListing(p, r) && r.selected <= p.selected
    ensures p.selected >= h ==> r.selected + h == p.selected
    ensures p.selected < h ==> r.selected == 0
  {
    p.(selected := LS.PageUp(p.selected, h))
  }

  function NextSelection(p: TreePage): (r: TreePage)
    requires Len(p) > 0
    ensures SameListing(p, r) && r.selected < Len(p)
    ensures p.selected + 1 < Len(p) ==> r.selected == p.selected + 1
    ensures p.selected + 1 >= Len(p) ==> r.selected == 0
  {
    p.(selected := LS.Next(p.selected, Len(p)))
  }

  function PreviousSelection(p: TreePage): (r: TreePage)
    requires p.selected > 0 || Len(p) > 0
    ensures SameListing(p, r)
    ensures p.selected > 0 ==> r.selected + 1 == p.selected
    ensures p.selected == 0 ==> r.selected + 1 == Len(p)
  {
    p.(selected := LS.Prev(p.selected, Len(p)))
  }

  /** Where `select` does not panic: the object peels to a tree, the
      selection names an entry, and that entry resolves and has a name. */
  predicate SelectDefined(p: TreePage)
  {
    && p.tree.Some?
    && p.selected < |p.tree.value|
    && p.tree.value[p.selected].resolvable
    && p.tree.value[p.selected].name.Some?
  }

  /** `select`: the selected entry's object and name. */
  function Select(p: TreePage): (r: Selection)
    requires SelectDefined(p)
    ensures r.entry == Entries(p)[p.selected]
    ensures Some(r.name) == r.entry.name
  {
    var e := p.tree.value[p.selected];
    Selection(e, e.name.value)
  }

  /** Where `selected_item` does not panic: as for `select`, except that the
      entry's object is never looked up. */
  predicate SelectedItemDefined(p: TreePage)
  {
    && p.tree.Some?
    && p.selected < |p.tree.value|
    && p.tree.value[p.selected].name.Some?
  }

  /** `selected_item`: the selected entry's bare name. */
  function SelectedItem(p: TreePage): (r: string)
    requires SelectedItemDefined(p)
    ensures Entries(p)[p.selected].name == Some(r)
  {
    p.tree.value[p.selected].name.value
  }

  /** The row `draw` renders for one entry: the kind label padded to ten
      columns and the name cell, or no row when the entry has no kind label. */
  function RowFor(e: Entry, selected: bool): (rows: seq<TreeRow>)
    ensures |rows| <= 1
    ensures |rows| == 1 <==> KindLabel(e).Some?
    ensures |rows| == 1 ==>
      && rows[0].kind == PadRight(KindLabel(e).value, 10) && |rows[0].kind| == 10
      && rows[0].name == DisplayName(e, selected)
  {
    match KindLabel(e)
    case Some(k) => [TreeRow(PadRight(k, 10), DisplayName(e, selected))]
    case None => []
  }

  /** How many entries of `window` have a kind label, and so get a row. */
  function Labelled(window: seq<Entry>): (n: nat)
    ensures n <= |window|
    ensures (forall i :: 0 <= i < |window| ==> KindLabel(window[i]).Some?) ==> n == |window|
  {
    if |window| == 0 then 0
    else (if KindLabel(window[0]).Some? then 1 else 0) + Labelled(window[1..])
  }

  /** The rows for a window of entries whose first entry has index `first`
      in the tree; entries without a kind label are skipped. */
  function Rows(window: seq<Entry>, first: nat, selected: nat): (rows: seq<TreeRow>)
    ensures |rows| == Labelled(window)
    ensures forall i :: 0 <= i < |rows| ==> |rows[i].kind| == 10
    ensures selected < first || first + |window| <= selected ==>
      forall i :: 0 <= i < |rows| ==> !rows[i].name.highlighted
    ensures forall i, j :: 0 <= i < j < |rows| ==> !(rows[i].name.highlighted && rows[j].name.highlighted)
    decreases |window|
  {
    if |window| == 0 then []
    else
      var head := RowFor(window[0], first == selected);
      var tail := Rows(window[1..], first + 1, selected);
      assert forall i :: 0 <= i < |head| ==> head[i].name.highlighted ==> first == selected;
      head + tail
  }

  /** Entry `j` of the window, when it has a kind label, is drawn as the row
      numbered by the labelled entries before it: its padded label and its
      name cell, highlighted exactly when it is the selected entry. */
  lemma {:induction false} RowsPlaceEntry(window: seq<Entry>, first: nat, selected: nat, j: nat)
    requires j < |window| && KindLabel(window[j]).Some?
    ensures Labelled(window[..j]) < |Rows(window, first, selected)|
    ensures Rows(window, first, selected)[Labelled(window[..j])]
         == TreeRow(PadRight(KindLabel(window[j]).value, 10), DisplayName(window[j], first + j == selected))
    decreases j
  {
    var rows := Rows(window, first, selected);
    var head := RowFor(window[0], first == selected);
    var tail := Rows(window[1..], first + 1, selected);
    assert rows == head + tail;
    if j == 0 {
      assert window[..0] == [];
    } else {
      assert window[1..][j - 1] == window[j];
      RowsPlaceEntry(window[1..], first + 1, selected, j - 1);
      var k := Labelled(window[1..][..j - 1]);
      LabelledPrefix(window, j);
      assert Labelled(window[..j]) == |head| + k;
      assert rows[|head| + k] == tail[k];
    }
  }

  /** Counting the labelled entries before `j` peels off the first entry. */
  lemma LabelledPrefix(window: seq<Entry>, j: nat)
    requires 0 < j <= |window|
    ensures Labelled(window[..j]) == (if KindLabel(window[0]).Some? then 1 else 0) + Labelled(window[1..][..j - 1])
  {
    assert window[..j][1..] == window[1..][..j - 1];
  }

  /** Every labelled entry of the window, at once. */
  lemma RowsPlaceEntries(window: seq<Entry>, first: nat, selected: nat)
    ensures forall j :: 0 <= j < |window| && KindLabel(window[j]).Some? ==>
      && Labelled(window[..j]) < |Rows(window, first, selected)|
      && Rows(window, first, selected)[Labelled(window[..j])]
         == TreeRow(PadRight(KindLabel(window[j]).value, 10), DisplayName(window[j], first + j == selected))
  {
    forall j | 0 <= j < |window| && KindLabel(window[j]).Some? {
      RowsPlaceEntry(window, first, selected, j);
    }
  }

  /** The entries `draw` walks: `skip(page_start).take(visible)`. */
  function Window(p: TreePage, visible: nat): (w: seq<Entry>)
    requires visible > 0
    ensures var es := Entries(p);
      var start := Pagination.Paginate(|es|, visible, p.selected).start;
      w == es[Clip(start, |es|)..Clip(start + visible, |es|)]
    ensures |w| <= visible
  {
    var es := Entries(p);
    var start := Pagination.Paginate(|es|, visible, p.selected).start;
    es[Clip(start, |es|)..Clip(start + visible, |es|)]
  }

  /** `x`, cut at `n`. */
  function Clip(x: nat, n: nat): (r: nat)
    ensures r <= n && r <= x && (x <= n ==> r == x)
  {
    if x <= n then x else n
  }

  /** `draw`: the rows for the selected entry's page. It panics when the
      object does not peel to a tree, and pagination needs a non-zero
      window. Each labelled entry of the window is drawn, in order, as its
      padded kind label and its name cell; the rest are skipped. */
  function Draw(p: TreePage, visible: nat): (rows: seq<TreeRow>)
    requires p.tree.Some? && visible > 0
    ensures var w := Window(p, visible);
      var start := Pagination.Paginate(Len(p), visible, p.selected).start;
      && |rows| == Labelled(w) <= visible
      && forall j :: 0 <= j < |w| && KindLabel(w[j]).Some? ==>
           && Labelled(w[..j]) < |rows|
           && rows[Labelled(w[..j])]
              == TreeRow(PadRight(KindLabel(w[j]).value, 10), DisplayName(w[j], start + j == p.selected))
    ensures forall i, j :: 0 <= i < j < |rows| ==> !(rows[i].name.highlighted && rows[j].name.highlighted)
  {
    RowsPlaceEntries(Window(p, visible), Pagination.Paginate(Len(p), visible, p.selected).start, p.selected);
    Rows(Window(p, visible), Pagination.Paginate(Len(p), visible, p.selected).start, p.selected)
  }

  /** An entry that is drawn and nameable shows up highlighted when it is
      the selected one. */
  lemma {:induction false} RowsShowSelected(window: seq<Entry>, first: nat, selected: nat)
    requires first <= selected < first + |window|
    requires KindLabel(window[selected - first]).Some? && Nameable(window[selected - first])
    ensures exists i ::
      0 <= i < |Rows(window, first, selected)| && Rows(window, first, selected)[i].name == DisplayName(window[selected - first], true)
  {
    var rows := Rows(window, first, selected);
    var head := RowFor(window[0], first == selected);
    var tail := Rows(window[1..], first + 1, selected);
    assert rows == head + tail;
    if selected == first {
      assert head == [TreeRow(PadRight(KindLabel(window[0]).value, 10), DisplayName(window[0], true))];
      assert rows[0] == head[0];
    } else {
      assert window[1..][selected - (first + 1)] == window[selected - first];
      RowsShowSelected(window[1..], first + 1, selected);
      var j :| 0 <= j < |tail| && tail[j].name == DisplayName(window[selected - first], true);
      assert rows[|head| + j] == tail[j];
    }
  }

  /** The selected entry, when it is inside the tree and drawable, is the one
      highlighted row of its page. */
  lemma DrawShowsSelection(p: TreePage, visible: nat)
    requires p.tree.Some? && visible > 0 && p.selected < Len(p)
    requires KindLabel(Entries(p)[p.selected]).Some? && Nameable(Entries(p)[p.selected])
    ensures exists i ::
      0 <= i < |Draw(p, visible)| && Draw(p, visible)[i].name == DisplayName(Entries(p)[p.selected], true)
  {
    var es := Entries(p);
    var start := Pagination.PageStart(visible, p.selected);
    var hi := Clip(start + visible, |es|);
    WindowOfSelection(p, visible);
    var w := es[start..hi];
    assert w[p.selected - start] == es[p.selected];
    assert Draw(p, visible) == Rows(w, start, p.selected);
    RowsShowSelected(w, start, p.selected);
  }

  /** The window `draw` walks starts at the selection's page start and, for
      a selection inside the tree, contains it. */
  lemma WindowOfSelection(p: TreePage, visible: nat)
    requires visible > 0 && p.selected < Len(p)
    ensures var start := Pagination.PageStart(visible, p.selected);
      && Pagination.Paginate(Len(p), visible, p.selected).start == start
      && Window(p, visible) == Entries(p)[start..Clip(start + visible, Len(p))]
      && start <= p.selected < Clip(start + visible, Len(p))
  {
  }

  /** A page whose object does not peel to a tree behaves as an empty list:
      it has no entries, `end` selects 0, and nothing can be selected. */
  lemma UnpeeledIsEmpty(p: TreePage, h: LS.PageSize)
    requires p.tree.None?
    ensures Len(p) == 0 && End(p, h).selected == 0
    ensures !SelectDefined(p) && !SelectedItemDefined(p)
  {
  }

  /** The title is the construction name, and no movement changes it. */
  lemma TitleIsConstructionName(tree: Option<seq<Entry>>, name: string, h: LS.PageSize)
    ensures var p := New(tree, name);
      && Title(p) == name
      && Title(Home(p, h)) == name && Title(End(p, h)) == name && Title(PageUp(p, h)) == name
      && (Len(p) > 0 ==> Title(NextSelection(p)) == name && Title(PreviousSelection(p)) == name)
  {
  }
}
