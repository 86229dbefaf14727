/** `pagination` from src/app/pagination.rs: which page of a list holds the
    selected item, how many pages there are, and where the selected item's
    page starts. */
module Pagination {

  /** The three results of `pagination`, in the order the Rust function returns them. */
  datatype PageInfo = PageInfo(page: nat, pages: nat, start: nat)

  /** Euclidean division facts in the form the proofs below use. */
  lemma DivModUnique(x: nat, v: nat, q: nat, r: nat)
    requires v > 0
    requires x == q * v + r && r < v
    ensures x / v == q && x % v == r
  {
    var q0, r0 := x / v, x % v;
    assert x == q0 * v + r0;
    if q0 < q {
      assert q0 * v + v <= q * v by { MulMonotone(q0 + 1, q, v); }
      assert false;
    } else if q0 > q {
      assert q * v + v <= q0 * v by { MulMonotone(q + 1, q0, v); }
      assert false;
    }
  }

  lemma MulMonotone(a: nat, b: nat, v: nat)
    requires a <= b
    ensures a * v <= b * v
  {
  }

  /** Round the selected index down to the start of its page. */
  function PageStart(visible: nat, selected: nat): (start: nat)
    requires visible > 0
    ensures start <= selected
    ensures start % visible == 0
    ensures selected - start < visible
    ensures start == (selected / visible) * visible
  {
    var start := selected - selected % visible;
    DivModUnique(start, visible, selected / visible, 0);
    start
  }

  /** The page count as the Rust code computes it: one more page when the
      last page is only partly filled. */
  function PageCount(itemCount: nat, visible: nat): (pages: nat)
    requires visible > 0
    ensures pages * visible >= itemCount
    ensures itemCount > 0 ==> (pages - 1) * visible < itemCount
  {
    var q, r := itemCount / visible, itemCount % visible;
    assert itemCount == q * visible + r;
    assert (q + 1) * visible == q * visible + visible;
    assert q > 0 ==> (q - 1) * visible == q * visible - visible;
    if r > 0 then q + 1 else q
  }

  /** `pagination(item_count, visible_item_count, selected_index)`.
      The caller must not pass a zero window: the Rust code divides by it. */
  function Paginate(itemCount: nat, visible: nat, selected: nat): (r: PageInfo)
    requires visible > 0
    ensures r.start <= selected && r.start % visible == 0
    ensures selected - r.start < visible
    ensures r.page == selected / visible && r.page * visible == r.start
    ensures r.pages * visible >= itemCount
    ensures itemCount > 0 ==> (r.pages - 1) * visible < itemCount
    ensures selected < itemCount ==> r.start < itemCount && r.page < r.pages
  {
    var start := PageStart(visible, selected);
    var pages := PageCount(itemCount, visible);
    var page := start / visible + (if start % visible > 0 then 1 else 0);
    DivModUnique(start, visible, selected / visible, 0);
    PagesBoundPage(itemCount, visible, selected, start, page, pages);
    PageInfo(page, pages, start)
  }

  lemma PagesBoundPage(itemCount: nat, visible: nat, selected: nat, start: nat, page: nat, pages: nat)
    requires visible > 0
    requires start <= selected && page * visible == start
    requires pages * visible >= itemCount
    ensures selected < itemCount ==> start < itemCount && page < pages
  {
    if selected < itemCount && page >= pages {
      MulMonotone(pages, page, visible);
      assert false;
    }
  }

  /** Ceiling division, the usual closed form of a page count. */
  function CeilDiv(n: nat, v: nat): nat
    requires v > 0
  {
    (n + v - 1) / v
  }

  /** The page count equals the ceiling of item count over window size. */
  lemma PagesIsCeiling(itemCount: nat, visible: nat, selected: nat)
    requires visible > 0
    ensures Paginate(itemCount, visible, selected).pages == CeilDiv(itemCount, visible)
  {
    var q, r := itemCount / visible, itemCount % visible;
    if r > 0 {
      DivModUnique(itemCount + visible - 1, visible, q + 1, r - 1);
    } else {
      DivModUnique(itemCount + visible - 1, visible, q, visible - 1);
    }
  }

  /** The first branch of the Rust page computation never runs: the page
      start is always a multiple of the window, so the page number is just
      the selected index divided by the window. */
  lemma PageBranchDead(itemCount: nat, visible: nat, selected: nat)
    requires visible > 0
    ensures PageStart(visible, selected) % visible == 0
    ensures Paginate(itemCount, visible, selected).page == PageStart(visible, selected) / visible
  {
  }

  /** Two selections on the same page share a page start; the window is
      stable while the selection moves inside it. */
  lemma {:induction false} SamePageSameStart(visible: nat, a: nat, b: nat)
    requires visible > 0
    requires PageStart(visible, a) <= b < PageStart(visible, a) + visible
    ensures PageStart(visible, b) == PageStart(visible, a)
  {
    var s := PageStart(visible, a);
    DivModUnique(b, visible, a / visible, b - s);
  }
}
