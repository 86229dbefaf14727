/** The selection arithmetic that `RefsPage` and `TreePage` share (their
    movement operations are line-for-line the same): a zero-based
    `selected_index` moved against the current list length `len`.
    Rust's `usize` subtraction panics on underflow; every such point is a
    `requires` here. */
module ListSelection {

  /** `page_size: u16` in the `Navigable` trait. */
  type PageSize = h: nat | h < 0x1_0000

  /** `end`: the last entry, or 0 for an empty list. */
  function End(len: nat): (s: nat)
    ensures len > 0 ==> s < len && s + 1 == len
    ensures len == 0 ==> s == 0
  {
    if len > 0 then len - 1 else 0
  }

  /** Whether `pagedown` is defined: it evaluates `len - 1` whenever the
      jump overshoots `len`, which underflows on an empty list. */
  predicate PageDownDefined(s: nat, len: nat, h: PageSize)
  {
    s + h <= len || len > 0
  }

  /** `pagedown`, as written: jump forward a page, falling back to the last
      entry only when the jump lands strictly past `len`. */
  function PageDown(s: nat, len: nat, h: PageSize): (r: nat)
    requires PageDownDefined(s, len, h)
    ensures r <= len
    ensures s + h <= len ==> r == s + h
    ensures s + h > len ==> r + 1 == len
    ensures r == len <==> s + h == len
  {
    if s + h > len then len - 1 else s + h
  }

  /** `pageup`: jump back a page, clamped at the first entry. */
  function PageUp(s: nat, h: PageSize): (r: nat)
    ensures r <= s && s - r <= h
    ensures s >= h ==> s - r == h
    ensures s < h ==> r == 0
  {
    if s < h then 0 else s - h
  }

  /** `next_selection`: one entry forward, wrapping to the first entry.
      The Rust code evaluates `len - 1`, so an empty list panics. */
  function Next(s: nat, len: nat): (r: nat)
    requires len > 0
    ensures r < len
    ensures s + 1 < len ==> r == s + 1
    ensures s + 1 >= len ==> r == 0
  {
    if s < len - 1 then s + 1 else 0
  }

  /** `previous_selection`: one entry back, wrapping to the last entry.
      Wrapping evaluates `len - 1`, so it panics on an empty list. */
  function Prev(s: nat, len: nat): (r: nat)
    requires s > 0 || len > 0
    ensures s > 0 ==> r + 1 == s
    ensures s == 0 ==> r + 1 == len
  {
    if s > 0 then s - 1 else len - 1
  }

  /** Inside the list, `next_selection` and `previous_selection` undo each other. */
  lemma NextPrevInverse(s: nat, len: nat)
    requires s < len
    ensures Prev(Next(s, len), len) == s
    ensures Next(Prev(s, len), len) == s
  {
  }

  /** `next_selection` applied `k` times. */
  function NextTimes(s: nat, len: nat, k: nat): (r: nat)
    requires len > 0
    ensures k > 0 ==> r < len
  {
    if k == 0 then s else Next(NextTimes(s, len, k - 1), len)
  }

  /** From the first entry, `k < len` steps forward select entry `k`. */
  lemma {:induction false} NextTimesCounts(len: nat, k: nat)
    requires 0 < len && k < len
    ensures NextTimes(0, len, k) == k
  {
    if k > 0 {
      NextTimesCounts(len, k - 1);
    }
  }

  /** With `len` entries, `len` steps forward from the first entry wrap back to it. */
  lemma NextCycle(len: nat)
    requires len > 0
    ensures NextTimes(0, len, len) == 0
  {
    NextTimesCounts(len, len - 1);
  }

  /** Every movement except `pagedown` keeps a selection that starts inside
      a non-empty list inside it. */
  lemma MovesStayInside(s: nat, len: nat, h: PageSize)
    requires s < len
    ensures End(len) < len && Next(s, len) < len && Prev(s, len) < len && PageUp(s, h) < len
  {
  }

  /** All movements keep the weaker bound `s <= len` that `pagedown` allows. */
  lemma MovesStayWithinLength(s: nat, len: nat, h: PageSize)
    requires s <= len && len > 0
    ensures PageDown(s, len, h) <= len && Next(s, len) < len && Prev(s, len) < len && PageUp(s, h) <= len
  {
  }

  /** `pagedown` can select one past the last entry: on a list of 3 entries,
      a page of 3 from the first entry selects index 3. */
  lemma PageDownOvershoots()
    ensures PageDown(0, 3, 3) == 3
  {
  }

  /** `pagedown` with the clamp it evidently intends: a jump that reaches or
      passes `len` lands on the last entry, so the selection stays inside a
      non-empty list. */
  function PageDownClamped(s: nat, len: nat, h: PageSize): (r: nat)
    ensures len > 0 ==> r < len
    ensures len == 0 ==> r == 0
    ensures s + h < len ==> r == s + h
    ensures len > 0 && s + h >= len ==> r + 1 == len
    ensures r <= s + h
  {
    if s + h < len then s + h else if len > 0 then len - 1 else 0
  }

  /** On a non-empty list the clamped and the as-written `pagedown` differ
      exactly when the jump lands on `len` itself. */
  lemma PageDownClampedAgrees(s: nat, len: nat, h: PageSize)
    requires len > 0
    ensures PageDownDefined(s, len, h)
    ensures PageDownClamped(s, len, h) == PageDown(s, len, h) <==> s + h != len
  {
  }
}
