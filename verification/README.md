# gitbrowser-rs navigation core, in Dafny

This project models the index arithmetic and the small pure classifiers of
gitbrowser-rs. gitbrowser-rs is a terminal browser for a git repository. It
lists the references, then the trees of a commit, then the lines of a file.
The model keeps only what can be expressed without git or a terminal:

- `pagination`: the page that holds the selection, and the page count.
- The selection of the reference list (`RefsPage`) and of the tree listing
  (`TreePage`). Both wrap or clamp a `selected_index` against the list
  length. Their `draw` picks a window of rows and highlights the selection.
- The scroll offset `top` of the file viewer (`BlobPager`). Its `draw`
  places the lines, the `~` filler and the line-number gutter.
  `from_object` classifies an object as not-a-blob, binary or text.
- The key bindings (`NavigationAction::from`).
- The labels of tree entries in both `Display` snapshots, and the name a
  repository derives from its path.
- The error kinds and their messages.

The repository is plain data. The reference listing is a `seq<string>`. A
tree is a `seq<Entry>`, where each entry records its kind, name, binary flag
and whether its object resolves. A blob records its binary flag, whether it
is valid UTF-8, and its lines. Every operation is a pure function from page
to page. Each place where Rust's `usize` arithmetic or an index would panic
is a `requires`. The code is modelled as written, including its edge cases
(see "Edge cases of the code as written").

Modules, one per file: `Wrappers`, `Format` (what `format!` does with
numbers and padding), `Pagination`, `ListSelection` (the selection
arithmetic shared by the two list pages), `RepoPath`, `EntryDisplay`
(src/traits.rs), `LegacyDisplay` (src/display.rs), `RefsPage`, `TreePage`,
`BlobPager`, `Navigation`, `Errors`.

## Model

| member | source | states |
|---|---|---|
| Pagination.PageStart | src/app/pagination.rs:6 | the page start is the largest multiple of the window not above the selection: a multiple of the window, at most the selection, and less than one window below it |
| Pagination.PageCount | src/app/pagination.rs:7-11 | the page count covers every item, and with at least one item the last page is not empty |
| Pagination.Paginate | src/app/pagination.rs:1-18 | needs a non-zero window; page start is at most the selection, a multiple of the window, less than a window below it; page is selection div window; the pages cover the items with no empty last page; a selection inside the list gives a page start inside the list and a page below the page count |
| Pagination.PagesIsCeiling | src/app/pagination.rs:7-11 | the page count equals the ceiling of items over window size |
| Pagination.PageBranchDead | src/app/pagination.rs:12-16 | the page start is always a multiple of the window, so the `+ 1` branch of the page computation never runs |
| Pagination.SamePageSameStart | src/app/pagination.rs:6 | any selection inside a page's window has the same page start, so the window does not move while the selection stays in it |
| ListSelection.End | src/app/refs_page.rs:101-107 | `end` selects the last entry of a non-empty list and 0 for an empty one |
| ListSelection.PageDown | src/app/refs_page.rs:109-117 | `pagedown` is defined unless it overshoots an empty list; it moves exactly one page when that stays within `len`, otherwise selects the last entry; the result can equal `len`, exactly when the page lands on `len` |
| ListSelection.PageUp | src/app/refs_page.rs:119-126 | `pageup` never moves forward, moves back exactly one page when there is room, and stops at 0 |
| ListSelection.Next | src/app/refs_page.rs:128-134 | `next_selection` needs a non-empty list, always lands inside it, steps forward by one and wraps from the last entry (or from past the end) to 0 |
| ListSelection.Prev | src/app/refs_page.rs:136-142 | `previous_selection` steps back by one, and from 0 wraps to the last entry; wrapping needs a non-empty list |
| ListSelection.NextPrevInverse | src/app/refs_page.rs:128-142 | inside the list, next and previous undo each other in both orders |
| ListSelection.NextTimesCounts | src/app/refs_page.rs:128-134 | from 0, `k < len` calls of `next_selection` select entry `k` |
| ListSelection.NextCycle | src/app/refs_page.rs:128-134 | from 0, `len` calls of `next_selection` return to 0 |
| ListSelection.MovesStayInside | src/app/refs_page.rs:97-142 | `end`, `next`, `previous` and `pageup` keep a selection inside a non-empty list |
| ListSelection.MovesStayWithinLength | src/app/refs_page.rs:97-142 | all movements, `pagedown` included, keep a selection at most `len` |
| ListSelection.PageDownOvershoots | src/app/refs_page.rs:109-117 | a page of 3 from the first of 3 entries selects index 3, one past the last |
| ListSelection.PageDownClamped | src/app/refs_page.rs:109-117 | the evidently intended `pagedown`: a jump that stays below `len` moves one page, one that reaches or passes `len` selects the last entry `len - 1`, so a non-empty list's selection stays inside it |
| ListSelection.PageDownClampedAgrees | src/app/refs_page.rs:109-117 | on a non-empty list the as-written `pagedown` is defined and equals the clamped one exactly when the jump does not land on `len` |
| RefsPage.New | src/app/refs_page.rs:21-27 | a new page holds the repository and selects index 0 |
| RefsPage.Len | src/app/refs_page.rs:29-45 | `len` is the number of names `items` returns |
| RefsPage.ItemsFollowRepository | src/app/refs_page.rs:36-45 | `items` is the repository's reference names, whatever the selection; no movement changes the listing |
| RefsPage.Home | src/app/refs_page.rs:97-99 | `home` selects 0 and keeps the repository |
| RefsPage.End | src/app/refs_page.rs:101-107 | `end` selects the last reference, or 0 when there are none |
| RefsPage.PageDown | src/app/refs_page.rs:109-117 | `pagedown` jumps one page when it fits within `len`, else selects the last reference; the result is at most `len` |
| RefsPage.PageUp | src/app/refs_page.rs:119-126 | `pageup` jumps back one page or stops at 0, never moving forward |
| RefsPage.NextSelection | src/app/refs_page.rs:128-134 | needs at least one reference; steps forward, wrapping to 0, and lands on a reference |
| RefsPage.PreviousSelection | src/app/refs_page.rs:136-142 | steps back, wrapping from 0 to the last reference |
| RefsPage.Select | src/app/refs_page.rs:144-154 | needs the selection inside the list; returns the selected name to resolve, with an empty display name |
| RefsPage.SelectedItem | src/app/refs_page.rs:156-162 | "" for an empty list, else the selected name; a selection past the end of a non-empty list panics |
| RefsPage.Title | src/app/refs_page.rs:83-93 | the title is the name the older `Display for Repository` gives the same path, whatever the selection flag |
| RefsPage.EndSlice | src/app/refs_page.rs:57-61 | the slice end is the smaller of the list length and one window past the start |
| RefsPage.Draw | src/app/refs_page.rs:48-81 | needs a non-zero window and a page start inside the list; draws at most one window of rows, `items[start..end_slice]` in order, each with the `ref` label padded to 10, highlighted exactly when its index is the selection |
| RefsPage.DrawShowsSelection | src/app/refs_page.rs:53-66 | a selection inside the list is always drawn; exactly one row is highlighted, and it shows the selected name |
| RefsPage.OvershootHighlightsNothing | src/app/refs_page.rs:57-66 | with the selection at `len` (after the `pagedown` overshoot) the page still draws but highlights no row |
| RefsPage.MovesPreserveValid | src/app/refs_page.rs:96-142 | every movement keeps the selection at most the reference count |
| RefsPage.NewPageSelectsFirst | src/app/refs_page.rs:21-27 | a new page's selected item is the first reference, and its title is the repository name |
| RefsPage.ThreeRefsScenario | src/app/refs_page.rs:128-162 | with references main, dev, v1: two `next` calls select "v1", a third wraps to 0, and `previous` from 0 selects index 2 |
| TreePage.New | src/app/tree_page.rs:21-32 | a new page keeps its object and name and selects index 0 |
| TreePage.Len | src/app/tree_page.rs:34-39 | the entry count of the peeled tree, or 0 when peeling fails |
| TreePage.Home | src/app/tree_page.rs:83-85 | selects 0; tree and name unchanged |
| TreePage.End | src/app/tree_page.rs:87-89 | selects the last entry, or 0 when empty; tree and name unchanged |
| TreePage.PageDown | src/app/tree_page.rs:91-99 | jumps one page when it fits within `len`, else selects the last entry; result at most `len`; tree and name unchanged |
| TreePage.PageUp | src/app/tree_page.rs:101-108 | jumps back one page or stops at 0; tree and name unchanged |
| TreePage.NextSelection | src/app/tree_page.rs:110-116 | needs a non-empty tree; steps forward with wrap-around and lands on an entry |
| TreePage.PreviousSelection | src/app/tree_page.rs:118-124 | steps back, wrapping from 0 to the last entry |
| TreePage.Select | src/app/tree_page.rs:126-150 | needs a peelable tree, a selection inside it, and a resolvable, named entry; returns that entry and its name |
| TreePage.SelectedItem | src/app/tree_page.rs:152-169 | needs a peelable tree, a selection inside it and a named entry; returns that entry's name |
| TreePage.RowFor | src/app/tree_page.rs:58-65 | an entry gives one row exactly when it has a kind label: the label padded to 10 columns and the entry's name cell; otherwise no row |
| TreePage.Labelled | src/app/tree_page.rs:58 | the number of entries that get a row is at most the window size, and equals it when every entry has a kind label |
| TreePage.Window | src/app/tree_page.rs:51-54 | `skip(page_start).take(visible)`: the entries from the page start to one window past it, both cut at the tree's end; at most `visible` of them |
| TreePage.Rows | src/app/tree_page.rs:56-66 | one row per labelled entry, each kind column 10 characters wide; at most one row is highlighted, and none when the selection is outside the window |
| TreePage.RowsPlaceEntry | src/app/tree_page.rs:56-66 | a labelled entry `j` of the window is the row numbered by the labelled entries before it: its padded label and its name cell, highlighted exactly when `first + j` is the selection |
| TreePage.RowsPlaceEntries | src/app/tree_page.rs:56-66 | the same for every labelled entry of the window at once, so the rows are the labelled entries in window order |
| TreePage.Draw | src/app/tree_page.rs:43-75 | needs a peelable tree and a non-zero window; one row per labelled entry of the page's window, in window order, each its padded label and its name cell highlighted exactly when it is the selected entry; at most `visible` rows, at most one highlighted |
| TreePage.RowsShowSelected | src/app/tree_page.rs:56-66 | a selected entry inside the window that has a kind label and a name appears as a highlighted row |
| TreePage.WindowOfSelection | src/app/tree_page.rs:51-54 | the drawn window starts at the selection's page start and contains a selection inside the tree |
| TreePage.DrawShowsSelection | src/app/tree_page.rs:51-66 | the selected entry, inside the tree, labelled and named, is drawn highlighted |
| TreePage.UnpeeledIsEmpty | src/app/tree_page.rs:34-39 | an object that does not peel to a tree gives an empty list: `end` selects 0 and neither `select` nor `selected_item` can succeed |
| TreePage.TitleIsConstructionName | src/app/tree_page.rs:77-79 | the title is the name given to `new`, and no movement changes it |
| EntryDisplay.KindLabel | src/traits.rs:35-62 | no label exactly for a blob entry whose object does not resolve; otherwise one of tree, blob, binary, unknown: tree for trees, binary or blob for resolvable blobs by the binary flag, unknown for a missing or other kind |
| EntryDisplay.DisplayName | src/traits.rs:64-93 | a named tree shows `name/`, a named blob `name`, anything else "unknown"; the selection background appears exactly for a selected, named tree or blob |
| EntryDisplay.NameTextIgnoresSelection | src/traits.rs:74-84 | the name text does not depend on the selection, and an unselected entry is never highlighted |
| EntryDisplay.TreeNamesEndInSlash | src/traits.rs:79-86 | if entry names contain no trailing `/`, a name cell ends in `/` exactly for a named tree |
| LegacyDisplay.RepositoryKind | src/display.rs:15-17 | the repository's kind label is empty |
| LegacyDisplay.RepositoryName | src/display.rs:19-33 | the repository's name is the one derived from its path, whatever the selection flag |
| LegacyDisplay.KindLabel | src/display.rs:37-55 | the label is always one of tree, blob, unknown: tree exactly for trees, blob exactly for blobs |
| LegacyDisplay.EntryName | src/display.rs:57-85 | the older name cell is highlighted only when selected |
| LegacyDisplay.EntryNameAgrees | src/display.rs:57-85 | the older entry name equals the newer one for every entry and selection |
| LegacyDisplay.KindLabelAgrees | src/display.rs:37-55 | the older kind label equals the newer one, except that binary blobs say "blob" and unresolvable blobs, dropped by the newer one, say "blob" |
| RepoPath.RepoName | src/display.rs:20-28 | the name is the parent directory's file name; when the parent has no file name, the rendered parent path; when there is no parent, the rendered full path |
| RepoPath.RepoNameOfGitDir | src/display.rs:20-22 | for a path `.../<dir>/<last>` the name is `<dir>`, whatever lies above it |
| RepoPath.RepoNameOfRoot | src/display.rs:26-28 | the root path has no parent, so the name is "/" |
| RepoPath.RepoNameOfBareRelative | src/display.rs:23-25 | a one-component relative path has the empty path as its parent, so the name is "" |
| BlobPager.New | src/app/blob_pager.rs:24-37 | needs valid UTF-8; the pager starts at line 0 with the blob's lines and the given name |
| BlobPager.FromObject | src/app/blob_pager.rs:39-54 | a non-blob gives the blob reference error, a binary blob the binary file error, and a text blob a pager at `top == 0`; each exactly in its case |
| BlobPager.Bottom | src/app/blob_pager.rs:61-65 | the bottom is at most the line count and at most one viewport below `top`, and equals one of the two |
| BlobPager.Gutter | src/app/blob_pager.rs:80-82 | the gutter is the wider of the index's and `bottom`'s digit counts plus three characters: the index's decimal digits right-aligned behind spaces, then a closing space, bar, space |
| BlobPager.Draw | src/app/blob_pager.rs:57-96 | needs `top` within the file; always exactly `height` rows: the lines `top..bottom` in order, each with its gutter, then filler rows |
| BlobPager.GutterShape | src/app/blob_pager.rs:76-86 | the gutter of any line shown above `bottom` is the digit count of `bottom` plus three characters wide, ends in a bar between two spaces, and reads back as the zero-based line index |
| BlobPager.Home | src/app/blob_pager.rs:104-106 | `home` scrolls to line 0 and changes nothing else |
| BlobPager.End | src/app/blob_pager.rs:108-115 | needs the viewport no taller than a non-empty file; the viewport's last row becomes the last line, and an empty file stays at 0 |
| BlobPager.PageDown | src/app/blob_pager.rs:117-125 | scrolls one viewport when that stays within the line count, else to the last line; `top` stays at most the line count |
| BlobPager.PageUp | src/app/blob_pager.rs:127-134 | scrolls back one viewport or stops at 0, never forward |
| BlobPager.NextSelection | src/app/blob_pager.rs:136-141 | needs a non-empty file; scrolls down one line unless the last line is already at the top |
| BlobPager.PreviousSelection | src/app/blob_pager.rs:143-147 | scrolls up one line, stopping at 0 |
| BlobPager.LineScrollKeepsLastLine | src/app/blob_pager.rs:136-147 | line scrolling keeps `top` on a line of the file |
| BlobPager.EndShowsLastPage | src/app/blob_pager.rs:108-115 | after `end` on a file at least a viewport long, the viewport is all text and its last row is the file's last line |
| BlobPager.EndOnFittingFile | src/app/blob_pager.rs:108-115 | a viewport exactly as tall as the file leaves `top` at 0 |
| BlobPager.EndPanicsOnShortFile | src/app/blob_pager.rs:110-111 | a viewport taller than a non-empty file is outside where `end` is defined |
| BlobPager.PastEndIsAllFiller | src/app/blob_pager.rs:61-75 | with `top` at the line count, every row is filler |
| BlobPager.PagerIsReadOnly | src/app/blob_pager.rs:98-155 | scrolling keeps the lines and the title; `select` gives nothing and `selected_item` gives "" |
| BlobPager.TitleIsOpeningName | src/app/blob_pager.rs:98-100 | the title of a pager opened on an object is the name it was opened with |
| BlobPager.EndClamped | src/app/blob_pager.rs:108-115 | the evidently intended `end`: the viewport reaches the file's end, and `top` is 0 or exactly one viewport above the line count |
| BlobPager.EndClampedAgrees | src/app/blob_pager.rs:108-115 | wherever the as-written `end` does not panic it equals the clamped one, and after the clamped one the viewport's bottom is the line count |
| BlobPager.NextLineClamped | src/app/blob_pager.rs:136-141 | a stricter line scroll than the code's own aim of keeping the last line on screen: down one line only while lines remain below the viewport, so a full viewport stays full |
| BlobPager.NextLineClampedAgrees | src/app/blob_pager.rs:136-141 | for a non-empty viewport the as-written and the clamped scroll agree exactly when lines remain below the viewport or the last line is at the top |
| Navigation.FromKey | src/app/navigation.rs:17-40 | each unmodified navigation key maps to its action, and only that key does; CONTROL+g is exactly Back and CONTROL+e exactly ExternalEditor |
| Navigation.BindingsRoundTrip | src/app/navigation.rs:19-33 | every action except Invalid has exactly one key press, and that key press maps back to it |
| Navigation.InvalidIsUnbound | src/app/navigation.rs:27-36 | a key press maps to Invalid exactly when it is no action's binding |
| Navigation.ModifiersMustMatchExactly | src/app/navigation.rs:27-36 | SHIFT+Down, CONTROL+Down, plain `g`, CONTROL+SHIFT+g and CONTROL+x are all Invalid |
| Errors.Message | src/errors.rs:51-60 | every kind has a non-empty message |
| Errors.MessagesDistinct | src/errors.rs:54-58 | the five messages are pairwise distinct |
| Errors.PlainMessage | src/errors.rs:54-58 | no message contains a character that Debug formatting escapes |
| Errors.AsStr | src/errors.rs:34-39 | a browser error's text is its kind's message |
| Errors.Description | src/errors.rs:71-77 | `description` equals `as_str` |
| Errors.EscapeRoundTrip | src/errors.rs:66 | escaping a string as Debug formatting does loses nothing: unescaping gives it back |
| Errors.Display | src/errors.rs:63-69 | the displayed error is a double-quoted literal whose body unescapes to the message |
| Errors.DisplayIsQuotedMessage | src/errors.rs:63-69 | each displayed error is exactly its message in double quotes |
| Format.DecimalString | src/app/blob_pager.rs:80 | `format!("{}", n)` is `Digits(n)` characters, all decimal digits |
| Format.PadLeft | src/app/blob_pager.rs:82 | `{:width$}` on a number keeps its text at the right and pads the left with spaces up to `width` |
| Format.PadRight | src/app/refs_page.rs:72 | `{:10}` keeps the text and pads it with spaces up to width 10 |
| Format.DecimalRoundTrip | src/app/blob_pager.rs:80-82 | the decimal text of a line number parses back to the number |
| Format.DigitsMonotone | src/app/blob_pager.rs:80-82 | a smaller line number never has more digits than `bottom`, so padding to `bottom`'s width is exact |

## Edge cases of the code as written

- `pagedown` tests `>` where `>=` was evidently meant. So it can select
  index `len`, one past the last entry (`ListSelection.PageDownOvershoots`).
  The reference list then draws no highlighted row
  (`RefsPage.OvershootHighlightsNothing`). `selected_item` and `select`
  then index out of range (see their `requires`). The next
  `next_selection` wraps to 0.
- `next_selection`, `previous_selection` from 0, and `pagedown` when it
  overshoots, evaluate `len - 1`. On an empty list or file they panic, so
  they carry `requires` for it.
- `BlobPager::end` computes `lines.len() - h`. It panics when the viewport
  is taller than a non-empty file (`BlobPager.EndPanicsOnShortFile`).
- `BlobPager::draw` computes `bottom - top`. It panics when `top` is past
  the end of the file. `pagedown` can leave `top` equal to the line count,
  and then every row is filler (`BlobPager.PastEndIsAllFiller`).
- Line numbers in the gutter are zero-based (`index + top`).

Where the evidently intended behaviour and the code differ, this model
follows the code:
- `pagedown` was evidently meant to clamp to `len - 1`; the code does not
  (see above). `ListSelection.PageDownClamped` is the clamped version, and
  `ListSelection.PageDownClampedAgrees` shows the two differ exactly when
  the jump lands on `len`.
- The viewer's `end` was evidently meant to give `max(0, len - height)`;
  the code underflows instead. `BlobPager.EndClamped` is that version, and
  `BlobPager.EndClampedAgrees` shows it equals the code wherever the code
  does not panic.
- Line scrolling keeps the last line on the screen, as the code's own
  comment says, but lets it rise to the top row of the viewport. A
  stricter scroll that keeps a full viewport full is
  `BlobPager.NextLineClamped`; `BlobPager.NextLineClampedAgrees` says
  exactly where the two differ. That one is a design alternative, not a
  defect.
- The pages use the as-written operations; the clamped versions only
  state the alternatives.
- The error kinds are named as src/errors.rs declares them
  (`BinaryFileError`, `BlobReferenceError`). src/app/blob_pager.rs uses the
  older names `BinaryFile` and `BlobReference`.

## Left out

- git2 access: `references()`, `revparse_single`, `peel_to_tree`,
  `to_object`, `peel_to_blob`, `is_binary`, `content()`. They are replaced
  by plain data. Whether an entry's `to_object` succeeds is the flag
  `resolvable`; for a blob entry `peel_to_blob` then cannot fail, so it
  has no flag of its own. A failed
  `references()` is the empty name list, because
  `len` and `items` both treat it that way. A failed `revparse_single` in
  `RefsPage::select` panics on an external lookup; that failure is not
  modelled.
- UTF-8 decoding and `str::lines()` in `BlobPager::new`. The lines are
  given. Invalid UTF-8, which panics, is a precondition.
- Styles, colours and ratatui widgets. The exception is the selection
  background of a name cell, kept as a highlighted flag. The kind column's
  colour (red for binary and missing kinds) is not kept.
- `reserved_rows` and `content_block.inner(area)`: the window height is a
  parameter. The `u16` subtraction `f.size().height - reserved_rows` in
  `RefsPage::draw` is not modelled.
- `usize` overflow of `selected_index + h` and `top + h`: the indices are
  unbounded naturals.
- Debug formatting of strings escapes only `"`, `\`, newline, carriage
  return, tab and NUL here. Rust also escapes other non-printable
  characters as `\u{...}`. None occurs in the messages.
- Paths: a path is its sequence of components. Windows prefixes are not
  modelled. `to_string_lossy` is rendered from the components, so the
  original spelling (trailing or doubled separators) is not kept.
- `BlobPager.Select`, `BlobPager.SelectedItem`, `BlobPager.Title` and
  `TreePage.Title` return constants or fields. They have no contract of
  their own. `BlobPager.PagerIsReadOnly`, `BlobPager.TitleIsOpeningName`
  and `TreePage.TitleIsConstructionName` state what they return.
- Not in the modelled files: the App mode stack and page stack, the error
  overlay, incremental syntax highlighting, the commit-pin title, and the
  external editor session. src/app.rs is a placeholder enum, and
  src/app/external_editor.rs only copies its arguments.
- src/main.rs (argument parsing, terminal setup, the event loop),
  src/ui.rs (layout), src/test_main.rs, and `install_hooks` in
  src/errors.rs (panic hooks) are I/O glue.
