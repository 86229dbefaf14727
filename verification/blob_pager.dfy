/** `BlobPager` from src/app/blob_pager.rs: a file viewer over the lines of a
    text blob, scrolled by a free offset `top` (the first line shown). The
    blob is replaced by the facts the pager asks of it: whether it is
    binary, whether its bytes are valid UTF-8, and the lines `str::lines`
    splits it into. */
module BlobPager {
  import opened Wrappers
  import opened Format
  import opened Errors
  import EntryDisplay
  import LS = ListSelection

  datatype BlobData = BlobData(isBinary: bool, validUtf8: bool, lines: seq<string>)

  /** An object of the repository: its kind, and its blob data when it is a blob. */
  datatype Object = Object(kind: EntryDisplay.ObjectKind, blob: BlobData)

  datatype BlobPager = BlobPager(top: nat, name: string, lines: seq<string>)

  /** One drawn row: a line with its number gutter, or the dim `~` filler. */
  datatype PagerRow = Numbered(gutter: string, text: string) | Filler

  /** `BlobPager::new`; decoding a blob that is not UTF-8 panics. */
  function New(blob: BlobData, name: string): (p: BlobPager)
    requires blob.validUtf8
    ensures p.top == 0 && p.name == name && p.lines == blob.lines
  {
    BlobPager(0, name, blob.lines)
  }

  /** Where `from_object` does not panic: a text blob must decode. */
  predicate FromObjectDefined(obj: Object)
  {
    obj.kind == EntryDisplay.Blob && !obj.blob.isBinary ==> obj.blob.validUtf8
  }

  /** `from_object`: a pager for a text blob, otherwise the recoverable error
      saying why there is none. */
  function FromObject(obj: Object, name: string): (r: Result<BlobPager, GitBrowserError>)
    requires FromObjectDefined(obj)
    ensures r == Failure(Error(BlobReferenceError)) <==> obj.kind != EntryDisplay.Blob
    ensures r == Failure(Error(BinaryFileError)) <==> obj.kind == EntryDisplay.Blob && obj.blob.isBinary
    ensures r.Success? <==> obj.kind == EntryDisplay.Blob && !obj.blob.isBinary
    ensures r.Success? ==> r.value.top == 0 && r.value.name == name && r.value.lines == obj.blob.lines
  {
    if obj.kind == EntryDisplay.Blob then
      if obj.blob.isBinary then Failure(Error(BinaryFileError))
      else Success(New(obj.blob, name))
    else Failure(Error(BlobReferenceError))
  }

  /** `title`: the name given at construction. */
  function Title(p: BlobPager): string
  {
    p.name
  }

  /** One past the last line shown: a viewport below `top`, cut at the file end. */
  function Bottom(top: nat, height: nat, len: nat): (b: nat)
    ensures b <= len && b <= top + height
    ensures b == len || b == top + height
  {
    if top + height > len then len else top + height
  }

  /** The line-number gutter: the zero-based line index right-aligned to the
      digit count of `bottom`, then ` | `. */
  function Gutter(index: nat, bottom: nat): (g: string)
    ensures |g| == (if Digits(index) < Digits(bottom) then Digits(bottom) else Digits(index)) + 3
    ensures g[|g| - 3..] == " | "
    ensures g[|g| - 3 - Digits(index)..|g| - 3] == DecimalString(index)
    ensures forall i :: 0 <= i < |g| - 3 - Digits(index) ==> g[i] == ' '
  {
    var padded := PadLeft(DecimalString(index), Digits(bottom));
    var g := padded + " | ";
    assert g[..|g| - 3] == padded;
    g
  }

  /** `draw`: the viewport's rows for a viewport `height` lines tall. The
      Rust code computes `bottom - top`, which underflows when `top` is past the
      end of the file. */
  function Draw(p: BlobPager, height: nat): (rows: seq<PagerRow>)
    requires p.top <= |p.lines|
    ensures |rows| == height
    ensures var bottom := Bottom(p.top, height, |p.lines|);
      forall i :: 0 <= i < |rows| ==>
        if p.top + i < bottom then rows[i] == Numbered(Gutter(p.top + i, bottom), p.lines[p.top + i])
        else rows[i] == Filler
  {
    var bottom := Bottom(p.top, height, |p.lines|);
    var filler := if bottom - p.top < height then seq(height - (bottom - p.top), _ => Filler) else [];
    var numbered := seq(bottom - p.top, i requires 0 <= i < bottom - p.top =>
      Numbered(Gutter(i + p.top, bottom), p.lines[p.top + i]));
    numbered + filler
  }

  /** The gutters `draw` puts before its lines all have the same width: a
      gutter for a line above `bottom` is exactly `bottom`'s digit count
      plus three characters wide, ends in ` | `, and holds the line index's
      decimal digits right-aligned behind spaces, which read back as the
      index. */
  lemma GutterShape(n: nat, bottom: nat)
    requires n < bottom
    ensures var g := Gutter(n, bottom);
      && |g| == Digits(bottom) + 3
      && g[Digits(bottom)..] == " | "
      && g[Digits(bottom) - Digits(n)..Digits(bottom)] == DecimalString(n)
      && (forall i :: 0 <= i < Digits(bottom) - Digits(n) ==> g[i] == ' ')
      && ParseDecimal(g[Digits(bottom) - Digits(n)..Digits(bottom)]) == n
  {
    DigitsMonotone(n, bottom);
    var digits := DecimalString(n);
    var padded := PadLeft(digits, Digits(bottom));
    var g := Gutter(n, bottom);
    assert g == padded + " | ";
    assert g[Digits(bottom) - |digits|..Digits(bottom)] == padded[|padded| - |digits|..];
    DecimalRoundTrip(n);
  }

  function Home(p: BlobPager, h: LS.PageSize): (r: BlobPager)
    ensures r == p.(top := 0)
  {
    p.(top := 0)
  }

  /** Where `end` does not panic: `lines.len() - h` underflows when the
      viewport is taller than a non-empty file. */
  predicate EndDefined(p: BlobPager, h: LS.PageSize)
  {
    |p.lines| == 0 || h <= |p.lines|
  }

  /** `end`: scroll so that the viewport's last row is the file's last line. */
  function End(p: BlobPager, h: LS.PageSize): (r: BlobPager)
    requires EndDefined(p, h)
    ensures r.lines == p.lines && r.name == p.name
    ensures |p.lines| > 0 ==> r.top + h == |p.lines|
    ensures |p.lines| == 0 ==> r.top == 0
  {
    p.(top := if |p.lines| > 0 then |p.lines| - h else 0)
  }

  /** `pagedown`: the same arithmetic as the list pages' `pagedown`,
      on `top` against the line count. */
  function PageDown(p: BlobPager, h: LS.PageSize): (r: BlobPager)
    requires LS.PageDownDefined(p.top, |p.lines|, h)
    ensures r.lines == p.lines && r.name == p.name && r.top <= |p.lines|
    ensures p.top + h <= |p.lines| ==> r.top == p.top + h
    ensures p.top + h > |p.lines| ==> r.top + 1 == |p.lines|
  {
    p.(top := LS.PageDown(p.top, |p.lines|, h))
  }

  /** `pageup`: scroll back a viewport, clamped at the first line. */
  function PageUp(p: BlobPager, h: LS.PageSize): (r: BlobPager)
    ensures r.lines == p.lines && r.name == p.name && r.top <= p.top
    ensures p.top >= h ==> r.top + h == p.top
    ensures p.top < h ==> r.top == 0
  {
    p.(top := LS.PageUp(p.top, h))
  }

  /** `next_selection`: scroll down a line unless the last line is already
      at the top. The Rust code evaluates `lines.len() - 1`, so an empty file
      panics. */
  function NextSelection(p: BlobPager): (r: BlobPager)
    requires |p.lines| > 0
    ensures r.lines == p.lines && r.name == p.name
    ensures p.top + 1 < |p.lines| ==> r.top == p.top + 1
    ensures p.top + 1 >= |p.lines| ==> r.top == p.top
  {
    if p.top < |p.lines| - 1 then p.(top := p.top + 1) else p
  }

  /** `previous_selection`: scroll up a line, stopping at the first. */
  function PreviousSelection(p: BlobPager): (r: BlobPager)
    ensures r.lines == p.lines && r.name == p.name
    ensures p.top > 0 ==> r.top + 1 == p.top
    ensures p.top == 0 ==> r.top == 0
  {
    if p.top > 0 then p.(top := p.top - 1) else p
  }

  /** `select`: a pager has nothing to open. */
  function Select(p: BlobPager): Option<(EntryDisplay.Entry, string)>
  {
    None
  }

  /** `selected_item`: a pager has no selected item. */
  function SelectedItem(p: BlobPager): string
  {
    ""
  }

  /** Line-by-line scrolling keeps the last line on screen: a `top` on a line
      of the file stays on a line of the file. */
  lemma LineScrollKeepsLastLine(p: BlobPager)
    requires p.top < |p.lines|
    ensures NextSelection(p).top < |p.lines|
    ensures PreviousSelection(p).top < |p.lines|
    ensures Home(p, 0).top < |p.lines|
  {
  }

  /** After `end` on a file at least one viewport long, the viewport shows
      exactly the file's last `h` lines, with no filler. */
  lemma EndShowsLastPage(p: BlobPager, h: LS.PageSize)
    requires 0 < h <= |p.lines|
    ensures End(p, h).top <= |p.lines|
    ensures forall i :: 0 <= i < h ==> Draw(End(p, h), h)[i].Numbered?
    ensures Draw(End(p, h), h)[h - 1].text == p.lines[|p.lines| - 1]
  {
  }

  /** A viewport exactly as tall as the file: `end` keeps `top` at 0. */
  lemma EndOnFittingFile(p: BlobPager)
    requires 0 < |p.lines| < 0x1_0000
    ensures End(p, |p.lines|).top == 0
  {
  }

  /** A viewport taller than a non-empty file is where `end` panics. */
  lemma EndPanicsOnShortFile(p: BlobPager, h: LS.PageSize)
    requires 0 < |p.lines| < h
    ensures !EndDefined(p, h)
  {
  }

  /** Past the end of the file, the viewport is all filler. */
  lemma PastEndIsAllFiller(p: BlobPager, height: nat)
    requires p.top == |p.lines|
    ensures forall r :: r in Draw(p, height) ==> r == Filler
  {
  }

  /** Scrolling never touches the file or its name, and `select` and
      `selected_item` yield nothing. */
  lemma PagerIsReadOnly(p: BlobPager, h: LS.PageSize)
    ensures Home(p, h).lines == p.lines && PageUp(p, h).lines == p.lines
    ensures Select(p).None? && SelectedItem(p) == ""
    ensures Title(Home(p, h)) == Title(p) && Title(PageUp(p, h)) == Title(p)
    ensures |p.lines| > 0 ==> Title(NextSelection(p)) == Title(p)
  {
  }

  /** The title is the name the pager was opened with. */
  lemma TitleIsOpeningName(obj: Object, name: string)
    requires FromObjectDefined(obj) && FromObject(obj, name).Success?
    ensures Title(FromObject(obj, name).value) == name
  {
  }

  /** `end` as evidently intended: the last viewport of the file, or the top
      when the whole file fits. */
  function EndClamped(p: BlobPager, h: LS.PageSize): (r: BlobPager)
    ensures r.lines == p.lines && r.name == p.name
    ensures r.top + h >= |p.lines|
    ensures r.top > 0 ==> r.top + h == |p.lines|
  {
    p.(top := if |p.lines| > h then |p.lines| - h else 0)
  }

  /** Wherever the as-written `end` does not panic, it agrees with the
      clamped one; after the clamped `end` the viewport reaches the last line. */
  lemma EndClampedAgrees(p: BlobPager, h: LS.PageSize)
    ensures EndDefined(p, h) ==> EndClamped(p, h) == End(p, h)
    ensures Bottom(EndClamped(p, h).top, h, |p.lines|) == |p.lines|
  {
  }

  /** Line scrolling as evidently intended: scroll down only while lines
      remain below the viewport, so a full viewport stays full. */
  function NextLineClamped(p: BlobPager, h: LS.PageSize): (r: BlobPager)
    ensures r.lines == p.lines && r.name == p.name
    ensures p.top + h < |p.lines| ==> r.top == p.top + 1
    ensures p.top + h >= |p.lines| ==> r.top == p.top
    ensures p.top + h <= |p.lines| ==> r.top + h <= |p.lines|
  {
    if p.top + h < |p.lines| then p.(top := p.top + 1) else p
  }

  /** For a non-empty viewport, the clamped and the as-written line scroll
      differ exactly when the file's last line is already inside the
      viewport but not at its top. */
  lemma NextLineClampedAgrees(p: BlobPager, h: LS.PageSize)
    requires |p.lines| > 0 && h > 0
    ensures NextLineClamped(p, h) == NextSelection(p) <==> p.top + h < |p.lines| || p.top + 1 >= |p.lines|
  {
  }
}
