/** The dirty-page log: one bit per guest page, in a byte array shared by the bitmaps of all memory
    regions. A region's bitmap starts at the page of its own guest address, so two regions may share
    a byte. Offsets are 64-bit `usize` values. */
module DirtyLog {
  import opened Bits
  import opened Wrappers

  const PAGE_SIZE: nat := 0x1000
  const WORD_SIZE: nat := 8
  const USIZE_MAX: nat := 0xffff_ffff_ffff_ffff

  function PageNumber(addr: nat): nat {
    addr / PAGE_SIZE
  }

  function PageWord(page: nat): nat {
    page / WORD_SIZE
  }

  function PageBit(page: nat): (bit: nat)
    ensures bit < WORD_SIZE
  {
    page % WORD_SIZE
  }

  function SaturatingAdd(a: nat, b: nat): nat {
    if a + b <= USIZE_MAX then a + b else USIZE_MAX
  }

  function CheckedAdd(a: nat, b: nat): Option<nat> {
    if a + b <= USIZE_MAX then Some(a + b) else None
  }

  // ---- the log as a set of pages ----

  predicate PageSet(log: seq<Byte>, page: nat) {
    PageWord(page) < |log| && BitAt(log[PageWord(page)], PageBit(page))
  }

  /** `fetch_or(1 << bit)` on the byte of a page. */
  function OrPage(byte: Byte, page: nat): (r: Byte) {
    var bit := PageBit(page);
    assert byte < Pow2(8);
    Pow2Monotone(bit, 8);
    OrFits(byte, Pow2(bit), 8);
    Or(byte, Pow2(bit))
  }

  function FetchOr(log: seq<Byte>, page: nat): (r: seq<Byte>)
    requires PageWord(page) < |log|
    ensures |r| == |log|
  {
    log[PageWord(page) := OrPage(log[PageWord(page)], page)]
  }

  /** Bit k of byte b stands for page 8 * b + k. */
  lemma PageIsBit(log: seq<Byte>, b: nat, k: nat)
    requires k < 8
    ensures PageSet(log, 8 * b + k) <==> b < |log| && BitAt(log[b], k)
  {
  }

  /** The OR sets bit `page % 8` of the byte, counting from the lowest, and no other. */
  lemma OrPageSetsOneBit(byte: Byte, page: nat, k: nat)
    ensures BitAt(OrPage(byte, page), k) <==> BitAt(byte, k) || k == page % 8
  {
    OrBit(byte, Pow2(PageBit(page)), k);
    Pow2Bit(PageBit(page), k);
  }

  /** The first pages of a byte: page 0 is its lowest bit, page 7 its highest. */
  lemma FirstAndLastBit()
    ensures OrPage(0, 0) == 1 && OrPage(0, 7) == 0x80 && OrPage(0x80, 8) == 0x81
  {
    OrZero(1);
    OrZero(Pow2(7));
    assert Pow2(3) == 8;
    assert Pow2(7) == 0x80;
    OrOfDisjointFields(1, 1, 7);
    OrIsSymmetric(1, 0x80);
  }

  lemma {:induction false} OrIsSymmetric(x: nat, y: nat)
    ensures Or(x, y) == Or(y, x)
    decreases x + y
  {
    if x + y > 0 {
      OrIsSymmetric(x / 2, y / 2);
    }
  }

  /** One atomic OR sets the bit of its page and changes no other page. */
  lemma FetchOrSetsOnePage(log: seq<Byte>, page: nat, other: nat)
    requires PageWord(page) < |log|
    ensures PageSet(FetchOr(log, page), other) <==> PageSet(log, other) || other == page
  {
    if PageWord(other) == PageWord(page) {
      OrBit(log[PageWord(page)], Pow2(PageBit(page)), PageBit(other));
      Pow2Bit(PageBit(page), PageBit(other));
    }
  }

  // ---- a region's bitmap ----

  datatype Bitmap = Bitmap(pagesBeforeRegion: nat, numberOfPages: nat)

  /** The last page of the bitmap, and so every page of it, has its byte in the log. */
  predicate FitsLog(bitmap: Bitmap, logLen: nat) {
    bitmap.numberOfPages > 0 ==> PageWord(bitmap.pagesBeforeRegion + bitmap.numberOfPages - 1) < logLen
  }

  /** The bitmap of a region within a log of `logLen` bytes. */
  function NewBitmap(start: nat, len: nat, logLen: nat): (r: Option<Bitmap>)
    requires start <= USIZE_MAX && len <= USIZE_MAX
  {
    if len == 0 then None
    else
      match CheckedAdd(start, len - 1)
      case None => None
      case Some(end) =>
        if PageWord(PageNumber(end)) >= logLen then None
        else Some(Bitmap(PageNumber(start), PageNumber(len)))
  }

  /** A 64-bit address whose page has a bit in a log of `logLen` bytes. */
  predicate HasBit(address: nat, logLen: nat) {
    address <= 0xffff_ffff_ffff_ffff && address / 0x1000 / 8 < logLen
  }

  /** A bitmap is made exactly if the region is not empty and each of its bytes has a bit in the log; it
      starts at the page of the region's first byte and has one page for every 0x1000 bytes, a partial
      last page not counted. */
  lemma NewBitmapIff(start: nat, len: nat, logLen: nat)
    requires start <= 0xffff_ffff_ffff_ffff && len <= 0xffff_ffff_ffff_ffff
    ensures NewBitmap(start, len, logLen).Some? <==>
              len > 0 && forall a :: start <= a < start + len ==> HasBit(a, logLen)
    ensures NewBitmap(start, len, logLen).Some? ==>
              NewBitmap(start, len, logLen).value == Bitmap(start / 0x1000, len / 0x1000)
  {
    if NewBitmap(start, len, logLen).Some? {
      forall a | start <= a < start + len ensures HasBit(a, logLen) {
        assert a / 0x1000 <= (start + len - 1) / 0x1000;
      }
    } else if len > 0 {
      assert !HasBit(start + len - 1, logLen);
    }
  }

  lemma PagesOfSum(a: nat, b: nat)
    ensures PageNumber(a) + PageNumber(b) <= PageNumber(a + b)
  {
  }

  /** An accepted bitmap only ever indexes inside the log. */
  lemma AcceptedBitmapFits(start: nat, len: nat, logLen: nat, page: nat)
    requires start <= USIZE_MAX && len <= USIZE_MAX && NewBitmap(start, len, logLen).Some?
    ensures var bitmap := NewBitmap(start, len, logLen).value;
            && FitsLog(bitmap, logLen)
            && (page < bitmap.numberOfPages ==> PageWord(bitmap.pagesBeforeRegion + page) < logLen)
  {
    PagesOfSum(start, len - 1);
    assert PageNumber(len) <= PageNumber(len - 1) + 1;
  }

  /** No offset that a 64-bit address can saturate at lies in a region's bitmap. */
  lemma TopPageIsOutside(start: nat, len: nat, logLen: nat)
    requires start <= USIZE_MAX && len <= USIZE_MAX && NewBitmap(start, len, logLen).Some?
    ensures NewBitmap(start, len, logLen).value.numberOfPages <= PageNumber(USIZE_MAX)
  {
  }

  /** The absolute pages that marking `len` bytes at `offset` sets. */
  ghost predicate Marks(bitmap: Bitmap, offset: nat, len: nat, page: nat) {
    && len > 0
    && bitmap.pagesBeforeRegion + PageNumber(offset) <= page
    && page <= bitmap.pagesBeforeRegion + PageNumber(SaturatingAdd(offset, len - 1))
    && page < bitmap.pagesBeforeRegion + bitmap.numberOfPages
  }

  /** In numbers: a range marks its pages of 0x1000 bytes, as far as they are in the bitmap, up to the
      last 64-bit offset. */
  lemma MarksIff(bitmap: Bitmap, offset: nat, len: nat, page: nat)
    ensures Marks(bitmap, offset, len, page) <==>
              && len > 0
              && bitmap.pagesBeforeRegion <= page < bitmap.pagesBeforeRegion + bitmap.numberOfPages
              && var end := offset + len - 1;
                 var last := if end <= 0xffff_ffff_ffff_ffff then end else 0xffff_ffff_ffff_ffff;
                 offset / 0x1000 <= page - bitmap.pagesBeforeRegion <= last / 0x1000
  {
  }

  function DirtyAt(bitmap: Bitmap, log: seq<Byte>, offset: nat): bool
    requires FitsLog(bitmap, |log|)
  {
    var page := PageNumber(offset);
    if page >= bitmap.numberOfPages then false
    else
      var absolute := bitmap.pagesBeforeRegion + page;
      And(log[PageWord(absolute)], Pow2(PageBit(absolute))) != 0
  }

  lemma DirtyAtReadsItsPage(bitmap: Bitmap, log: seq<Byte>, offset: nat)
    requires FitsLog(bitmap, |log|)
    ensures DirtyAt(bitmap, log, offset) <==>
              PageNumber(offset) < bitmap.numberOfPages && PageSet(log, bitmap.pagesBeforeRegion + PageNumber(offset))
  {
    if PageNumber(offset) < bitmap.numberOfPages {
      var absolute := bitmap.pagesBeforeRegion + PageNumber(offset);
      TestBit(log[PageWord(absolute)], PageBit(absolute));
    }
  }

  /** The bit that is read: of page `offset / 0x1000` counted from the region's first. */
  lemma DirtyAtReadsItsBit(bitmap: Bitmap, log: seq<Byte>, offset: nat)
    requires FitsLog(bitmap, |log|)
    ensures DirtyAt(bitmap, log, offset) <==>
              && offset / 0x1000 < bitmap.numberOfPages
              && var page := bitmap.pagesBeforeRegion + offset / 0x1000;
                 page / 8 < |log| && BitAt(log[page / 8], page % 8)
  {
    DirtyAtReadsItsPage(bitmap, log, offset);
  }

  /** Marking through the bitmap itself: bit k of byte b is set exactly if it was or page 8 * b + k is
      marked. */
  method MarkDirtyPages(log: array<Byte>, bitmap: Bitmap, offset: nat, len: nat)
    requires FitsLog(bitmap, log.Length)
    modifies log
    ensures forall page: nat ::
              PageSet(log[..], page) <==> PageSet(old(log[..]), page) || Marks(bitmap, offset, len, page)
    ensures forall b: nat, k: nat | b < log.Length && k < 8 ::
              BitAt(log[b], k) <==> BitAt(old(log[b]), k) || Marks(bitmap, offset, len, 8 * b + k)
  {
    if len == 0 {
      return;
    }
    var page := PageNumber(offset);
    var last := PageNumber(SaturatingAdd(offset, len - 1));
    while page <= last && page < bitmap.numberOfPages
      invariant PageNumber(offset) <= page
      invariant page > PageNumber(offset) ==> page <= last + 1 && page <= bitmap.numberOfPages
      invariant forall p: nat :: PageSet(log[..], p) <==>
                  PageSet(old(log[..]), p)
                  || bitmap.pagesBeforeRegion + PageNumber(offset) <= p < bitmap.pagesBeforeRegion + page
      decreases last + 1 - page
    {
      var absolute := bitmap.pagesBeforeRegion + page;
      ghost var before := log[..];
      log[PageWord(absolute)] := OrPage(log[PageWord(absolute)], absolute);
      assert log[..] == FetchOr(before, absolute);
      forall p: nat ensures PageSet(log[..], p) <==> PageSet(before, p) || p == absolute {
        FetchOrSetsOnePage(before, absolute, p);
      }
      page := page + 1;
    }
    forall b: nat, k: nat | b < log.Length && k < 8
      ensures BitAt(log[b], k) <==> BitAt(old(log[b]), k) || Marks(bitmap, offset, len, 8 * b + k)
    {
      PageIsBit(log[..], b, k);
      PageIsBit(old(log[..]), b, k);
    }
  }

  // ---- replaceable bitmaps and their slices ----

  datatype Installed = Installed(log: array<Byte>, bitmap: Bitmap)

  /** The bitmap of one region, shared by all its slices and replaced when logging starts. */
  class BitmapCell {
    var installed: Option<Installed>

    constructor ()
      ensures installed == None
    {
      installed := None;
    }

    ghost predicate Valid()
      reads this
    {
      installed.Some? ==>
        && FitsLog(installed.value.bitmap, installed.value.log.Length)
        && installed.value.bitmap.numberOfPages <= PageNumber(USIZE_MAX)
    }

    ghost function Footprint(): set<object>
      reads this
    {
      if installed.Some? then {installed.value.log} else {}
    }

    method Replace(log: array<Byte>, bitmap: Bitmap)
      requires FitsLog(bitmap, log.Length) && bitmap.numberOfPages <= PageNumber(USIZE_MAX)
      modifies this
      ensures Valid() && installed == Some(Installed(log, bitmap))
    {
      installed := Some(Installed(log, bitmap));
    }
  }

  datatype BitmapMmapRegion = BitmapMmapRegion(inner: BitmapCell, baseAddress: nat) {

    function SliceAt(offset: nat): BitmapMmapRegion {
      BitmapMmapRegion(inner, SaturatingAdd(baseAddress, offset))
    }

    predicate IsDirtyAt(offset: nat)
      requires inner.Valid()
      reads inner, inner.Footprint()
    {
      inner.installed.Some? &&
      DirtyAt(inner.installed.value.bitmap, inner.installed.value.log[..], SaturatingAdd(baseAddress, offset))
    }

    method MarkDirty(offset: nat, len: nat)
      requires inner.Valid()
      modifies inner.Footprint()
      ensures inner.installed.Some? ==>
                var Installed(log, bitmap) := inner.installed.value;
                forall page: nat :: PageSet(log[..], page) <==>
                  PageSet(old(log[..]), page)
                  || (CheckedAdd(baseAddress, offset).Some? && Marks(bitmap, baseAddress + offset, len, page))
    {
      if inner.installed.Some? {
        match CheckedAdd(baseAddress, offset)
        case None =>
        case Some(absolute) => MarkDirtyPages(inner.installed.value.log, inner.installed.value.bitmap, absolute, len);
      }
    }
  }

  function Sum(offsets: seq<nat>): nat {
    if offsets == [] then 0 else Sum(offsets[..|offsets| - 1]) + offsets[|offsets| - 1]
  }

  /** A slice of a slice of ... of a whole region. */
  function SliceChain(cell: BitmapCell, offsets: seq<nat>): (view: BitmapMmapRegion)
    ensures view.inner == cell
    ensures view.baseAddress == SaturatingAdd(0, Sum(offsets))
  {
    if offsets == [] then BitmapMmapRegion(cell, 0)
    else SliceChain(cell, offsets[..|offsets| - 1]).SliceAt(offsets[|offsets| - 1])
  }

  // ---- the log as the device means it: exact addition, no overflow ----

  /** Marking `len` bytes at an address of the region, without any bound on the address. */
  ghost predicate MarksExactly(bitmap: Bitmap, address: nat, len: nat, page: nat) {
    && len > 0
    && bitmap.pagesBeforeRegion + PageNumber(address) <= page
    && page <= bitmap.pagesBeforeRegion + PageNumber(address + len - 1)
    && page < bitmap.pagesBeforeRegion + bitmap.numberOfPages
  }

  ghost predicate DirtyExactly(bitmap: Bitmap, log: seq<Byte>, address: nat) {
    PageNumber(address) < bitmap.numberOfPages && PageSet(log, bitmap.pagesBeforeRegion + PageNumber(address))
  }

  /** Checked and saturating additions mark the pages that exact addition would. */
  lemma MarkingIsExact(bitmap: Bitmap, base: nat, offset: nat, len: nat, page: nat)
    requires bitmap.numberOfPages <= PageNumber(USIZE_MAX)
    ensures var start := SaturatingAdd(0, base);
            (CheckedAdd(start, offset).Some? && Marks(bitmap, start + offset, len, page))
              <==> MarksExactly(bitmap, base + offset, len, page)
  {
    assert base + offset >= USIZE_MAX ==> PageNumber(base + offset) >= PageNumber(USIZE_MAX);
    assert len > 0 && base + offset + len - 1 >= USIZE_MAX ==>
             PageNumber(base + offset + len - 1) >= PageNumber(USIZE_MAX);
  }

  /** Saturating addition reads the page that exact addition would. */
  lemma ReadingIsExact(bitmap: Bitmap, log: seq<Byte>, base: nat, offset: nat)
    requires FitsLog(bitmap, |log|) && bitmap.numberOfPages <= PageNumber(USIZE_MAX)
    ensures DirtyAt(bitmap, log, SaturatingAdd(SaturatingAdd(0, base), offset))
       <==> DirtyExactly(bitmap, log, base + offset)
  {
    DirtyAtReadsItsPage(bitmap, log, SaturatingAdd(SaturatingAdd(0, base), offset));
    assert base + offset >= USIZE_MAX ==> PageNumber(base + offset) >= PageNumber(USIZE_MAX);
  }

  datatype Mark = Mark(slices: seq<nat>, offset: nat, len: nat) {
    function Address(): nat { Sum(slices) + offset }
  }

  /** Any sequence of marks through any slices of one region: a page is dirty afterwards exactly if
      it was before or lies in one of the marked ranges. */
  method MarkAll(cell: BitmapCell, log: array<Byte>, bitmap: Bitmap, marks: seq<Mark>)
    requires cell.Valid() && cell.installed == Some(Installed(log, bitmap))
    modifies log
    ensures forall page: nat :: PageSet(log[..], page) <==>
              PageSet(old(log[..]), page)
              || exists i :: 0 <= i < |marks| && MarksExactly(bitmap, marks[i].Address(), marks[i].len, page)
    ensures forall slices: seq<nat>, offset: nat ::
              SliceChain(cell, slices).IsDirtyAt(offset) <==> DirtyExactly(bitmap, log[..], Sum(slices) + offset)
  {
    for n := 0 to |marks|
      invariant forall page: nat :: PageSet(log[..], page) <==>
                  PageSet(old(log[..]), page)
                  || exists i :: 0 <= i < n && MarksExactly(bitmap, marks[i].Address(), marks[i].len, page)
    {
      var view := SliceChain(cell, marks[n].slices);
      view.MarkDirty(marks[n].offset, marks[n].len);
      forall page: nat
        ensures CheckedAdd(view.baseAddress, marks[n].offset).Some?
                && Marks(bitmap, view.baseAddress + marks[n].offset, marks[n].len, page)
           <==> MarksExactly(bitmap, marks[n].Address(), marks[n].len, page)
      {
        MarkingIsExact(bitmap, Sum(marks[n].slices), marks[n].offset, marks[n].len, page);
      }
    }
    forall slices: seq<nat>, offset: nat
      ensures SliceChain(cell, slices).IsDirtyAt(offset) <==> DirtyExactly(bitmap, log[..], Sum(slices) + offset)
    {
      ReadingIsExact(bitmap, log[..], Sum(slices), offset);
    }
  }

  // ---- regions do not disturb each other ----

  /** Bitmaps of regions that do not overlap own different pages, even if neither region is aligned. */
  lemma RegionsOwnDifferentPages(start0: nat, len0: nat, start1: nat, len1: nat, logLen: nat, page: nat)
    requires start0 + len0 <= start1 <= USIZE_MAX && len1 <= USIZE_MAX
    requires NewBitmap(start0, len0, logLen).Some? && NewBitmap(start1, len1, logLen).Some?
    ensures var b0, b1 := NewBitmap(start0, len0, logLen).value, NewBitmap(start1, len1, logLen).value;
            !(&& b0.pagesBeforeRegion <= page < b0.pagesBeforeRegion + b0.numberOfPages
              && b1.pagesBeforeRegion <= page < b1.pagesBeforeRegion + b1.numberOfPages)
  {
    PagesOfSum(start0, len0);
    assert PageNumber(start0 + len0) <= PageNumber(start1);
  }

  /** Hence marking one region never changes an answer about the other, in either direction. */
  lemma MarksStayInTheirRegion(start0: nat, len0: nat, start1: nat, len1: nat, logLen: nat,
                               offset0: nat, n0: nat, offset1: nat, n1: nat, before: seq<Byte>, after: seq<Byte>)
    requires start0 + len0 <= start1 <= USIZE_MAX && len1 <= USIZE_MAX && |before| == |after| == logLen
    requires NewBitmap(start0, len0, logLen).Some? && NewBitmap(start1, len1, logLen).Some?
    ensures var b0, b1 := NewBitmap(start0, len0, logLen).value, NewBitmap(start1, len1, logLen).value;
            FitsLog(b0, logLen) && FitsLog(b1, logLen)
    ensures var b0, b1 := NewBitmap(start0, len0, logLen).value, NewBitmap(start1, len1, logLen).value;
            (forall page: nat :: PageSet(after, page) <==> PageSet(before, page) || Marks(b0, offset0, n0, page)) ==>
              DirtyAt(b1, after, offset1) == DirtyAt(b1, before, offset1)
    ensures var b0, b1 := NewBitmap(start0, len0, logLen).value, NewBitmap(start1, len1, logLen).value;
            (forall page: nat :: PageSet(after, page) <==> PageSet(before, page) || Marks(b1, offset1, n1, page)) ==>
              DirtyAt(b0, after, offset0) == DirtyAt(b0, before, offset0)
  {
    var b0, b1 := NewBitmap(start0, len0, logLen).value, NewBitmap(start1, len1, logLen).value;
    AcceptedBitmapFits(start0, len0, logLen, 0);
    AcceptedBitmapFits(start1, len1, logLen, 0);
    DirtyAtReadsItsPage(b1, after, offset1);
    DirtyAtReadsItsPage(b1, before, offset1);
    DirtyAtReadsItsPage(b0, after, offset0);
    DirtyAtReadsItsPage(b0, before, offset0);
    RegionsOwnDifferentPages(start0, len0, start1, len1, logLen, b1.pagesBeforeRegion + PageNumber(offset1));
    RegionsOwnDifferentPages(start0, len0, start1, len1, logLen, b0.pagesBeforeRegion + PageNumber(offset0));
  }

  // ---- which guest page a mark reaches ----

  /** The page that is marked is the guest page of the write exactly if the offsets of region and
      write within their pages do not add up to a page. */
  lemma MarkedPageIsGuestPage(start: nat, len: nat, logLen: nat, offset: nat)
    requires start <= USIZE_MAX && len <= USIZE_MAX && NewBitmap(start, len, logLen).Some?
    ensures NewBitmap(start, len, logLen).value.pagesBeforeRegion + PageNumber(offset) == PageNumber(start + offset)
       <==> start % PAGE_SIZE + offset % PAGE_SIZE < PAGE_SIZE
  {
  }

  /** Every byte of a region is tracked exactly if the region ends on a page of its own. */
  lemma EveryByteTrackedIff(start: nat, len: nat, logLen: nat)
    requires start <= USIZE_MAX && len <= USIZE_MAX && NewBitmap(start, len, logLen).Some?
    ensures (forall offset: nat :: offset < len ==>
               PageNumber(offset) < NewBitmap(start, len, logLen).value.numberOfPages)
       <==> len % PAGE_SIZE == 0
  {
    assert PageNumber(len - 1) < PageNumber(len) <==> len % PAGE_SIZE == 0;
    if len % PAGE_SIZE == 0 {
      forall offset: nat | offset < len ensures PageNumber(offset) < PageNumber(len) {}
    }
  }

  /** A region at guest address 0x800: a write to guest page 1 marks guest page 0 and no other. */
  lemma UnalignedWriteMarksAnotherPage()
    ensures var bitmap := NewBitmap(0x800, 0x2000, 1);
            && bitmap.Some?
            && PageNumber(0x800 + 0x800) == 1
            && forall page: nat :: Marks(bitmap.value, 0x800, 1, page) <==> page == 0
  {
    assert NewBitmap(0x800, 0x2000, 1) == Some(Bitmap(0, 2));
  }

  /** A region of one and a half pages: writing all of its second half-page marks nothing. */
  lemma PartialPageIsNeverMarked()
    ensures var bitmap := NewBitmap(0, 0x1800, 1);
            && bitmap.Some?
            && forall page: nat :: !Marks(bitmap.value, 0x1000, 0x800, page)
  {
    assert NewBitmap(0, 0x1800, 1) == Some(Bitmap(0, 1));
  }

  // ---- concurrent marks ----

  /** The pages a call of `mark_dirty` still has to set, in order, for each thread. */
  datatype Shared = Shared(log: seq<Byte>, todo: seq<seq<nat>>)

  function PagesOf(bitmap: Bitmap, offset: nat, len: nat): (pages: seq<nat>)
    ensures forall page: nat :: page in pages <==> Marks(bitmap, offset, len, page)
  {
    if len == 0 then []
    else PagesFrom(bitmap, PageNumber(offset), PageNumber(SaturatingAdd(offset, len - 1)))
  }

  function PagesFrom(bitmap: Bitmap, page: nat, last: nat): (pages: seq<nat>)
    ensures forall p: nat :: p in pages <==>
              bitmap.pagesBeforeRegion + page <= p <= bitmap.pagesBeforeRegion + last
              && p < bitmap.pagesBeforeRegion + bitmap.numberOfPages
    decreases last + 1 - page
  {
    if page > last || page >= bitmap.numberOfPages then []
    else [bitmap.pagesBeforeRegion + page] + PagesFrom(bitmap, page + 1, last)
  }

  ghost predicate Pending(todo: seq<seq<nat>>, page: nat) {
    exists t :: 0 <= t < |todo| && page in todo[t]
  }

  predicate InLog(s: Shared) {
    forall t, i :: 0 <= t < |s.todo| && 0 <= i < |s.todo[t]| ==> PageWord(s.todo[t][i]) < |s.log|
  }

  predicate CanStep(s: Shared, t: nat) {
    t < |s.todo| && s.todo[t] != []
  }

  function OrNext(s: Shared, t: nat): Shared
    requires CanStep(s, t) && InLog(s)
  {
    Shared(FetchOr(s.log, s.todo[t][0]), s.todo[t := s.todo[t][1..]])
  }

  lemma OrNextMovesOnePage(s: Shared, t: nat, page: nat)
    requires CanStep(s, t) && InLog(s)
    ensures var s' := OrNext(s, t);
            && InLog(s') && |s'.log| == |s.log|
            && (PageSet(s.log, page) ==> PageSet(s'.log, page))
            && (PageSet(s'.log, page) || Pending(s'.todo, page) <==> PageSet(s.log, page) || Pending(s.todo, page))
  {
    var s', next, rest := OrNext(s, t), s.todo[t][0], s.todo[t][1..];
    FetchOrSetsOnePage(s.log, next, page);
    assert s.todo[t] == [next] + rest;
    if Pending(s.todo, page) && page != next {
      var u :| 0 <= u < |s.todo| && page in s.todo[u];
      assert page in s'.todo[u];
    }
    if Pending(s'.todo, page) {
      var u :| 0 <= u < |s'.todo| && page in s'.todo[u];
      assert page in s.todo[u];
    }
    assert PageWord(next) < |s.log|;
  }

  ghost predicate ValidSchedule(s: Shared, schedule: seq<nat>)
    decreases schedule
  {
    schedule == [] || (CanStep(s, schedule[0]) && InLog(s) && ValidSchedule(OrNext(s, schedule[0]), schedule[1..]))
  }

  ghost function AfterSchedule(s: Shared, schedule: seq<nat>): Shared
    requires ValidSchedule(s, schedule)
    decreases schedule
  {
    if schedule == [] then s else AfterSchedule(OrNext(s, schedule[0]), schedule[1..])
  }

  /** Under every interleaving of the single ORs, no page is ever cleared, and once all calls are
      done the log holds its old pages and all marked ones. */
  lemma {:induction false} ConcurrentMarks(s: Shared, schedule: seq<nat>, page: nat)
    requires InLog(s) && ValidSchedule(s, schedule)
    ensures var end := AfterSchedule(s, schedule);
            && (PageSet(s.log, page) ==> PageSet(end.log, page))
            && (PageSet(end.log, page) || Pending(end.todo, page) <==> PageSet(s.log, page) || Pending(s.todo, page))
            && ((forall t :: 0 <= t < |end.todo| ==> end.todo[t] == []) ==>
                  (PageSet(end.log, page) <==> PageSet(s.log, page) || Pending(s.todo, page)))
    decreases schedule
  {
    if schedule != [] {
      OrNextMovesOnePage(s, schedule[0], page);
      ConcurrentMarks(OrNext(s, schedule[0]), schedule[1..], page);
    }
  }

  datatype Call = Call(bitmap: Bitmap, offset: nat, len: nat)

  /** For calls of `mark_dirty` on any bitmaps within one log, what is pending is what they mark. */
  lemma CallsPending(calls: seq<Call>, log: seq<Byte>, page: nat)
    requires forall c :: c in calls ==> FitsLog(c.bitmap, |log|)
    ensures var todo := seq(|calls|, t requires 0 <= t < |calls| =>
                                      PagesOf(calls[t].bitmap, calls[t].offset, calls[t].len));
            && InLog(Shared(log, todo))
            && (Pending(todo, page) <==>
                  exists t :: 0 <= t < |calls| && Marks(calls[t].bitmap, calls[t].offset, calls[t].len, page))
  {
    var todo := seq(|calls|, t requires 0 <= t < |calls| => PagesOf(calls[t].bitmap, calls[t].offset, calls[t].len));
    forall t, i | 0 <= t < |todo| && 0 <= i < |todo[t]| ensures PageWord(todo[t][i]) < |log| {
      assert calls[t] in calls;
      assert todo[t][i] in todo[t];
      assert Marks(calls[t].bitmap, calls[t].offset, calls[t].len, todo[t][i]);
    }
    forall t | 0 <= t < |calls|
      ensures page in todo[t] <==> Marks(calls[t].bitmap, calls[t].offset, calls[t].len, page)
    {
    }
  }

  // ---- concurrent marks of several regions ----

  datatype Extent = Extent(start: nat, len: nat)

  datatype RegionCall = RegionCall(region: nat, offset: nat, len: nat)

  /** Regions whose bitmaps the log accepts and that do not overlap, aligned or not. */
  predicate LaidOut(regions: seq<Extent>, logLen: nat) {
    && (forall i :: 0 <= i < |regions| ==>
          && regions[i].start <= USIZE_MAX && regions[i].len <= USIZE_MAX
          && NewBitmap(regions[i].start, regions[i].len, logLen).Some?)
    && (forall i, j :: 0 <= i < j < |regions| ==>
          || regions[i].start + regions[i].len <= regions[j].start
          || regions[j].start + regions[j].len <= regions[i].start)
  }

  function BitmapOf(regions: seq<Extent>, logLen: nat, k: nat): Bitmap
    requires LaidOut(regions, logLen) && k < |regions|
  {
    NewBitmap(regions[k].start, regions[k].len, logLen).value
  }

  predicate Owns(bitmap: Bitmap, page: nat) {
    bitmap.pagesBeforeRegion <= page < bitmap.pagesBeforeRegion + bitmap.numberOfPages
  }

  predicate CallsOn(calls: seq<RegionCall>, regions: seq<Extent>) {
    forall t :: 0 <= t < |calls| ==> calls[t].region < |regions|
  }

  function TodoOf(regions: seq<Extent>, logLen: nat, calls: seq<RegionCall>): seq<seq<nat>>
    requires LaidOut(regions, logLen) && CallsOn(calls, regions)
  {
    seq(|calls|, t requires 0 <= t < |calls| =>
                   PagesOf(BitmapOf(regions, logLen, calls[t].region), calls[t].offset, calls[t].len))
  }

  lemma PagesHaveOneOwner(regions: seq<Extent>, logLen: nat, j: nat, k: nat, page: nat)
    requires LaidOut(regions, logLen) && j < |regions| && k < |regions|
    requires Owns(BitmapOf(regions, logLen, j), page) && Owns(BitmapOf(regions, logLen, k), page)
    ensures j == k
  {
    if j != k {
      var (a, b) := if regions[j].start + regions[j].len <= regions[k].start then (j, k) else (k, j);
      RegionsOwnDifferentPages(regions[a].start, regions[a].len, regions[b].start, regions[b].len, logLen, page);
    }
  }

  /** However the single ORs of concurrent calls on any of the regions interleave, a page of a region is
      dirty in the end exactly if it was before or one of the calls on that very region marks it. */
  lemma RegionsAreIsolated(regions: seq<Extent>, calls: seq<RegionCall>, log: seq<Byte>, schedule: seq<nat>,
                           k: nat, page: nat)
    requires LaidOut(regions, |log|) && CallsOn(calls, regions) && k < |regions|
    requires Owns(BitmapOf(regions, |log|, k), page)
    requires ValidSchedule(Shared(log, TodoOf(regions, |log|, calls)), schedule)
    requires var end := AfterSchedule(Shared(log, TodoOf(regions, |log|, calls)), schedule);
             forall t :: 0 <= t < |end.todo| ==> end.todo[t] == []
    ensures PageSet(AfterSchedule(Shared(log, TodoOf(regions, |log|, calls)), schedule).log, page) <==>
              PageSet(log, page)
              || exists t :: 0 <= t < |calls| && calls[t].region == k
                             && Marks(BitmapOf(regions, |log|, k), calls[t].offset, calls[t].len, page)
  {
    hide PageSet, PagesOf, ValidSchedule, AfterSchedule;
    var plain := seq(|calls|, t requires 0 <= t < |calls| =>
                                Call(BitmapOf(regions, |log|, calls[t].region), calls[t].offset, calls[t].len));
    forall c | c in plain ensures FitsLog(c.bitmap, |log|) {
      var t :| 0 <= t < |plain| && plain[t] == c;
      AcceptedBitmapFits(regions[calls[t].region].start, regions[calls[t].region].len, |log|, 0);
    }
    CallsPending(plain, log, page);
    var todo := TodoOf(regions, |log|, calls);
    assert todo == seq(|plain|, t requires 0 <= t < |plain| =>
                                  PagesOf(plain[t].bitmap, plain[t].offset, plain[t].len));
    ConcurrentMarks(Shared(log, todo), schedule, page);
    forall t | 0 <= t < |calls| && Marks(plain[t].bitmap, plain[t].offset, plain[t].len, page)
      ensures calls[t].region == k
    {
      PagesHaveOneOwner(regions, |log|, calls[t].region, k, page);
    }
  }
}
