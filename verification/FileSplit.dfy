/** How `dfs_read` and `dfs_write` of fs/dfs.c cut a byte range into copies to and from cached pages, and exactly
    which ranges they cut right. */
module FileSplit {

  const PAGE: nat := 4096

  type Byte = x: int | 0 <= x < 256
  type Page = p: seq<Byte> | |p| == PAGE witness seq(PAGE, _ => 0)

  /** A copy that would leave its page or its buffer is a fault. */
  datatype Outcome = Done(bytes: seq<Byte>) | Fault

  /** `memcpy` of `n` bytes; copying nothing touches neither side. */
  function Copy(dst: seq<Byte>, at: int, src: seq<Byte>, from: int, n: nat): (r: Outcome)
    ensures r.Done? ==> |r.bytes| == |dst|
  {
    if n == 0 then Done(dst)
    else if at < 0 || from < 0 || at + n > |dst| || from + n > |src| then Fault
    else Done(dst[..at] + src[from..from + n] + dst[at + n..])
  }

  const WORDS: nat := 0x1_0000_0000_0000_0000

  /** Unsigned 64-bit wrap-around. */
  function Wrap(x: int): nat { x % WORDS }

  /** Pages touched by `size` bytes at `offset`. */
  function PageCount(offset: nat, size: nat): nat
  {
    (offset + size - offset / PAGE * PAGE + PAGE - 1) / PAGE
  }

  /** The count as the code computes it, in 64-bit words. */
  function CodeCount(offset: nat, size: nat): nat
  {
    Wrap(Wrap(Wrap(offset + size) - offset / PAGE * PAGE) + PAGE - 1) / PAGE
  }

  /** Its last sum does not wrap. */
  predicate CountFits(offset: nat, size: nat)
  {
    offset % PAGE + size + PAGE - 1 < WORDS
  }

  /** Then the code counts the pages touched. */
  lemma CountIsPages(offset: nat, size: nat)
    requires offset < WORDS && CountFits(offset, size)
    ensures CodeCount(offset, size) == PageCount(offset, size)
  {
    assert Wrap(Wrap(offset + size) - offset / PAGE * PAGE) == offset % PAGE + size;
  }

  lemma PageCountBounds(offset: nat, size: nat)
    requires size > 0
    ensures PageCount(offset, size) > 0
    ensures (PageCount(offset, size) - 1) * PAGE < offset % PAGE + size <= PageCount(offset, size) * PAGE
  {
  }

  /** Length of the copy for the i-th of `count` pages. */
  function PartLength(count: nat, offset: nat, size: nat, i: nat): nat
  {
    if i == 0 then (if count == 1 then size else Wrap(PAGE - offset))
    else if i < count - 1 then PAGE
    else (size + offset) % PAGE
  }

  // ---- writing ------------------------------------------------------------------------------------------

  /** The copy `dfs_write` makes into the i-th page. */
  function WritePart(page: Page, data: seq<Byte>, count: nat, offset: nat, size: nat, i: nat): Outcome
  {
    if i == 0 then Copy(page, offset, data, 0, PartLength(count, offset, size, 0))
    else Copy(page, 0, data, i * PAGE - offset, PartLength(count, offset, size, i))
  }

  /** The byte-range write as seen by the k-th page: `data` lies from position `start` of the first page on. */
  function Splice(page: Page, k: nat, data: seq<Byte>, start: nat): (r: Page)
  {
    seq(PAGE, b requires 0 <= b < PAGE =>
      if start <= k * PAGE + b < start + |data| then data[k * PAGE + b - start] else page[b])
  }

  /** The ranges `dfs_write` cuts right: they start in the file's first page and, beyond one page, do not end on a
      page boundary. */
  predicate WriteDomain(offset: nat, size: nat)
  {
    offset < PAGE && (PageCount(offset, size) == 1 || (offset + size) % PAGE != 0)
  }

  lemma FirstPartIsSplice(page: Page, data: seq<Byte>, offset: nat)
    requires |data| > 0 && WriteDomain(offset, |data|)
    ensures WritePart(page, data, PageCount(offset, |data|), offset, |data|, 0) == Done(Splice(page, 0, data, offset))
  {
    PageCountBounds(offset, |data|);
    var part := WritePart(page, data, PageCount(offset, |data|), offset, |data|, 0);
    assert part.Done? && part.bytes == Splice(page, 0, data, offset);
  }

  lemma LaterPartIsSplice(page: Page, data: seq<Byte>, offset: nat, i: nat)
    requires |data| > 0 && WriteDomain(offset, |data|) && 0 < i < PageCount(offset, |data|)
    ensures WritePart(page, data, PageCount(offset, |data|), offset, |data|, i) == Done(Splice(page, i, data, offset))
  {
    var count := PageCount(offset, |data|);
    PageCountBounds(offset, |data|);
    var part := WritePart(page, data, count, offset, |data|, i);
    assert (offset + |data|) % PAGE == offset + |data| - (count - 1) * PAGE;
    assert part.Done? && part.bytes == Splice(page, i, data, offset);
  }

  lemma WritePartIsSplice(page: Page, data: seq<Byte>, offset: nat, i: nat)
    requires |data| > 0 && WriteDomain(offset, |data|) && i < PageCount(offset, |data|)
    ensures WritePart(page, data, PageCount(offset, |data|), offset, |data|, i) == Done(Splice(page, i, data, offset))
  {
    if i == 0 { FirstPartIsSplice(page, data, offset); } else { LaterPartIsSplice(page, data, offset, i); }
  }

  /** Whatever the data and the pages, every copy is the page's share of the byte-range write. */
  ghost predicate WritesRight(offset: nat, size: nat)
  {
    forall page: Page, data: seq<Byte>, i: nat | |data| == size && i < PageCount(offset, size) ::
      WritePart(page, data, PageCount(offset, size), offset, size, i) == Done(Splice(page, i, data, offset % PAGE))
  }

  function Filled(n: nat, x: Byte): seq<Byte> { seq(n, _ => x) }

  /** A page that some range outside the domain gets wrong: the first when the offset is beyond it, else the last. */
  lemma WriteGoesWrong(offset: nat, size: nat)
    requires 0 < size && offset < WORDS && !WriteDomain(offset, size)
    ensures !WritesRight(offset, size)
  {
    PageCountBounds(offset, size);
    var page: Page, data, count := Filled(PAGE, 0), Filled(size, 1), PageCount(offset, size);
    if offset >= PAGE {
      var part := WritePart(page, data, count, offset, size, 0);
      assert part.Done? ==> part.bytes[0] == 0;
      assert Splice(page, 0, data, offset % PAGE)[offset % PAGE] == 1;
      assert part != Done(Splice(page, 0, data, offset % PAGE));
    } else {
      var part := WritePart(page, data, count, offset, size, count - 1);
      assert part == Done(page);
      assert Splice(page, count - 1, data, offset % PAGE)[0] == 1;
    }
  }

  /** The split is right for every buffer and every page if and only if the range is in the domain. */
  lemma WriteDomainIsExact(offset: nat, size: nat)
    requires 0 < size && offset < WORDS && CountFits(offset, size)
    ensures CodeCount(offset, size) == PageCount(offset, size)
    ensures WritesRight(offset, size) <==> WriteDomain(offset, size)
  {
    CountIsPages(offset, size);
    if WriteDomain(offset, size) {
      forall page: Page, data: seq<Byte>, i: nat | |data| == size && i < PageCount(offset, size)
        ensures WritePart(page, data, PageCount(offset, size), offset, size, i) == Done(Splice(page, i, data, offset % PAGE))
      {
        WritePartIsSplice(page, data, offset, i);
      }
    } else {
      WriteGoesWrong(offset, size);
    }
  }

  // ---- reading ------------------------------------------------------------------------------------------

  /** The copy `dfs_read` makes out of the i-th page. */
  function ReadPart(buffer: seq<Byte>, page: Page, count: nat, offset: nat, size: nat, i: nat): (r: Outcome)
    ensures r.Done? ==> |r.bytes| == |buffer|
  {
    if i == 0 then Copy(buffer, 0, page, 0, PartLength(count, offset, size, 0))
    else Copy(buffer, i * PAGE - offset, page, 0, PartLength(count, offset, size, i))
  }

  /** The buffer after the copies out of the first `n` pages. */
  function ReadParts(buffer: seq<Byte>, pages: seq<Page>, offset: nat, size: nat, n: nat): (r: Outcome)
    requires n <= |pages|
    ensures r.Done? ==> |r.bytes| == |buffer|
  {
    if n == 0 then Done(buffer)
    else
      var r := ReadParts(buffer, pages, offset, size, n - 1);
      if r.Fault? then Fault else ReadPart(r.bytes, pages[n - 1], |pages|, offset, size, n - 1)
  }

  lemma {:induction false} FaultSticks(buffer: seq<Byte>, pages: seq<Page>, offset: nat, size: nat, n: nat, m: nat)
    requires n <= m <= |pages| && ReadParts(buffer, pages, offset, size, n) == Fault
    ensures ReadParts(buffer, pages, offset, size, m) == Fault
  {
    if n < m { FaultSticks(buffer, pages, offset, size, n, m - 1); }
  }

  /** The byte-range read: `size` bytes from position `start` of the first page on. */
  function Slice(pages: seq<Page>, start: nat, size: nat): (r: seq<Byte>)
    requires start + size <= |pages| * PAGE
  {
    seq(size, q requires 0 <= q < size => pages[(start + q) / PAGE][(start + q) % PAGE])
  }

  /** The ranges `dfs_read` cuts right: a page-aligned range inside one page, or one from the start of the file that
      does not end on a page boundary. */
  predicate ReadDomain(offset: nat, size: nat)
  {
    if PageCount(offset, size) == 1 then offset % PAGE == 0 else offset == 0 && size % PAGE != 0
  }

  ghost predicate ReadsRight(offset: nat, size: nat)
    requires size > 0
  {
    PageCountBounds(offset, size);
    forall buffer: seq<Byte>, pages: seq<Page> | |buffer| == size && |pages| == PageCount(offset, size) ::
      ReadParts(buffer, pages, offset, size, |pages|) == Done(Slice(pages, offset % PAGE, size))
  }

  lemma Position(n: nat, b: nat)
    requires b < PAGE
    ensures (n * PAGE + b) / PAGE == n && (n * PAGE + b) % PAGE == b
  {
  }

  lemma SliceExtend(pages: seq<Page>, n: nat, m: nat)
    requires n < |pages| && m <= PAGE
    ensures Slice(pages, 0, n * PAGE) + pages[n][..m] == Slice(pages, 0, n * PAGE + m)
  {
    var a, b := Slice(pages, 0, n * PAGE) + pages[n][..m], Slice(pages, 0, n * PAGE + m);
    forall q: nat | n * PAGE <= q < n * PAGE + m ensures a[q] == b[q] { Position(n, q - n * PAGE); }
  }

  /** A copy of one page's bytes onto the end of what is already read. */
  lemma CopyExtends(buffer: seq<Byte>, pages: seq<Page>, n: nat, m: nat)
    requires n < |pages| && 0 < m <= PAGE && n * PAGE + m <= |buffer|
    ensures Copy(Slice(pages, 0, n * PAGE) + buffer[n * PAGE..], n * PAGE, pages[n], 0, m)
      == Done(Slice(pages, 0, n * PAGE + m) + buffer[n * PAGE + m..])
  {
    var head, rest := Slice(pages, 0, n * PAGE), buffer[n * PAGE..];
    SliceExtend(pages, n, m);
    assert (head + rest)[..n * PAGE] == head;
    assert (head + rest)[n * PAGE + m..] == buffer[n * PAGE + m..];
    assert pages[n][0..m] == pages[n][..m];
  }

  lemma OnePartMore(buffer: seq<Byte>, pages: seq<Page>, n: nat, m: nat, sofar: seq<Byte>, next: seq<Byte>)
    requires n < |pages| && |pages| > 1 && PartLength(|pages|, 0, |buffer|, n) == m
    requires ReadParts(buffer, pages, 0, |buffer|, n) == Done(sofar) && Copy(sofar, n * PAGE, pages[n], 0, m) == Done(next)
    ensures ReadParts(buffer, pages, 0, |buffer|, n + 1) == Done(next)
  {
  }

  /** From the start of a file: after n whole pages the buffer holds their bytes. */
  lemma {:induction false} ReadFromStart(buffer: seq<Byte>, pages: seq<Page>, n: nat)
    requires |buffer| > 0 && |pages| == PageCount(0, |buffer|) && n < |pages|
    ensures n * PAGE < |buffer|
    ensures ReadParts(buffer, pages, 0, |buffer|, n) == Done(Slice(pages, 0, n * PAGE) + buffer[n * PAGE..])
  {
    PageCountBounds(0, |buffer|);
    if n > 0 {
      ReadFromStart(buffer, pages, n - 1);
      assert PartLength(|pages|, 0, |buffer|, n - 1) == PAGE;
      CopyExtends(buffer, pages, n - 1, PAGE);
      OnePartMore(buffer, pages, n - 1, PAGE, Slice(pages, 0, (n - 1) * PAGE) + buffer[(n - 1) * PAGE..],
        Slice(pages, 0, (n - 1) * PAGE + PAGE) + buffer[(n - 1) * PAGE + PAGE..]);
    } else {
      assert Slice(pages, 0, 0) + buffer[0..] == buffer;
    }
  }

  lemma LastPartLength(size: nat) returns (n: nat, m: nat)
    requires PageCount(0, size) > 1 && size % PAGE != 0
    ensures n == PageCount(0, size) - 1 && 0 < m < PAGE && size == n * PAGE + m
    ensures PartLength(PageCount(0, size), 0, size, n) == m
  {
    n, m := size / PAGE, size % PAGE;
  }

  lemma ReadWhole(buffer: seq<Byte>, pages: seq<Page>)
    requires |buffer| > 0 && |pages| == PageCount(0, |buffer|) && |pages| > 1 && |buffer| % PAGE != 0
    ensures |buffer| <= |pages| * PAGE
    ensures ReadParts(buffer, pages, 0, |buffer|, |pages|) == Done(Slice(pages, 0, |buffer|))
  {
    var n, m := LastPartLength(|buffer|);
    ReadFromStart(buffer, pages, n);
    CopyExtends(buffer, pages, n, m);
    var all := Slice(pages, 0, n * PAGE + m);
    assert all + buffer[n * PAGE + m..] == all;
    OnePartMore(buffer, pages, n, m, Slice(pages, 0, n * PAGE) + buffer[n * PAGE..], all);
  }

  lemma ReadInPage(buffer: seq<Byte>, pages: seq<Page>, offset: nat)
    requires 0 < |buffer| <= PAGE && |pages| == 1
    ensures ReadParts(buffer, pages, offset, |buffer|, 1) == Done(pages[0][..|buffer|]) == Done(Slice(pages, 0, |buffer|))
  {
    assert ReadParts(buffer, pages, offset, |buffer|, 0) == Done(buffer);
    assert ReadPart(buffer, pages[0], 1, offset, |buffer|, 0).bytes == pages[0][..|buffer|];
    SliceExtend(pages, 0, |buffer|);
    assert Slice(pages, 0, 0) + pages[0][..|buffer|] == pages[0][..|buffer|];
  }

  lemma ReadInDomain(buffer: seq<Byte>, pages: seq<Page>, offset: nat)
    requires |buffer| > 0 && |pages| == PageCount(offset, |buffer|) && ReadDomain(offset, |buffer|)
    ensures |buffer| + offset % PAGE <= |pages| * PAGE
    ensures ReadParts(buffer, pages, offset, |buffer|, |pages|) == Done(Slice(pages, offset % PAGE, |buffer|))
  {
    PageCountBounds(offset, |buffer|);
    assert offset % PAGE == 0;
    if |pages| == 1 { ReadInPage(buffer, pages, offset); } else { ReadWhole(buffer, pages); }
  }

  // A range outside the domain: the byte that goes wrong is the first, or the first of the last page.

  /** Copies out of later pages that are all zero leave a zero at the front of the buffer. */
  lemma {:induction false} FrontStaysZero(buffer: seq<Byte>, pages: seq<Page>, offset: nat, size: nat, n: nat)
    requires 0 < n <= |pages| && |buffer| > 0
    requires forall i: nat :: 0 < i < |pages| ==> pages[i] == Filled(PAGE, 0)
    requires var r := ReadParts(buffer, pages, offset, size, 1); r.Done? ==> r.bytes[0] == 0
    ensures var r := ReadParts(buffer, pages, offset, size, n); r.Done? ==> r.bytes[0] == 0
  {
    if n > 1 { FrontStaysZero(buffer, pages, offset, size, n - 1); }
  }

  /** From offset zero, copies out of the first n pages do not reach past them. */
  lemma {:induction false} TailUntouched(buffer: seq<Byte>, pages: seq<Page>, size: nat, n: nat, q: nat)
    requires n < |pages| && |pages| > 1 && n * PAGE <= q < |buffer|
    ensures var r := ReadParts(buffer, pages, 0, size, n); r.Done? ==> r.bytes[q] == buffer[q]
  {
    if n > 0 { TailUntouched(buffer, pages, size, n - 1, q); }
  }

  lemma ReadGoesWrongAtStart(offset: nat, size: nat)
    requires 0 < size && 0 < offset < WORDS
    requires PageCount(offset, size) > 1 || offset % PAGE != 0
    ensures !ReadsRight(offset, size)
  {
    PageCountBounds(offset, size);
    var first: Page := if offset % PAGE == 0 then Filled(PAGE, 1) else Filled(PAGE, 0)[offset % PAGE := 1];
    var zero: Page := Filled(PAGE, 0);
    var pages: seq<Page> := seq(PageCount(offset, size), i => if i == 0 then first else zero);
    var buffer := Filled(size, 0);
    assert ReadParts(buffer, pages, offset, size, 0) == Done(buffer);
    FrontStaysZero(buffer, pages, offset, size, |pages|);
    assert Slice(pages, offset % PAGE, size)[0] == 1;
    assert ReadParts(buffer, pages, offset, size, |pages|) != Done(Slice(pages, offset % PAGE, size));
  }

  lemma ReadGoesWrongAtEnd(size: nat)
    requires PageCount(0, size) > 1 && size % PAGE == 0
    ensures !ReadsRight(0, size)
  {
    PageCountBounds(0, size);
    var one: Page := Filled(PAGE, 1);
    var pages: seq<Page> := seq(PageCount(0, size), _ => one);
    var buffer, n := Filled(size, 0), |pages| - 1;
    TailUntouched(buffer, pages, size, n, n * PAGE);
    Position(n, 0);
    assert Slice(pages, 0, size)[n * PAGE] == 1;
    assert ReadParts(buffer, pages, 0, size, |pages|) != Done(Slice(pages, 0, size));
  }

  /** The split of a read is right for every file contents if and only if the range is in its domain. */
  lemma ReadDomainIsExact(offset: nat, size: nat)
    requires 0 < size && offset < WORDS && CountFits(offset, size)
    ensures CodeCount(offset, size) == PageCount(offset, size)
    ensures ReadsRight(offset, size) <==> ReadDomain(offset, size)
  {
    CountIsPages(offset, size);
    PageCountBounds(offset, size);
    if ReadDomain(offset, size) {
      forall buffer: seq<Byte>, pages: seq<Page> | |buffer| == size && |pages| == PageCount(offset, size)
        ensures ReadParts(buffer, pages, offset, size, |pages|) == Done(Slice(pages, offset % PAGE, size))
      {
        ReadInDomain(buffer, pages, offset);
      }
    } else if offset == 0 {
      ReadGoesWrongAtEnd(size);
    } else {
      ReadGoesWrongAtStart(offset, size);
    }
  }
}
