/** The page cache over the disk: mm/page_cache.c and the cache handling of fs/dfs.c as four elementary changes, each
    of which keeps the cache coherent. */
module PageCache {
  import opened FileSplit

  /** `dfs_ctx.inode_table` entry: a file of `size` bytes in consecutive blocks from `start`. */
  datatype Inode = Inode(size: nat, start: nat)

  type Files = map<nat, Inode>

  datatype Entry = Entry(id: nat, indx: nat, addr: nat, dirty: bool, writeback: bool)

  /** Disk blocks, the frames that hold pages, and the cache list, newest first. */
  datatype State = State(disk: map<nat, Page>, mem: map<nat, Page>, list: seq<Entry>)

  function Pages(f: Inode): nat { (f.size + PAGE - 1) / PAGE }

  function Block(files: Files, f: nat, i: nat): nat
    requires f in files
  {
    files[f].start + i
  }

  /** `get_page_cache`: the first entry with the key, or the end of the list. */
  function Find(list: seq<Entry>, id: nat, indx: nat): (k: nat)
    ensures k <= |list| && (k < |list| ==> list[k].id == id && list[k].indx == indx)
    ensures forall j: nat :: j < k ==> list[j].id != id || list[j].indx != indx
  {
    if list == [] || (list[0].id == id && list[0].indx == indx) then 0
    else
      var k := Find(list[1..], id, indx);
      assert forall j: nat :: 0 < j <= k ==> list[j] == list[1..][j - 1] || j == |list|;
      1 + k
  }

  predicate Cached(list: seq<Entry>, id: nat, indx: nat) { Find(list, id, indx) < |list| }

  // ---- coherence ------------------------------------------------------------------------------------------

  /** Distinct files own distinct blocks. */
  ghost predicate Apart(files: Files)
  {
    forall f, i: nat, g, j: nat | f in files && g in files && i < Pages(files[f]) && j < Pages(files[g])
      && Block(files, f, i) == Block(files, g, j) :: f == g && i == j
  }

  ghost predicate Stored(files: Files, s: State)
  {
    forall f, i: nat | f in files && i < Pages(files[f]) :: Block(files, f, i) in s.disk
  }

  /** A clean page equals its block. */
  ghost predicate EntryOk(files: Files, s: State, e: Entry)
  {
    && e.id in files && e.indx < Pages(files[e.id]) && e.addr != 0 && e.addr in s.mem && !e.writeback
    && Block(files, e.id, e.indx) in s.disk
    && (!e.dirty ==> s.mem[e.addr] == s.disk[Block(files, e.id, e.indx)])
  }

  ghost predicate Distinct(list: seq<Entry>)
  {
    forall j: nat, k: nat :: j < k < |list| ==>
      list[j].addr != list[k].addr && (list[j].id != list[k].id || list[j].indx != list[k].indx)
  }

  ghost predicate Coherent(files: Files, s: State)
  {
    && Apart(files) && Stored(files, s) && Distinct(s.list)
    && forall k: nat :: k < |s.list| ==> EntryOk(files, s, s.list[k])
  }

  /** What page `i` of file `f` holds: the cached page, or else the disk block. */
  ghost function View(files: Files, s: State, f: nat, i: nat): Page
    requires Coherent(files, s) && f in files && i < Pages(files[f])
  {
    var k := Find(s.list, f, i);
    if k < |s.list| then (assert EntryOk(files, s, s.list[k]); s.mem[s.list[k].addr]) else s.disk[Block(files, f, i)]
  }

  ghost predicate SameView(files: Files, s: State, r: State)
    requires Coherent(files, s) && Coherent(files, r)
  {
    forall f, i: nat | f in files && i < Pages(files[f]) :: View(files, r, f, i) == View(files, s, f, i)
  }

  /** The disk already holds what the file shows. */
  ghost predicate Synced(files: Files, s: State, f: nat, i: nat)
    requires Coherent(files, s) && f in files && i < Pages(files[f])
  {
    Block(files, f, i) in s.disk && s.disk[Block(files, f, i)] == View(files, s, f, i)
  }

  /** The same pages in the same frames; only flags may differ. */
  ghost predicate SameKeys(list: seq<Entry>, next: seq<Entry>)
  {
    |list| == |next| && forall j: nat :: j < |list| ==>
      next[j].id == list[j].id && next[j].indx == list[j].indx && next[j].addr == list[j].addr
  }

  lemma FoundAt(list: seq<Entry>, k: nat)
    requires Distinct(list) && k < |list|
    ensures Find(list, list[k].id, list[k].indx) == k
  {
    var j := Find(list, list[k].id, list[k].indx);
    assert j <= k;
  }

  lemma SameKeysFound(list: seq<Entry>, next: seq<Entry>, id: nat, indx: nat)
    requires SameKeys(list, next)
    ensures Find(next, id, indx) == Find(list, id, indx)
  {
    var a, b := Find(list, id, indx), Find(next, id, indx);
    assert a <= b && b <= a;
  }

  /** The page is cached and changed since it was last written. */
  predicate Dirty(list: seq<Entry>, f: nat, i: nat)
  {
    Cached(list, f, i) && list[Find(list, f, i)].dirty
  }

  // ---- the elementary changes -------------------------------------------------------------------------------

  /** `cache->flags |= DIRTY_FLAG`. */
  function Touch(s: State, k: nat): State
    requires k < |s.list|
  {
    s.(list := s.list[k := s.list[k].(dirty := true)])
  }

  lemma TouchKeeps(files: Files, s: State, k: nat)
    requires Coherent(files, s) && k < |s.list|
    ensures Coherent(files, Touch(s, k)) && SameView(files, s, Touch(s, k))
  {
    var r := Touch(s, k);
    forall j: nat | j < |r.list| ensures EntryOk(files, r, r.list[j]) { assert EntryOk(files, s, s.list[j]); }
    forall f, i: nat | f in files && i < Pages(files[f]) ensures View(files, r, f, i) == View(files, s, f, i) {
      SameKeysFound(s.list, r.list, f, i);
    }
  }

  /** `ahci_read` into a new frame, then `add_page_to_cache`. */
  function Insert(files: Files, s: State, e: Entry): State
    requires e.id in files && Block(files, e.id, e.indx) in s.disk
  {
    State(s.disk, s.mem[e.addr := s.disk[Block(files, e.id, e.indx)]], [e] + s.list)
  }

  lemma InsertCoherent(files: Files, s: State, e: Entry)
    requires Coherent(files, s) && e.id in files && e.indx < Pages(files[e.id])
    requires !Cached(s.list, e.id, e.indx) && e.addr != 0 && e.addr !in s.mem && !e.writeback
    ensures Block(files, e.id, e.indx) in s.disk && Coherent(files, Insert(files, s, e))
  {
    assert Block(files, e.id, e.indx) in s.disk;
    var r := Insert(files, s, e);
    forall j: nat | j < |r.list| ensures EntryOk(files, r, r.list[j]) {
      if j > 0 { assert r.list[j] == s.list[j - 1]; assert EntryOk(files, s, s.list[j - 1]); }
    }
    forall j: nat, k: nat | j < k < |r.list| ensures
      r.list[j].addr != r.list[k].addr && (r.list[j].id != r.list[k].id || r.list[j].indx != r.list[k].indx)
    {
      assert r.list[k] == s.list[k - 1] && EntryOk(files, s, s.list[k - 1]);
    }
  }

  lemma InsertKeeps(files: Files, s: State, e: Entry)
    requires Coherent(files, s) && e.id in files && e.indx < Pages(files[e.id])
    requires !Cached(s.list, e.id, e.indx) && e.addr != 0 && e.addr !in s.mem && !e.writeback
    ensures Block(files, e.id, e.indx) in s.disk
    ensures Coherent(files, Insert(files, s, e)) && SameView(files, s, Insert(files, s, e))
    ensures forall id, indx: nat :: Cached(Insert(files, s, e).list, id, indx) <==>
      Cached(s.list, id, indx) || (id == e.id && indx == e.indx)
  {
    InsertCoherent(files, s, e);
    var r := Insert(files, s, e);
    assert r.list[1..] == s.list;
    forall f, i: nat | f in files && i < Pages(files[f]) ensures View(files, r, f, i) == View(files, s, f, i) {
      var k := Find(s.list, f, i);
      assert k < |s.list| ==> EntryOk(files, s, s.list[k]);
    }
  }

  /** `memcpy` into a cached page. */
  function Poke(s: State, k: nat, page: Page): State
    requires k < |s.list|
  {
    s.(mem := s.mem[s.list[k].addr := page])
  }

  lemma PokeKeeps(files: Files, s: State, k: nat, page: Page)
    requires Coherent(files, s) && k < |s.list| && s.list[k].dirty
    ensures Coherent(files, Poke(s, k, page))
    ensures forall f, i: nat | f in files && i < Pages(files[f]) ::
      View(files, Poke(s, k, page), f, i) == if f == s.list[k].id && i == s.list[k].indx then page else View(files, s, f, i)
  {
    var r := Poke(s, k, page);
    forall j: nat | j < |r.list| ensures EntryOk(files, r, r.list[j]) { assert EntryOk(files, s, s.list[j]); }
    FoundAt(s.list, k);
  }

  /** `ahci_write` of a dirty page, and its flag cleared. */
  function Flush(files: Files, s: State, k: nat): State
    requires k < |s.list| && s.list[k].id in files && s.list[k].addr in s.mem
  {
    var e := s.list[k];
    State(s.disk[Block(files, e.id, e.indx) := s.mem[e.addr]], s.mem, s.list[k := e.(dirty := false)])
  }

  lemma FlushCoherent(files: Files, s: State, k: nat)
    requires Coherent(files, s) && k < |s.list|
    ensures EntryOk(files, s, s.list[k]) && Coherent(files, Flush(files, s, k))
  {
    assert EntryOk(files, s, s.list[k]);
    var r := Flush(files, s, k);
    forall j: nat | j < |r.list| ensures EntryOk(files, r, r.list[j]) { assert EntryOk(files, s, s.list[j]); }
  }

  lemma FlushKeeps(files: Files, s: State, k: nat)
    requires Coherent(files, s) && k < |s.list|
    ensures EntryOk(files, s, s.list[k])
    ensures Coherent(files, Flush(files, s, k)) && SameView(files, s, Flush(files, s, k))
  {
    FlushCoherent(files, s, k);
    var r := Flush(files, s, k);
    FoundAt(s.list, k);
    forall f, i: nat | f in files && i < Pages(files[f]) ensures View(files, r, f, i) == View(files, s, f, i) {
      SameKeysFound(s.list, r.list, f, i);
    }
  }

  /** A written-back page is on disk, and no other block of a file changes. */
  lemma FlushWrites(files: Files, s: State, k: nat)
    requires Coherent(files, s) && k < |s.list| && EntryOk(files, s, s.list[k])
    ensures var r := Flush(files, s, k); Coherent(files, r) && Synced(files, r, s.list[k].id, s.list[k].indx)
    ensures forall f, i: nat | f in files && i < Pages(files[f]) && Synced(files, s, f, i) ::
      Coherent(files, Flush(files, s, k)) && Synced(files, Flush(files, s, k), f, i)
    ensures forall f, i: nat | f in files && i < Pages(files[f]) && (f != s.list[k].id || i != s.list[k].indx) ::
      Block(files, f, i) in s.disk && Flush(files, s, k).disk[Block(files, f, i)] == s.disk[Block(files, f, i)]
  {
    FlushKeeps(files, s, k);
    var e, r := s.list[k], Flush(files, s, k);
    FoundAt(s.list, k);
    assert View(files, s, e.id, e.indx) == s.mem[e.addr];
    assert r.disk[Block(files, e.id, e.indx)] == s.mem[e.addr];
    forall f, i: nat | f in files && i < Pages(files[f]) && Synced(files, s, f, i) ensures Synced(files, r, f, i) {
      assert View(files, r, f, i) == View(files, s, f, i);
    }
  }

  /** A page that is not both cached and dirty is already on disk. */
  lemma CleanIsSynced(files: Files, s: State, f: nat, i: nat)
    requires Coherent(files, s) && f in files && i < Pages(files[f])
    requires Cached(s.list, f, i) ==> !s.list[Find(s.list, f, i)].dirty
    ensures Synced(files, s, f, i)
  {
    var k := Find(s.list, f, i);
    assert k < |s.list| ==> EntryOk(files, s, s.list[k]);
  }

  // ---- file contents ------------------------------------------------------------------------------------------

  ghost function Content(files: Files, s: State, f: nat): (c: seq<Byte>)
    requires Coherent(files, s) && f in files
    ensures |c| == files[f].size
  {
    seq(files[f].size, p requires 0 <= p < files[f].size => View(files, s, f, p / PAGE)[p % PAGE])
  }

  lemma SameViewSameContent(files: Files, s: State, r: State, f: nat)
    requires Coherent(files, s) && Coherent(files, r) && f in files && SameView(files, s, r)
    ensures Content(files, r, f) == Content(files, s, f)
  {
  }

  /** How much of a range lies in the file. */
  function Fit(f: Inode, at: nat, count: nat): (n: nat)
    requires at <= f.size
    ensures n <= count && at + n <= f.size
  {
    if at + count > f.size then f.size - at else count
  }

  /** Pages spliced one by one are a byte range replaced, as far as it lies in the file. */
  lemma SplicedContent(files: Files, s: State, r: State, f: nat, data: seq<Byte>, offset: nat)
    requires Coherent(files, s) && Coherent(files, r) && f in files && offset <= files[f].size
    requires forall i: nat | i < Pages(files[f]) :: View(files, r, f, i) == Splice(View(files, s, f, i), i, data, offset)
    ensures var n := Fit(files[f], offset, |data|);
      Content(files, r, f) == Content(files, s, f)[..offset] + data[..n] + Content(files, s, f)[offset + n..]
  {
    var was, now := Content(files, s, f), Content(files, r, f);
    forall p: nat | p < files[f].size
      ensures now[p] == if offset <= p < offset + |data| then data[p - offset] else was[p]
    {
      assert p / PAGE * PAGE + p % PAGE == p;
      assert View(files, r, f, p / PAGE) == Splice(View(files, s, f, p / PAGE), p / PAGE, data, offset);
    }
  }

  /** Pages first..first + count of a file. */
  ghost function Span(files: Files, s: State, f: nat, first: nat, count: nat): (pages: seq<Page>)
    requires Coherent(files, s) && f in files && first + count <= Pages(files[f])
    ensures |pages| == count && forall i: nat | i < count :: pages[i] == View(files, s, f, first + i)
  {
    if count == 0 then [] else Span(files, s, f, first, count - 1) + [View(files, s, f, first + count - 1)]
  }

  /** Bytes of consecutive pages are a byte range of the file. */
  lemma SlicedContent(files: Files, s: State, f: nat, pages: seq<Page>, first: nat, start: nat, size: nat)
    requires Coherent(files, s) && f in files && first + |pages| <= Pages(files[f])
    requires start + size <= |pages| * PAGE && first * PAGE + start + size <= files[f].size
    requires forall i: nat | i < |pages| :: pages[i] == View(files, s, f, first + i)
    ensures Slice(pages, start, size) == Content(files, s, f)[first * PAGE + start..first * PAGE + start + size]
  {
    var c := Content(files, s, f);
    forall q: nat | q < size ensures Slice(pages, start, size)[q] == c[first * PAGE + start + q] {
      var p := start + q;
      assert (first * PAGE + p) / PAGE == first + p / PAGE && (first * PAGE + p) % PAGE == p % PAGE;
      assert pages[p / PAGE] == View(files, s, f, first + p / PAGE);
    }
  }
}
