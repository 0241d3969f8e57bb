/** `dfs_read`, `dfs_write` and the two sync loops as code over one cache and one disk. A disk transfer is an atomic
    block copy that succeeds exactly for the blocks the parameter `ok` names. */
module FileCache {
  import opened FileSplit
  import opened PageCache
  import opened CacheEffects

  ghost function Above(s: set<nat>): (b: nat)
    ensures forall x :: x in s ==> x < b
  {
    if s == {} then 0
    else
      var x :| x in s;
      var b := Above(s - {x});
      assert forall y :: y in s ==> y == x || y in s - {x};
      if b <= x then x + 1 else b
  }

  lemma FrameLeft(mem: map<nat, Page>)
    ensures exists a: nat :: a != 0 && a !in mem
  {
    assert Above(mem.Keys) + 1 !in mem;
  }

  /** Every page of the range is in the cache. */
  ghost predicate Covers(list: seq<Entry>, f: nat, first: nat, count: nat)
  {
    forall p: nat :: first <= p < first + count ==> Cached(list, f, p)
  }

  lemma CoversSame(before: seq<Entry>, list: seq<Entry>, f: nat, first: nat, count: nat)
    requires SameKeys(before, list)
    ensures Covers(list, f, first, count) <==> Covers(before, f, first, count)
  {
    forall q: nat ensures Cached(list, f, q) <==> Cached(before, f, q) { SameKeysFound(before, list, f, q); }
  }

  lemma CoversOneMore(before: seq<Entry>, list: seq<Entry>, f: nat, first: nat, i: nat)
    requires SameKeys(before, list)
    ensures Covers(list, f, first, i + 1) <==> Covers(before, f, first, i) && Cached(list, f, first + i)
  {
    forall q: nat ensures Cached(list, f, q) <==> Cached(before, f, q) { SameKeysFound(before, list, f, q); }
    if Covers(list, f, first, i + 1) {
      assert Cached(list, f, first + i);
      forall p: nat | first <= p < first + i ensures Cached(before, f, p) { assert Cached(list, f, p); }
    }
    if Covers(before, f, first, i) && Cached(list, f, first + i) {
      forall p: nat | first <= p < first + i + 1 ensures Cached(list, f, p) { assert p < first + i ==> Cached(before, f, p); }
    }
  }

  lemma AvailableIsCovered(files: Files, was: seq<Entry>, list: seq<Entry>, f: nat, first: nat, count: nat, ok: nat -> bool)
    requires f in files && Available(files, was, f, first, count, ok) && CachedAfter(files, was, list, f, first, count, ok)
    ensures Covers(list, f, first, count)
  {
    forall p: nat | first <= p < first + count ensures Cached(list, f, p) { assert Reached(files, was, f, first, p, ok); }
  }

  /** Nothing but pages lo..hi of file f differs. */
  ghost predicate SameBut(files: Files, s: State, r: State, f: nat, lo: nat, hi: nat)
    requires Coherent(files, s) && Coherent(files, r)
  {
    forall g, q: nat | g in files && q < Pages(files[g]) && (g != f || !(lo <= q < hi)) ::
      View(files, r, g, q) == View(files, s, g, q)
  }

  /** The first n pages of file f show the write of `data` at `offset`. */
  ghost predicate Written(files: Files, s: State, r: State, f: nat, n: nat, data: seq<Byte>, offset: nat)
    requires Coherent(files, s) && Coherent(files, r) && f in files && n <= Pages(files[f])
  {
    forall q: nat | q < n :: View(files, r, f, q) == Splice(View(files, s, f, q), q, data, offset)
  }

  lemma OneMoreWritten(files: Files, s: State, m: State, r: State, f: nat, i: nat, data: seq<Byte>, offset: nat)
    requires Coherent(files, s) && Coherent(files, m) && Coherent(files, r) && f in files && i < Pages(files[f])
    requires SameBut(files, s, m, f, 0, i) && Written(files, s, m, f, i, data, offset)
    requires SameBut(files, m, r, f, i, i + 1) && View(files, r, f, i) == Splice(View(files, m, f, i), i, data, offset)
    ensures Written(files, s, r, f, i + 1, data, offset)
  {
    forall q: nat | q < i ensures View(files, r, f, q) == Splice(View(files, s, f, q), q, data, offset) {
      assert View(files, r, f, q) == View(files, m, f, q);
    }
  }

  lemma SameButGrow(files: Files, s: State, r: State, f: nat, lo: nat, mid: nat, hi: nat)
    requires Coherent(files, s) && Coherent(files, r) && mid <= hi && SameBut(files, s, r, f, lo, mid)
    ensures SameBut(files, s, r, f, lo, hi)
  {
  }

  lemma SameButTrans(files: Files, s: State, m: State, r: State, f: nat, lo: nat, i: nat)
    requires Coherent(files, s) && Coherent(files, m) && Coherent(files, r) && lo <= i
    requires SameBut(files, s, m, f, lo, i) && SameBut(files, m, r, f, i, i + 1)
    ensures SameBut(files, s, r, f, lo, i + 1)
  {
    forall g, q: nat | g in files && q < Pages(files[g]) && (g != f || !(lo <= q < i + 1))
      ensures View(files, r, g, q) == View(files, s, g, q)
    {
      assert View(files, r, g, q) == View(files, m, g, q);
    }
  }

  /** One more copy of a write, and what it adds. */
  lemma PutStep(files: Files, s: State, m: State, r: State, f: nat, i: nat, data: seq<Byte>, offset: nat, good: bool)
    requires Coherent(files, s) && Coherent(files, m) && Coherent(files, r) && f in files && |data| > 0
    requires i < PageCount(offset, |data|) && offset / PAGE + PageCount(offset, |data|) <= Pages(files[f])
    requires SameBut(files, s, m, f, offset / PAGE, offset / PAGE + i)
    requires SameBut(files, m, r, f, offset / PAGE + i, offset / PAGE + i + 1)
    requires WriteDomain(offset, |data|) ==> Written(files, s, m, f, i, data, offset)
    requires var part := WritePart(View(files, m, f, offset / PAGE + i), data, PageCount(offset, |data|), offset, |data|, i);
      if good then part == Done(View(files, r, f, offset / PAGE + i)) else part == Fault
    ensures SameBut(files, s, r, f, offset / PAGE, offset / PAGE + i + 1)
    ensures WriteDomain(offset, |data|) ==> good && Written(files, s, r, f, i + 1, data, offset)
  {
    SameButTrans(files, s, m, r, f, offset / PAGE, offset / PAGE + i);
    if WriteDomain(offset, |data|) {
      WritePartIsSplice(View(files, m, f, i), data, offset, i);
      OneMoreWritten(files, s, m, r, f, i, data, offset);
    }
  }

  /** The result of a transfer: a byte count, or a copy that left its page. */
  datatype Transfer = Count(n: nat) | Stray

  /** A range inside a file touches pages of that file only. */
  lemma RangeInFile(f: Inode, offset: nat, size: nat)
    requires size > 0 && offset + size <= f.size
    ensures 0 < PageCount(offset, size) && offset / PAGE + PageCount(offset, size) <= Pages(f)
  {
    PageCountBounds(offset, size);
  }

  lemma SameViewTrans(files: Files, s: State, m: State, r: State)
    requires Coherent(files, s) && Coherent(files, m) && Coherent(files, r) && SameView(files, s, m) && SameView(files, m, r)
    ensures SameView(files, s, r)
  {
    forall f, i: nat | f in files && i < Pages(files[f]) ensures View(files, r, f, i) == View(files, s, f, i) {
      assert View(files, r, f, i) == View(files, m, f, i);
    }
  }

  /** What `dfs_write` promises of the files: the byte range is replaced, and nothing else. */
  ghost predicate WroteRange(files: Files, s: State, r: State, f: nat, data: seq<Byte>, offset: nat)
    requires Coherent(files, s) && Coherent(files, r) && f in files && offset + |data| <= files[f].size
  {
    && Content(files, r, f) == Content(files, s, f)[..offset] + data + Content(files, s, f)[offset + |data|..]
    && forall g :: g in files && g != f ==> Content(files, r, g) == Content(files, s, g)
  }

  lemma WrittenIsRange(files: Files, s: State, r: State, f: nat, data: seq<Byte>, offset: nat)
    requires Coherent(files, s) && Coherent(files, r) && f in files && |data| > 0 && offset <= files[f].size
    requires PageCount(offset, |data|) <= Pages(files[f]) && WriteDomain(offset, |data|)
    requires SameBut(files, s, r, f, offset / PAGE, offset / PAGE + PageCount(offset, |data|))
    requires Written(files, s, r, f, PageCount(offset, |data|), data, offset)
    ensures WroteRange(files, s, r, f, data[..Fit(files[f], offset, |data|)], offset)
  {
    var count := PageCount(offset, |data|);
    PageCountBounds(offset, |data|);
    forall i: nat | i < Pages(files[f]) ensures View(files, r, f, i) == Splice(View(files, s, f, i), i, data, offset) {
      assert i >= count ==> View(files, r, f, i) == View(files, s, f, i);
    }
    SplicedContent(files, s, r, f, data, offset);
    forall g | g in files && g != f ensures Content(files, r, g) == Content(files, s, g) {
      assert forall i: nat | i < Pages(files[g]) :: View(files, r, g, i) == View(files, s, g, i);
    }
  }

  /** A shorter range touches no other pages. */
  lemma FewerPages(list: seq<Entry>, id: nat, offset: nat, n: nat, size: nat)
    requires n <= size && Covers(list, id, offset / PAGE, PageCount(offset, size))
    ensures PageCount(offset, n) <= PageCount(offset, size) && Covers(list, id, offset / PAGE, PageCount(offset, n))
  {
    CountGrows(offset, n, size);
  }

  lemma CountGrows(offset: nat, n: nat, size: nat)
    requires n <= size
    ensures PageCount(offset, n) <= PageCount(offset, size)
  {
  }

  /** What a step from an equal view does, it does from the start. */
  lemma ThenSame(files: Files, s: State, m: State, r: State, f: nat, lo: nat, hi: nat, data: seq<Byte>, offset: nat)
    requires Coherent(files, s) && Coherent(files, m) && Coherent(files, r) && SameView(files, s, m)
    requires f in files && offset + |data| <= files[f].size && SameBut(files, m, r, f, lo, hi)
    ensures SameBut(files, s, r, f, lo, hi)
    ensures WroteRange(files, m, r, f, data, offset) ==> WroteRange(files, s, r, f, data, offset)
  {
    forall g, q: nat | g in files && q < Pages(files[g]) && (g != f || !(lo <= q < hi))
      ensures View(files, r, g, q) == View(files, s, g, q)
    {
      assert View(files, r, g, q) == View(files, m, g, q);
    }
    forall g | g in files ensures Content(files, m, g) == Content(files, s, g) { SameViewSameContent(files, s, m, g); }
  }

  lemma SliceOfFile(files: Files, s: State, f: nat, pages: seq<Page>, offset: nat, size: nat)
    requires Coherent(files, s) && f in files && offset + size <= files[f].size
    requires offset % PAGE + size <= |pages| * PAGE && offset / PAGE + |pages| <= Pages(files[f])
    requires forall i: nat | i < |pages| :: pages[i] == View(files, s, f, offset / PAGE + i)
    ensures Slice(pages, offset % PAGE, size) == Content(files, s, f)[offset..offset + size]
  {
    var first, start := offset / PAGE, offset % PAGE;
    assert first * PAGE + start == offset;
    SlicedContent(files, s, f, pages, first, start, size);
  }

  lemma ReadIsContent(files: Files, s: State, f: nat, pages: seq<Page>, buffer: seq<Byte>, offset: nat)
    requires Coherent(files, s) && f in files && |buffer| > 0 && offset <= files[f].size
    requires |pages| == PageCount(offset, |buffer|) && offset / PAGE + |pages| <= Pages(files[f])
    requires ReadDomain(offset, |buffer|) && forall i: nat | i < |pages| :: pages[i] == View(files, s, f, offset / PAGE + i)
    ensures var out, n := ReadParts(buffer, pages, offset, |buffer|, |pages|), Fit(files[f], offset, |buffer|);
      out.Done? && |out.bytes| == |buffer| && out.bytes[..n] == Content(files, s, f)[offset..offset + n]
  {
    ReadInDomain(buffer, pages, offset);
    var n := Fit(files[f], offset, |buffer|);
    assert Slice(pages, offset % PAGE, n) == Content(files, s, f)[offset..offset + n] by {
      SliceOfFile(files, s, f, pages, offset, n);
    }
    SlicePrefix(pages, offset % PAGE, n, |buffer|);
  }

  lemma SlicePrefix(pages: seq<Page>, start: nat, n: nat, size: nat)
    requires n <= size && start + size <= |pages| * PAGE
    ensures Slice(pages, start, size)[..n] == Slice(pages, start, n)
  {
  }

  /** No block of another file changes. */
  ghost predicate OthersOnDisk(files: Files, was: map<nat, Page>, disk: map<nat, Page>, f: nat)
  {
    forall g, i: nat | g in files && i < Pages(files[g]) && g != f ::
      Block(files, g, i) in was && Block(files, g, i) in disk && disk[Block(files, g, i)] == was[Block(files, g, i)]
  }

  /** The first `i` pages of `f` have been written back where the disk took them. */
  ghost predicate Syncing(files: Files, s: State, r: State, f: nat, i: nat, ok: nat -> bool)
    requires Coherent(files, s)
  {
    && Coherent(files, r) && SameView(files, s, r) && SweptUpTo(files, s.list, r.list, f, i, ok)
    && OthersOnDisk(files, s.disk, r.disk, f) && RefusedSame(s.disk, r.disk, ok)
  }

  /** What a lookup reports of one page: its frame, or zero when it is not cached. */
  ghost predicate Held(list: seq<Entry>, f: nat, p: nat, addr: nat, mark: bool)
  {
    var k := Find(list, f, p);
    if k < |list| then addr == list[k].addr && addr != 0 && (mark ==> list[k].dirty) else addr == 0
  }

  /** What the lookup of the pages from `first` on reports. */
  ghost predicate AllHeld(list: seq<Entry>, f: nat, first: nat, addrs: seq<nat>, mark: bool)
  {
    forall i: nat :: i < |addrs| ==> Held(list, f, first + i, addrs[i], mark)
  }

  /** The first `i` pages of a range have been fetched, or those before the first failure. */
  ghost predicate Fetching(files: Files, s: State, r: State, f: nat, first: nat, i: nat, mark: bool, ok: nat -> bool, good: bool)
    requires f in files && Coherent(files, s)
  {
    && Coherent(files, r) && SameView(files, s, r) && Fetched(files, s.list, r.list, f, first, i, mark, ok)
    && (good <==> Available(files, s.list, f, first, i, ok))
  }

  lemma FetchEnds(files: Files, s: State, r: State, f: nat, first: nat, i: nat, n: nat, mark: bool, ok: nat -> bool, good: bool)
    requires f in files && Coherent(files, s) && Fetching(files, s, r, f, first, i, mark, ok, good) && i <= n && (good ==> i == n)
    ensures Fetched(files, s.list, r.list, f, first, n, mark, ok)
    ensures good <==> Available(files, s.list, f, first, n, ok)
    ensures good ==> Covers(r.list, f, first, n)
  {
    if good {
      AvailableIsCovered(files, s.list, r.list, f, first, n, ok);
    } else {
      FetchStops(files, s.list, r.list, f, first, i, n, mark, ok);
    }
  }

  lemma MissingStill(files: Files, was: seq<Entry>, list: seq<Entry>, f: nat, first: nat, i: nat, ok: nat -> bool)
    requires f in files && CachedAfter(files, was, list, f, first, i, ok) && !Cached(was, f, first + i)
    ensures !Cached(list, f, first + i)
  {
  }

  lemma HeldUnmarked(list: seq<Entry>, f: nat, first: nat, addrs: seq<nat>, mark: bool)
    requires AllHeld(list, f, first, addrs, mark)
    ensures AllHeld(list, f, first, addrs, false)
  {
    forall i: nat | i < |addrs| ensures Held(list, f, first + i, addrs[i], false) { assert Held(list, f, first + i, addrs[i], mark); }
  }

  lemma OneMoreHeld(before: seq<Entry>, list: seq<Entry>, f: nat, first: nat, addrs: seq<nat>, addr: nat, mark: bool)
    requires AllHeld(before, f, first, addrs, mark) && Held(list, f, first + |addrs|, addr, mark)
    requires StillHeld(before, list, f, mark)
    ensures AllHeld(list, f, first, addrs + [addr], mark)
  {
    var more := addrs + [addr];
    forall i: nat | i < |more| ensures Held(list, f, first + i, more[i], mark) {
      if i < |addrs| { assert Held(before, f, first + i, addrs[i], mark); }
    }
  }

  /** The pages from `first` on have been looked up: only marks have changed. */
  ghost predicate Located(files: Files, s: State, r: State, f: nat, first: nat, addrs: seq<nat>, mark: bool, miss: bool)
    requires Coherent(files, s)
  {
    && Coherent(files, r) && SameKeys(s.list, r.list) && SameView(files, s, r) && AllHeld(r.list, f, first, addrs, mark)
    && (miss <==> !Covers(r.list, f, first, |addrs|)) && DirtyAfter(s.list, r.list, f, first, |addrs|, mark)
  }

  /** What looking up one page does. */
  ghost predicate LocatedOne(files: Files, s: State, r: State, f: nat, p: nat, addr: nat, mark: bool)
    requires Coherent(files, s)
  {
    && Coherent(files, r) && SameKeys(s.list, r.list) && SameView(files, s, r)
    && Held(r.list, f, p, addr, mark) && (addr == 0 <==> !Cached(r.list, f, p))
    && StillHeld(s.list, r.list, f, mark) && MarkedOne(s.list, r.list, f, p, mark)
  }

  ghost predicate StillHeld(was: seq<Entry>, now: seq<Entry>, f: nat, mark: bool)
  {
    forall q, a :: Held(was, f, q, a, mark) ==> Held(now, f, q, a, mark)
  }

  lemma LocatedMore(files: Files, s: State, m: State, r: State, f: nat, first: nat, addrs: seq<nat>, addr: nat, mark: bool,
                    miss: bool)
    requires Coherent(files, s) && Located(files, s, m, f, first, addrs, mark, miss)
    requires LocatedOne(files, m, r, f, first + |addrs|, addr, mark)
    ensures Located(files, s, r, f, first, addrs + [addr], mark, miss || addr == 0)
  {
    SameViewTrans(files, s, m, r);
    OneMoreHeld(m.list, r.list, f, first, addrs, addr, mark);
    CoversOneMore(m.list, r.list, f, first, |addrs|);
    MarkedMore(s.list, m.list, r.list, f, first, |addrs|, mark);
  }

  class Volume {
    const files: Files
    var disk: map<nat, Page>
    var mem: map<nat, Page>
    var list: seq<Entry>

    ghost function Now(): State
      reads this
    {
      State(disk, mem, list)
    }

    ghost predicate Valid()
      reads this
    {
      Coherent(files, Now())
    }

    constructor (files: Files, disk: map<nat, Page>)
      requires Apart(files) && Stored(files, State(disk, map[], []))
      ensures this.files == files && this.disk == disk && Valid() && list == []
    {
      this.files, this.disk, mem, list := files, disk, map[], [];
    }

    method Get(id: nat, indx: nat) returns (k: nat)
      ensures k == Find(list, id, indx)
    {
      k := 0;
      while k < |list| && (list[k].id != id || list[k].indx != indx)
        invariant k <= |list| && forall j: nat :: j < k ==> list[j].id != id || list[j].indx != indx
      {
        k := k + 1;
      }
      assert Find(list, id, indx) <= k;
    }

    method Add(id: nat, indx: nat, addr: nat, dirty: bool)
      modifies this`list
      ensures list == [Entry(id, indx, addr, dirty, false)] + old(list)
    {
      list := [Entry(id, indx, addr, dirty, false)] + list;
    }

    /** Looks up one page; a write also marks it. */
    method LocateOne(f: nat, p: nat, mark: bool) returns (addr: nat)
      requires Valid()
      modifies this`list
      ensures Valid() && LocatedOne(files, old(Now()), Now(), f, p, addr, mark)
    {
      ghost var before := Now();
      var k := Get(f, p);
      if k < |list| {
        assert EntryOk(files, before, list[k]);
        addr := list[k].addr;
        if mark {
          TouchKeeps(files, before, k);
          Touched(list, list[k := list[k].(dirty := true)], f, p);
          list := list[k := list[k].(dirty := true)];
          assert Now() == Touch(before, k);
        }
      } else {
        addr := 0;
      }
      forall q: nat ensures Find(list, f, q) == Find(before.list, f, q) { SameKeysFound(before.list, list, f, q); }
    }

    /** Looks up every page of a range. */
    method Locate(f: nat, first: nat, count: nat, mark: bool) returns (addrs: seq<nat>, miss: bool)
      requires Valid()
      modifies this`list
      ensures Valid() && |addrs| == count && Located(files, old(Now()), Now(), f, first, addrs, mark, miss)
    {
      addrs, miss := [], false;
      for i := 0 to count
        invariant Valid() && |addrs| == i && Located(files, old(Now()), Now(), f, first, addrs, mark, miss)
      {
        ghost var before := Now();
        var addr := LocateOne(f, first + i, mark);
        LocatedMore(files, old(Now()), before, Now(), f, first, addrs, addr, mark, miss);
        addrs := addrs + [addr];
        miss := miss || addr == 0;
      }
    }

    /** Reads a block into a frame of its own. */
    method ReadBlock(block: nat, ok: nat -> bool) returns (addr: nat, good: bool)
      modifies this`mem
      ensures addr != 0 && addr !in old(mem)
      ensures good <==> ok(block) && block in disk
      ensures mem == if good then old(mem)[addr := disk[block]] else old(mem)
    {
      FrameLeft(mem);
      addr :| addr != 0 && addr !in mem;
      good := ok(block) && block in disk;
      if good {
        mem := mem[addr := disk[block]];
      }
    }

    /** Brings one missing page into the cache. */
    method FetchOne(f: nat, p: nat, dirty: bool, ok: nat -> bool) returns (good: bool)
      requires Valid() && f in files && p < Pages(files[f]) && !Cached(list, f, p)
      modifies this`mem, this`list
      ensures Valid() && SameView(files, old(Now()), Now())
      ensures good <==> ok(Block(files, f, p))
      ensures FetchedOne(old(list), list, f, p, dirty, good)
    {
      ghost var before := Now();
      assert Block(files, f, p) in disk;
      var addr;
      addr, good := ReadBlock(files[f].start + p, ok);
      if good {
        ghost var e := Entry(f, p, addr, dirty, false);
        InsertKeeps(files, before, e);
        Added(list, e);
        Add(f, p, addr, dirty);
        assert Now() == Insert(files, before, e);
      }
    }

    /** Brings the missing pages of a range into the cache, up to the first failure. */
    method Fetch(f: nat, first: nat, addrs: seq<nat>, dirty: bool, ok: nat -> bool) returns (good: bool)
      requires Valid() && f in files && first + |addrs| <= Pages(files[f])
      requires AllHeld(list, f, first, addrs, false)
      modifies this`mem, this`list
      ensures Valid() && SameView(files, old(Now()), Now())
      ensures good <==> Available(files, old(list), f, first, |addrs|, ok)
      ensures good ==> Covers(list, f, first, |addrs|)
      ensures Fetched(files, old(list), list, f, first, |addrs|, dirty, ok)
    {
      ghost var was := Now();
      good := true;
      var i := 0;
      while i < |addrs| && good
        invariant i <= |addrs| && Fetching(files, was, Now(), f, first, i, dirty, ok, good)
      {
        assert Held(was.list, f, first + i, addrs[i], false);
        good := FetchNext(f, first, i, addrs[i], dirty, ok, was);
        i := i + 1;
      }
      FetchEnds(files, was, Now(), f, first, i, |addrs|, dirty, ok, good);
    }

    /** One turn of that loop; `was` is the state before the loop. */
    method FetchNext(f: nat, first: nat, i: nat, addr: nat, dirty: bool, ok: nat -> bool, ghost was: State) returns (good: bool)
      requires f in files && first + i < Pages(files[f]) && Coherent(files, was)
      requires Fetching(files, was, Now(), f, first, i, dirty, ok, true) && (addr == 0 <==> !Cached(was.list, f, first + i))
      modifies this`mem, this`list
      ensures Fetching(files, was, Now(), f, first, i + 1, dirty, ok, good)
    {
      ghost var before := Now();
      good := true;
      if addr == 0 {
        MissingStill(files, was.list, list, f, first, i, ok);
        good := FetchOne(f, first + i, dirty, ok);
        SameViewTrans(files, was, before, Now());
      }
      FetchedMore(files, was.list, before.list, list, f, first, i, dirty, ok, good);
    }

    /** The first part of a transfer: looks the pages of its range up and, when one is missing, fetches the missing ones. */
    method Gather(f: nat, first: nat, count: nat, mark: bool, ok: nat -> bool) returns (addrs: seq<nat>, miss: bool, good: bool)
      requires Valid() && f in files && first + count <= Pages(files[f])
      modifies this`mem, this`list
      ensures Valid() && SameView(files, old(Now()), Now()) && |addrs| == count
      ensures miss <==> !Covers(old(list), f, first, count)
      ensures !miss ==> AllHeld(list, f, first, addrs, mark)
      ensures good <==> Available(files, old(list), f, first, count, ok)
      ensures good ==> Covers(list, f, first, count)
      ensures CachedAfter(files, old(list), list, f, first, count, ok) && DirtyAfter(old(list), list, f, first, count, mark)
    {
      addrs, miss := Locate(f, first, count, mark);
      CoversSame(old(list), list, f, first, count);
      good := true;
      if miss {
        ghost var mid := Now();
        HeldUnmarked(list, f, first, addrs, mark);
        good := Fetch(f, first, addrs, mark, ok);
        LookupThenFetch(files, old(list), mid.list, list, f, first, count, mark, ok);
        SameViewTrans(files, old(Now()), mid, Now());
      } else {
        OnlyMarks(files, old(list), list, f, first, count, ok);
      }
    }

    /** The copy into one page of a write. */
    method PutPart(f: nat, p: nat, addr: nat, data: seq<Byte>, count: nat, offset: nat, i: nat) returns (good: bool)
      requires Valid() && f in files && p < Pages(files[f]) && Held(list, f, p, addr, true) && addr != 0
      modifies this`mem
      ensures Valid()
      ensures good <==> WritePart(old(View(files, Now(), f, p)), data, count, offset, |data|, i).Done?
      ensures SameBut(files, old(Now()), Now(), f, p, p + 1)
      ensures good ==>
        WritePart(old(View(files, Now(), f, p)), data, count, offset, |data|, i) == Done(View(files, Now(), f, p))
    {
      ghost var before, k := Now(), Find(list, f, p);
      assert EntryOk(files, before, list[k]);
      var part := WritePart(mem[addr], data, count, offset, |data|, i);
      good := part.Done?;
      if good {
        PokeKeeps(files, before, k, part.bytes);
        mem := mem[addr := part.bytes];
        assert Now() == Poke(before, k, part.bytes);
      }
    }

    /** The copies of a write whose pages are all cached and marked. */
    method PutParts(f: nat, addrs: seq<nat>, data: seq<Byte>, offset: nat) returns (good: bool)
      requires Valid() && f in files && |data| > 0 && |addrs| == PageCount(offset, |data|)
      requires offset / PAGE + |addrs| <= Pages(files[f])
      requires forall i: nat :: i < |addrs| ==> Held(list, f, offset / PAGE + i, addrs[i], true) && addrs[i] != 0
      modifies this`mem
      ensures Valid()
      ensures SameBut(files, old(Now()), Now(), f, offset / PAGE, offset / PAGE + |addrs|)
      ensures WriteDomain(offset, |data|) ==> good && Written(files, old(Now()), Now(), f, |addrs|, data, offset)
    {
      ghost var was := Now();
      var first := offset / PAGE;
      good := true;
      var i := 0;
      while i < |addrs| && good
        invariant i <= |addrs| && Valid() && SameBut(files, was, Now(), f, first, first + i)
        invariant WriteDomain(offset, |data|) ==> good && Written(files, was, Now(), f, i, data, offset)
      {
        ghost var before := Now();
        good := PutPart(f, first + i, addrs[i], data, |addrs|, offset, i);
        PutStep(files, was, before, Now(), f, i, data, offset, good);
        i := i + 1;
      }
      SameButGrow(files, was, Now(), f, first, first + i, first + |addrs|);
    }

    /** A range whose pages are all the file's; it may end past the file in the last page. */
    ghost predicate InFile(f: nat, offset: nat, size: nat)
    {
      f in files && (offset <= files[f].size && size > 0 ==> offset / PAGE + PageCount(offset, size) <= Pages(files[f]))
    }

    /** A write with every page cached. */
    method WriteHit(f: nat, addrs: seq<nat>, data: seq<Byte>, offset: nat) returns (r: Transfer)
      requires Valid() && InFile(f, offset, |data|) && |data| > 0 && offset <= files[f].size
      requires |addrs| == PageCount(offset, |data|) && Covers(list, f, offset / PAGE, |addrs|)
      requires AllHeld(list, f, offset / PAGE, addrs, true)
      modifies this`mem
      ensures Valid() && SameBut(files, old(Now()), Now(), f, offset / PAGE, offset / PAGE + |addrs|)
      ensures r == Count(|data|) || r == Stray
      ensures WriteDomain(offset, |data|) ==>
        r == Count(|data|) && WroteRange(files, old(Now()), Now(), f, data[..Fit(files[f], offset, |data|)], offset)
    {
      forall i: nat | i < |addrs| ensures addrs[i] != 0 {
        assert Held(list, f, offset / PAGE + i, addrs[i], true) && Cached(list, f, offset / PAGE + i);
      }
      var good := PutParts(f, addrs, data, offset);
      r := if good then Count(|data|) else Stray;
      if WriteDomain(offset, |data|) { WrittenIsRange(files, old(Now()), Now(), f, data, offset); }
    }

    /** The count a transfer returns: what was asked for when every page is cached, and otherwise what fits the file. */
    ghost function Returned(f: nat, offset: nat, size: nat): nat
      requires f in files && offset <= files[f].size
      reads this`list
    {
      if Covers(list, f, offset / PAGE, PageCount(offset, size)) then size else Fit(files[f], offset, size)
    }

    /** Both the range asked for and what of it fits the file are split right. */
    ghost predicate WriteSound(f: nat, offset: nat, size: nat)
      requires f in files
    {
      && offset <= files[f].size && size > 0 && WriteDomain(offset, size)
      && (Fit(files[f], offset, size) > 0 ==> WriteDomain(offset, Fit(files[f], offset, size)))
    }

    ghost predicate ReadSound(f: nat, offset: nat, size: nat)
      requires f in files
    {
      && offset <= files[f].size && size > 0 && ReadDomain(offset, size)
      && (Fit(files[f], offset, size) > 0 ==> ReadDomain(offset, Fit(files[f], offset, size)))
    }

    /** What a transfer does to the cache: the pages of its range come in, up to the first that cannot be read; a write marks
        those in the cache. A transfer that is refused at once does nothing. */
    ghost predicate Effect(was: seq<Entry>, f: nat, offset: nat, size: nat, mark: bool, ok: nat -> bool)
      requires f in files
      reads this
    {
      var count := if size == 0 || offset > files[f].size then 0 else PageCount(offset, size);
      CachedAfter(files, was, list, f, offset / PAGE, count, ok) && DirtyAfter(was, list, f, offset / PAGE, count, mark)
    }

    /** `dfs_write`. A failed disk read returns 0 with every file as it was. */
    method Write(f: nat, data: seq<Byte>, offset: nat, ok: nat -> bool) returns (r: Transfer)
      requires Valid() && InFile(f, offset, |data|)
      modifies this`mem, this`list
      ensures Valid()
      ensures |data| == 0 || offset > files[f].size ==> r == Count(0)
      ensures r == Count(0) || r == Stray || (offset <= files[f].size && r == Count(old(Returned(f, offset, |data|))))
      ensures r == Count(0) ==> SameView(files, old(Now()), Now())
      ensures SameBut(files, old(Now()), Now(), f, offset / PAGE, offset / PAGE + PageCount(offset, |data|))
      ensures WriteSound(f, offset, |data|) && r != Count(0) ==>
        r != Stray && WroteRange(files, old(Now()), Now(), f, data[..Fit(files[f], offset, |data|)], offset)
      ensures offset <= files[f].size && Fit(files[f], offset, |data|) > 0 ==>
        (r != Count(0) <==> Available(files, old(list), f, offset / PAGE, PageCount(offset, |data|), ok))
      ensures Effect(old(list), f, offset, |data|, true, ok)
      decreases if Covers(list, f, offset / PAGE, PageCount(offset, |data|)) then 0 else 1
    {
      if |data| == 0 || offset > files[f].size {
        Untouched(files, list, f, offset / PAGE, ok);
        return Count(0);
      }
      var first, count := offset / PAGE, PageCount(offset, |data|);
      var addrs, miss, good := Gather(f, first, count, true, ok);
      ghost var mid := Now();
      var size := Fit(files[f], offset, |data|);
      if !miss {
        r := WriteHit(f, addrs, data, offset);
        ThenSame(files, old(Now()), mid, Now(), f, first, first + count, data[..size], offset);
        return;
      }
      if !good {
        return Count(0);
      }
      FewerPages(list, f, offset, size, |data|);
      r := Write(f, data[..size], offset, ok);
      AgainSame(old(list), mid.list, f, offset, size, |data|, true, ok);
      assert data[..size][..size] == data[..size];
      if r == Count(0) { SameViewTrans(files, old(Now()), mid, Now()); }
      SameButGrow(files, mid, Now(), f, first, first + PageCount(offset, size), first + count);
      ThenSame(files, old(Now()), mid, Now(), f, first, first + count, data[..size], offset);
    }

    /** The second attempt of a transfer, with its pages in the cache, adds nothing. */
    lemma AgainSame(was: seq<Entry>, mid: seq<Entry>, f: nat, offset: nat, n: nat, size: nat, mark: bool, ok: nat -> bool)
      requires f in files && n <= size && size > 0 && offset <= files[f].size
      requires Covers(mid, f, offset / PAGE, PageCount(offset, size)) && Effect(mid, f, offset, n, mark, ok)
      requires CachedAfter(files, was, mid, f, offset / PAGE, PageCount(offset, size), ok)
      requires DirtyAfter(was, mid, f, offset / PAGE, PageCount(offset, size), mark)
      ensures Effect(was, f, offset, size, mark, ok)
    {
      CountGrows(offset, n, size);
      var count, k := PageCount(offset, size), if n == 0 then 0 else PageCount(offset, n);
      ThenAgain(files, was, mid, list, f, offset / PAGE, count, k, mark, ok);
    }

    /** The copies of a read whose pages are all cached. */
    method GetParts(addrs: seq<nat>, buffer: seq<Byte>, offset: nat, ghost pages: seq<Page>)
      returns (out: seq<Byte>, good: bool)
      requires |pages| == |addrs| && forall i: nat :: i < |addrs| ==> addrs[i] in mem && mem[addrs[i]] == pages[i]
      ensures |out| == |buffer| && ReadParts(buffer, pages, offset, |buffer|, |addrs|) == if good then Done(out) else Fault
    {
      out, good := buffer, true;
      var i := 0;
      while i < |addrs| && good
        invariant i <= |addrs| && |out| == |buffer| && (good ==> ReadParts(buffer, pages, offset, |buffer|, i) == Done(out))
        invariant !good ==> ReadParts(buffer, pages, offset, |buffer|, |addrs|) == Fault
      {
        var part := ReadPart(out, mem[addrs[i]], |addrs|, offset, |buffer|, i);
        good := part.Done?;
        if good { out := part.bytes; } else { FaultSticks(buffer, pages, offset, |buffer|, i + 1, |addrs|); }
        i := i + 1;
      }
    }

    lemma HitPages(f: nat, first: nat, addrs: seq<nat>)
      requires Valid() && f in files && first + |addrs| <= Pages(files[f]) && Covers(list, f, first, |addrs|)
      requires AllHeld(list, f, first, addrs, false)
      ensures forall i: nat :: i < |addrs| ==>
        addrs[i] in mem && mem[addrs[i]] == Span(files, Now(), f, first, |addrs|)[i]
    {
      forall i: nat | i < |addrs| ensures addrs[i] in mem && mem[addrs[i]] == View(files, Now(), f, first + i) {
        assert Held(list, f, first + i, addrs[i], false) && Cached(list, f, first + i);
        assert EntryOk(files, Now(), list[Find(list, f, first + i)]);
      }
    }

    /** A read with every page cached. */
    method ReadHit(f: nat, addrs: seq<nat>, buffer: seq<Byte>, offset: nat) returns (out: seq<Byte>, r: Transfer)
      requires Valid() && InFile(f, offset, |buffer|) && |buffer| > 0 && offset <= files[f].size
      requires |addrs| == PageCount(offset, |buffer|) && Covers(list, f, offset / PAGE, |addrs|)
      requires AllHeld(list, f, offset / PAGE, addrs, false)
      ensures |out| == |buffer| && (r == Count(|buffer|) || r == Stray)
      ensures ReadDomain(offset, |buffer|) ==>
        && r == Count(|buffer|)
        && var n := Fit(files[f], offset, |buffer|); out[..n] == Content(files, Now(), f)[offset..offset + n]
    {
      ghost var pages := Span(files, Now(), f, offset / PAGE, |addrs|);
      HitPages(f, offset / PAGE, addrs);
      var good;
      out, good := GetParts(addrs, buffer, offset, pages);
      r := if good then Count(|buffer|) else Stray;
      if ReadDomain(offset, |buffer|) { ReadIsContent(files, Now(), f, pages, buffer, offset); }
    }

    /** `dfs_read`. No file changes, whatever the range. */
    method Read(f: nat, buffer: seq<Byte>, offset: nat, ok: nat -> bool) returns (out: seq<Byte>, r: Transfer)
      requires Valid() && InFile(f, offset, |buffer|)
      modifies this`mem, this`list
      ensures Valid() && SameView(files, old(Now()), Now()) && |out| == |buffer|
      ensures |buffer| == 0 || offset > files[f].size ==> r == Count(0)
      ensures r == Count(0) || r == Stray || (offset <= files[f].size && r == Count(old(Returned(f, offset, |buffer|))))
      ensures ReadSound(f, offset, |buffer|) && r != Count(0) ==>
        && r != Stray
        && var n := Fit(files[f], offset, |buffer|); out[..n] == old(Content(files, Now(), f))[offset..offset + n]
      ensures offset <= files[f].size && Fit(files[f], offset, |buffer|) > 0 ==>
        (r != Count(0) <==> Available(files, old(list), f, offset / PAGE, PageCount(offset, |buffer|), ok))
      ensures Effect(old(list), f, offset, |buffer|, false, ok)
      decreases if Covers(list, f, offset / PAGE, PageCount(offset, |buffer|)) then 0 else 1
    {
      out := buffer;
      if |buffer| == 0 || offset > files[f].size {
        Untouched(files, list, f, offset / PAGE, ok);
        return out, Count(0);
      }
      var first, count := offset / PAGE, PageCount(offset, |buffer|);
      var addrs, miss, good := Gather(f, first, count, false, ok);
      ghost var mid := Now();
      SameViewSameContent(files, old(Now()), mid, f);
      if !miss {
        out, r := ReadHit(f, addrs, buffer, offset);
        return;
      }
      if !good {
        return out, Count(0);
      }
      var size := Fit(files[f], offset, |buffer|);
      FewerPages(list, f, offset, size, |buffer|);
      var front;
      front, r := Read(f, buffer[..size], offset, ok);
      AgainSame(old(list), mid.list, f, offset, size, |buffer|, false, ok);
      out := front + buffer[size..];
      assert out[..size] == front == front[..size];
      SameViewTrans(files, old(Now()), mid, Now());
    }

    /** Writes one cached page back if it needs it; returns the number of failures. */
    method WriteBack(k: nat, ok: nat -> bool) returns (failed: nat)
      requires Valid() && k < |list|
      modifies this`disk, this`list
      ensures Valid() && SameView(files, old(Now()), Now())
      ensures old(list[k]).id in files && old(list[k]).indx < Pages(files[old(list[k]).id])
      ensures list == old(list)[k := Swept(files, old(list)[k], ok)]
      ensures failed == if Bad(files, old(list)[k], ok) then 1 else 0
      ensures OthersOnDisk(files, old(disk), disk, old(list[k]).id) && RefusedSame(old(disk), disk, ok)
    {
      ghost var before := Now();
      var e := list[k];
      assert EntryOk(files, before, e);
      failed := 0;
      FoundAt(list, k);
      if e.dirty && !e.writeback {
        var block := files[e.id].start + e.indx;
        list := list[k := e.(writeback := true)];
        if ok(block) {
          FlushKeeps(files, before, k);
          FlushWrites(files, before, k);
          disk := disk[block := mem[e.addr]];
          list := list[k := e.(dirty := false)];
          assert Now() == Flush(files, before, k);
        } else {
          failed := 1;
          list := list[k := e];
          assert Now() == before;
        }
      }
    }

    /** `dfs_file_sync` tries every dirty page of the file, whatever the other writes did: afterwards exactly the pages whose
        block the disk refused are dirty still, all others are on disk, and the result is the number of refusals. */
    method Sync(f: nat, ok: nat -> bool) returns (failed: nat)
      requires Valid() && f in files
      modifies this`disk, this`list
      ensures Valid() && SameView(files, old(Now()), Now()) && SameKeys(old(list), list)
      ensures forall i: nat | i < Pages(files[f]) :: Dirty(list, f, i) <==> old(Dirty(list, f, i)) && !ok(Block(files, f, i))
      ensures forall i: nat | i < Pages(files[f]) && ok(Block(files, f, i)) :: Synced(files, Now(), f, i)
      ensures failed == |Refused(files, old(list), f, Pages(files[f]), ok)| && ((forall b :: ok(b)) ==> failed == 0)
      ensures failed == 0 ==> forall i: nat | i < Pages(files[f]) :: Synced(files, Now(), f, i)
      ensures forall k: nat :: k < |list| && list[k].id != f ==> list[k] == old(list)[k]
      ensures OthersOnDisk(files, old(disk), disk, f) && RefusedSame(old(disk), disk, ok)
    {
      failed := 0;
      for i := 0 to Pages(files[f])
        invariant Syncing(files, old(Now()), Now(), f, i, ok) && failed == |Refused(files, old(list), f, i, ok)|
      {
        var n := SyncPage(f, i, ok, old(Now()));
        failed := failed + n;
        RefusedOne(files, old(list), f, i, ok);
      }
      SweepDone(old(list), f, ok);
      NoneRefused(files, old(list), f, ok);
    }

    /** One turn of that loop; `was` is the state before the loop. */
    method SyncPage(f: nat, i: nat, ok: nat -> bool, ghost was: State) returns (failed: nat)
      requires f in files && i < Pages(files[f]) && Coherent(files, was) && Syncing(files, was, Now(), f, i, ok)
      modifies this`disk, this`list
      ensures Syncing(files, was, Now(), f, i + 1, ok)
      ensures failed == if RefusedPage(files, was.list, f, i, ok) then 1 else 0
    {
      ghost var before := Now();
      var k := Get(f, i);
      SweepFinds(files, was.list, list, f, i, ok);
      failed := 0;
      if k < |list| {
        failed := WriteBack(k, ok);
        SameViewTrans(files, was, before, Now());
      }
      SweepOne(files, was.list, before.list, list, f, i, ok);
    }

    /** The state after a sweep over all pages of a file. */
    lemma SweepDone(was: seq<Entry>, f: nat, ok: nat -> bool)
      requires Valid() && f in files && SweptUpTo(files, was, list, f, Pages(files[f]), ok)
      ensures SameKeys(was, list)
      ensures forall i: nat | i < Pages(files[f]) :: Dirty(list, f, i) <==> Dirty(was, f, i) && !ok(Block(files, f, i))
      ensures forall i: nat | i < Pages(files[f]) && (ok(Block(files, f, i)) || Refused(files, was, f, Pages(files[f]), ok) == {}) ::
        Synced(files, Now(), f, i)
      ensures forall k: nat :: k < |list| && list[k].id != f ==> list[k] == was[k]
    {
      forall i: nat | i < Pages(files[f])
        ensures Dirty(list, f, i) <==> Dirty(was, f, i) && !ok(Block(files, f, i))
        ensures ok(Block(files, f, i)) || Refused(files, was, f, Pages(files[f]), ok) == {} ==> Synced(files, Now(), f, i)
      {
        SweepFinds(files, was, list, f, i, ok);
        assert RefusedPage(files, was, f, i, ok) ==> i in Refused(files, was, f, Pages(files[f]), ok);
        if !Dirty(list, f, i) { CleanIsSynced(files, Now(), f, i); }
      }
    }

    /** The loop of SYS_SYNC does the same for every cached page of every file. */
    method SyncAll(ok: nat -> bool) returns (failed: nat)
      requires Valid()
      modifies this`disk, this`list
      ensures Valid() && SameView(files, old(Now()), Now()) && SameKeys(old(list), list)
      ensures forall f, i: nat | f in files && i < Pages(files[f]) ::
        Dirty(list, f, i) <==> old(Dirty(list, f, i)) && !ok(Block(files, f, i))
      ensures forall f, i: nat | f in files && i < Pages(files[f]) && ok(Block(files, f, i)) :: Synced(files, Now(), f, i)
      ensures failed == |BadAt(files, old(list), |old(list)|, ok)| && ((forall b :: ok(b)) ==> failed == 0)
      ensures failed == 0 ==> forall f, i: nat | f in files && i < Pages(files[f]) :: Synced(files, Now(), f, i)
      ensures RefusedSame(old(disk), disk, ok)
    {
      failed := 0;
      var k := 0;
      while k < |list|
        invariant k <= |list| && Valid() && SameView(files, old(Now()), Now())
        invariant SweptTo(files, old(list), list, k, ok) && failed == |BadAt(files, old(list), k, ok)|
        invariant RefusedSame(old(disk), disk, ok)
        decreases |list| - k
      {
        ghost var before := Now();
        var n := WriteBack(k, ok);
        SameViewTrans(files, old(Now()), before, Now());
        SweepNext(files, old(list), before.list, list, k, ok);
        BadOne(files, old(list), k, ok);
        failed := failed + n;
        k := k + 1;
      }
      AllSwept(old(list), ok);
      NoneBad(files, old(list), ok);
    }

    lemma AllSwept(was: seq<Entry>, ok: nat -> bool)
      requires Valid() && SweptTo(files, was, list, |list|, ok)
      ensures SameKeys(was, list)
      ensures forall f, i: nat | f in files && i < Pages(files[f]) :: Dirty(list, f, i) <==> Dirty(was, f, i) && !ok(Block(files, f, i))
      ensures forall f, i: nat | f in files && i < Pages(files[f]) && (ok(Block(files, f, i)) || BadAt(files, was, |was|, ok) == {}) ::
        Synced(files, Now(), f, i)
    {
      forall f, i: nat | f in files && i < Pages(files[f])
        ensures Dirty(list, f, i) <==> Dirty(was, f, i) && !ok(Block(files, f, i))
        ensures ok(Block(files, f, i)) || BadAt(files, was, |was|, ok) == {} ==> Synced(files, Now(), f, i)
      {
        SameKeysFound(was, list, f, i);
        var k := Find(list, f, i);
        if k < |list| { assert Bad(files, was[k], ok) ==> k in BadAt(files, was, |was|, ok); }
        if !Dirty(list, f, i) { CleanIsSynced(files, Now(), f, i); }
      }
    }
  }
}
