/** What lookups, fetches and write-backs do to the cache: which pages are in it, and which of them are dirty. */
module CacheEffects {
  import opened FileSplit
  import opened PageCache

  // ---- looking up and fetching --------------------------------------------------------------------------------

  /** Every page of `f` from `first` to `p` was cached or can be read. */
  ghost predicate Reached(files: Files, list: seq<Entry>, f: nat, first: nat, p: nat, ok: nat -> bool)
    requires f in files
  {
    forall q: nat :: first <= q <= p ==> Cached(list, f, q) || ok(Block(files, f, q))
  }

  /** Every page of the range was cached or can be read. */
  ghost predicate Available(files: Files, list: seq<Entry>, f: nat, first: nat, count: nat, ok: nat -> bool)
    requires f in files
  {
    forall q: nat :: first <= q < first + count ==> Cached(list, f, q) || ok(Block(files, f, q))
  }

  /** Exactly the pages of the range up to the first one that could not be read have come into the cache. */
  ghost predicate CachedAfter(files: Files, was: seq<Entry>, now: seq<Entry>, f: nat, first: nat, count: nat, ok: nat -> bool)
    requires f in files
  {
    forall g, p: nat :: Cached(now, g, p) <==>
      Cached(was, g, p) || (g == f && first <= p < first + count && Reached(files, was, f, first, p, ok))
  }

  /** Exactly the cached pages of the range have become dirty, and for a read none. */
  ghost predicate DirtyAfter(was: seq<Entry>, now: seq<Entry>, f: nat, first: nat, count: nat, mark: bool)
  {
    forall g, p: nat :: Dirty(now, g, p) <==>
      Dirty(was, g, p) || (mark && g == f && first <= p < first + count && Cached(now, g, p))
  }

  lemma SameKeysCached(was: seq<Entry>, now: seq<Entry>)
    requires SameKeys(was, now)
    ensures forall g, p: nat :: Cached(now, g, p) <==> Cached(was, g, p)
  {
    forall g: nat, p: nat ensures Cached(now, g, p) <==> Cached(was, g, p) { SameKeysFound(was, now, g, p); }
  }

  /** A write has marked one page if it is cached. */
  ghost predicate MarkedOne(was: seq<Entry>, now: seq<Entry>, f: nat, p: nat, mark: bool)
  {
    forall g, q: nat :: Dirty(now, g, q) <==> Dirty(was, g, q) || (mark && g == f && q == p && Cached(was, f, q))
  }

  lemma Touched(was: seq<Entry>, now: seq<Entry>, f: nat, p: nat)
    requires Distinct(was) && Cached(was, f, p)
    requires var k := Find(was, f, p); now == was[k := was[k].(dirty := true)]
    ensures MarkedOne(was, now, f, p, true)
  {
    forall g: nat, q: nat ensures Dirty(now, g, q) <==> Dirty(was, g, q) || (g == f && q == p) { SameKeysFound(was, now, g, q); }
  }

  /** One more page looked up. */
  lemma MarkedMore(was: seq<Entry>, mid: seq<Entry>, now: seq<Entry>, f: nat, first: nat, i: nat, mark: bool)
    requires SameKeys(was, mid) && SameKeys(mid, now) && DirtyAfter(was, mid, f, first, i, mark)
    requires MarkedOne(mid, now, f, first + i, mark)
    ensures DirtyAfter(was, now, f, first, i + 1, mark)
  {
    SameKeysCached(mid, now);
  }

  lemma {:induction false} FindBehind(e: Entry, list: seq<Entry>, g: nat, p: nat)
    ensures Find([e] + list, g, p) == if e.id == g && e.indx == p then 0 else 1 + Find(list, g, p)
  {
    assert ([e] + list)[1..] == list;
  }

  /** A page added in front. */
  lemma Added(was: seq<Entry>, e: Entry)
    requires !Cached(was, e.id, e.indx)
    ensures forall g, p: nat :: Cached([e] + was, g, p) <==> Cached(was, g, p) || (g == e.id && p == e.indx)
    ensures forall g, p: nat :: Dirty([e] + was, g, p) <==> Dirty(was, g, p) || (e.dirty && g == e.id && p == e.indx)
  {
    forall g: nat, p: nat
      ensures Cached([e] + was, g, p) <==> Cached(was, g, p) || (g == e.id && p == e.indx)
      ensures Dirty([e] + was, g, p) <==> Dirty(was, g, p) || (e.dirty && g == e.id && p == e.indx)
    {
      FindBehind(e, was, g, p);
    }
  }

  /** A fetch has dealt with the first `i` pages: all of them were available, or it stopped at the first that was not. */
  ghost predicate Fetched(files: Files, was: seq<Entry>, now: seq<Entry>, f: nat, first: nat, i: nat, mark: bool, ok: nat -> bool)
    requires f in files
  {
    && CachedAfter(files, was, now, f, first, i, ok)
    && forall g, p: nat :: Dirty(now, g, p) <==> Dirty(was, g, p) || (mark && Cached(now, g, p) && !Cached(was, g, p))
  }

  /** One page has come into the cache, or could not be read. */
  ghost predicate FetchedOne(was: seq<Entry>, now: seq<Entry>, f: nat, p: nat, mark: bool, good: bool)
  {
    && (forall g, q: nat :: Cached(now, g, q) <==> Cached(was, g, q) || (good && g == f && q == p))
    && (forall g, q: nat :: Dirty(now, g, q) <==> Dirty(was, g, q) || (good && mark && g == f && q == p))
  }

  lemma FetchedMore(files: Files, was: seq<Entry>, mid: seq<Entry>, now: seq<Entry>, f: nat, first: nat, i: nat, mark: bool,
                    ok: nat -> bool, good: bool)
    requires f in files && Fetched(files, was, mid, f, first, i, mark, ok) && Available(files, was, f, first, i, ok)
    requires Cached(was, f, first + i) ==> good && now == mid
    requires !Cached(was, f, first + i) ==>
      (good <==> ok(Block(files, f, first + i))) && FetchedOne(mid, now, f, first + i, mark, good)
    ensures Fetched(files, was, now, f, first, i + 1, mark, ok) && (good <==> Available(files, was, f, first, i + 1, ok))
  {
    forall g: nat, p: nat
      ensures Cached(now, g, p) <==>
        Cached(was, g, p) || (g == f && first <= p < first + i + 1 && Reached(files, was, f, first, p, ok))
    {
      if g == f && p == first + i { ReachedLast(files, was, f, first, i, ok); }
    }
    ReachedLast(files, was, f, first, i, ok);
  }

  lemma ReachedLast(files: Files, was: seq<Entry>, f: nat, first: nat, i: nat, ok: nat -> bool)
    requires f in files && Available(files, was, f, first, i, ok)
    ensures Reached(files, was, f, first, first + i, ok) <==> Cached(was, f, first + i) || ok(Block(files, f, first + i))
    ensures Reached(files, was, f, first, first + i, ok) <==> Available(files, was, f, first, i + 1, ok)
  {
  }

  /** After the first failure nothing more is fetched. */
  lemma FetchStops(files: Files, was: seq<Entry>, now: seq<Entry>, f: nat, first: nat, i: nat, n: nat, mark: bool, ok: nat -> bool)
    requires f in files && i <= n && Fetched(files, was, now, f, first, i, mark, ok)
    requires !Available(files, was, f, first, i, ok)
    ensures Fetched(files, was, now, f, first, n, mark, ok) && !Available(files, was, f, first, n, ok)
  {
    var q: nat :| first <= q < first + i && !Cached(was, f, q) && !ok(Block(files, f, q));
    forall p: nat | first + i <= p ensures !Reached(files, was, f, first, p, ok) { assert first <= q <= p; }
  }

  /** A lookup that marks, then a fetch that marks: every cached page of the range is dirty. */
  lemma LookupThenFetch(files: Files, was: seq<Entry>, mid: seq<Entry>, now: seq<Entry>, f: nat, first: nat, count: nat, mark: bool,
                        ok: nat -> bool)
    requires f in files && SameKeys(was, mid) && DirtyAfter(was, mid, f, first, count, mark)
    requires Fetched(files, mid, now, f, first, count, mark, ok)
    ensures CachedAfter(files, was, now, f, first, count, ok) && DirtyAfter(was, now, f, first, count, mark)
    ensures Available(files, mid, f, first, count, ok) <==> Available(files, was, f, first, count, ok)
  {
    SameKeysCached(was, mid);
  }

  /** A further transfer of cached pages of the range changes neither. */
  lemma ThenAgain(files: Files, was: seq<Entry>, mid: seq<Entry>, now: seq<Entry>, f: nat, first: nat, count: nat, n: nat, mark: bool,
                  ok: nat -> bool)
    requires f in files && n <= count && CachedAfter(files, was, mid, f, first, count, ok) && DirtyAfter(was, mid, f, first, count, mark)
    requires forall p: nat :: first <= p < first + n ==> Cached(mid, f, p)
    requires CachedAfter(files, mid, now, f, first, n, ok) && DirtyAfter(mid, now, f, first, n, mark)
    ensures CachedAfter(files, was, now, f, first, count, ok) && DirtyAfter(was, now, f, first, count, mark)
  {
    forall g: nat, p: nat ensures Cached(now, g, p) <==> Cached(mid, g, p) {}
  }

  /** With every page cached only the marks change. */
  lemma OnlyMarks(files: Files, was: seq<Entry>, now: seq<Entry>, f: nat, first: nat, count: nat, ok: nat -> bool)
    requires f in files && SameKeys(was, now) && forall p: nat :: first <= p < first + count ==> Cached(was, f, p)
    ensures CachedAfter(files, was, now, f, first, count, ok) && Available(files, was, f, first, count, ok)
  {
    SameKeysCached(was, now);
  }

  /** Nothing is looked up. */
  lemma Untouched(files: Files, list: seq<Entry>, f: nat, first: nat, ok: nat -> bool)
    requires f in files
    ensures CachedAfter(files, list, list, f, first, 0, ok) && forall mark :: DirtyAfter(list, list, f, first, 0, mark)
  {
  }

  // ---- writing pages back ------------------------------------------------------------------------------------

  /** The disk refuses to write a page that needs it. */
  ghost predicate Bad(files: Files, e: Entry, ok: nat -> bool)
  {
    e.id in files && e.dirty && !ok(Block(files, e.id, e.indx))
  }

  /** An entry after an attempt to write its page. */
  ghost function Swept(files: Files, e: Entry, ok: nat -> bool): Entry
  {
    if e.id in files && e.dirty && ok(Block(files, e.id, e.indx)) then e.(dirty := false) else e
  }

  /** Blocks that the disk refuses are as they were. */
  ghost predicate RefusedSame(disk: map<nat, Page>, disk': map<nat, Page>, ok: nat -> bool)
  {
    forall b :: b in disk && !ok(b) ==> b in disk' && disk'[b] == disk[b]
  }

  /** The first `n` pages of file `f` have been tried, and nothing else. */
  ghost predicate SweptUpTo(files: Files, was: seq<Entry>, now: seq<Entry>, f: nat, n: nat, ok: nat -> bool)
  {
    |now| == |was| && forall k: nat :: k < |was| ==>
      now[k] == if was[k].id == f && was[k].indx < n then Swept(files, was[k], ok) else was[k]
  }

  /** The first `n` entries have been tried. */
  ghost predicate SweptTo(files: Files, was: seq<Entry>, now: seq<Entry>, n: nat, ok: nat -> bool)
  {
    |now| == |was| && forall k: nat :: k < |was| ==> now[k] == if k < n then Swept(files, was[k], ok) else was[k]
  }

  /** The disk refuses to write page `i` of `f`, which needs it. */
  ghost predicate RefusedPage(files: Files, list: seq<Entry>, f: nat, i: nat, ok: nat -> bool)
    requires f in files
  {
    Dirty(list, f, i) && !ok(Block(files, f, i))
  }

  ghost function Refused(files: Files, list: seq<Entry>, f: nat, n: nat, ok: nat -> bool): set<nat>
    requires f in files
  {
    set i: nat | i < n && RefusedPage(files, list, f, i, ok)
  }

  ghost function BadAt(files: Files, list: seq<Entry>, n: nat, ok: nat -> bool): set<nat>
    requires n <= |list|
  {
    set k: nat | k < n && Bad(files, list[k], ok)
  }

  lemma RefusedOne(files: Files, list: seq<Entry>, f: nat, n: nat, ok: nat -> bool)
    requires f in files
    ensures |Refused(files, list, f, n + 1, ok)|
         == |Refused(files, list, f, n, ok)| + if RefusedPage(files, list, f, n, ok) then 1 else 0
  {
    OneMore(Refused(files, list, f, n, ok), Refused(files, list, f, n + 1, ok), n, RefusedPage(files, list, f, n, ok));
  }

  lemma BadOne(files: Files, list: seq<Entry>, n: nat, ok: nat -> bool)
    requires n < |list|
    ensures |BadAt(files, list, n + 1, ok)| == |BadAt(files, list, n, ok)| + if Bad(files, list[n], ok) then 1 else 0
  {
    OneMore(BadAt(files, list, n, ok), BadAt(files, list, n + 1, ok), n, Bad(files, list[n], ok));
  }

  lemma OneMore(a: set<nat>, b: set<nat>, n: nat, more: bool)
    requires n !in a && forall i :: i in b <==> i in a || (more && i == n)
    ensures |b| == |a| + if more then 1 else 0
  {
    assert b == if more then a + {n} else a;
  }

  lemma NoneRefused(files: Files, list: seq<Entry>, f: nat, ok: nat -> bool)
    requires f in files
    ensures (forall b :: ok(b)) ==> Refused(files, list, f, Pages(files[f]), ok) == {}
  {
  }

  lemma NoneBad(files: Files, list: seq<Entry>, ok: nat -> bool)
    ensures (forall b :: ok(b)) ==> BadAt(files, list, |list|, ok) == {}
  {
  }

  lemma SweepFinds(files: Files, was: seq<Entry>, now: seq<Entry>, f: nat, i: nat, ok: nat -> bool)
    requires f in files
    requires exists n: nat :: SweptUpTo(files, was, now, f, n, ok)
    ensures SameKeys(was, now) && Find(now, f, i) == Find(was, f, i)
  {
    SameKeysFound(was, now, f, i);
  }

  /** One more entry has been tried. */
  lemma SweepNext(files: Files, was: seq<Entry>, mid: seq<Entry>, now: seq<Entry>, k: nat, ok: nat -> bool)
    requires SweptTo(files, was, mid, k, ok) && k < |was| && now == mid[k := Swept(files, mid[k], ok)]
    ensures mid[k] == was[k] && SweptTo(files, was, now, k + 1, ok)
  {
  }

  /** One more page has been tried. */
  lemma SweepOne(files: Files, was: seq<Entry>, mid: seq<Entry>, now: seq<Entry>, f: nat, i: nat, ok: nat -> bool)
    requires f in files && Distinct(was) && SweptUpTo(files, was, mid, f, i, ok)
    requires var k := Find(was, f, i);
      if k < |was| then |mid| == |was| && now == mid[k := Swept(files, mid[k], ok)] else now == mid
    ensures SweptUpTo(files, was, now, f, i + 1, ok)
  {
    var p := Find(was, f, i);
    forall k: nat | k < |was|
      ensures now[k] == if was[k].id == f && was[k].indx < i + 1 then Swept(files, was[k], ok) else was[k]
    {
      if k != p && p < |was| { assert was[k].id != f || was[k].indx != i; }
    }
  }
}
