/** Doubly linked lists threaded through memory: a head pointer and a `prev`/`next` pair per node. */
module Links {
  import opened Seqs

  datatype Link = Link(prev: Option<nat>, next: Option<nat>)

  function At(s: seq<nat>, i: int): Option<nat>
  {
    if 0 <= i < |s| then Some(s[i]) else None
  }

  /** Following `next` from `head` visits exactly `s`, and every `prev` points back. */
  ghost predicate IsList(head: Option<nat>, links: map<nat, Link>, s: seq<nat>)
  {
    && head == At(s, 0)
    && forall i :: 0 <= i < |s| ==> s[i] in links && links[s[i]] == Link(At(s, i - 1), At(s, i + 1))
  }

  lemma ListFrame(head: Option<nat>, links: map<nat, Link>, links': map<nat, Link>, s: seq<nat>)
    requires IsList(head, links, s)
    requires forall x :: x in s ==> x in links' && x in links && links'[x] == links[x]
    ensures IsList(head, links', s)
  {
    forall i | 0 <= i < |s| ensures s[i] in links' && links'[s[i]] == Link(At(s, i - 1), At(s, i + 1)) {
      assert s[i] in s;
    }
  }

  /** The pointer writes that put node `x` in front of `head`. */
  function PushLinks(links: map<nat, Link>, head: Option<nat>, x: nat): map<nat, Link>
    requires head.Some? ==> head.value in links
  {
    var own := links[x := Link(None, head)];
    if head.Some? then own[head.value := own[head.value].(prev := Some(x))] else own
  }

  lemma PushFront(head: Option<nat>, links: map<nat, Link>, s: seq<nat>, x: nat)
    requires IsList(head, links, s) && NoDup(s) && x !in s
    ensures head.Some? ==> head.value in links && head.value in s
    ensures IsList(Some(x), PushLinks(links, head, x), [x] + s)
    ensures NoDup([x] + s)
  {
    var t := [x] + s;
    var links' := PushLinks(links, head, x);
    forall i | 0 <= i < |t| ensures t[i] in links' && links'[t[i]] == Link(At(t, i - 1), At(t, i + 1)) {
      if i > 1 { assert s[i - 1] != s[0]; }
    }
  }

  /** The pointer writes that unhook node `x` from its neighbours. */
  function CutLinks(links: map<nat, Link>, x: nat): map<nat, Link>
    requires x in links
    requires links[x].prev.Some? ==> links[x].prev.value in links
    requires links[x].next.Some? ==> links[x].next.value in links
  {
    var l := links[x];
    var fwd := if l.prev.Some? then links[l.prev.value := links[l.prev.value].(next := l.next)] else links;
    if l.next.Some? then fwd[l.next.value := fwd[l.next.value].(prev := l.prev)] else fwd
  }

  function CutHead(links: map<nat, Link>, head: Option<nat>, x: nat): Option<nat>
    requires x in links
  {
    if links[x].prev.Some? then head else links[x].next
  }

  lemma Neighbours(head: Option<nat>, links: map<nat, Link>, s: seq<nat>, i: nat)
    requires IsList(head, links, s) && NoDup(s) && i < |s|
    ensures s[i] in links
    ensures var l := links[s[i]];
      && l == Link(At(s, i - 1), At(s, i + 1))
      && (l.prev.Some? ==> l.prev.value in s && l.prev.value in links && l.prev.value != s[i])
      && (l.next.Some? ==> l.next.value in s && l.next.value in links && l.next.value != s[i])
      && (l.prev.Some? ==> l.prev != l.next)
  {
  }

  /** What unhooking node `i` does to node `k`: only its two neighbours change. */
  lemma CutNode(head: Option<nat>, links: map<nat, Link>, s: seq<nat>, i: nat, k: nat)
    requires IsList(head, links, s) && NoDup(s) && i < |s| && k < |s| && k != i
    ensures s[i] in links && s[k] in links
    ensures links[s[i]].prev.Some? ==> links[s[i]].prev.value in links
    ensures links[s[i]].next.Some? ==> links[s[i]].next.value in links
    ensures s[k] in CutLinks(links, s[i])
    ensures CutLinks(links, s[i])[s[k]]
         == Link(At(s, if k == i + 1 then i - 1 else k - 1), At(s, if k + 1 == i then i + 1 else k + 1))
  {
    Neighbours(head, links, s, i);
    if i > 0 && k != i - 1 { assert s[k] != s[i - 1]; }
    if i + 1 < |s| && k != i + 1 { assert s[k] != s[i + 1]; }
  }

  lemma Unlink(head: Option<nat>, links: map<nat, Link>, s: seq<nat>, x: nat)
    requires IsList(head, links, s) && NoDup(s) && x in s
    ensures x in links
    ensures var l := links[x];
      && (l.prev.Some? ==> l.prev.value in s && l.prev.value in links && l.prev.value != x)
      && (l.next.Some? ==> l.next.value in s && l.next.value in links && l.next.value != x)
      && (l.prev.Some? ==> l.prev != l.next)
      && IsList(CutHead(links, head, x), CutLinks(links, x), Without(s, x))
  {
    var i :| 0 <= i < |s| && s[i] == x;
    Neighbours(head, links, s, i);
    WithoutAt(s, i);
    var t := s[..i] + s[i + 1..];
    forall j: nat | j < |t|
      ensures t[j] in CutLinks(links, x) && CutLinks(links, x)[t[j]] == Link(At(t, j - 1), At(t, j + 1))
    {
      CutNode(head, links, s, i, if j < i then j else j + 1);
      AtCut(s, i, j);
    }
  }

  /** Neighbours in a list without its i-th member. */
  lemma AtCut(s: seq<nat>, i: nat, j: nat)
    requires i < |s| && j < |s| - 1
    ensures var t, k := s[..i] + s[i + 1..], if j < i then j else j + 1;
      && t[j] == s[k]
      && At(t, j - 1) == At(s, if k == i + 1 then i - 1 else k - 1)
      && At(t, j + 1) == At(s, if k + 1 == i then i + 1 else k + 1)
  {
  }

  // ---- several lists over one memory ------------------------------------------------------------

  /** `heads[k]` is the head of list `lists[k]`, for every `k`. */
  ghost predicate Represents(heads: seq<Option<nat>>, links: map<nat, Link>, lists: seq<seq<nat>>)
  {
    && |heads| == |lists|
    && forall k: nat :: k < |lists| ==> IsList(heads[k], links, lists[k]) && NoDup(lists[k])
  }

  /** No node is on two lists. */
  ghost predicate Apart(lists: seq<seq<nat>>)
  {
    forall j: nat, k: nat, x: nat :: j < |lists| && k < |lists| && x in lists[j] && x in lists[k] ==> j == k
  }

  ghost predicate Unlisted(lists: seq<seq<nat>>, x: nat)
  {
    forall k: nat :: k < |lists| ==> x !in lists[k]
  }

  /** Writes confined to list `k` and to one unlisted node leave the other lists alone. */
  lemma UpdateOneList(heads: seq<Option<nat>>, links: map<nat, Link>, links': map<nat, Link>, lists: seq<seq<nat>>,
                      k: nat, head: Option<nat>, s: seq<nat>, x: nat)
    requires Represents(heads, links, lists) && Apart(lists) && k < |lists|
    requires IsList(head, links', s) && NoDup(s)
    requires forall y :: y in links && y !in lists[k] && y != x ==> y in links' && links'[y] == links[y]
    requires forall j: nat :: j < |lists| && j != k ==> x !in lists[j]
    ensures Represents(heads[k := head], links', lists[k := s])
  {
    forall j: nat | j < |lists| && j != k ensures IsList(heads[j], links', lists[j]) {
      forall y | y in lists[j] ensures y in links && y in links' && links'[y] == links[y] {
        var i :| 0 <= i < |lists[j]| && lists[j][i] == y;
      }
      ListFrame(heads[j], links, links', lists[j]);
    }
  }

  /** Pushing an unlisted node in front of list `k`. */
  lemma AddToList(heads: seq<Option<nat>>, links: map<nat, Link>, lists: seq<seq<nat>>, x: nat, k: nat)
    requires Represents(heads, links, lists) && Apart(lists) && k < |lists| && Unlisted(lists, x)
    ensures heads[k].Some? ==> heads[k].value in links
    ensures Represents(heads[k := Some(x)], PushLinks(links, heads[k], x), lists[k := [x] + lists[k]])
    ensures Apart(lists[k := [x] + lists[k]])
  {
    PushFront(heads[k], links, lists[k], x);
    UpdateOneList(heads, links, PushLinks(links, heads[k], x), lists, k, Some(x), [x] + lists[k], x);
    AddApart(lists, x, k);
  }

  lemma AddApart(lists: seq<seq<nat>>, x: nat, k: nat)
    requires Apart(lists) && k < |lists| && Unlisted(lists, x)
    ensures Apart(lists[k := [x] + lists[k]])
  {
    var lists' := lists[k := [x] + lists[k]];
    assert forall j: nat, y: nat :: j < |lists| && y != x && y in lists'[j] ==> y in lists[j];
  }

  /** Unhooking node `x` from list `k`. */
  lemma RemoveFromList(heads: seq<Option<nat>>, links: map<nat, Link>, lists: seq<seq<nat>>, x: nat, k: nat)
    requires Represents(heads, links, lists) && Apart(lists) && k < |lists| && x in lists[k]
    ensures x in links
    ensures var l := links[x];
      && (l.prev.Some? ==> l.prev.value in links && l.prev.value != x)
      && (l.next.Some? ==> l.next.value in links && l.next.value != x)
      && (l.prev.Some? ==> l.prev != l.next)
      && Represents(heads[k := CutHead(links, heads[k], x)], CutLinks(links, x), lists[k := Without(lists[k], x)])
    ensures Apart(lists[k := Without(lists[k], x)]) && Unlisted(lists[k := Without(lists[k], x)], x)
  {
    Unlink(heads[k], links, lists[k], x);
    CutWrites(links, x, lists[k]);
    RemoveApart(lists, x, k);
    UpdateOneList(heads, links, CutLinks(links, x), lists, k, CutHead(links, heads[k], x), Without(lists[k], x), x);
  }

  lemma RemoveApart(lists: seq<seq<nat>>, x: nat, k: nat)
    requires Apart(lists) && k < |lists| && x in lists[k] && NoDup(lists[k])
    ensures NoDup(Without(lists[k], x))
    ensures Apart(lists[k := Without(lists[k], x)]) && Unlisted(lists[k := Without(lists[k], x)], x)
  {
    WithoutMembers(lists[k], x);
    var lists' := lists[k := Without(lists[k], x)];
    assert forall j: nat, y: nat :: j < |lists| && y in lists'[j] ==> y in lists[j];
  }

  lemma CutWrites(links: map<nat, Link>, x: nat, s: seq<nat>)
    requires x in links
    requires links[x].prev.Some? ==> links[x].prev.value in links && links[x].prev.value in s
    requires links[x].next.Some? ==> links[x].next.value in links && links[x].next.value in s
    ensures forall y :: y in links && y !in s ==> y in CutLinks(links, x) && CutLinks(links, x)[y] == links[y]
  {
  }
}
