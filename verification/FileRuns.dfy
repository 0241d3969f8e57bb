/** Whole runs of reads, writes and syncs: the cached disk behaves as plain files held in memory. */
module FileRuns {
  import opened FileSplit
  import opened PageCache
  import opened CacheEffects
  import opened FileCache

  /** One request, at a file position as `dfs_file_read` and `dfs_file_write` get it. */
  datatype Op = ReadOp(f: nat, at: nat, size: nat) | WriteOp(f: nat, at: nat, data: seq<Byte>) | SyncOp(f: nat) | SyncAllOp

  /** `done` says whether the call returned a count; `bytes` is what a read put in its buffer. */
  datatype Reply = Reply(done: bool, bytes: seq<Byte>)

  /** Plain files: their bytes. */
  type Plain = map<nat, seq<Byte>>

  /** `dfs_file_read` and `dfs_file_write` stop at the end of the file. */
  function Cut(f: Inode, at: nat, count: nat): (n: nat)
    ensures n <= count && (at <= f.size ==> at + n <= f.size)
  {
    if at >= f.size then 0 else if at + count > f.size then f.size - at else count
  }

  /** The request is one that fs/dfs.c splits right. */
  ghost predicate Sound(files: Files, op: Op)
  {
    match op
    case ReadOp(f, at, size) => f in files && (Cut(files[f], at, size) > 0 ==> ReadDomain(at, Cut(files[f], at, size)))
    case WriteOp(f, at, data) => f in files && (Cut(files[f], at, |data|) > 0 ==> WriteDomain(at, Cut(files[f], at, |data|)))
    case SyncOp(f) => f in files
    case SyncAllOp => true
  }

  /** What a request does to plain files. */
  ghost function After(files: Files, c: Plain, op: Op, reply: Reply): Plain
    requires c.Keys == files.Keys && (forall f :: f in files ==> |c[f]| == files[f].size) && Sound(files, op)
  {
    if op.WriteOp? && reply.done then
      var n := Cut(files[op.f], op.at, |op.data|);
      if n == 0 then c else c[op.f := c[op.f][..op.at] + op.data[..n] + c[op.f][op.at + n..]]
    else c
  }

  /** A read that returns a count returns the file's bytes. */
  ghost predicate ReplyOk(files: Files, c: Plain, op: Op, reply: Reply)
    requires c.Keys == files.Keys && (forall f :: f in files ==> |c[f]| == files[f].size) && Sound(files, op)
  {
    op.ReadOp? && reply.done ==>
      var n := Cut(files[op.f], op.at, op.size);
      n > 0 && reply.bytes == c[op.f][op.at..op.at + n]
  }

  /** The disk takes every transfer. */
  ghost predicate Willing(ok: nat -> bool) { forall b :: ok(b) }

  /** The request has something to do: then, with such a disk, it is done. */
  predicate Asks(files: Files, op: Op)
    requires Sound(files, op)
  {
    match op
    case ReadOp(f, at, size) => Cut(files[f], at, size) > 0
    case WriteOp(f, at, data) => Cut(files[f], at, |data|) > 0
    case SyncOp(f) => true
    case SyncAllOp => true
  }

  ghost predicate Agrees(files: Files, c: Plain)
  {
    c.Keys == files.Keys && forall f :: f in files ==> |c[f]| == files[f].size
  }

  ghost function Replay(files: Files, c: Plain, ops: seq<Op>, replies: seq<Reply>): (r: Plain)
    requires Agrees(files, c) && |ops| == |replies| && forall k: nat :: k < |ops| ==> Sound(files, ops[k])
    ensures Agrees(files, r)
  {
    var n := |ops|;
    if n == 0 then c else After(files, Replay(files, c, ops[..n - 1], replies[..n - 1]), ops[n - 1], replies[n - 1])
  }

  ghost function Contents(files: Files, s: State): (c: Plain)
    requires Coherent(files, s)
    ensures Agrees(files, c)
  {
    map f | f in files :: Content(files, s, f)
  }

  lemma SameContents(files: Files, s: State, r: State)
    requires Coherent(files, s) && Coherent(files, r) && SameView(files, s, r)
    ensures Contents(files, r) == Contents(files, s)
  {
    forall f | f in files ensures Content(files, r, f) == Content(files, s, f) { SameViewSameContent(files, s, r, f); }
  }

  /** Every reply so far is right for the files as the requests before it left them. */
  ghost predicate Answered(files: Files, c: Plain, ops: seq<Op>, replies: seq<Reply>)
    requires Agrees(files, c) && |replies| <= |ops| && forall k: nat :: k < |ops| ==> Sound(files, ops[k])
  {
    forall k: nat :: k < |replies| ==> ReplyOk(files, Replay(files, c, ops[..k], replies[..k]), ops[k], replies[k])
  }

  lemma AnsweredMore(files: Files, c: Plain, ops: seq<Op>, replies: seq<Reply>, reply: Reply)
    requires Agrees(files, c) && |replies| < |ops| && forall k: nat :: k < |ops| ==> Sound(files, ops[k])
    requires Answered(files, c, ops, replies)
    requires ReplyOk(files, Replay(files, c, ops[..|replies|], replies), ops[|replies|], reply)
    ensures Answered(files, c, ops, replies + [reply])
  {
    var n, more := |replies|, replies + [reply];
    forall k: nat | k < n + 1 ensures ReplyOk(files, Replay(files, c, ops[..k], more[..k]), ops[k], more[k]) {
      if k < n {
        assert more[..k] == replies[..k] && more[k] == replies[k];
        assert ReplyOk(files, Replay(files, c, ops[..k], replies[..k]), ops[k], replies[k]);
      } else {
        assert more[..k] == replies && more[k] == reply;
      }
    }
  }

  lemma ReplayMore(files: Files, c: Plain, ops: seq<Op>, replies: seq<Reply>, op: Op, reply: Reply)
    requires Agrees(files, c) && |replies| == |ops| && Sound(files, op) && forall k: nat :: k < |ops| ==> Sound(files, ops[k])
    ensures Replay(files, c, ops + [op], replies + [reply]) == After(files, Replay(files, c, ops, replies), op, reply)
  {
    assert (ops + [op])[..|ops|] == ops && (replies + [reply])[..|ops|] == replies;
  }

  /** Every request so far that was made while the disk took every transfer is done, unless it asked for nothing. */
  ghost predicate AllDone(files: Files, ops: seq<Op>, oks: seq<nat -> bool>, replies: seq<Reply>)
    requires |replies| <= |ops| == |oks| && forall k: nat :: k < |ops| ==> Sound(files, ops[k])
  {
    forall k: nat :: k < |replies| && Willing(oks[k]) ==> (replies[k].done <==> Asks(files, ops[k]))
  }

  lemma DoneMore(files: Files, ops: seq<Op>, oks: seq<nat -> bool>, replies: seq<Reply>, reply: Reply)
    requires |replies| < |ops| == |oks| && forall k: nat :: k < |ops| ==> Sound(files, ops[k])
    requires AllDone(files, ops, oks, replies)
    requires Willing(oks[|replies|]) ==> (reply.done <==> Asks(files, ops[|replies|]))
    ensures AllDone(files, ops, oks, replies + [reply])
  {
  }

  /** `dfs_file_read` at a position. */
  method ServeRead(v: Volume, f: nat, at: nat, size: nat, ok: nat -> bool) returns (reply: Reply)
    requires v.Valid() && Sound(v.files, ReadOp(f, at, size))
    modifies v
    ensures v.Valid() && Contents(v.files, v.Now()) == old(Contents(v.files, v.Now()))
    ensures ReplyOk(v.files, old(Contents(v.files, v.Now())), ReadOp(f, at, size), reply)
    ensures var n := Cut(v.files[f], at, size);
      reply.done <==> n > 0 && Available(v.files, old(v.list), f, at / PAGE, PageCount(at, n), ok)
  {
    ghost var was := v.Now();
    var n := Cut(v.files[f], at, size);
    if n > 0 { RangeInFile(v.files[f], at, n); }
    var out, r := v.Read(f, seq(n, _ => 0), at, ok);
    reply := Reply(r != Count(0), out);
    SameContents(v.files, was, v.Now());
    assert out[..n] == out;
  }

  /** `dfs_file_write` at a position. */
  method ServeWrite(v: Volume, f: nat, at: nat, data: seq<Byte>, ok: nat -> bool) returns (reply: Reply)
    requires v.Valid() && Sound(v.files, WriteOp(f, at, data))
    modifies v
    ensures v.Valid()
    ensures Contents(v.files, v.Now()) == After(v.files, old(Contents(v.files, v.Now())), WriteOp(f, at, data), reply)
    ensures var n := Cut(v.files[f], at, |data|);
      reply.done <==> n > 0 && Available(v.files, old(v.list), f, at / PAGE, PageCount(at, n), ok)
  {
    ghost var was := v.Now();
    var n := Cut(v.files[f], at, |data|);
    if n > 0 { RangeInFile(v.files[f], at, n); }
    var r := v.Write(f, data[..n], at, ok);
    reply := Reply(r != Count(0), []);
    if r == Count(0) {
      SameContents(v.files, was, v.Now());
    } else {
      assert data[..n][..n] == data[..n];
      RangeContents(v.files, was, v.Now(), f, data[..n], at);
    }
  }

  lemma RangeContents(files: Files, s: State, r: State, f: nat, data: seq<Byte>, at: nat)
    requires Coherent(files, s) && Coherent(files, r) && f in files && at + |data| <= files[f].size
    requires WroteRange(files, s, r, f, data, at)
    ensures var c := Contents(files, s); Contents(files, r) == c[f := c[f][..at] + data + c[f][at + |data|..]]
  {
  }

  /** Carries out one request. `ok` is the state of the disk while it runs. */
  method Serve(v: Volume, op: Op, ok: nat -> bool) returns (reply: Reply)
    requires v.Valid() && Sound(v.files, op)
    modifies v
    ensures v.Valid()
    ensures Contents(v.files, v.Now()) == After(v.files, old(Contents(v.files, v.Now())), op, reply)
    ensures ReplyOk(v.files, old(Contents(v.files, v.Now())), op, reply)
    ensures Willing(ok) ==> (reply.done <==> Asks(v.files, op))
  {
    ghost var was := v.Now();
    match op {
      case ReadOp(f, at, size) => reply := ServeRead(v, f, at, size, ok);
      case WriteOp(f, at, data) => reply := ServeWrite(v, f, at, data, ok);
      case SyncOp(f) =>
        var failed := v.Sync(f, ok);
        reply := Reply(failed == 0, []);
        SameContents(v.files, was, v.Now());
      case SyncAllOp =>
        var failed := v.SyncAll(ok);
        reply := Reply(failed == 0, []);
        SameContents(v.files, was, v.Now());
    }
  }

  /** Any run of requests, with disk failures at any point: every read that returns a count returns exactly what the
      writes before it left, the files end as the writes say, and while the disk takes every transfer each request is done. */
  method Run(v: Volume, ops: seq<Op>, oks: seq<nat -> bool>) returns (replies: seq<Reply>)
    requires v.Valid() && |oks| == |ops| && forall k: nat :: k < |ops| ==> Sound(v.files, ops[k])
    modifies v
    ensures v.Valid() && |replies| == |ops|
    ensures Contents(v.files, v.Now()) == Replay(v.files, old(Contents(v.files, v.Now())), ops, replies)
    ensures Answered(v.files, old(Contents(v.files, v.Now())), ops, replies)
    ensures AllDone(v.files, ops, oks, replies)
  {
    replies := [];
    ghost var c := Contents(v.files, v.Now());
    for i := 0 to |ops|
      invariant v.Valid() && |replies| == i
      invariant Contents(v.files, v.Now()) == Replay(v.files, c, ops[..i], replies)
      invariant Answered(v.files, c, ops, replies)
      invariant AllDone(v.files, ops, oks, replies)
    {
      var reply := Serve(v, ops[i], oks[i]);
      AnsweredMore(v.files, c, ops, replies, reply);
      DoneMore(v.files, ops, oks, replies, reply);
      ReplayMore(v.files, c, ops[..i], replies, ops[i], reply);
      assert ops[..i] + [ops[i]] == ops[..i + 1];
      replies := replies + [reply];
    }
    assert ops[..|ops|] == ops;
  }
}
