/** The kernel log ring as code: `kring_write` and `kring_flush_to_screen` of drivers/video/kring.c, each run without
    interruption. KringProtocol covers the interleaved runs. */
module KringBuffer {
  import opened KringProtocol

  /** The oldest position a slot still stands for, once `n` characters have been written and `tail` flushed. */
  function Oldest(tail: nat, n: nat): (lo: nat)
    requires tail <= n
    ensures tail <= lo <= n && n - lo <= SIZE
  {
    if n - tail > SIZE then n - SIZE else tail
  }

  /** Position `j` of the stream sits in its slot, ready. */
  ghost predicate Kept(cells: seq<Cell>, stream: string, j: nat)
    requires |cells| == SIZE && j < |stream|
  {
    cells[j % SIZE] == Cell(stream[j], true)
  }

  ghost predicate Blank(cells: seq<Cell>, j: nat)
    requires |cells| == SIZE
  {
    !cells[j % SIZE].ready
  }

  /** The slots hold exactly the newest unflushed characters of the first `n`, at most SIZE of them. */
  ghost predicate Window(cells: seq<Cell>, tail: nat, n: nat, stream: string)
  {
    && |cells| == SIZE && tail <= n <= |stream|
    && (forall j: nat :: Oldest(tail, n) <= j < n ==> Kept(cells, stream, j))
    && (forall j: nat :: n <= j < Oldest(tail, n) + SIZE ==> Blank(cells, j))
  }

  /** Writing the next character keeps the window; past SIZE unflushed characters it replaces the oldest. */
  lemma PutKeeps(cells: seq<Cell>, tail: nat, n: nat, stream: string)
    requires Window(cells, tail, n, stream) && n < |stream|
    ensures Window(cells[n % SIZE := Cell(stream[n], true)], tail, n + 1, stream)
  {
    var r := cells[n % SIZE := Cell(stream[n], true)];
    forall j: nat | Oldest(tail, n + 1) <= j < n + 1 ensures Kept(r, stream, j) {
      if j < n { assert Kept(cells, stream, j); SlotsDiffer(j, n); }
    }
    forall j: nat | n + 1 <= j < Oldest(tail, n + 1) + SIZE ensures Blank(r, j) {
      assert Blank(cells, j);
      SlotsDiffer(n, j);
    }
  }

  /** Clearing the oldest slot and moving past it keeps the window. */
  lemma TakeKeeps(cells: seq<Cell>, tail: nat, n: nat, stream: string)
    requires Window(cells, tail, n, stream) && tail < n <= tail + SIZE
    ensures Window(cells[tail % SIZE := cells[tail % SIZE].(ready := false)], tail + 1, n, stream)
  {
    var r := cells[tail % SIZE := cells[tail % SIZE].(ready := false)];
    forall j: nat | tail + 1 <= j < n ensures Kept(r, stream, j) {
      assert Kept(cells, stream, j);
      SlotsDiffer(tail, j);
    }
    forall j: nat | n <= j < tail + 1 + SIZE ensures Blank(r, j) {
      if j < tail + SIZE { assert Blank(cells, j); } else { assert j % SIZE == tail % SIZE; }
    }
  }

  lemma GrownStream(cells: seq<Cell>, tail: nat, n: nat, stream: string, longer: string)
    requires Window(cells, tail, n, stream) && stream <= longer
    ensures Window(cells, tail, n, longer)
  {
    forall j: nat | Oldest(tail, n) <= j < n ensures Kept(cells, longer, j) { assert Kept(cells, stream, j); }
  }

  /** Moving the tail up to the newest SIZE characters keeps the window. */
  lemma SkipKeeps(cells: seq<Cell>, tail: nat, n: nat, stream: string)
    requires Window(cells, tail, n, stream) && n - tail > SIZE
    ensures Window(cells, n - SIZE, n, stream)
  {
  }

  lemma AllBlank(cells: seq<Cell>, tail: nat, n: nat, stream: string, p: nat)
    requires Window(cells, tail, n, stream) && tail == n && p < SIZE
    ensures !cells[p].ready
  {
    var j := n + (p + SIZE - n % SIZE) % SIZE;
    assert j % SIZE == p;
    assert Blank(cells, j);
  }

  lemma NoneReady(cells: seq<Cell>, tail: nat, n: nat, stream: string)
    requires Window(cells, tail, n, stream) && tail == n
    ensures forall p: nat :: p < SIZE ==> !cells[p].ready
  {
    forall p: nat | p < SIZE ensures !cells[p].ready { AllBlank(cells, tail, n, stream, p); }
  }

  /** What one flush prints: every unflushed character, or a mark and the newest SIZE when more were written. */
  function Flushed(stream: string, tail: nat): string
    requires tail <= |stream|
  {
    if |stream| - tail > SIZE then "[drop]" + stream[|stream| - SIZE..] else stream[tail..]
  }

  class LogRing {
    const cells: array<Cell>
    var head: nat
    var tail: nat
    /** What `kputchar_direct` has put on the screen. */
    var screen: string
    /** Everything accepted so far. */
    ghost var stream: string

    ghost predicate Valid()
      reads this, cells
    {
      cells.Length == SIZE && |stream| == head && Window(cells[..], tail, head, stream)
    }

    constructor ()
      ensures Valid() && fresh(cells) && stream == "" && screen == ""
    {
      cells := new Cell[SIZE](_ => Cell('\0', false));
      head, tail, screen, stream := 0, 0, "", "";
    }

    /** One turn of the writing loop, for stream position `n`. */
    method Put(n: nat, c: char)
      requires cells.Length == SIZE && Window(cells[..], tail, n, stream) && n < |stream| && c == stream[n]
      modifies cells
      ensures Window(cells[..], tail, n + 1, stream)
    {
      ghost var before := cells[..];
      PutKeeps(before, tail, n, stream);
      cells[n % SIZE] := Cell(c, true);
      assert cells[..] == before[n % SIZE := Cell(c, true)];
    }

    /** Accepts the text, cut to SIZE characters. */
    method Write(s: string)
      requires Valid()
      modifies this`head, this`stream, cells
      ensures Valid() && stream == old(stream) + s[..if |s| > SIZE then SIZE else |s|]
    {
      if |s| == 0 {
        assert stream + s[..0] == stream;
        return;
      }
      var len := if |s| > SIZE then SIZE else |s|;
      var start := head;
      head := head + len;
      stream := stream + s[..len];
      GrownStream(cells[..], tail, start, old(stream), stream);
      for i := 0 to len
        invariant Window(cells[..], tail, start + i, stream)
        modifies cells
      {
        assert stream[start + i] == s[..len][i];
        Put(start + i, s[i]);
      }
    }

    /** Prints the oldest unflushed character if its slot is ready, which it always is here. */
    method Take() returns (printed: bool)
      requires Valid() && tail < head <= tail + SIZE
      modifies this`tail, this`screen, cells
      ensures printed && Valid() && tail == old(tail) + 1 && screen == old(screen) + [stream[old(tail)]]
    {
      var pos := tail % SIZE;
      ghost var before := cells[..];
      assert Kept(before, stream, tail);
      printed := cells[pos].ready;
      if printed {
        screen := screen + [cells[pos].c];
        TakeKeeps(before, tail, head, stream);
        cells[pos] := cells[pos].(ready := false);
        assert cells[..] == before[pos := before[pos].(ready := false)];
        tail := tail + 1;
      }
    }

    /** The overrun test: gives up all but the newest SIZE characters, leaving a mark. */
    method Skip()
      requires Valid()
      modifies this`tail, this`screen
      ensures Valid() && tail == Oldest(old(tail), head)
      ensures screen == old(screen) + if head - old(tail) > SIZE then "[drop]" else ""
    {
      if head - tail > SIZE {
        SkipKeeps(cells[..], tail, head, stream);
        tail := head - SIZE;
        screen := screen + "[drop]";
      }
    }

    /** The loop of a flush, after its first overrun test. */
    method Drain()
      requires Valid() && head - tail <= SIZE
      modifies this`tail, this`screen, cells
      ensures Valid() && tail == head && screen == old(screen) + stream[old(tail)..]
    {
      ghost var lo, begun := tail, screen;
      var more := tail != head;
      assert begun + stream[lo..tail] == begun;
      while more
        invariant Valid() && lo <= tail && head - tail <= SIZE && screen == begun + stream[lo..tail]
        invariant more <==> tail != head
        decreases head - tail
      {
        assert begun + stream[lo..tail] + [stream[tail]] == begun + stream[lo..tail + 1];
        more := Take();
        Skip();
        more := more && tail != head;
      }
    }

    /** Prints what `Flushed` says, and leaves no unflushed character and no ready slot. */
    method Flush()
      requires Valid()
      modifies this`tail, this`screen, cells
      ensures Valid() && tail == head && screen == old(screen) + Flushed(stream, old(tail))
      ensures forall p: nat :: p < SIZE ==> !cells[p].ready
    {
      Skip();
      Drain();
      NoneReady(cells[..], tail, head, stream);
    }
  }
}
