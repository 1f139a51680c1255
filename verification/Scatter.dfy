/** Filling the adjacency tables from a sorted edge list with parallel workers.
    The table is carved into disjoint windows; workers are modelled as running
    one after another in an arbitrary order, each seeing only its own window. */
module Scatter {
  import opened Graph

  type Row = seq<(int, bv8)>

  /** The position of a window in the table, and the rows its worker reads. */
  datatype Window = Window(base: int, len: int, rowStart: int, rowEnd: int)

  // --------------------------------------------------- facts about projections

  lemma {:induction false} OutgoingConcat(a: seq<Edge>, b: seq<Edge>, i: int)
    ensures Outgoing(a + b, i) == Outgoing(a, i) + Outgoing(b, i)
  {
    if b == [] {
      assert a + b == a;
    } else {
      assert (a + b)[..|a + b| - 1] == a + b[..|b| - 1];
      OutgoingConcat(a, b[..|b| - 1], i);
    }
  }

  lemma {:induction false} IncomingConcat(a: seq<Edge>, b: seq<Edge>, i: int)
    ensures Incoming(a + b, i) == Incoming(a, i) + Incoming(b, i)
  {
    if b == [] {
      assert a + b == a;
    } else {
      assert (a + b)[..|a + b| - 1] == a + b[..|b| - 1];
      IncomingConcat(a, b[..|b| - 1], i);
    }
  }

  /** No edge of `rows[lo..hi]` leaves `i`. */
  ghost predicate Absent(rows: seq<Edge>, lo: int, hi: int, i: int)
    requires 0 <= lo <= hi <= |rows|
  {
    forall k :: lo <= k < hi ==> rows[k].0 != i
  }

  lemma {:induction false} AbsentHasNoOutgoing(rows: seq<Edge>, lo: int, hi: int, i: int)
    requires 0 <= lo <= hi <= |rows| && Absent(rows, lo, hi, i)
    ensures Outgoing(rows[lo..hi], i) == []
    decreases hi
  {
    if lo < hi {
      assert rows[lo..hi][..hi - lo - 1] == rows[lo..hi - 1];
      AbsentHasNoOutgoing(rows, lo, hi - 1, i);
    }
  }

  /** The entries of `rows[lo..hi]`. */
  function Entries(rows: seq<Edge>, lo: int, hi: int): (r: Row)
    requires 0 <= lo <= hi <= |rows|
    ensures |r| == hi - lo
  {
    seq(hi - lo, k requires 0 <= k < hi - lo => (rows[lo + k].1, rows[lo + k].2))
  }

  lemma {:induction false} RunIsOutgoing(rows: seq<Edge>, lo: int, hi: int, i: int)
    requires 0 <= lo <= hi <= |rows| && forall k :: lo <= k < hi ==> rows[k].0 == i
    ensures Outgoing(rows[lo..hi], i) == Entries(rows, lo, hi)
    decreases hi
  {
    if lo < hi {
      assert rows[lo..hi][..hi - lo - 1] == rows[lo..hi - 1];
      RunIsOutgoing(rows, lo, hi - 1, i);
      assert Entries(rows, lo, hi) == Entries(rows, lo, hi - 1) + [(rows[hi - 1].1, rows[hi - 1].2)];
    }
  }

  /** Rows are grouped by source, in increasing order. */
  ghost predicate SortedBySource(rows: seq<Edge>) {
    forall i, j :: 0 <= i < j < |rows| ==> rows[i].0 <= rows[j].0
  }

  /** All of `i`'s edges are among `rows[lo..hi]`. */
  lemma OutgoingIsLocal(rows: seq<Edge>, lo: int, hi: int, i: int)
    requires 0 <= lo <= hi <= |rows| && Absent(rows, 0, lo, i) && Absent(rows, hi, |rows|, i)
    ensures Outgoing(rows, i) == Outgoing(rows[lo..hi], i)
  {
    assert rows == rows[0..lo] + rows[lo..hi] + rows[hi..|rows|];
    OutgoingConcat(rows[0..lo] + rows[lo..hi], rows[hi..|rows|], i);
    OutgoingConcat(rows[0..lo], rows[lo..hi], i);
    AbsentHasNoOutgoing(rows, 0, lo, i);
    AbsentHasNoOutgoing(rows, hi, |rows|, i);
  }

  // ---------------------------------------------------------- forward scatter

  /** A slot once its run has been written; a slot without a run keeps what it had. */
  ghost function Written(slot: Row, run: Row): Row {
    if run == [] then slot else run
  }

  /** Chunk `k` of the rows starts and ends at a change of source. */
  ghost predicate CutAtRuns(rows: seq<Edge>, chunks: seq<(int, int)>, end: int) {
    && 0 <= end <= |rows|
    && (chunks == [] ==> end == 0)
    && (chunks != [] ==> chunks[0].0 == 0 && chunks[|chunks| - 1].1 == end)
    && (forall k :: 0 <= k < |chunks| ==> 0 <= chunks[k].0 < chunks[k].1 <= end)
    && (forall k :: 0 < k < |chunks| ==> chunks[k - 1].1 == chunks[k].0)
    && (forall k :: 0 <= k < |chunks| && chunks[k].1 < |rows| ==> rows[chunks[k].1 - 1].0 < rows[chunks[k].1].0)
  }

  /** Rows per chunk when aiming at eight chunks a worker, rounded up. */
  function ChunkSize(rows: int, workers: nat): (size: int)
    ensures rows > 0 ==> size > 0
  {
    var chunks := if workers * 8 > 1 then workers * 8 else 1;
    if rows <= 0 then 0 else 1 + (rows - 1) / chunks
  }

  lemma CutOne(rows: seq<Edge>, chunks: seq<(int, int)>, start: int, end: int)
    requires CutAtRuns(rows, chunks, start) && start < end <= |rows|
    requires end < |rows| ==> rows[end - 1].0 < rows[end].0
    ensures CutAtRuns(rows, chunks + [(start, end)], end)
  {
  }

  /** Cuts the rows into chunks, extending each until the source changes. */
  method CutChunks(rows: seq<Edge>, workers: nat) returns (chunks: seq<(int, int)>)
    requires rows != [] && SortedBySource(rows)
    ensures CutAtRuns(rows, chunks, |rows|)
  {
    var approx := ChunkSize(|rows|, workers);
    hide ChunkSize, SortedBySource;
    chunks := [];
    var start := 0;
    assert CutAtRuns(rows, chunks, 0);
    hide CutAtRuns;
    while start < |rows|
      invariant 0 <= start <= |rows| && CutAtRuns(rows, chunks, start)
    {
      var end := if start + approx < |rows| then start + approx else |rows|;
      var key := rows[end - 1].0;
      while end < |rows| && rows[end].0 == key
        invariant start < end <= |rows| && rows[end - 1].0 == key
      {
        end := end + 1;
      }
      SourceIncreases(rows, end);
      CutOne(rows, chunks, start, end);
      chunks := chunks + [(start, end)];
      start := end;
    }
  }

  lemma SourceIncreases(rows: seq<Edge>, i: int)
    requires SortedBySource(rows) && 0 < i <= |rows|
    ensures i < |rows| && rows[i - 1].0 != rows[i].0 ==> rows[i - 1].0 < rows[i].0
  {
  }

  /** `windows` carve the table from slot 0 on, one after the other; `owner`
      says which window a slot lies in. */
  ghost predicate Carved(windows: seq<Window>, owner: seq<int>) {
    && (forall i :: 0 <= i < |owner| ==> 0 <= owner[i] < |windows|)
    && (forall k :: 0 <= k < |windows| ==> 0 <= windows[k].base <= windows[k].base + windows[k].len <= |owner|)
    && (forall k, i :: 0 <= k < |windows| && 0 <= i < |owner| ==>
          (owner[i] == k <==> windows[k].base <= i < windows[k].base + windows[k].len))
  }

  lemma NothingCarved()
    ensures Carved([], [])
  {
  }

  /** The next window starts where the last one ended. */
  lemma CarveOne(windows: seq<Window>, owner: seq<int>, w: Window)
    requires Carved(windows, owner) && w.base == |owner| && w.len >= 0
    ensures Carved(windows + [w], owner + seq(w.len, _ => |windows|))
  {
  }

  /** A window's worker finds all edges of the window's slots among its rows. */
  ghost predicate Complete(rows: seq<Edge>, w: Window) {
    && 0 <= w.base && 0 <= w.len && 0 <= w.rowStart <= w.rowEnd <= |rows|
    && (forall k :: w.rowStart <= k < w.rowEnd ==> w.base <= rows[k].0 < w.base + w.len)
    && (forall i :: w.base <= i < w.base + w.len ==> Absent(rows, 0, w.rowStart, i) && Absent(rows, w.rowEnd, |rows|, i))
  }

  method CarveWindows(rows: seq<Edge>, chunks: seq<(int, int)>, n: nat) returns (windows: seq<Window>, ghost owner: seq<int>)
    requires rows != [] && SortedBySource(rows) && CutAtRuns(rows, chunks, |rows|)
    requires forall k :: 0 <= k < |rows| ==> 0 <= rows[k].0 < n
    ensures Carved(windows, owner) && |owner| <= n
    ensures forall k :: 0 <= k < |windows| ==> Complete(rows, windows[k])
    ensures |owner| == rows[|rows| - 1].0 + 1
  {
    hide Carved, Complete;
    windows, owner := [], [];
    NothingCarved();
    var consumed := 0;
    for c := 0 to |chunks|
      invariant |windows| == c && consumed == |owner|
      invariant Carved(windows, owner)
      invariant c == 0 ==> consumed == 0
      invariant c > 0 ==> consumed == rows[chunks[c - 1].1 - 1].0 + 1
      invariant forall k :: 0 <= k < |windows| ==> Complete(rows, windows[k])
    {
      var (rowStart, rowEnd) := chunks[c];
      var lastKey := rows[rowEnd - 1].0;
      WindowIsComplete(rows, chunks, c, consumed);
      var w := Window(consumed, lastKey + 1 - consumed, rowStart, rowEnd);
      CarveOne(windows, owner, w);
      windows := windows + [w];
      owner := owner + seq(w.len, _ => c);
      consumed := lastKey + 1;
    }
  }

  lemma WindowIsComplete(rows: seq<Edge>, chunks: seq<(int, int)>, c: int, consumed: int)
    requires rows != [] && SortedBySource(rows) && CutAtRuns(rows, chunks, |rows|) && 0 <= c < |chunks|
    requires 0 <= rows[0].0
    requires c == 0 ==> consumed == 0
    requires c > 0 ==> consumed == rows[chunks[c - 1].1 - 1].0 + 1
    ensures consumed <= rows[chunks[c].1 - 1].0
    ensures Complete(rows, Window(consumed, rows[chunks[c].1 - 1].0 + 1 - consumed, chunks[c].0, chunks[c].1))
  {
    var (lo, hi) := chunks[c];
    if c > 0 {
      assert chunks[c - 1].1 == lo && rows[lo - 1].0 < rows[lo].0;
    }
  }

  /** `rows[i..j]` all leave `key`, which no earlier row of the chunk does. */
  ghost predicate IsRun(rows: seq<Edge>, start: int, i: int, j: int, key: int) {
    && 0 <= start <= i < j <= |rows|
    && Absent(rows, start, i, key)
    && forall k :: i <= k < j ==> rows[k].0 == key
  }

  lemma RunIsWritten(rows: seq<Edge>, start: int, i: int, j: int, key: int)
    requires IsRun(rows, start, i, j, key)
    ensures Outgoing(rows[start..j], key) == Entries(rows, i, j)
  {
    assert rows[start..j] == rows[start..i] + rows[i..j];
    OutgoingConcat(rows[start..i], rows[i..j], key);
    AbsentHasNoOutgoing(rows, start, i, key);
    RunIsOutgoing(rows, i, j, key);
  }

  lemma RunLeavesOthers(rows: seq<Edge>, start: int, i: int, j: int, key: int, x: int)
    requires IsRun(rows, start, i, j, key) && x != key
    ensures Outgoing(rows[start..j], x) == Outgoing(rows[start..i], x)
  {
    assert rows[start..j] == rows[start..i] + rows[i..j];
    OutgoingConcat(rows[start..i], rows[i..j], x);
    AbsentHasNoOutgoing(rows, i, j, x);
  }

  /** The window after the rows up to `i` have been written. */
  ghost predicate RunsWritten(window0: seq<Row>, window: seq<Row>, w: Window, rows: seq<Edge>, i: int)
    requires 0 <= w.rowStart <= i <= |rows|
  {
    && |window| == |window0|
    && forall j :: 0 <= j < |window| ==> window[j] == Written(window0[j], Outgoing(rows[w.rowStart..i], w.base + j))
  }

  lemma RunsStart(window: seq<Row>, w: Window, rows: seq<Edge>)
    requires 0 <= w.rowStart <= |rows|
    ensures RunsWritten(window, window, w, rows, w.rowStart)
  {
    assert rows[w.rowStart..w.rowStart] == [];
  }

  lemma RunExtendsSlot(slot0: Row, slot: Row, start: int, rows: seq<Edge>, i: int, j: int, key: int, x: int)
    requires IsRun(rows, start, i, j, key) && slot == Written(slot0, Outgoing(rows[start..i], x))
    ensures (if x == key then Entries(rows, i, j) else slot) == Written(slot0, Outgoing(rows[start..j], x))
  {
    assert 0 <= start <= i < j;
    hide IsRun;
    if x == key {
      RunIsWritten(rows, start, i, j, key);
    } else {
      RunLeavesOthers(rows, start, i, j, key, x);
    }
  }

  lemma RunExtends(window0: seq<Row>, window: seq<Row>, w: Window, rows: seq<Edge>, i: int, j: int, key: int)
    requires IsRun(rows, w.rowStart, i, j, key) && 0 <= key - w.base < |window|
    requires RunsWritten(window0, window, w, rows, i)
    ensures RunsWritten(window0, window[key - w.base := Entries(rows, i, j)], w, rows, j)
  {
    hide Written, Outgoing, Entries;
    var window' := window[key - w.base := Entries(rows, i, j)];
    forall s | 0 <= s < |window'|
      ensures window'[s] == Written(window0[s], Outgoing(rows[w.rowStart..j], w.base + s))
    {
      RunExtendsSlot(window0[s], window[s], w.rowStart, rows, i, j, key, w.base + s);
    }
  }

  lemma RunsEnd(window0: seq<Row>, window: seq<Row>, w: Window, rows: seq<Edge>, j: int)
    requires Complete(rows, w) && 0 <= j < w.len == |window| && RunsWritten(window0, window, w, rows, w.rowEnd)
    ensures window[j] == Written(window0[j], Outgoing(rows, w.base + j))
  {
    OutgoingIsLocal(rows, w.rowStart, w.rowEnd, w.base + j);
  }

  /** The slots written, in the order they are: each run of the rows so far once. */
  ghost predicate Logged(writes: seq<int>, rows: seq<Edge>, start: int, i: int) {
    && 0 <= start <= i <= |rows|
    && (forall j, k :: 0 <= j < k < |writes| ==> writes[j] != writes[k])
    && forall x :: x in writes <==> !Absent(rows, start, i, x)
  }

  lemma NothingLogged(rows: seq<Edge>, start: int)
    requires 0 <= start <= |rows|
    ensures Logged([], rows, start, start)
  {
  }

  lemma LogRun(writes: seq<int>, rows: seq<Edge>, start: int, i: int, j: int, key: int)
    requires Logged(writes, rows, start, i) && IsRun(rows, start, i, j, key)
    ensures Logged(writes + [key], rows, start, j)
  {
    assert key !in writes;
    assert rows[i].0 == key;
    forall x
      ensures x in writes + [key] <==> !Absent(rows, start, j, x)
    {
      if !Absent(rows, start, j, x) && x != key {
        var k :| start <= k < j && rows[k].0 == x;
        assert k < i;
      }
    }
  }

  /** The slots of a window that are written: those some row leaves. */
  ghost predicate LoggedWindow(writes: seq<int>, w: Window, rows: seq<Edge>) {
    && (forall j, k :: 0 <= j < k < |writes| ==> writes[j] != writes[k])
    && (forall x :: x in writes ==> w.base <= x < w.base + w.len)
    && forall x :: w.base <= x < w.base + w.len ==> (x in writes <==> !Absent(rows, 0, |rows|, x))
  }

  lemma LogOfWindow(writes: seq<int>, w: Window, rows: seq<Edge>)
    requires Complete(rows, w) && Logged(writes, rows, w.rowStart, w.rowEnd)
    ensures LoggedWindow(writes, w, rows)
  {
    forall x | x in writes
      ensures w.base <= x < w.base + w.len
    {
      var k :| w.rowStart <= k < w.rowEnd && rows[k].0 == x;
    }
    forall x | w.base <= x < w.base + w.len
      ensures x in writes <==> !Absent(rows, 0, |rows|, x)
    {
      assert Absent(rows, 0, w.rowStart, x) && Absent(rows, w.rowEnd, |rows|, x);
    }
  }

  /** A forward worker: writes each run of its rows as one slot's list. */
  method WriteRuns(window0: seq<Row>, w: Window, rows: seq<Edge>) returns (window: seq<Row>, ghost writes: seq<int>)
    requires SortedBySource(rows) && Complete(rows, w) && |window0| == w.len
    ensures |window| == w.len && LoggedWindow(writes, w, rows)
    ensures forall i :: w.base <= i < w.base + w.len ==> window[i - w.base] == Written(window0[i - w.base], Outgoing(rows, i))
  {
    hide RunsWritten, Written, Logged, LoggedWindow;
    window, writes := window0, [];
    NothingLogged(rows, w.rowStart);
    var i := w.rowStart;
    RunsStart(window, w, rows);
    while i < w.rowEnd
      invariant w.rowStart <= i <= w.rowEnd && |window| == w.len
      invariant w.rowStart < i < w.rowEnd ==> rows[i - 1].0 < rows[i].0
      invariant RunsWritten(window0, window, w, rows, i) && Logged(writes, rows, w.rowStart, i)
    {
      var key, j := rows[i].0, i + 1;
      while j < w.rowEnd && rows[j].0 == key
        invariant i < j <= w.rowEnd && forall k :: i <= k < j ==> rows[k].0 == key
      {
        j := j + 1;
      }
      assert IsRun(rows, w.rowStart, i, j, key);
      RunExtends(window0, window, w, rows, i, j, key);
      LogRun(writes, rows, w.rowStart, i, j, key);
      window, writes := window[key - w.base := Entries(rows, i, j)], writes + [key];
      i := j;
    }
    LogOfWindow(writes, w, rows);
    forall i | w.base <= i < w.base + w.len
      ensures window[i - w.base] == Written(window0[i - w.base], Outgoing(rows, i))
    {
      RunsEnd(window0, window, w, rows, i - w.base);
    }
  }

  /** `adj` with `window` put back where it was carved off. */
  function Splice(adj: seq<Row>, base: int, window: seq<Row>): (r: seq<Row>)
    requires 0 <= base && base + |window| <= |adj|
    ensures |r| == |adj|
    ensures forall i :: 0 <= i < |r| ==> r[i] == if base <= i < base + |window| then window[i - base] else adj[i]
  {
    adj[..base] + window + adj[base + |window|..]
  }

  /** What slot `i` holds while the windows of `pending` are still to be worked on. */
  ghost function SlotNow(slot: Row, rows: seq<Edge>, owner: seq<int>, pending: set<int>, i: int): Row
    requires 0 <= i
  {
    if i < |owner| && owner[i] !in pending then Written(slot, Outgoing(rows, i)) else slot
  }

  ghost predicate PartlyWritten(adj0: seq<Row>, adj: seq<Row>, rows: seq<Edge>, owner: seq<int>, pending: set<int>) {
    && |adj| == |adj0| && |owner| <= |adj|
    && forall i :: 0 <= i < |adj| ==> adj[i] == SlotNow(adj0[i], rows, owner, pending, i)
  }

  lemma WindowBounds(windows: seq<Window>, owner: seq<int>, k: int)
    requires Carved(windows, owner) && 0 <= k < |windows|
    ensures var w := windows[k]; 0 <= w.base <= w.base + w.len <= |owner|
    ensures forall i :: 0 <= i < |owner| ==>
      (owner[i] == k <==> windows[k].base <= i < windows[k].base + windows[k].len)
  {
  }

  lemma SlotWritten(slot0: Row, slot: Row, slot': Row, rows: seq<Edge>, owner: seq<int>, pending: set<int>, k: int, i: int)
    requires 0 <= i && k in pending && slot == SlotNow(slot0, rows, owner, pending, i)
    requires slot' == if i < |owner| && owner[i] == k then Written(slot, Outgoing(rows, i)) else slot
    ensures slot' == SlotNow(slot0, rows, owner, pending - {k}, i)
  {
  }

  /** `window` is what the worker of window `w` makes of the table. */
  ghost predicate Worked(adj: seq<Row>, w: Window, window: seq<Row>, rows: seq<Edge>) {
    && 0 <= w.base && w.base + w.len <= |adj| && |window| == w.len
    && forall i :: w.base <= i < w.base + w.len ==> window[i - w.base] == Written(adj[i], Outgoing(rows, i))
  }

  lemma WindowWritten(adj0: seq<Row>, adj: seq<Row>, rows: seq<Edge>, windows: seq<Window>, owner: seq<int>,
                      pending: set<int>, k: int, window: seq<Row>)
    requires Carved(windows, owner) && PartlyWritten(adj0, adj, rows, owner, pending)
    requires k in pending && 0 <= k < |windows| && Worked(adj, windows[k], window, rows)
    ensures |Splice(adj, windows[k].base, window)| == |adj0|
    ensures PartlyWritten(adj0, Splice(adj, windows[k].base, window), rows, owner, pending - {k})
  {
    WindowBounds(windows, owner, k);
    hide Carved, Written, Outgoing, Splice, SlotNow;
    var adj' := Splice(adj, windows[k].base, window);
    forall i | 0 <= i < |adj'|
      ensures adj'[i] == SlotNow(adj0[i], rows, owner, pending - {k}, i)
    {
      SlotWritten(adj0[i], adj[i], adj'[i], rows, owner, pending, k, i);
    }
  }

  /** One worker's turn on its window. */
  method WorkWindow(adj: seq<Row>, w: Window, rows: seq<Edge>)
    returns (adj': seq<Row>, ghost window: seq<Row>, ghost writes: seq<int>)
    requires SortedBySource(rows) && Complete(rows, w) && 0 <= w.base <= w.base + w.len <= |adj|
    ensures Worked(adj, w, window, rows) && adj' == Splice(adj, w.base, window)
    ensures LoggedWindow(writes, w, rows)
  {
    hide Written, Outgoing, Complete, SortedBySource, Splice, LoggedWindow;
    var slice := adj[w.base..w.base + w.len];
    var written;
    written, writes := WriteRuns(slice, w, rows);
    forall i | w.base <= i < w.base + w.len
      ensures written[i - w.base] == Written(adj[i], Outgoing(rows, i))
    {
      assert slice[i - w.base] == adj[i];
    }
    window := written;
    adj' := Splice(adj, w.base, written);
  }

  /** The slots written while the windows of `pending` are still to be worked on. */
  ghost predicate LoggedSoFar(writes: seq<int>, rows: seq<Edge>, owner: seq<int>, pending: set<int>) {
    && (forall j, k :: 0 <= j < k < |writes| ==> writes[j] != writes[k])
    && (forall x :: x in writes ==> 0 <= x < |owner|)
    && forall x :: 0 <= x < |owner| ==> (x in writes <==> owner[x] !in pending && !Absent(rows, 0, |rows|, x))
  }

  lemma LogStarts(rows: seq<Edge>, windows: seq<Window>, owner: seq<int>)
    requires Carved(windows, owner)
    ensures LoggedSoFar([], rows, owner, Range(|windows|))
  {
  }

  lemma LogWindow(writes: seq<int>, more: seq<int>, rows: seq<Edge>, windows: seq<Window>, owner: seq<int>,
                  pending: set<int>, k: int)
    requires Carved(windows, owner) && 0 <= k < |windows| && k in pending
    requires LoggedSoFar(writes, rows, owner, pending) && LoggedWindow(more, windows[k], rows)
    ensures LoggedSoFar(writes + more, rows, owner, pending - {k})
  {
    WindowBounds(windows, owner, k);
    hide Carved, Absent;
    var all := writes + more;
    assert forall x :: x in all <==> x in writes || x in more;
    assert forall x :: x in more ==> 0 <= x < |owner| && owner[x] == k && x !in writes;
    forall i, j | 0 <= i < j < |all|
      ensures all[i] != all[j]
    {
      if i < |writes| <= j {
        assert all[i] in writes && all[j] in more;
      }
    }
  }

  /** `writes` lists the slots written, in the order they were. */
  method ScatterAdjacency(adj0: seq<Row>, rows: seq<Edge>, workers: nat) returns (adj: seq<Row>, ghost writes: seq<int>)
    requires SortedBySource(rows) && forall k :: 0 <= k < |rows| ==> 0 <= rows[k].0 < |adj0|
    ensures |adj| == |adj0|
    ensures forall i :: 0 <= i < |adj| ==> adj[i] == Written(adj0[i], Outgoing(rows, i))
    ensures forall j, k :: 0 <= j < k < |writes| ==> writes[j] != writes[k]
    ensures forall x :: x in writes <==> exists k :: 0 <= k < |rows| && rows[k].0 == x
  {
    adj, writes := adj0, [];
    if rows == [] {
      return;
    }
    var chunks := CutChunks(rows, workers);
    var windows; ghost var owner;
    windows, owner := CarveWindows(rows, chunks, |adj|);
    var pending := Range(|windows|);
    assert PartlyWritten(adj0, adj, rows, owner, pending);
    LogStarts(rows, windows, owner);
    hide PartlyWritten, CutAtRuns, SortedBySource, Written, Complete, Outgoing, Carved, Splice, Worked, LoggedSoFar, LoggedWindow;
    while pending != {}
      invariant pending <= Range(|windows|)
      invariant |adj| == |adj0| && PartlyWritten(adj0, adj, rows, owner, pending)
      invariant LoggedSoFar(writes, rows, owner, pending)
      decreases pending
    {
      var k :| k in pending;
      WindowBounds(windows, owner, k);
      var adj'; ghost var window, more;
      adj', window, more := WorkWindow(adj, windows[k], rows);
      WindowWritten(adj0, adj, rows, windows, owner, pending, k, window);
      LogWindow(writes, more, rows, windows, owner, pending, k);
      adj, writes := adj', writes + more;
      pending := pending - {k};
    }
    AllWritten(adj0, adj, rows, owner);
    AllLogged(writes, rows, owner);
  }

  lemma AllLogged(writes: seq<int>, rows: seq<Edge>, owner: seq<int>)
    requires LoggedSoFar(writes, rows, owner, {}) && SortedBySource(rows)
    requires rows != [] && |owner| == rows[|rows| - 1].0 + 1
    requires forall k :: 0 <= k < |rows| ==> 0 <= rows[k].0
    ensures forall j, k :: 0 <= j < k < |writes| ==> writes[j] != writes[k]
    ensures forall x :: x in writes <==> exists k :: 0 <= k < |rows| && rows[k].0 == x
  {
    forall k | 0 <= k < |rows|
      ensures rows[k].0 in writes
    {
      assert !Absent(rows, 0, |rows|, rows[k].0);
    }
  }

  lemma NothingBeyondLast(rows: seq<Edge>, i: int)
    requires SortedBySource(rows) && rows != [] && i > rows[|rows| - 1].0
    ensures Outgoing(rows, i) == []
  {
    assert rows[0..|rows|] == rows;
    AbsentHasNoOutgoing(rows, 0, |rows|, i);
  }

  lemma AllWritten(adj0: seq<Row>, adj: seq<Row>, rows: seq<Edge>, owner: seq<int>)
    requires PartlyWritten(adj0, adj, rows, owner, {}) && SortedBySource(rows)
    requires rows != [] && |owner| == rows[|rows| - 1].0 + 1
    ensures forall i :: 0 <= i < |adj| ==> adj[i] == Written(adj0[i], Outgoing(rows, i))
  {
    forall i | 0 <= i < |adj|
      ensures adj[i] == Written(adj0[i], Outgoing(rows, i))
    {
      if i >= |owner| {
        NothingBeyondLast(rows, i);
      }
    }
  }
}
