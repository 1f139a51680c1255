/** Filling the reverse adjacency table by a counting scatter: destinations are
    cut into windows of similar population, and every worker scans all rows. */
module ReverseScatter {
  import opened Graph
  import opened Scatter

  ghost predicate DestinationsBelow(rows: seq<Edge>, n: int) {
    forall k :: 0 <= k < |rows| ==> 0 <= rows[k].1 < n
  }

  // ---------------------------------------------------------------- histogram

  /** `counts` tells how many edges of `rows` enter each node. */
  ghost predicate Counts(counts: seq<int>, rows: seq<Edge>) {
    forall d :: 0 <= d < |counts| ==> counts[d] == |Incoming(rows, d)|
  }

  lemma CountOne(counts: seq<int>, rows: seq<Edge>, e: Edge)
    requires Counts(counts, rows) && 0 <= e.1 < |counts|
    ensures Counts(counts[e.1 := counts[e.1] + 1], rows + [e])
  {
    assert (rows + [e])[..|rows|] == rows;
  }

  method CountChunk(rows: seq<Edge>, lo: int, hi: int, n: nat) returns (counts: seq<int>)
    requires 0 <= lo <= hi <= |rows| && DestinationsBelow(rows, n)
    ensures |counts| == n && Counts(counts, rows[lo..hi])
  {
    counts := seq(n, _ => 0);
    assert rows[lo..lo] == [];
    for k := lo to hi
      invariant |counts| == n && Counts(counts, rows[lo..k])
    {
      CountOne(counts, rows[lo..k], rows[k]);
      assert rows[lo..k] + [rows[k]] == rows[lo..k + 1];
      counts := counts[rows[k].1 := counts[rows[k].1] + 1];
    }
  }

  function Sum(a: seq<int>, b: seq<int>): (r: seq<int>)
    requires |a| == |b|
    ensures |r| == |a| && forall k :: 0 <= k < |a| ==> r[k] == a[k] + b[k]
  {
    seq(|a|, k requires 0 <= k < |a| => a[k] + b[k])
  }

  lemma CountsAdd(a: seq<int>, b: seq<int>, rows: seq<Edge>, rows': seq<Edge>)
    requires |a| == |b| && Counts(a, rows) && Counts(b, rows')
    ensures Counts(Sum(a, b), rows + rows')
  {
    forall d | 0 <= d < |a|
      ensures Sum(a, b)[d] == |Incoming(rows + rows', d)|
    {
      IncomingConcat(rows, rows', d);
    }
  }

  /** Per-chunk counts, added up: exactly the room each list will need. */
  method Histogram(rows: seq<Edge>, n: nat, workers: nat) returns (counts: seq<int>)
    requires DestinationsBelow(rows, n)
    ensures |counts| == n && Counts(counts, rows)
  {
    var threads := if workers > 1 then workers else 1;
    var size := if rows == [] then 1 else 1 + (|rows| - 1) / threads;
    counts := seq(n, _ => 0);
    var start := 0;
    assert rows[..0] == [];
    while start < |rows|
      invariant 0 <= start <= |rows| && |counts| == n && Counts(counts, rows[..start])
    {
      hide Counts;
      var end := if start + size < |rows| then start + size else |rows|;
      var chunk := CountChunk(rows, start, end, n);
      CountsAdd(counts, chunk, rows[..start], rows[start..end]);
      assert rows[..start] + rows[start..end] == rows[..end];
      counts, start := Sum(counts, chunk), end;
    }
    assert rows[..|rows|] == rows;
  }

  // ------------------------------------------------------------------ windows

  /** Cuts `[0, n)` into consecutive windows of about `perChunk` edges each. */
  method CarveBalanced(counts: seq<int>, perChunk: int, rowCount: int)
    returns (windows: seq<Window>, ghost owner: seq<int>)
    ensures Carved(windows, owner) && |owner| == |counts|
  {
    hide Carved;
    windows, owner := [], [];
    NothingCarved();
    var start := 0;
    while start < |counts|
      invariant 0 <= start == |owner| <= |counts| && Carved(windows, owner)
    {
      var acc, end := 0, start;
      while end < |counts| && (acc < perChunk || end == start)
        invariant start <= end <= |counts|
      {
        acc := acc + counts[end];
        end := end + 1;
      }
      var w := Window(start, end - start, 0, rowCount);
      CarveOne(windows, owner, w);
      owner := owner + seq(w.len, _ => |windows|);
      windows := windows + [w];
      start := end;
    }
  }

  // ------------------------------------------------------------------- workers

  ghost predicate Scanned(window0: seq<Row>, window: seq<Row>, base: int, rows: seq<Edge>) {
    |window| == |window0|
    && forall j :: 0 <= j < |window| ==> window[j] == window0[j] + Incoming(rows, base + j)
  }

  lemma ScanStart(window0: seq<Row>, base: int)
    ensures Scanned(window0, window0, base, [])
  {
  }

  lemma ScanOne(window0: seq<Row>, window: seq<Row>, base: int, rows: seq<Edge>, e: Edge)
    requires Scanned(window0, window, base, rows)
    ensures var k := e.1 - base;
      Scanned(window0, if 0 <= k < |window| then window[k := window[k] + [(e.0, e.2)]] else window, base, rows + [e])
  {
    assert (rows + [e])[..|rows|] == rows;
  }

  /** A reverse worker: scans every row and keeps those entering its window. */
  method ScanRows(window0: seq<Row>, base: int, rows: seq<Edge>) returns (window: seq<Row>)
    ensures Scanned(window0, window, base, rows)
  {
    hide Scanned;
    window := window0;
    ScanStart(window0, base);
    assert rows[..0] == [];
    for k := 0 to |rows|
      invariant Scanned(window0, window, base, rows[..k])
    {
      var (s, d, f) := rows[k];
      ScanOne(window0, window, base, rows[..k], rows[k]);
      assert rows[..k] + [rows[k]] == rows[..k + 1];
      if base <= d < base + |window| {
        window := window[d - base := window[d - base] + [(s, f)]];
      }
    }
    assert rows[..|rows|] == rows;
  }

  ghost function SlotSoFar(slot: Row, rows: seq<Edge>, owner: seq<int>, pending: set<int>, i: int): Row
    requires 0 <= i < |owner|
  {
    if owner[i] in pending then slot else slot + Incoming(rows, i)
  }

  ghost predicate PartlyScanned(adj0: seq<Row>, adj: seq<Row>, rows: seq<Edge>, owner: seq<int>, pending: set<int>) {
    && |adj| == |adj0| == |owner|
    && forall i :: 0 <= i < |adj| ==> adj[i] == SlotSoFar(adj0[i], rows, owner, pending, i)
  }

  /** `window` is what the worker of window `w` makes of the table. */
  ghost predicate Worked(adj: seq<Row>, w: Window, window: seq<Row>, rows: seq<Edge>) {
    && 0 <= w.base && w.base + w.len <= |adj| && |window| == w.len
    && forall i :: w.base <= i < w.base + w.len ==> window[i - w.base] == adj[i] + Incoming(rows, i)
  }

  lemma ScannedSlot(window0: seq<Row>, window: seq<Row>, base: int, rows: seq<Edge>, j: int)
    requires Scanned(window0, window, base, rows) && 0 <= j < |window|
    ensures |window| == |window0| && window[j] == window0[j] + Incoming(rows, base + j)
  {
  }

  /** One worker's turn on its window. */
  method WorkWindow(adj: seq<Row>, w: Window, rows: seq<Edge>) returns (adj': seq<Row>, ghost window: seq<Row>)
    requires 0 <= w.base <= w.base + w.len <= |adj|
    ensures Worked(adj, w, window, rows) && adj' == Splice(adj, w.base, window)
  {
    hide Incoming, Scanned, Splice;
    var slice := adj[w.base..w.base + w.len];
    var scanned := ScanRows(slice, w.base, rows);
    ScannedSize(slice, scanned, w.base, rows);
    forall i | w.base <= i < w.base + w.len
      ensures scanned[i - w.base] == adj[i] + Incoming(rows, i)
    {
      ScannedSlot(slice, scanned, w.base, rows, i - w.base);
      assert slice[i - w.base] == adj[i];
    }
    window := scanned;
    adj' := Splice(adj, w.base, scanned);
  }

  lemma WindowScanned(adj0: seq<Row>, adj: seq<Row>, rows: seq<Edge>, windows: seq<Window>, owner: seq<int>,
                      pending: set<int>, k: int, window: seq<Row>)
    requires Carved(windows, owner) && PartlyScanned(adj0, adj, rows, owner, pending)
    requires k in pending && 0 <= k < |windows| && Worked(adj, windows[k], window, rows)
    ensures |Splice(adj, windows[k].base, window)| == |adj0|
    ensures PartlyScanned(adj0, Splice(adj, windows[k].base, window), rows, owner, pending - {k})
  {
    WindowBounds(windows, owner, k);
    hide Carved, Incoming, Splice, SlotSoFar;
    var adj' := Splice(adj, windows[k].base, window);
    forall i | 0 <= i < |adj'|
      ensures adj'[i] == SlotSoFar(adj0[i], rows, owner, pending - {k}, i)
    {
      SlotScanned(adj0[i], adj[i], adj'[i], rows, owner, pending, k, i);
    }
  }

  lemma SlotScanned(slot0: Row, slot: Row, slot': Row, rows: seq<Edge>, owner: seq<int>, pending: set<int>, k: int, i: int)
    requires 0 <= i < |owner| && k in pending && slot == SlotSoFar(slot0, rows, owner, pending, i)
    requires slot' == if owner[i] == k then slot + Incoming(rows, i) else slot
    ensures slot' == SlotSoFar(slot0, rows, owner, pending - {k}, i)
  {
  }

  method ScatterReverse(adj0: seq<Row>, rows: seq<Edge>, workers: nat) returns (adj: seq<Row>)
    requires DestinationsBelow(rows, |adj0|)
    ensures |adj| == |adj0|
    ensures forall i :: 0 <= i < |adj| ==> adj[i] == adj0[i] + Incoming(rows, i)
  {
    adj := adj0;
    if rows == [] {
      return;
    }
    var counts := Histogram(rows, |adj|, workers);
    var nChunks := if workers * 4 > 1 then workers * 4 else 1;
    var perChunk := if |rows| / nChunks > 1 then |rows| / nChunks else 1;
    var windows; ghost var owner;
    windows, owner := CarveBalanced(counts, perChunk, |rows|);
    var pending := Range(|windows|);
    OwnersArePending(windows, owner);
    assert PartlyScanned(adj0, adj, rows, owner, pending);
    hide PartlyScanned, Carved, Counts, Worked, Splice, DestinationsBelow;
    while pending != {}
      invariant pending <= Range(|windows|) && |adj| == |adj0|
      invariant PartlyScanned(adj0, adj, rows, owner, pending)
      decreases pending
    {
      var k :| k in pending;
      WindowBounds(windows, owner, k);
      var adj'; ghost var window;
      adj', window := WorkWindow(adj, windows[k], rows);
      WindowScanned(adj0, adj, rows, windows, owner, pending, k, window);
      adj := adj';
      pending := pending - {k};
    }
    AllScanned(adj0, adj, rows, owner);
  }

  lemma ScannedSize(window0: seq<Row>, window: seq<Row>, base: int, rows: seq<Edge>)
    requires Scanned(window0, window, base, rows)
    ensures |window| == |window0|
  {
  }

  lemma OwnersArePending(windows: seq<Window>, owner: seq<int>)
    requires Carved(windows, owner)
    ensures forall i :: 0 <= i < |owner| ==> owner[i] in Range(|windows|)
  {
  }

  lemma AllScanned(adj0: seq<Row>, adj: seq<Row>, rows: seq<Edge>, owner: seq<int>)
    requires PartlyScanned(adj0, adj, rows, owner, {})
    ensures forall i :: 0 <= i < |adj| ==> adj[i] == adj0[i] + Incoming(rows, i)
  {
  }
}
