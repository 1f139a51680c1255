/** Saving a graph and loading it again, record by record: tombstoned slots are
    left out, indices are packed, and paths are written once each. */
module GraphFile {
  import opened Wrappers
  import opened Closures
  import opened Graph

  datatype NodeRecord = NodeRecord(
    fqname: string, kind: string, pathIdx: int,
    startLine: nat, startColumn: nat, endLine: nat, endColumn: nat,
    flags: NodeFlags, imports: Option<ImportRecord>)

  datatype Saved = Saved(
    paths: seq<string>, nodes: seq<NodeRecord>, edges: seq<Edge>,
    nodeCount: nat, edgeCount: nat, fileCount: nat, lineCount: nat)

  datatype Loaded =
    | Graph(nodes: seq<SymbolNode>, edges: seq<Edge>)
    | UnknownKind(kind: string)
    | PathOutOfRange(pathIdx: int)

  function KindName(kind: Kind): string {
    match kind
    case Function => "function"
    case Class => "class"
    case Variable => "variable"
    case Import => "import"
    case TypeAlias => "type_alias"
    case Module => "module"
    case External => "external"
    case Blank => ""
  }

  function InternKind(name: string): (r: Option<Kind>)
    ensures forall kind: Kind :: KindName(kind) == name && !kind.Blank? ==> r == Some(kind)
    ensures r.Some? ==> KindName(r.value) == name && !r.value.Blank?
  {
    if name == "function" then Some(Function)
    else if name == "class" then Some(Class)
    else if name == "variable" then Some(Variable)
    else if name == "import" then Some(Import)
    else if name == "type_alias" then Some(TypeAlias)
    else if name == "module" then Some(Module)
    else if name == "external" then Some(External)
    else None
  }

  /** The names written, and refused: anything else, the empty one among it. */
  lemma KindNames(name: string)
    ensures InternKind(name).Some? <==>
      name in ["function", "class", "variable", "import", "type_alias", "module", "external"]
    ensures KindName(Function) == "function" && KindName(Class) == "class" && KindName(Variable) == "variable"
    ensures KindName(Import) == "import" && KindName(TypeAlias) == "type_alias"
    ensures KindName(Module) == "module" && KindName(External) == "external" && KindName(Blank) == ""
  {
  }

  lemma KindsReadBack(kind: Kind)
    ensures InternKind(KindName(kind)) == if kind.Blank? then None else Some(kind)
  {
  }

  // ------------------------------------------------------------- compaction

  predicate Live(nodes: seq<SymbolNode>, i: int) {
    0 <= i < |nodes| && !nodes[i].kind.Blank?
  }

  predicate PackedTo(nodes: seq<SymbolNode>, i: int, k: int) {
    Live(nodes, i) && Rank(nodes, i) == k
  }

  /** The slots before `i` that are not tombstoned: where slot `i` is packed to. */
  function Rank(nodes: seq<SymbolNode>, i: int): (r: int)
    requires 0 <= i <= |nodes|
    ensures 0 <= r <= i
  {
    if i == 0 then 0 else Rank(nodes, i - 1) + (if nodes[i - 1].kind.Blank? then 0 else 1)
  }

  function Packed(nodes: seq<SymbolNode>): (r: seq<SymbolNode>)
  {
    if nodes == [] then [] else
      var last := nodes[|nodes| - 1];
      Packed(nodes[..|nodes| - 1]) + (if last.kind.Blank? then [] else [last])
  }

  predicate Survives(nodes: seq<SymbolNode>, e: Edge)
    requires EdgesWithin([e], |nodes|)
  {
    assert e in [e];
    !nodes[e.0].kind.Blank? && !nodes[e.1].kind.Blank?
  }

  function Moved(nodes: seq<SymbolNode>, e: Edge): Edge
    requires EdgesWithin([e], |nodes|)
  {
    assert e in [e];
    (Rank(nodes, e.0), Rank(nodes, e.1), e.2)
  }

  /** The surviving edges between packed slots, in order. */
  function PackedEdges(nodes: seq<SymbolNode>, edges: seq<Edge>): seq<Edge>
    requires EdgesWithin(edges, |nodes|)
  {
    if edges == [] then [] else
      var e := edges[|edges| - 1];
      assert e in edges;
      PackedEdges(nodes, edges[..|edges| - 1]) + (if Survives(nodes, e) then [Moved(nodes, e)] else [])
  }

  lemma {:induction false} RankOfPrefix(nodes: seq<SymbolNode>, n: int, i: int)
    requires 0 <= i <= n <= |nodes|
    ensures Rank(nodes[..n], i) == Rank(nodes, i)
  {
    if i > 0 {
      RankOfPrefix(nodes, n, i - 1);
    }
  }

  lemma {:induction false} RankOrders(nodes: seq<SymbolNode>, i: int, j: int)
    requires 0 <= i < j <= |nodes| && !nodes[i].kind.Blank?
    ensures Rank(nodes, i) < Rank(nodes, j)
  {
    if i < j - 1 {
      RankOrders(nodes, i, j - 1);
    }
  }

  lemma {:induction false} PackedLength(nodes: seq<SymbolNode>)
    ensures |Packed(nodes)| == Rank(nodes, |nodes|)
  {
    if nodes != [] {
      PackedLength(nodes[..|nodes| - 1]);
      RankOfPrefix(nodes, |nodes| - 1, |nodes| - 1);
    }
  }

  /** Packing keeps every live node, at its rank. */
  lemma {:induction false} PackedAtRank(nodes: seq<SymbolNode>, i: int)
    requires Live(nodes, i)
    ensures Rank(nodes, i) < |Packed(nodes)| && Packed(nodes)[Rank(nodes, i)] == nodes[i]
  {
    var n := |nodes| - 1;
    PackedLength(nodes[..n]);
    RankOfPrefix(nodes, n, i);
    if i < n {
      PackedAtRank(nodes[..n], i);
    }
  }

  /** Ranks are onto: every packed slot is the rank of a live node. */
  lemma {:induction false} RankHits(nodes: seq<SymbolNode>, k: int) returns (i: int)
    requires 0 <= k < |Packed(nodes)|
    ensures PackedTo(nodes, i, k)
  {
    var n := |nodes| - 1;
    PackedLength(nodes[..n]);
    if k < |Packed(nodes[..n])| {
      i := RankHits(nodes[..n], k);
    } else {
      i := n;
    }
    RankOfPrefix(nodes, n, i);
  }

  /** Packed slot `k` holds the node of slot `i`. */
  predicate FilledFrom(nodes: seq<SymbolNode>, k: int, i: int) {
    PackedTo(nodes, i, k) && k < |Packed(nodes)| && Packed(nodes)[k] == nodes[i]
  }

  ghost predicate Filled(nodes: seq<SymbolNode>, k: int) {
    exists i :: FilledFrom(nodes, k, i)
  }

  /** The remapping is an order-preserving bijection from the live nodes onto
      the packed slots, and the node packed to a slot is the one found there. */
  lemma RemapIsOrderedBijection(nodes: seq<SymbolNode>)
    ensures forall i :: Live(nodes, i) ==> FilledFrom(nodes, Rank(nodes, i), i)
    ensures forall k :: 0 <= k < |Packed(nodes)| ==> Filled(nodes, k)
    ensures forall i, j :: Live(nodes, i) && Live(nodes, j) ==> (i < j <==> Rank(nodes, i) < Rank(nodes, j))
  {
    hide Packed, Rank;
    forall i | Live(nodes, i)
      ensures FilledFrom(nodes, Rank(nodes, i), i)
    {
      PackedAtRank(nodes, i);
    }
    forall i, j | Live(nodes, i) && Live(nodes, j)
      ensures i < j <==> Rank(nodes, i) < Rank(nodes, j)
    {
      RanksCompare(nodes, i, j);
    }
    forall k | 0 <= k < |Packed(nodes)|
      ensures Filled(nodes, k)
    {
      var i := RankHits(nodes, k);
      PackedAtRank(nodes, i);
      assert FilledFrom(nodes, k, i);
    }
  }

  lemma RanksCompare(nodes: seq<SymbolNode>, i: int, j: int)
    requires Live(nodes, i) && Live(nodes, j)
    ensures i < j <==> Rank(nodes, i) < Rank(nodes, j)
  {
    if i < j {
      RankOrders(nodes, i, j);
    } else if j < i {
      RankOrders(nodes, j, i);
    }
  }

  /** Packing goes edge by edge, and keeps their order. */
  lemma {:induction false} PackedEdgesInOrder(nodes: seq<SymbolNode>, first: seq<Edge>, later: seq<Edge>)
    requires EdgesWithin(first + later, |nodes|)
    ensures EdgesWithin(first, |nodes|) && EdgesWithin(later, |nodes|)
    ensures PackedEdges(nodes, first + later) == PackedEdges(nodes, first) + PackedEdges(nodes, later)
    decreases |later|
  {
    assert forall e :: e in first + later <==> e in first || e in later;
    if later == [] {
      assert first + later == first;
    } else {
      var init, last := later[..|later| - 1], later[|later| - 1];
      assert (first + later)[..|first + later| - 1] == first + init;
      assert forall e :: e in init ==> e in later;
      assert EdgesWithin(first + init, |nodes|);
      PackedEdgesInOrder(nodes, first, init);
    }
  }

  lemma {:induction false} PackedEdgeMembers(nodes: seq<SymbolNode>, edges: seq<Edge>, e': Edge)
    requires EdgesWithin(edges, |nodes|)
    ensures e' in PackedEdges(nodes, edges) <==>
      exists e :: e in edges && Survives(nodes, e) && Moved(nodes, e) == e'
  {
    if edges != [] {
      var init, last := edges[..|edges| - 1], edges[|edges| - 1];
      assert edges == init + [last];
      PackedEdgeMembers(nodes, init, e');
    }
  }

  // ------------------------------------------------------------------ saving

  function RecordOf(n: SymbolNode, pathIdx: int): NodeRecord {
    NodeRecord(n.fqname, KindName(n.kind), pathIdx, n.startLine, n.startColumn, n.endLine, n.endColumn, n.flags, n.imports)
  }

  predicate Distinct(paths: seq<string>) {
    forall i, j :: 0 <= i < j < |paths| ==> paths[i] != paths[j]
  }

  /** `r` is the record of `n` against the path table. */
  predicate Records(r: NodeRecord, n: SymbolNode, paths: seq<string>) {
    0 <= r.pathIdx < |paths| && paths[r.pathIdx] == n.path && r == RecordOf(n, r.pathIdx)
  }

  /** The records and the path table stand for these live nodes. */
  ghost predicate Tabulates(paths: seq<string>, records: seq<NodeRecord>, live: seq<SymbolNode>) {
    && Distinct(paths)
    && |records| == |live|
    && (forall k :: 0 <= k < |live| ==> Records(records[k], live[k], paths))
    && (forall p :: p in paths <==> exists k :: 0 <= k < |live| && live[k].path == p)
  }

  /** The distinct files, the nodes without one left out. */
  ghost function FilesOf(live: seq<SymbolNode>): set<string> {
    set k | 0 <= k < |live| && live[k].path != "" :: live[k].path
  }

  /** The last line any node of the file reaches. */
  function LastLine(live: seq<SymbolNode>, path: string): nat {
    if live == [] then 0 else
      var n, rest := live[|live| - 1], LastLine(live[..|live| - 1], path);
      if n.path == path && n.endLine > rest then n.endLine else rest
  }

  lemma {:induction false} LastLineIsTheMaximum(live: seq<SymbolNode>, path: string)
    ensures forall k :: 0 <= k < |live| && live[k].path == path ==> live[k].endLine <= LastLine(live, path)
    ensures LastLine(live, path) == 0 || exists k :: 0 <= k < |live| && live[k].path == path && live[k].endLine == LastLine(live, path)
  {
    if live != [] {
      var init := live[..|live| - 1];
      LastLineIsTheMaximum(init, path);
      assert forall k :: 0 <= k < |init| ==> init[k] == live[k];
    }
  }

  /** The last lines of the first `n` table entries, entries without a path left out. */
  function LinesIn(live: seq<SymbolNode>, paths: seq<string>): nat {
    if paths == [] then 0 else
      var p := paths[|paths| - 1];
      LinesIn(live, paths[..|paths| - 1]) + (if p == "" then 0 else LastLine(live, p))
  }

  /** The last lines of a set of files, added up. */
  ghost function Total(live: seq<SymbolNode>, files: set<string>): nat {
    if files == {} then 0 else
      var p :| p in files;
      LastLine(live, p) + Total(live, files - {p})
  }

  lemma {:induction false} TotalTakesAny(live: seq<SymbolNode>, files: set<string>, p: string)
    requires p in files
    ensures Total(live, files) == LastLine(live, p) + Total(live, files - {p})
    decreases files
  {
    var q :| q in files && Total(live, files) == LastLine(live, q) + Total(live, files - {q});
    if q != p {
      TotalTakesAny(live, files - {q}, p);
      TotalTakesAny(live, files - {p}, q);
      assert files - {q} - {p} == files - {p} - {q};
    }
  }

  /** The line count adds up the last lines of the distinct files, each once. */
  lemma {:induction false} LinesAreTheTotal(live: seq<SymbolNode>, paths: seq<string>, files: set<string>)
    requires Distinct(paths) && forall p :: p in files <==> p in paths && p != ""
    ensures LinesIn(live, paths) == Total(live, files)
    decreases |paths|
  {
    if paths == [] {
      assert files == {};
    } else {
      var init, p := paths[..|paths| - 1], paths[|paths| - 1];
      assert paths == init + [p];
      LinesAreTheTotal(live, init, files - {p});
      if p != "" {
        TotalTakesAny(live, files, p);
      } else {
        assert files - {p} == files;
      }
    }
  }

  ghost predicate Encodes(saved: Saved, nodes: seq<SymbolNode>, edges: seq<Edge>)
    requires EdgesWithin(edges, |nodes|)
  {
    && Tabulates(saved.paths, saved.nodes, Packed(nodes))
    && saved.edges == PackedEdges(nodes, edges)
    && saved.nodeCount == |Packed(nodes)| && saved.edgeCount == |PackedEdges(nodes, edges)|
    && saved.fileCount == |FilesOf(Packed(nodes))|
    && saved.lineCount == Total(Packed(nodes), FilesOf(Packed(nodes)))
  }

  method Remap(nodes: seq<SymbolNode>) returns (remap: seq<int>)
    ensures |remap| == |nodes| && forall i :: 0 <= i < |nodes| ==> remap[i] == Rank(nodes, i)
  {
    remap := [];
    var next := 0;
    for k := 0 to |nodes|
      invariant |remap| == k && next == Rank(nodes, k)
      invariant forall i :: 0 <= i < k ==> remap[i] == Rank(nodes, i)
    {
      remap := remap + [next];
      if !nodes[k].kind.Blank? {
        next := next + 1;
      }
    }
  }

  method MapEdges(nodes: seq<SymbolNode>, edges: seq<Edge>, remap: seq<int>) returns (out: seq<Edge>)
    requires EdgesWithin(edges, |nodes|)
    requires |remap| == |nodes| && forall i :: 0 <= i < |nodes| ==> remap[i] == Rank(nodes, i)
    ensures out == PackedEdges(nodes, edges)
  {
    out := [];
    for k := 0 to |edges|
      invariant out == PackedEdges(nodes, edges[..k])
    {
      var e := edges[k];
      assert e in edges;
      assert edges[..k + 1][..k] == edges[..k];
      if !nodes[e.0].kind.Blank? && !nodes[e.1].kind.Blank? {
        out := out + [(remap[e.0], remap[e.1], e.2)];
      }
    }
    assert edges[..|edges|] == edges;
  }

  /** The index under which a path is known, entered on first sight. */
  ghost predicate IndexOfPaths(pathToIdx: map<string, int>, paths: seq<string>) {
    && Distinct(paths)
    && (forall p :: p in pathToIdx ==> 0 <= pathToIdx[p] < |paths| && paths[pathToIdx[p]] == p)
    && (forall i :: 0 <= i < |paths| ==> paths[i] in pathToIdx)
  }

  lemma TabulateOne(paths: seq<string>, records: seq<NodeRecord>, live: seq<SymbolNode>, n: SymbolNode, idx: int, paths': seq<string>)
    requires Tabulates(paths, records, live)
    requires paths' == if n.path in paths then paths else paths + [n.path]
    requires 0 <= idx < |paths'| && paths'[idx] == n.path
    ensures Tabulates(paths', records + [RecordOf(n, idx)], live + [n])
  {
    var live' := live + [n];
    forall p
      ensures p in paths' <==> exists k :: 0 <= k < |live'| && live'[k].path == p
    {
      if p in paths {
        var k :| 0 <= k < |live| && live[k].path == p;
        assert live'[k].path == p;
      }
      assert live'[|live|].path == n.path;
      if k :| 0 <= k < |live'| && live'[k].path == p && k < |live| {
        assert live[k].path == p;
      }
    }
  }

  method RecordNodes(nodes: seq<SymbolNode>) returns (paths: seq<string>, records: seq<NodeRecord>)
    ensures Tabulates(paths, records, Packed(nodes))
  {
    paths, records := [], [];
    var pathToIdx: map<string, int> := map[];
    for k := 0 to |nodes|
      invariant IndexOfPaths(pathToIdx, paths)
      invariant Tabulates(paths, records, Packed(nodes[..k]))
    {
      var n := nodes[k];
      assert nodes[..k + 1][..k] == nodes[..k];
      if n.kind.Blank? {
        continue;
      }
      ghost var before := paths;
      if n.path !in pathToIdx {
        paths := paths + [n.path];
        pathToIdx := pathToIdx[n.path := |paths| - 1];
      }
      TabulateOne(before, records, Packed(nodes[..k]), n, pathToIdx[n.path], paths);
      records := records + [RecordOf(n, pathToIdx[n.path])];
    }
    assert nodes[..|nodes|] == nodes;
  }

  /** The last line per table entry, folded over the records. */
  method MaxLines(ghost live: seq<SymbolNode>, paths: seq<string>, records: seq<NodeRecord>) returns (maxLine: seq<nat>)
    requires Tabulates(paths, records, live)
    ensures |maxLine| == |paths| && forall i :: 0 <= i < |paths| ==> maxLine[i] == LastLine(live, paths[i])
  {
    maxLine := seq(|paths|, _ => 0);
    for k := 0 to |records|
      invariant |maxLine| == |paths| && forall i :: 0 <= i < |paths| ==> maxLine[i] == LastLine(live[..k], paths[i])
    {
      var n := records[k];
      assert Records(n, live[k], paths);
      assert live[..k + 1][..k] == live[..k];
      if n.endLine > maxLine[n.pathIdx] {
        maxLine := maxLine[n.pathIdx := n.endLine];
      }
    }
    assert live[..|records|] == live;
  }

  lemma {:induction false} CountDistinct(paths: seq<string>, s: set<string>)
    requires Distinct(paths) && forall p :: p in s <==> p in paths && p != ""
    ensures |s| == NonEmpty(paths)
  {
    if paths == [] {
      assert s == {};
    } else {
      var init, p := paths[..|paths| - 1], paths[|paths| - 1];
      assert paths == init + [p];
      CountDistinct(init, s - {p});
    }
  }

  function NonEmpty(paths: seq<string>): nat {
    if paths == [] then 0 else NonEmpty(paths[..|paths| - 1]) + (if paths[|paths| - 1] == "" then 0 else 1)
  }

  method Totals(ghost live: seq<SymbolNode>, paths: seq<string>, records: seq<NodeRecord>) returns (files: nat, lines: nat)
    requires Tabulates(paths, records, live)
    ensures files == |FilesOf(live)| && lines == LinesIn(live, paths)
  {
    var maxLine := MaxLines(live, paths, records);
    files, lines := 0, 0;
    for i := 0 to |paths|
      invariant files == NonEmpty(paths[..i]) && lines == LinesIn(live, paths[..i])
    {
      assert paths[..i + 1][..i] == paths[..i];
      if paths[i] != "" {
        files := files + 1;
        lines := lines + maxLine[i];
      }
    }
    assert paths[..|paths|] == paths;
    CountDistinct(paths, FilesOf(live));
  }

  method WriteGraph(nodes: seq<SymbolNode>, edges: seq<Edge>) returns (saved: Saved)
    requires EdgesWithin(edges, |nodes|)
    ensures Encodes(saved, nodes, edges)
  {
    var remap := Remap(nodes);
    var edges' := MapEdges(nodes, edges, remap);
    var paths, records := RecordNodes(nodes);
    var files, lines := Totals(Packed(nodes), paths, records);
    LinesAreTheTotal(Packed(nodes), paths, FilesOf(Packed(nodes)));
    saved := Saved(paths, records, edges', |records|, |edges'|, files, lines);
  }

  // ----------------------------------------------------------------- loading

  /** The record names a kind and a path, and these are its node. */
  ghost predicate Reads(r: NodeRecord, paths: seq<string>, node: SymbolNode) {
    && !node.kind.Blank? && r.kind == KindName(node.kind)
    && 0 <= r.pathIdx < |paths| && node.path == paths[r.pathIdx]
    && node.fqname == r.fqname && node.flags == r.flags && node.imports == r.imports
    && node.startLine == r.startLine && node.startColumn == r.startColumn
    && node.endLine == r.endLine && node.endColumn == r.endColumn
  }

  ghost predicate KnownKind(name: string) {
    exists kind: Kind :: !kind.Blank? && KindName(kind) == name
  }

  /** What is wrong with a record: an unknown kind, or failing that its path. */
  ghost predicate Faulty(r: NodeRecord, paths: seq<string>, fault: Loaded) {
    if !KnownKind(r.kind) then fault == UnknownKind(r.kind)
    else !(0 <= r.pathIdx < |paths|) && fault == PathOutOfRange(r.pathIdx)
  }

  /** All records read, or the fault of the first that cannot be. */
  ghost predicate Decodes(saved: Saved, loaded: Loaded) {
    if loaded.Graph? then
      && |loaded.nodes| == |saved.nodes| && loaded.edges == saved.edges
      && forall k :: 0 <= k < |saved.nodes| ==> Reads(saved.nodes[k], saved.paths, loaded.nodes[k])
    else
      exists k :: 0 <= k < |saved.nodes| && Faulty(saved.nodes[k], saved.paths, loaded)
                  && forall j :: 0 <= j < k ==> Readable(saved.nodes[j], saved.paths)
  }

  ghost predicate Readable(r: NodeRecord, paths: seq<string>) {
    KnownKind(r.kind) && 0 <= r.pathIdx < |paths|
  }

  method ReadGraph(saved: Saved) returns (loaded: Loaded)
    ensures Decodes(saved, loaded)
  {
    hide KindName;
    var nodes: seq<SymbolNode> := [];
    for k := 0 to |saved.nodes|
      invariant |nodes| == k
      invariant forall j :: 0 <= j < k ==> Reads(saved.nodes[j], saved.paths, nodes[j])
      invariant forall j :: 0 <= j < k ==> Readable(saved.nodes[j], saved.paths)
    {
      var r := saved.nodes[k];
      var kind := InternKind(r.kind);
      if kind.None? {
        assert Faulty(r, saved.paths, UnknownKind(r.kind));
        return UnknownKind(r.kind);
      }
      assert KnownKind(r.kind);
      if !(0 <= r.pathIdx < |saved.paths|) {
        assert Faulty(r, saved.paths, PathOutOfRange(r.pathIdx));
        return PathOutOfRange(r.pathIdx);
      }
      nodes := nodes + [SymbolNode(r.fqname, kind.value, saved.paths[r.pathIdx], r.startLine, r.startColumn,
                                   r.endLine, r.endColumn, r.flags, r.imports)];
    }
    loaded := Graph(nodes, saved.edges);
  }

  // ------------------------------------------------------------ the round trip

  lemma {:induction false} PackedAreLive(nodes: seq<SymbolNode>)
    ensures forall k :: 0 <= k < |Packed(nodes)| ==> !Packed(nodes)[k].kind.Blank?
  {
    if nodes != [] {
      PackedAreLive(nodes[..|nodes| - 1]);
    }
  }

  lemma KindNamesDiffer(a: Kind, b: Kind)
    requires KindName(a) == KindName(b)
    ensures a == b
  {
    KindsReadBack(a);
    KindsReadBack(b);
  }

  lemma RecordReadsBack(r: NodeRecord, n: SymbolNode, paths: seq<string>)
    requires Records(r, n, paths) && !n.kind.Blank?
    ensures Readable(r, paths) && forall node :: Reads(r, paths, node) ==> node == n
  {
    forall node | Reads(r, paths, node)
      ensures node == n
    {
      KindNamesDiffer(node.kind, n.kind);
    }
    assert KnownKind(r.kind);
  }

  /** Loading what was saved gives the graph back without its tombstoned slots,
      and never an error. */
  lemma LoadAfterSave(nodes: seq<SymbolNode>, edges: seq<Edge>, saved: Saved, loaded: Loaded)
    requires EdgesWithin(edges, |nodes|)
    requires Encodes(saved, nodes, edges) && Decodes(saved, loaded)
    ensures loaded == Graph(Packed(nodes), PackedEdges(nodes, edges))
  {
    var live := Packed(nodes);
    PackedAreLive(nodes);
    hide KindName, Packed, PackedEdges, KnownKind;
    forall k | 0 <= k < |live|
      ensures Readable(saved.nodes[k], saved.paths)
      ensures loaded.Graph? ==> loaded.nodes[k] == live[k]
    {
      RecordReadsBack(saved.nodes[k], live[k], saved.paths);
    }
    if loaded.Graph? {
      assert loaded.nodes == live;
    }
  }

  /** With nothing tombstoned, loading gives back exactly what was saved. */
  lemma PackingAFreshGraphIsIdentity(nodes: seq<SymbolNode>, edges: seq<Edge>)
    requires EdgesWithin(edges, |nodes|) && forall i :: 0 <= i < |nodes| ==> Live(nodes, i)
    ensures Packed(nodes) == nodes && PackedEdges(nodes, edges) == edges
  {
    forall i | 0 <= i < |nodes|
      ensures !nodes[i].kind.Blank?
    {
      assert Live(nodes, i);
    }
    NothingPackedAway(nodes);
    NoEdgeMoved(nodes, edges);
  }

  lemma {:induction false} NoEdgeMoved(nodes: seq<SymbolNode>, edges: seq<Edge>)
    requires EdgesWithin(edges, |nodes|) && forall i :: 0 <= i < |nodes| ==> Live(nodes, i)
    ensures PackedEdges(nodes, edges) == edges
  {
    hide Rank;
    if edges != [] {
      var init, e := edges[..|edges| - 1], edges[|edges| - 1];
      assert e in edges;
      NoEdgeMoved(nodes, init);
      RankIsIdentity(nodes, e.0);
      RankIsIdentity(nodes, e.1);
      assert Live(nodes, e.0) && Live(nodes, e.1);
      assert Moved(nodes, e) == e;
      assert edges == init + [e];
    }
  }

  lemma {:induction false} NothingPackedAway(nodes: seq<SymbolNode>)
    requires forall i :: 0 <= i < |nodes| ==> !nodes[i].kind.Blank?
    ensures Packed(nodes) == nodes
  {
    if nodes != [] {
      NothingPackedAway(nodes[..|nodes| - 1]);
    }
  }

  lemma {:induction false} RankIsIdentity(nodes: seq<SymbolNode>, i: int)
    requires 0 <= i <= |nodes| && forall j :: 0 <= j < |nodes| ==> Live(nodes, j)
    ensures Rank(nodes, i) == i
  {
    if i > 0 {
      assert Live(nodes, i - 1);
      RankIsIdentity(nodes, i - 1);
    }
  }

  // ------------------------------------------------ reachability after packing

  /** Where the live nodes of a set are packed to. */
  ghost function Image(nodes: seq<SymbolNode>, s: set<int>): set<int> {
    set i | i in s && Live(nodes, i) :: Rank(nodes, i)
  }

  /** The slots packed into `s`. */
  ghost function Preimage(nodes: seq<SymbolNode>, s: set<int>): set<int> {
    set i | i in Range(|nodes|) && Live(nodes, i) && Rank(nodes, i) in s
  }

  ghost function Reached(nodes: seq<SymbolNode>, edges: seq<Edge>, mask: NodeFlags, skip: bv8): set<int> {
    Closure(Arcs(edges, skip), Seeds(nodes, mask))
  }

  lemma RankIsInjective(nodes: seq<SymbolNode>, i: int, j: int)
    requires Live(nodes, i) && Live(nodes, j)
    requires Rank(nodes, i) == Rank(nodes, j)
    ensures i == j
  {
    RanksCompare(nodes, i, j);
    RanksCompare(nodes, j, i);
  }

  lemma SeedsAreImages(nodes: seq<SymbolNode>, mask: NodeFlags, k: int)
    ensures k in Seeds(Packed(nodes), mask) ==> k in Image(nodes, Seeds(nodes, mask))
  {
    if k in Seeds(Packed(nodes), mask) {
      var i := RankHits(nodes, k);
      PackedAtRank(nodes, i);
      assert i in Seeds(nodes, mask);
    }
  }

  /** A packed arc comes from an arc between live slots. */
  lemma ArcsAreImages(nodes: seq<SymbolNode>, edges: seq<Edge>, skip: bv8, a: (int, int)) returns (i: int, j: int)
    requires EdgesWithin(edges, |nodes|) && a in Arcs(PackedEdges(nodes, edges), skip)
    ensures (i, j) in Arcs(edges, skip) && PackedTo(nodes, i, a.0) && PackedTo(nodes, j, a.1)
  {
    var e' :| e' in PackedEdges(nodes, edges) && !Skipped(e'.2, skip) && (e'.0, e'.1) == a;
    PackedEdgeMembers(nodes, edges, e');
    var e :| e in edges && Survives(nodes, e) && Moved(nodes, e) == e';
    i, j := e.0, e.1;
  }

  /** Packing never makes anything reachable, whatever the tombstoned slots hold. */
  lemma PackingReachesNoMore(nodes: seq<SymbolNode>, edges: seq<Edge>, mask: NodeFlags, skip: bv8)
    requires EdgesWithin(edges, |nodes|)
    ensures Reached(Packed(nodes), PackedEdges(nodes, edges), mask, skip) <= Image(nodes, Reached(nodes, edges, mask, skip))
  {
    hide Packed, PackedEdges, Arcs, Seeds, Rank;
    var reached := Reached(nodes, edges, mask, skip);
    var arcs', seeds' := Arcs(PackedEdges(nodes, edges), skip), Seeds(Packed(nodes), mask);
    ClosureIsClosed(Arcs(edges, skip), Seeds(nodes, mask));
    forall k | k in seeds'
      ensures k in Image(nodes, reached)
    {
      SeedsAreImages(nodes, mask, k);
    }
    forall a | a in arcs' && a.0 in Image(nodes, reached)
      ensures a.1 in Image(nodes, reached)
    {
      var i, j := ArcsAreImages(nodes, edges, skip, a);
      var i' :| i' in reached && Live(nodes, i') && Rank(nodes, i') == a.0;
      RankIsInjective(nodes, i, i');
    }
    ClosureIsLeast(arcs', seeds', Image(nodes, reached));
  }

  /** Tombstoned slots carry no flag and touch no edge. */
  ghost predicate BlanksAreBare(nodes: seq<SymbolNode>, edges: seq<Edge>)
    requires EdgesWithin(edges, |nodes|)
  {
    && (forall i :: 0 <= i < |nodes| && nodes[i].kind.Blank? ==> nodes[i].flags == {})
    && (forall e :: e in edges ==> Survives(nodes, e))
  }

  /** Then walking commutes with saving and loading: the walk over the loaded
      graph reaches exactly the packed places of what the original walk reaches,
      and that is all live. */
  lemma ReachabilityCommutesWithPacking(nodes: seq<SymbolNode>, edges: seq<Edge>, mask: NodeFlags, skip: bv8)
    requires EdgesWithin(edges, |nodes|) && BlanksAreBare(nodes, edges)
    ensures Reached(Packed(nodes), PackedEdges(nodes, edges), mask, skip) == Image(nodes, Reached(nodes, edges, mask, skip))
    ensures forall i :: i in Reached(nodes, edges, mask, skip) ==> Live(nodes, i)
  {
    var live, edges' := Packed(nodes), PackedEdges(nodes, edges);
    var reached' := Reached(live, edges', mask, skip);
    PackingReachesNoMore(nodes, edges, mask, skip);
    ClosureIsClosed(Arcs(edges', skip), Seeds(live, mask));
    forall i | i in Seeds(nodes, mask)
      ensures i in Preimage(nodes, reached')
    {
      PackedAtRank(nodes, i);
      assert Rank(nodes, i) in Seeds(live, mask);
    }
    forall a | a in Arcs(edges, skip) && a.0 in Preimage(nodes, reached')
      ensures a.1 in Preimage(nodes, reached')
    {
      var e :| e in edges && !Skipped(e.2, skip) && (e.0, e.1) == a;
      assert Survives(nodes, e);
      PackedEdgeMembers(nodes, edges, Moved(nodes, e));
      assert (Rank(nodes, e.0), Rank(nodes, e.1)) in Arcs(edges', skip);
    }
    ClosureIsLeast(Arcs(edges, skip), Seeds(nodes, mask), Preimage(nodes, reached'));
  }
}
