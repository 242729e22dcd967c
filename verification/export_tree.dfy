/**
 * Where the OpenAnatomy exporter's walk puts each glTF node: the nodes a walk
 * appends for a folder form a contiguous block, laid out child by child in
 * post-order, and every index a folder node lists is the mesh node of one
 * child or the last node of that child's own sub-walk.
 */
module OpenAnatomyTree {
  import opened Wrappers
  import opened ExportPolicy
  import opened OpenAnatomyExport

  /** Number of nodes visiting child `c` appends: its mesh node if exported, then its whole subtree if it has children. */
  function NodeSpan(cfg: Config, nf: real, c: Item): nat
    decreases c, 2
  {
    (if Exported(cfg, nf, c) then 1 else 0) + (if c.children != [] then SubtreeSize(cfg, nf, c) else 0)
  }

  /** Number of nodes a walk of folder `f` appends: the spans of all its children, then its own folder node. */
  function SubtreeSize(cfg: Config, nf: real, f: Item): nat
    decreases f, 1
  {
    SpanBefore(cfg, nf, f, |f.children|) + 1
  }

  /** Number of nodes the walk of `f` appends for the children before child `j`. */
  function SpanBefore(cfg: Config, nf: real, f: Item, j: nat): nat
    requires j <= |f.children|
    decreases f, 0, j
  {
    if j == 0 then 0 else SpanBefore(cfg, nf, f, j - 1) + NodeSpan(cfg, nf, f.children[j - 1])
  }

  /**
   * The indices the folder node of `f` lists for children `i..`, when the
   * nodes of child `i` start at index `start`: per child, in the order of
   * `ChildEntries`, its mesh node (the first of its span) and its folder node
   * (the last of its span).
   */
  function ChildIndices(cfg: Config, nf: real, f: Item, i: nat, start: nat): seq<nat>
    requires i <= |f.children|
    decreases |f.children| - i
  {
    if i == |f.children| then []
    else
      var c := f.children[i];
      var mesh := if Exported(cfg, nf, c) then 1 else 0;
      (if mesh == 1 then [start] else [])
      + (if c.children != [] then [start + mesh + SubtreeSize(cfg, nf, c) - 1] else [])
      + ChildIndices(cfg, nf, f, i + 1, start + NodeSpan(cfg, nf, c))
  }

  /**
   * The index a folder node lists for entry `e` when its block starts at
   * `base`: a mesh entry is the first node of child `j`'s span, a folder entry
   * the last one.
   */
  function EntryIndex(cfg: Config, nf: real, f: Item, base: nat, e: ChildEntry): int
    requires e.j < |f.children|
  {
    match e
    case MeshEntry(j) => base + SpanBefore(cfg, nf, f, j)
    case FolderEntry(j) => base + SpanBefore(cfg, nf, f, j + 1) - 1
  }

  /**
   * The glTF tree of folder `f` occupies `nodes[start..start + SubtreeSize]`:
   * child `j`'s span begins after the spans of the children before it, and
   * the folder node, named after `f` and listing `ChildIndices`, comes last.
   */
  ghost predicate SubtreeAt(cfg: Config, nf: real, nodes: seq<GltfNode>, f: Item, start: nat)
    decreases f, 1
  {
    && start + SubtreeSize(cfg, nf, f) <= |nodes|
    && nodes[start + SubtreeSize(cfg, nf, f) - 1] == FolderNode(f.name, ChildIndices(cfg, nf, f, 0, start))
    && forall j | 0 <= j < |f.children| :: ChildAt(cfg, nf, nodes, f, j, start)
  }

  /**
   * The span of child `j` of `f`, whose block starts at `start`: after the
   * spans of the children before it, its mesh node, named with its
   * normalised name, if it is exported, followed by its own glTF tree if it
   * has children.
   */
  ghost predicate ChildAt(cfg: Config, nf: real, nodes: seq<GltfNode>, f: Item, j: nat, start: nat)
    requires j < |f.children|
    decreases f, 0
  {
    var c := f.children[j];
    var at := start + SpanBefore(cfg, nf, f, j);
    var mesh := if Exported(cfg, nf, c) then 1 else 0;
    && (mesh == 1 ==>
          at < |nodes| && nodes[at].mesh.Some?
          && nodes[at] == MeshNode(nodes[at].mesh.value, NormaliseMeshName(c.name)))
    && (c.children != [] ==> SubtreeAt(cfg, nf, nodes, c, at + mesh))
  }

  /** The tree facts for the loop from child `i` on, whose spans are laid out from `base`. */
  ghost predicate TreeFrom(cfg: Config, nf: real, f: Item, i: nat, base: nat, acc: seq<nat>, nodes: seq<GltfNode>)
    requires i <= |f.children|
  {
    && |nodes| == base + SubtreeSize(cfg, nf, f)
    && nodes[|nodes| - 1] == FolderNode(f.name, acc + ChildIndices(cfg, nf, f, i, base + SpanBefore(cfg, nf, f, i)))
    && forall j | i <= j < |f.children| :: ChildAt(cfg, nf, nodes, f, j, base)
  }

  /** The nodes and child indices visiting child `i` adds, with `nf` the parameter node's factor. */
  ghost predicate VisitedAt(cfg: Config, nf: real, f: Item, i: nat, w: WalkState, acc: seq<nat>, w1: WalkState, acc1: seq<nat>)
    requires i < |f.children|
  {
    var c := f.children[i];
    && w1.nodeFactor.GetOr(cfg.factor) == nf
    && (Exported(cfg, nf, c) ==>
          && w1.nodes == w.nodes + [MeshNode(|w.meshes|, NormaliseMeshName(c.name))]
          && acc1 == acc + [|w.nodes|])
    && (!Exported(cfg, nf, c) ==> w1.nodes == w.nodes && acc1 == acc)
  }

  /** A laid-out tree stays in place when more nodes are appended. */
  lemma {:induction false} SubtreeAtGrows(cfg: Config, nf: real, nodes: seq<GltfNode>, more: seq<GltfNode>, f: Item, start: nat)
    requires SubtreeAt(cfg, nf, nodes, f, start) && nodes <= more
    decreases f, 1
    ensures SubtreeAt(cfg, nf, more, f, start)
  {
    assert more[start + SubtreeSize(cfg, nf, f) - 1] == nodes[start + SubtreeSize(cfg, nf, f) - 1];
    forall j | 0 <= j < |f.children| ensures ChildAt(cfg, nf, more, f, j, start) {
      ChildAtGrows(cfg, nf, nodes, more, f, j, start);
    }
  }

  lemma {:induction false} ChildAtGrows(cfg: Config, nf: real, nodes: seq<GltfNode>, more: seq<GltfNode>, f: Item, j: nat, start: nat)
    requires j < |f.children|
    requires ChildAt(cfg, nf, nodes, f, j, start) && nodes <= more
    decreases f, 0
    ensures ChildAt(cfg, nf, more, f, j, start)
  {
    var c := f.children[j];
    var at := start + SpanBefore(cfg, nf, f, j);
    var mesh := if Exported(cfg, nf, c) then 1 else 0;
    if mesh == 1 {
      assert more[at] == nodes[at];
    }
    if c.children != [] {
      SubtreeAtGrows(cfg, nf, nodes, more, c, at + mesh);
    }
  }

  /**
   * The walk of `f` appends exactly its glTF tree: `SubtreeSize` nodes, laid
   * out as `SubtreeAt` says from the first new index. So each index a folder
   * node lists is the mesh node appended when its child was visited, or the
   * last node of that child's own sub-walk, at every depth.
   */
  lemma {:induction false} WalkFolderTree(cfg: Config, w: WalkState, f: Item)
    requires WalkFolder(cfg, w, f).Ok?
    decreases f, 1
    ensures var r := WalkFolder(cfg, w, f).value;
      var nf := w.nodeFactor.GetOr(cfg.factor);
      && |r.nodes| == |w.nodes| + SubtreeSize(cfg, nf, f)
      && SubtreeAt(cfg, nf, r.nodes, f, |w.nodes|)
  {
    var nf := w.nodeFactor.GetOr(cfg.factor);
    WalkChildrenTree(cfg, w, f, 0, [], |w.nodes|);
    assert [] + ChildIndices(cfg, nf, f, 0, |w.nodes|) == ChildIndices(cfg, nf, f, 0, |w.nodes|);
  }

  lemma {:induction false} WalkChildrenTree(cfg: Config, w: WalkState, f: Item, i: nat, acc: seq<nat>, base: nat)
    requires i <= |f.children|
    requires |w.nodes| == base + SpanBefore(cfg, w.nodeFactor.GetOr(cfg.factor), f, i)
    requires WalkChildren(cfg, w, f, i, acc).Ok?
    decreases f, 0, |f.children| - i, 1
    ensures TreeFrom(cfg, w.nodeFactor.GetOr(cfg.factor), f, i, base, acc, WalkChildren(cfg, w, f, i, acc).value.nodes)
  {
    if i == |f.children| {
      assert acc + [] == acc;
    } else {
      var c := f.children[i];
      var (w1, acc1) := VisitItem(cfg, w, c, acc);
      VisitItemSpec(cfg, w, c, acc);
      if c.children == [] {
        LeafTree(cfg, w, f, i, acc, base, w1, acc1);
      } else {
        var w2 := WalkFolder(cfg, w1, c).value;
        assert WalkChildren(cfg, w, f, i, acc) == WalkChildren(cfg, w2, f, i + 1, acc1 + [|w2.nodes| - 1]);
        NestedTree(cfg, w, f, i, acc, base, w1, acc1, w2);
      }
    }
  }

  /** WalkChildrenTree past a child without children of its own. */
  lemma {:induction false} LeafTree(cfg: Config, w: WalkState, f: Item, i: nat, acc: seq<nat>, base: nat,
                                    w1: WalkState, acc1: seq<nat>)
    requires i < |f.children| && f.children[i].children == []
    requires |w.nodes| == base + SpanBefore(cfg, w.nodeFactor.GetOr(cfg.factor), f, i)
    requires VisitedAt(cfg, w.nodeFactor.GetOr(cfg.factor), f, i, w, acc, w1, acc1)
    requires WalkChildren(cfg, w1, f, i + 1, acc1).Ok?
    decreases f, 0, |f.children| - i, 0
    ensures TreeFrom(cfg, w.nodeFactor.GetOr(cfg.factor), f, i, base, acc, WalkChildren(cfg, w1, f, i + 1, acc1).value.nodes)
  {
    var nf := w.nodeFactor.GetOr(cfg.factor);
    WalkChildrenTree(cfg, w1, f, i + 1, acc1, base);
    WalkChildrenKeeps(cfg, w1, f, i + 1, acc1);
    var r := WalkChildren(cfg, w1, f, i + 1, acc1).value;
    VisitChildAt(cfg, nf, f, i, base, w, acc, w1, acc1, r.nodes);
    assert acc1 + [] == acc1;
    AssembleTree(cfg, nf, f, i, base, acc, r.nodes);
  }

  /** WalkChildrenTree past a child with children, whose sub-walk from `w1` ends in `w2`. */
  lemma {:induction false} NestedTree(cfg: Config, w: WalkState, f: Item, i: nat, acc: seq<nat>, base: nat,
                                      w1: WalkState, acc1: seq<nat>, w2: WalkState)
    requires i < |f.children| && f.children[i].children != []
    requires |w.nodes| == base + SpanBefore(cfg, w.nodeFactor.GetOr(cfg.factor), f, i)
    requires VisitedAt(cfg, w.nodeFactor.GetOr(cfg.factor), f, i, w, acc, w1, acc1)
    requires WalkFolder(cfg, w1, f.children[i]) == Ok(w2)
    requires WalkChildren(cfg, w2, f, i + 1, acc1 + [|w2.nodes| - 1]).Ok?
    decreases f, 0, |f.children| - i, 0
    ensures TreeFrom(cfg, w.nodeFactor.GetOr(cfg.factor), f, i, base, acc,
                     WalkChildren(cfg, w2, f, i + 1, acc1 + [|w2.nodes| - 1]).value.nodes)
  {
    var nf := w.nodeFactor.GetOr(cfg.factor);
    var c := f.children[i];
    WalkFolderTree(cfg, w1, c);
    WalkFolderKeeps(cfg, w1, c);
    var acc2 := acc1 + [|w2.nodes| - 1];
    WalkChildrenTree(cfg, w2, f, i + 1, acc2, base);
    WalkChildrenKeeps(cfg, w2, f, i + 1, acc2);
    var r := WalkChildren(cfg, w2, f, i + 1, acc2).value;
    SubtreeAtGrows(cfg, nf, w2.nodes, r.nodes, c, |w1.nodes|);
    PrefixTransitiveNodes(w1.nodes, w2.nodes, r.nodes);
    VisitChildAt(cfg, nf, f, i, base, w, acc, w1, acc1, r.nodes);
    AssembleTree(cfg, nf, f, i, base, acc, r.nodes);
  }

  /** What visiting child `i` leaves for the tree facts: the child's span from `|w.nodes|`, and its mesh index in `acc1`. */
  lemma VisitChildAt(cfg: Config, nf: real, f: Item, i: nat, base: nat, w: WalkState, acc: seq<nat>, w1: WalkState, acc1: seq<nat>,
                     nodes: seq<GltfNode>)
    requires i < |f.children|
    requires |w.nodes| == base + SpanBefore(cfg, nf, f, i)
    requires VisitedAt(cfg, nf, f, i, w, acc, w1, acc1)
    requires w1.nodes <= nodes
    requires f.children[i].children != [] ==> SubtreeAt(cfg, nf, nodes, f.children[i], |w1.nodes|)
    ensures ChildAt(cfg, nf, nodes, f, i, base)
    ensures var mesh := if Exported(cfg, nf, f.children[i]) then 1 else 0;
      && |w1.nodes| == |w.nodes| + mesh
      && acc1 == acc + (if mesh == 1 then [|w.nodes|] else [])
  {
    if Exported(cfg, nf, f.children[i]) {
      assert nodes[|w.nodes|] == w1.nodes[|w.nodes|];
    } else {
      assert acc + [] == acc;
    }
  }

  /** The tree facts for children `i..` from the span of child `i` and the tree facts for children `i + 1..`. */
  lemma AssembleTree(cfg: Config, nf: real, f: Item, i: nat, base: nat, acc: seq<nat>, nodes: seq<GltfNode>)
    requires i < |f.children|
    requires var c := f.children[i];
      var start := base + SpanBefore(cfg, nf, f, i);
      var mesh := if Exported(cfg, nf, c) then 1 else 0;
      && ChildAt(cfg, nf, nodes, f, i, base)
      && TreeFrom(cfg, nf, f, i + 1, base,
                  acc + (if mesh == 1 then [start] else [])
                  + (if c.children != [] then [start + mesh + SubtreeSize(cfg, nf, c) - 1] else []), nodes)
    ensures TreeFrom(cfg, nf, f, i, base, acc, nodes)
  {
    RootFrom(cfg, nf, f, i, base, acc, nodes[|nodes| - 1]);
    ChildrenFrom(cfg, nf, f, i, base, nodes);
  }

  /** The folder node lists, after `acc`, child `i`'s indices and then those of children `i + 1..`. */
  lemma RootFrom(cfg: Config, nf: real, f: Item, i: nat, base: nat, acc: seq<nat>, root: GltfNode)
    requires i < |f.children|
    requires var c := f.children[i];
      var start := base + SpanBefore(cfg, nf, f, i);
      var mesh := if Exported(cfg, nf, c) then 1 else 0;
      root == FolderNode(f.name, acc + (if mesh == 1 then [start] else [])
                                 + (if c.children != [] then [start + mesh + SubtreeSize(cfg, nf, c) - 1] else [])
                                 + ChildIndices(cfg, nf, f, i + 1, base + SpanBefore(cfg, nf, f, i + 1)))
    ensures root == FolderNode(f.name, acc + ChildIndices(cfg, nf, f, i, base + SpanBefore(cfg, nf, f, i)))
  {
    var c := f.children[i];
    var start := base + SpanBefore(cfg, nf, f, i);
    var mesh := if Exported(cfg, nf, c) then 1 else 0;
    var front: seq<nat> := if mesh == 1 then [start] else [];
    var folder: seq<nat> := if c.children != [] then [start + mesh + SubtreeSize(cfg, nf, c) - 1] else [];
    assert base + SpanBefore(cfg, nf, f, i + 1) == start + NodeSpan(cfg, nf, c);
    ChildIndicesNext(cfg, nf, f, i, start);
    Regroup(acc, front, folder, ChildIndices(cfg, nf, f, i + 1, start + NodeSpan(cfg, nf, c)));
  }

  /** The spans of children `i..` from that of child `i` and those of children `i + 1..`. */
  lemma ChildrenFrom(cfg: Config, nf: real, f: Item, i: nat, base: nat, nodes: seq<GltfNode>)
    requires i < |f.children|
    requires ChildAt(cfg, nf, nodes, f, i, base)
    requires forall j | i + 1 <= j < |f.children| :: ChildAt(cfg, nf, nodes, f, j, base)
    ensures forall j | i <= j < |f.children| :: ChildAt(cfg, nf, nodes, f, j, base)
  {
    forall j | i <= j < |f.children| ensures ChildAt(cfg, nf, nodes, f, j, base) {
      if j != i {
        assert i + 1 <= j;
      }
    }
  }

  lemma Regroup(acc: seq<nat>, front: seq<nat>, mid: seq<nat>, rest: seq<nat>)
    ensures acc + front + mid + rest == acc + (front + mid + rest)
  {
  }

  lemma ChildIndicesNext(cfg: Config, nf: real, f: Item, i: nat, start: nat)
    requires i < |f.children|
    ensures var c := f.children[i];
      var mesh := if Exported(cfg, nf, c) then 1 else 0;
      ChildIndices(cfg, nf, f, i, start)
        == (if mesh == 1 then [start] else [])
           + (if c.children != [] then [start + mesh + SubtreeSize(cfg, nf, c) - 1] else [])
           + ChildIndices(cfg, nf, f, i + 1, start + NodeSpan(cfg, nf, c))
  {
  }

  /** `ch` holds, for each entry of `es` in order, its `EntryIndex` in a block starting at `base`. */
  predicate IndexedBy(cfg: Config, nf: real, f: Item, base: nat, es: seq<ChildEntry>, ch: seq<nat>)
  {
    && |ch| == |es|
    && forall k | 0 <= k < |es| :: es[k].j < |f.children| && ch[k] == EntryIndex(cfg, nf, f, base, es[k])
  }

  lemma IndexedByConcat(cfg: Config, nf: real, f: Item, base: nat, es: seq<ChildEntry>, ch: seq<nat>,
                        es': seq<ChildEntry>, ch': seq<nat>)
    requires IndexedBy(cfg, nf, f, base, es, ch) && IndexedBy(cfg, nf, f, base, es', ch')
    ensures IndexedBy(cfg, nf, f, base, es + es', ch + ch')
  {
    forall k | |es| <= k < |es + es'|
      ensures (es + es')[k].j < |f.children| && (ch + ch')[k] == EntryIndex(cfg, nf, f, base, (es + es')[k])
    {
      assert (es + es')[k] == es'[k - |es|] && (ch + ch')[k] == ch'[k - |es|];
    }
  }

  /** `ChildIndices` holds, for each entry `ChildEntries` enumerates, in order, its `EntryIndex`. */
  lemma {:induction false} ChildIndicesEntries(cfg: Config, nf: real, f: Item, i: nat, base: nat)
    requires i <= |f.children|
    decreases |f.children| - i
    ensures IndexedBy(cfg, nf, f, base, ChildEntries(cfg, nf, f, i), ChildIndices(cfg, nf, f, i, base + SpanBefore(cfg, nf, f, i)))
  {
    if i < |f.children| {
      ChildIndicesEntries(cfg, nf, f, i + 1, base);
      IndexedByStep(cfg, nf, f, i, base);
    }
  }

  /** The indices of child `i`'s entries, put before those of children `i + 1..`, give those of children `i..`. */
  lemma IndexedByStep(cfg: Config, nf: real, f: Item, i: nat, base: nat)
    requires i < |f.children|
    requires IndexedBy(cfg, nf, f, base, ChildEntries(cfg, nf, f, i + 1), ChildIndices(cfg, nf, f, i + 1, base + SpanBefore(cfg, nf, f, i + 1)))
    ensures IndexedBy(cfg, nf, f, base, ChildEntries(cfg, nf, f, i), ChildIndices(cfg, nf, f, i, base + SpanBefore(cfg, nf, f, i)))
  {
    var c := f.children[i];
    var start := base + SpanBefore(cfg, nf, f, i);
    var mesh := if Exported(cfg, nf, c) then 1 else 0;
    assert SpanBefore(cfg, nf, f, i + 1) == SpanBefore(cfg, nf, f, i) + NodeSpan(cfg, nf, c);
    ChildIndicesNext(cfg, nf, f, i, start);
    ChildEntriesNext(cfg, nf, f, i);
    var head: seq<ChildEntry> := (if mesh == 1 then [MeshEntry(i)] else []) + (if c.children != [] then [FolderEntry(i)] else []);
    var front: seq<nat> := (if mesh == 1 then [start] else [])
                           + (if c.children != [] then [start + mesh + SubtreeSize(cfg, nf, c) - 1] else []);
    assert IndexedBy(cfg, nf, f, base, head, front);
    IndexedByConcat(cfg, nf, f, base, head, front,
                    ChildEntries(cfg, nf, f, i + 1), ChildIndices(cfg, nf, f, i + 1, base + SpanBefore(cfg, nf, f, i + 1)));
  }

  /** The spans of the children before `j` fit within the spans of the children before `k >= j`. */
  lemma {:induction false} SpanBeforeMono(cfg: Config, nf: real, f: Item, j: nat, k: nat)
    requires j <= k <= |f.children|
    decreases k - j
    ensures SpanBefore(cfg, nf, f, j) <= SpanBefore(cfg, nf, f, k)
  {
    if j < k {
      SpanBeforeMono(cfg, nf, f, j, k - 1);
    }
  }

  /**
   * In a laid-out tree, the index of a mesh entry holds the child's mesh node
   * and the index of a folder entry the child's folder node, both inside the
   * block and before the folder node of `f` itself.
   */
  lemma EntryIndexNode(cfg: Config, nf: real, nodes: seq<GltfNode>, f: Item, base: nat, e: ChildEntry)
    requires SubtreeAt(cfg, nf, nodes, f, base)
    requires e.j < |f.children|
    requires e.MeshEntry? ==> Exported(cfg, nf, f.children[e.j])
    requires e.FolderEntry? ==> f.children[e.j].children != []
    ensures base <= EntryIndex(cfg, nf, f, base, e) < base + SubtreeSize(cfg, nf, f) - 1
    ensures EntryNode(f, e, nodes[EntryIndex(cfg, nf, f, base, e)])
  {
    var j := e.j;
    var c := f.children[j];
    assert ChildAt(cfg, nf, nodes, f, j, base);
    assert SpanBefore(cfg, nf, f, j + 1) == SpanBefore(cfg, nf, f, j) + NodeSpan(cfg, nf, c);
    SpanBeforeMono(cfg, nf, f, j + 1, |f.children|);
    if e.FolderEntry? {
      var mesh := if Exported(cfg, nf, c) then 1 else 0;
      var at := base + SpanBefore(cfg, nf, f, j) + mesh;
      assert SubtreeAt(cfg, nf, nodes, c, at);
      assert EntryIndex(cfg, nf, f, base, e) == at + SubtreeSize(cfg, nf, c) - 1;
    }
  }

  /**
   * The folder node a walk appends lists exactly one index per entry of
   * `ChildEntries`, and that index is the entry's `EntryIndex`: the mesh node
   * appended when child `j` was visited, or the last node, that is the folder
   * node, of child `j`'s own sub-walk.
   */
  lemma WalkFolderEntryIndices(cfg: Config, w: WalkState, f: Item)
    requires WalkFolder(cfg, w, f).Ok?
    ensures var r := WalkFolder(cfg, w, f).value;
      var nf := w.nodeFactor.GetOr(cfg.factor);
      var es := ChildEntries(cfg, nf, f, 0);
      var ch := r.nodes[|r.nodes| - 1].children;
      && |r.nodes| == |w.nodes| + SubtreeSize(cfg, nf, f)
      && SubtreeAt(cfg, nf, r.nodes, f, |w.nodes|)
      && ch.Some? && IndexedBy(cfg, nf, f, |w.nodes|, es, ch.value)
      && forall k | 0 <= k < |es| :: |w.nodes| <= ch.value[k] < |r.nodes| - 1 && EntryNode(f, es[k], r.nodes[ch.value[k]])
  {
    var r := WalkFolder(cfg, w, f).value;
    var nf := w.nodeFactor.GetOr(cfg.factor);
    var es := ChildEntries(cfg, nf, f, 0);
    WalkFolderTree(cfg, w, f);
    ChildIndicesEntries(cfg, nf, f, 0, |w.nodes|);
    ChildEntriesSound(cfg, nf, f, 0);
    forall k | 0 <= k < |es|
      ensures |w.nodes| <= r.nodes[|r.nodes| - 1].children.value[k] < |r.nodes| - 1
      ensures EntryNode(f, es[k], r.nodes[r.nodes[|r.nodes| - 1].children.value[k]])
    {
      assert es[k] in es;
      EntryIndexNode(cfg, nf, r.nodes, f, |w.nodes|, es[k]);
    }
  }
}
