/**
 * The export logic of the OpenAnatomy exporter: the recursive walk over a
 * subject hierarchy folder that renders every model and records, in post-order,
 * the glTF mesh and node entries of the folder tree; and exportModel, which
 * validates its arguments, runs the walk and patches the glTF document the
 * exporter wrote.
 *
 * The decimation module and the normals filter are external: they are the
 * functions of a Capabilities value. Subject hierarchy items are values.
 */
module OpenAnatomyExport {
  import opened Wrappers
  import opened ExportPolicy

  /** The kind of data node under a subject hierarchy item. */
  datatype ItemKind = ModelItem | PlaneItem | OtherItem

  /**
   * A subject hierarchy item: its id (0 is the invalid id), its name, the kind
   * of its data node, the polydata of its model (for a markups plane, the plane
   * model made from it) and its children in order.
   */
  datatype Item = Item(id: nat, name: string, kind: ItemKind, geometry: Mesh, children: seq<Item>)

  /** A glTF node entry: `name`, and `mesh`, `children` or `matrix` when present. */
  datatype GltfNode = GltfNode(name: string, mesh: Option<nat>, children: Option<seq<nat>>, matrix: Option<seq<real>>)

  function MeshNode(mesh: nat, name: string): GltfNode
  {
    GltfNode(name, Some(mesh), None, None)
  }

  function FolderNode(name: string, children: seq<nat>): GltfNode
  {
    GltfNode(name, None, Some(children), None)
  }

  /** Polydata of a node that holds none. */
  const NoMesh: Mesh := Mesh(0, 0, 0, 0, 0, None, false)

  /** The decimation module run with a given reduction factor, and the normals filter. */
  datatype Capabilities = Capabilities(decimate: (Mesh, real) -> Mesh, computeNormals: Mesh -> Mesh)

  /**
   * The logic's reduction factor and export-to-file flag during one walk, and
   * whether each model is its own output node (`inPlace`: the models of a
   * segmentation, which are found by name in the output folder).
   */
  datatype Config = Config(factor: real, toFile: bool, inPlace: bool, caps: Capabilities)

  /**
   * What the walk changes: the processed-model counter, the reduction factor
   * of the decimation parameter node (None until the node is created), the
   * renderer's actors and the glTF node and mesh records.
   */
  datatype WalkState = WalkState(processed: nat, nodeFactor: Option<real>, actors: seq<Mesh>,
                                 nodes: seq<GltfNode>, meshes: seq<string>)

  datatype ExportError = NoOutputFolder | UnsupportedInput | NoSuchFolder | UnsupportedFormat | MalformedDocument

  // ---------------------------------------------------------------------------
  // The walk, as functions

  /**
   * The polydata copied or decimated into the output model. When the output
   * node is the input node, the normals put back after decimation land on the
   * decimated polydata.
   */
  function DecimatedModel(cfg: Config, nodeFactor: real, m: Mesh): Mesh
  {
    match Decimation(cfg.factor, nodeFactor, m)
    case CopyInput => m
    case RunDecimator(input, f) =>
      var d := cfg.caps.decimate(input, f);
      if cfg.inPlace && NeedsNormalsWorkaround(m) then d.(normals := m.normals) else d
  }

  /** The output polydata after normals are computed: what is exported. */
  function ExportedModel(cfg: Config, nodeFactor: real, m: Mesh): Mesh
  {
    cfg.caps.computeNormals(DecimatedModel(cfg, nodeFactor, m))
  }

  /** addModelToRenderer on one model: the new state and whether the model is exported. */
  function ModelStep(cfg: Config, w: WalkState, m: Mesh): (WalkState, bool)
  {
    var nf := w.nodeFactor.GetOr(cfg.factor);
    var out := ExportedModel(cfg, nf, m);
    var w1 := w.(nodeFactor := Some(nf));
    if IsEmptyModel(out) then (w1, false)
    else if !cfg.toFile then (w1, true)
    else (w1.(actors := w1.actors + [out]), true)
  }

  /**
   * One child of the folder: a model or plane is counted and rendered, and if it
   * is exported its mesh record and mesh node are appended and the node's
   * index joins the folder's children `acc`.
   */
  function VisitItem(cfg: Config, w: WalkState, c: Item, acc: seq<nat>): (WalkState, seq<nat>)
  {
    if c.kind == OtherItem then (w, acc)
    else
      var step := ModelStep(cfg, w.(processed := w.processed + 1), c.geometry);
      var w1 := step.0;
      if !step.1 then (w1, acc)
      else
        var name := NormaliseMeshName(c.name);
        (w1.(meshes := w1.meshes + [name], nodes := w1.nodes + [MeshNode(|w1.meshes|, name)]),
         acc + [|w1.nodes|])
  }

  /** addModelsToRenderer on folder `f`. */
  function WalkFolder(cfg: Config, w: WalkState, f: Item): (r: Result<WalkState, ExportError>)
    decreases f, 1
    ensures r.Ok? ==> |w.nodes| < |r.value.nodes|
  {
    if f.id == 0 then Err(NoSuchFolder) else WalkChildren(cfg, w, f, 0, [])
  }

  /**
   * The loop of addModelsToRenderer from child `i` on, with the folder's child
   * node indices `acc` collected so far; the folder node is appended last.
   */
  function WalkChildren(cfg: Config, w: WalkState, f: Item, i: nat, acc: seq<nat>): (r: Result<WalkState, ExportError>)
    requires i <= |f.children|
    decreases f, 0, |f.children| - i
    ensures r.Ok? ==> |w.nodes| < |r.value.nodes|
  {
    if i == |f.children| then Ok(w.(nodes := w.nodes + [FolderNode(f.name, acc)]))
    else
      var c := f.children[i];
      var (w1, acc1) := VisitItem(cfg, w, c, acc);
      assert |w.nodes| <= |w1.nodes|;
      if c.children == [] then WalkChildren(cfg, w1, f, i + 1, acc1)
      else
        match WalkFolder(cfg, w1, c)
        case Err(e) => Err(e)
        case Ok(w2) => WalkChildren(cfg, w2, f, i + 1, acc1 + [|w2.nodes| - 1])
  }

  // ---------------------------------------------------------------------------
  // Properties of the walk

  /** An exported model gets a mesh record and a mesh node; a rejected one leaves no trace but the counter. */
  lemma VisitItemSpec(cfg: Config, w: WalkState, c: Item, acc: seq<nat>)
    ensures c.kind == OtherItem ==> VisitItem(cfg, w, c, acc) == (w, acc)
    ensures c.kind != OtherItem ==>
      var (v, a) := VisitItem(cfg, w, c, acc);
      var nf := w.nodeFactor.GetOr(cfg.factor);
      var out := ExportedModel(cfg, nf, c.geometry);
      var name := NormaliseMeshName(c.name);
      && v.processed == w.processed + 1
      && v.nodeFactor == Some(nf)
      && (IsEmptyModel(out) ==> v.nodes == w.nodes && v.meshes == w.meshes && v.actors == w.actors && a == acc)
      && (!IsEmptyModel(out) ==>
            && v.meshes == w.meshes + [name]
            && v.nodes == w.nodes + [MeshNode(|w.meshes|, name)]
            && a == acc + [|w.nodes|]
            && v.actors == (if cfg.toFile then w.actors + [out] else w.actors))
  {
  }

  /** Folder items addModelsToRenderer is called on: `f` and every descendant that has children. */
  predicate FolderIdsValid(f: Item)
    decreases f
  {
    f.id != 0 && forall k | 0 <= k < |f.children| :: f.children[k].children != [] ==> FolderIdsValid(f.children[k])
  }

  /** The walk fails exactly when some folder it enters has the invalid id, and then with ValueError. */
  lemma {:induction false} WalkFolderOk(cfg: Config, w: WalkState, f: Item)
    decreases f, 1
    ensures WalkFolder(cfg, w, f).Ok? <==> FolderIdsValid(f)
    ensures WalkFolder(cfg, w, f).Err? ==> WalkFolder(cfg, w, f).error == NoSuchFolder
  {
    if f.id != 0 {
      WalkChildrenOk(cfg, w, f, 0, []);
    }
  }

  lemma WalkFolderError(cfg: Config, w: WalkState, f: Item)
    ensures WalkFolder(cfg, w, f).Err? ==> WalkFolder(cfg, w, f).error == NoSuchFolder
  {
    WalkFolderOk(cfg, w, f);
  }

  lemma {:induction false} WalkChildrenOk(cfg: Config, w: WalkState, f: Item, i: nat, acc: seq<nat>)
    requires i <= |f.children|
    decreases f, 0, |f.children| - i
    ensures WalkChildren(cfg, w, f, i, acc).Ok? <==>
      forall k | i <= k < |f.children| :: f.children[k].children != [] ==> FolderIdsValid(f.children[k])
    ensures WalkChildren(cfg, w, f, i, acc).Err? ==> WalkChildren(cfg, w, f, i, acc).error == NoSuchFolder
  {
    if i < |f.children| {
      var c := f.children[i];
      var (w1, acc1) := VisitItem(cfg, w, c, acc);
      if c.children == [] {
        WalkChildrenOk(cfg, w1, f, i + 1, acc1);
      } else {
        WalkFolderOk(cfg, w1, c);
        if WalkFolder(cfg, w1, c).Ok? {
          var w2 := WalkFolder(cfg, w1, c).value;
          WalkChildrenOk(cfg, w2, f, i + 1, acc1 + [|w2.nodes| - 1]);
        }
      }
    }
  }

  predicate Increasing(s: seq<nat>)
  {
    forall j, k | 0 <= j < k < |s| :: s[j] < s[k]
  }

  /** Every node the walk appends is a mesh node or a folder node, without a matrix. */
  predicate WellFormedNode(n: GltfNode)
  {
    n.matrix.None? && (n.mesh.Some? <==> n.children.None?)
  }

  /** Number of nodes that reference a mesh. */
  function MeshNodeCount(nodes: seq<GltfNode>): nat
  {
    if nodes == [] then 0
    else MeshNodeCount(nodes[..|nodes| - 1]) + (if nodes[|nodes| - 1].mesh.Some? then 1 else 0)
  }

  /**
   * Meshes and mesh nodes correspond one to one: there are as many mesh nodes
   * as meshes, each mesh node names its mesh, and mesh nodes reference meshes
   * in increasing order.
   */
  predicate Lockstep(nodes: seq<GltfNode>, meshes: seq<string>)
  {
    && MeshNodeCount(nodes) == |meshes|
    && (forall k | 0 <= k < |nodes| && nodes[k].mesh.Some? ::
          nodes[k].mesh.value < |meshes| && meshes[nodes[k].mesh.value] == nodes[k].name)
    && (forall j, k | 0 <= j < k < |nodes| && nodes[j].mesh.Some? && nodes[k].mesh.Some? ::
          nodes[j].mesh.value < nodes[k].mesh.value)
  }

  lemma LockstepAppendMesh(nodes: seq<GltfNode>, meshes: seq<string>, name: string)
    requires Lockstep(nodes, meshes)
    ensures Lockstep(nodes + [MeshNode(|meshes|, name)], meshes + [name])
  {
    var nodes' := nodes + [MeshNode(|meshes|, name)];
    assert nodes'[..|nodes|] == nodes;
  }

  lemma LockstepAppendFolder(nodes: seq<GltfNode>, meshes: seq<string>, name: string, children: seq<nat>)
    requires Lockstep(nodes, meshes)
    ensures Lockstep(nodes + [FolderNode(name, children)], meshes)
  {
    var nodes' := nodes + [FolderNode(name, children)];
    assert nodes'[..|nodes|] == nodes;
  }

  /** From `w` to `r` the records only grow, stay in lockstep, and every new node is well formed. */
  ghost predicate Grows(w: WalkState, r: WalkState)
  {
    && w.nodes <= r.nodes && w.meshes <= r.meshes && w.actors <= r.actors
    && Lockstep(r.nodes, r.meshes)
    && forall k | |w.nodes| <= k < |r.nodes| :: WellFormedNode(r.nodes[k])
  }

  lemma GrowsTransitive(w: WalkState, v: WalkState, r: WalkState)
    requires Grows(w, v) && Grows(v, r)
    ensures Grows(w, r)
  {
    forall k | |w.nodes| <= k < |r.nodes| ensures WellFormedNode(r.nodes[k]) {
      if k < |v.nodes| {
        assert r.nodes[k] == v.nodes[k];
      }
    }
  }

  /**
   * The last node of `r` is the folder node named `name`; its children start
   * with `acc` and are increasing indices of nodes appended from index `base`
   * on, all before it.
   */
  ghost predicate FolderRoot(r: WalkState, base: nat, name: string, acc: seq<nat>)
  {
    && base < |r.nodes|
    && var root := r.nodes[|r.nodes| - 1];
    && root.children.Some?
    && root == FolderNode(name, root.children.value)
    && acc <= root.children.value
    && Increasing(root.children.value)
    && forall k | 0 <= k < |root.children.value| :: base <= root.children.value[k] < |r.nodes| - 1
  }

  lemma VisitItemGrows(cfg: Config, w: WalkState, c: Item, acc: seq<nat>)
    requires Lockstep(w.nodes, w.meshes)
    ensures Grows(w, VisitItem(cfg, w, c, acc).0)
  {
    VisitItemSpec(cfg, w, c, acc);
    if VisitItem(cfg, w, c, acc).0.nodes != w.nodes {
      LockstepAppendMesh(w.nodes, w.meshes, NormaliseMeshName(c.name));
    }
  }

  /**
   * Records only grow: a call keeps every node, mesh and actor present before
   * it, keeps meshes and mesh nodes in lockstep, and appends only mesh nodes
   * and folder nodes.
   */
  lemma {:induction false} WalkFolderGrows(cfg: Config, w: WalkState, f: Item)
    requires Lockstep(w.nodes, w.meshes)
    requires WalkFolder(cfg, w, f).Ok?
    decreases f, 1
    ensures Grows(w, WalkFolder(cfg, w, f).value)
  {
    WalkChildrenGrows(cfg, w, f, 0, []);
  }

  lemma {:induction false} WalkChildrenGrows(cfg: Config, w: WalkState, f: Item, i: nat, acc: seq<nat>)
    requires i <= |f.children|
    requires Lockstep(w.nodes, w.meshes)
    requires WalkChildren(cfg, w, f, i, acc).Ok?
    decreases f, 0, |f.children| - i
    ensures Grows(w, WalkChildren(cfg, w, f, i, acc).value)
  {
    if i == |f.children| {
      LockstepAppendFolder(w.nodes, w.meshes, f.name, acc);
    } else {
      var c := f.children[i];
      var (w1, acc1) := VisitItem(cfg, w, c, acc);
      VisitItemGrows(cfg, w, c, acc);
      if c.children == [] {
        WalkChildrenGrows(cfg, w1, f, i + 1, acc1);
        GrowsTransitive(w, w1, WalkChildren(cfg, w1, f, i + 1, acc1).value);
      } else {
        var w2 := WalkFolder(cfg, w1, c).value;
        WalkFolderGrows(cfg, w1, c);
        GrowsTransitive(w, w1, w2);
        var acc2 := acc1 + [|w2.nodes| - 1];
        WalkChildrenGrows(cfg, w2, f, i + 1, acc2);
        GrowsTransitive(w, w2, WalkChildren(cfg, w2, f, i + 1, acc2).value);
      }
    }
  }

  /**
   * Post-order: a call appends its folder node last, after every node of its
   * subtree, and the folder node lists, in child order, increasing indices of
   * nodes the call appended before it.
   */
  lemma WalkFolderRoot(cfg: Config, w: WalkState, f: Item)
    requires WalkFolder(cfg, w, f).Ok?
    ensures FolderRoot(WalkFolder(cfg, w, f).value, |w.nodes|, f.name, [])
  {
    WalkChildrenRoot(cfg, w, f, 0, [], |w.nodes|);
  }

  lemma VisitItemIndices(cfg: Config, w: WalkState, c: Item, acc: seq<nat>, base: nat)
    requires Increasing(acc) && forall k | 0 <= k < |acc| :: base <= acc[k] < |w.nodes|
    requires base <= |w.nodes|
    ensures var (v, a) := VisitItem(cfg, w, c, acc);
      && |w.nodes| <= |v.nodes|
      && acc <= a && Increasing(a)
      && forall k | 0 <= k < |a| :: base <= a[k] < |v.nodes|
  {
    VisitItemSpec(cfg, w, c, acc);
  }

  lemma {:induction false} WalkChildrenRoot(cfg: Config, w: WalkState, f: Item, i: nat, acc: seq<nat>, base: nat)
    requires i <= |f.children|
    requires base <= |w.nodes|
    requires Increasing(acc) && forall k | 0 <= k < |acc| :: base <= acc[k] < |w.nodes|
    requires WalkChildren(cfg, w, f, i, acc).Ok?
    decreases |f.children| - i, 1
    ensures FolderRoot(WalkChildren(cfg, w, f, i, acc).value, base, f.name, acc)
  {
    if i < |f.children| {
      var c := f.children[i];
      var (w1, acc1) := VisitItem(cfg, w, c, acc);
      VisitItemIndices(cfg, w, c, acc, base);
      if c.children == [] {
        LeafRoot(cfg, f, i, acc, base, w1, acc1);
      } else {
        var w2 := WalkFolder(cfg, w1, c).value;
        assert WalkChildren(cfg, w, f, i, acc) == WalkChildren(cfg, w2, f, i + 1, acc1 + [|w2.nodes| - 1]);
        NestedRoot(cfg, f, i, acc, base, w1, acc1, w2);
      }
    }
  }

  /** WalkChildrenRoot past a child without children of its own. */
  lemma {:induction false} LeafRoot(cfg: Config, f: Item, i: nat, acc: seq<nat>, base: nat, w1: WalkState, acc1: seq<nat>)
    requires i < |f.children|
    requires base <= |w1.nodes|
    requires acc <= acc1 && Increasing(acc1) && forall k | 0 <= k < |acc1| :: base <= acc1[k] < |w1.nodes|
    requires WalkChildren(cfg, w1, f, i + 1, acc1).Ok?
    decreases |f.children| - i, 0
    ensures FolderRoot(WalkChildren(cfg, w1, f, i + 1, acc1).value, base, f.name, acc)
  {
    WalkChildrenRoot(cfg, w1, f, i + 1, acc1, base);
    var r := WalkChildren(cfg, w1, f, i + 1, acc1).value;
    PrefixTransitive(acc, acc1, r.nodes[|r.nodes| - 1].children.value);
  }

  /** WalkChildrenRoot past a child with children, whose folder node is the last node of `w2`. */
  lemma {:induction false} NestedRoot(cfg: Config, f: Item, i: nat, acc: seq<nat>, base: nat, w1: WalkState, acc1: seq<nat>, w2: WalkState)
    requires i < |f.children|
    requires base <= |w1.nodes| < |w2.nodes|
    requires acc <= acc1 && Increasing(acc1) && forall k | 0 <= k < |acc1| :: base <= acc1[k] < |w1.nodes|
    requires WalkChildren(cfg, w2, f, i + 1, acc1 + [|w2.nodes| - 1]).Ok?
    decreases |f.children| - i, 0
    ensures FolderRoot(WalkChildren(cfg, w2, f, i + 1, acc1 + [|w2.nodes| - 1]).value, base, f.name, acc)
  {
    var acc2 := acc1 + [|w2.nodes| - 1];
    assert Increasing(acc2);
    WalkChildrenRoot(cfg, w2, f, i + 1, acc2, base);
    var r := WalkChildren(cfg, w2, f, i + 1, acc2).value;
    PrefixTransitive(acc, acc2, r.nodes[|r.nodes| - 1].children.value);
  }

  lemma PrefixTransitive(a: seq<nat>, b: seq<nat>, c: seq<nat>)
    requires a <= b && b <= c
    ensures a <= c
  {
    assert c[..|a|] == b[..|a|];
  }

  /** Whether child `c` of a folder gets a mesh node, with `nf` the parameter node's factor. */
  predicate Exported(cfg: Config, nf: real, c: Item)
  {
    c.kind != OtherItem && !IsEmptyModel(ExportedModel(cfg, nf, c.geometry))
  }

  /** What one entry of a folder node's children stands for: the mesh node or the folder node of child `j`. */
  datatype ChildEntry = MeshEntry(j: nat) | FolderEntry(j: nat)

  /**
   * The entries a folder node lists for children `i..` of `f`: for each child
   * in order, its mesh node if it is exported, then its folder node if it has
   * children of its own.
   */
  function ChildEntries(cfg: Config, nf: real, f: Item, i: nat): seq<ChildEntry>
    requires i <= |f.children|
    decreases |f.children| - i
  {
    if i == |f.children| then []
    else
      var c := f.children[i];
      (if Exported(cfg, nf, c) then [MeshEntry(i)] else [])
      + (if c.children != [] then [FolderEntry(i)] else [])
      + ChildEntries(cfg, nf, f, i + 1)
  }

  lemma ChildEntriesNext(cfg: Config, nf: real, f: Item, i: nat)
    requires i < |f.children|
    ensures ChildEntries(cfg, nf, f, i) ==
      (if Exported(cfg, nf, f.children[i]) then [MeshEntry(i)] else [])
      + (if f.children[i].children != [] then [FolderEntry(i)] else [])
      + ChildEntries(cfg, nf, f, i + 1)
  {
  }

  /** Node `n` is what entry `e` stands for among the children of `f`. */
  predicate EntryNode(f: Item, e: ChildEntry, n: GltfNode)
  {
    e.j < |f.children| &&
    match e
    case MeshEntry(j) => n.mesh.Some? && n == MeshNode(n.mesh.value, NormaliseMeshName(f.children[j].name))
    case FolderEntry(j) => n.children.Some? && n == FolderNode(f.children[j].name, n.children.value)
  }

  /** The entries of children `i..` of `f` are mesh nodes of exported children and folder nodes of children with children. */
  lemma {:induction false} ChildEntriesSound(cfg: Config, nf: real, f: Item, i: nat)
    requires i <= |f.children|
    decreases |f.children| - i
    ensures forall e | e in ChildEntries(cfg, nf, f, i) ::
      && i <= e.j < |f.children|
      && (e.MeshEntry? ==> Exported(cfg, nf, f.children[e.j]))
      && (e.FolderEntry? ==> f.children[e.j].children != [])
  {
    if i < |f.children| {
      var c := f.children[i];
      var head := (if Exported(cfg, nf, c) then [MeshEntry(i)] else []) + (if c.children != [] then [FolderEntry(i)] else []);
      var es := ChildEntries(cfg, nf, f, i);
      var tail := ChildEntries(cfg, nf, f, i + 1);
      assert es == head + tail;
      ChildEntriesSound(cfg, nf, f, i + 1);
    }
  }

  /** Every exported child has its mesh entry and every child with children its folder entry. */
  lemma {:induction false} ChildEntriesComplete(cfg: Config, nf: real, f: Item, i: nat)
    requires i <= |f.children|
    decreases |f.children| - i
    ensures forall j | i <= j < |f.children| :: Exported(cfg, nf, f.children[j]) ==> MeshEntry(j) in ChildEntries(cfg, nf, f, i)
    ensures forall j | i <= j < |f.children| :: f.children[j].children != [] ==> FolderEntry(j) in ChildEntries(cfg, nf, f, i)
  {
    if i < |f.children| {
      ChildEntriesComplete(cfg, nf, f, i + 1);
    }
  }

  /** Entry `a` is listed before entry `b`: an earlier child, or the mesh node before the folder node of one child. */
  predicate EntryBefore(a: ChildEntry, b: ChildEntry)
  {
    a.j < b.j || (a.j == b.j && a.MeshEntry? && b.FolderEntry?)
  }

  /** Each entry is listed before every later one. */
  predicate Ordered(es: seq<ChildEntry>)
  {
    forall k, l | 0 <= k < l < |es| :: EntryBefore(es[k], es[l])
  }

  /** Entries follow child order, and a child's mesh entry comes before its folder entry. */
  lemma {:induction false} ChildEntriesOrdered(cfg: Config, nf: real, f: Item, i: nat)
    requires i <= |f.children|
    decreases |f.children| - i
    ensures Ordered(ChildEntries(cfg, nf, f, i))
  {
    if i < |f.children| {
      var c := f.children[i];
      var tail := ChildEntries(cfg, nf, f, i + 1);
      ChildEntriesOrdered(cfg, nf, f, i + 1);
      ChildEntriesSound(cfg, nf, f, i + 1);
      OrderedCons(i, Exported(cfg, nf, c), c.children != [], tail);
    }
  }

  /** The entries of one child, put before ordered entries of later children, stay ordered. */
  lemma OrderedCons(i: nat, mesh: bool, folder: bool, tail: seq<ChildEntry>)
    requires Ordered(tail)
    requires forall e | e in tail :: i < e.j
    ensures Ordered((if mesh then [MeshEntry(i)] else []) + (if folder then [FolderEntry(i)] else []) + tail)
  {
    var head := (if mesh then [MeshEntry(i)] else []) + (if folder then [FolderEntry(i)] else []);
    var es := head + tail;
    forall k, l | 0 <= k < l < |es| ensures EntryBefore(es[k], es[l]) {
      if l < |head| {
        assert head == [MeshEntry(i), FolderEntry(i)];
      } else if k < |head| {
        assert es[k].j == i;
        assert es[l] == tail[l - |head|];
      } else {
        assert es[k] == tail[k - |head|] && es[l] == tail[l - |head|];
      }
    }
  }

  /** A walk keeps the nodes already recorded and the parameter node's factor. */
  lemma {:induction false} WalkFolderKeeps(cfg: Config, w: WalkState, f: Item)
    requires WalkFolder(cfg, w, f).Ok?
    decreases f, 1
    ensures w.nodes <= WalkFolder(cfg, w, f).value.nodes
    ensures WalkFolder(cfg, w, f).value.nodeFactor.GetOr(cfg.factor) == w.nodeFactor.GetOr(cfg.factor)
  {
    WalkChildrenKeeps(cfg, w, f, 0, []);
  }

  lemma {:induction false} WalkChildrenKeeps(cfg: Config, w: WalkState, f: Item, i: nat, acc: seq<nat>)
    requires i <= |f.children|
    requires WalkChildren(cfg, w, f, i, acc).Ok?
    decreases f, 0, |f.children| - i
    ensures w.nodes <= WalkChildren(cfg, w, f, i, acc).value.nodes
    ensures WalkChildren(cfg, w, f, i, acc).value.nodeFactor.GetOr(cfg.factor) == w.nodeFactor.GetOr(cfg.factor)
  {
    if i < |f.children| {
      var c := f.children[i];
      var (w1, acc1) := VisitItem(cfg, w, c, acc);
      VisitItemSpec(cfg, w, c, acc);
      if c.children == [] {
        WalkChildrenKeeps(cfg, w1, f, i + 1, acc1);
        PrefixTransitiveNodes(w.nodes, w1.nodes, WalkChildren(cfg, w1, f, i + 1, acc1).value.nodes);
      } else {
        var w2 := WalkFolder(cfg, w1, c).value;
        WalkFolderKeeps(cfg, w1, c);
        WalkChildrenKeeps(cfg, w2, f, i + 1, acc1 + [|w2.nodes| - 1]);
        PrefixTransitiveNodes(w.nodes, w1.nodes, w2.nodes);
        PrefixTransitiveNodes(w.nodes, w2.nodes, WalkChildren(cfg, w2, f, i + 1, acc1 + [|w2.nodes| - 1]).value.nodes);
      }
    }
  }

  lemma PrefixTransitiveNodes(a: seq<GltfNode>, b: seq<GltfNode>, c: seq<GltfNode>)
    requires a <= b && b <= c
    ensures a <= c
  {
    assert c[..|a|] == b[..|a|];
  }

  // ---------------------------------------------------------------------------
  // Counting

  /** Number of model and plane items below `f` that the walk visits. */
  function CountModels(f: Item): nat
    decreases f, 1
  {
    CountModelsFrom(f, 0)
  }

  function CountModelsFrom(f: Item, i: nat): nat
    requires i <= |f.children|
    decreases f, 0, |f.children| - i
  {
    if i == |f.children| then 0
    else
      var c := f.children[i];
      (if c.kind != OtherItem then 1 else 0) + (if c.children != [] then CountModels(c) else 0) + CountModelsFrom(f, i + 1)
  }

  /** Number of folders the walk enters: `f` and every descendant with children. */
  function CountFolders(f: Item): nat
    decreases f, 1
  {
    1 + CountFoldersFrom(f, 0)
  }

  function CountFoldersFrom(f: Item, i: nat): nat
    requires i <= |f.children|
    decreases f, 0, |f.children| - i
  {
    if i == |f.children| then 0
    else (if f.children[i].children != [] then CountFolders(f.children[i]) else 0) + CountFoldersFrom(f, i + 1)
  }

  /**
   * Counting: every model or plane is counted once; at most that many meshes
   * are appended; the nodes appended are the mesh nodes plus one folder node
   * per folder entered; each exported mesh has one actor when writing to a
   * file, and the renderer is untouched otherwise.
   */
  lemma {:induction false} WalkFolderCounts(cfg: Config, w: WalkState, f: Item)
    requires WalkFolder(cfg, w, f).Ok?
    decreases f, 1
    ensures var r := WalkFolder(cfg, w, f).value;
      && r.processed == w.processed + CountModels(f)
      && |w.meshes| <= |r.meshes| <= |w.meshes| + CountModels(f)
      && |r.nodes| == |w.nodes| + (|r.meshes| - |w.meshes|) + CountFolders(f)
      && |r.actors| == |w.actors| + (if cfg.toFile then |r.meshes| - |w.meshes| else 0)
  {
    WalkChildrenCounts(cfg, w, f, 0, []);
  }

  lemma {:induction false} WalkChildrenCounts(cfg: Config, w: WalkState, f: Item, i: nat, acc: seq<nat>)
    requires i <= |f.children|
    requires WalkChildren(cfg, w, f, i, acc).Ok?
    decreases f, 0, |f.children| - i
    ensures var r := WalkChildren(cfg, w, f, i, acc).value;
      && r.processed == w.processed + CountModelsFrom(f, i)
      && |w.meshes| <= |r.meshes| <= |w.meshes| + CountModelsFrom(f, i)
      && |r.nodes| == |w.nodes| + (|r.meshes| - |w.meshes|) + 1 + CountFoldersFrom(f, i)
      && |r.actors| == |w.actors| + (if cfg.toFile then |r.meshes| - |w.meshes| else 0)
  {
    if i < |f.children| {
      var c := f.children[i];
      var (w1, acc1) := VisitItem(cfg, w, c, acc);
      VisitItemSpec(cfg, w, c, acc);
      if c.children == [] {
        WalkChildrenCounts(cfg, w1, f, i + 1, acc1);
      } else {
        var w2 := WalkFolder(cfg, w1, c).value;
        WalkFolderCounts(cfg, w1, c);
        WalkChildrenCounts(cfg, w2, f, i + 1, acc1 + [|w2.nodes| - 1]);
      }
    }
  }

  // ---------------------------------------------------------------------------
  // The camera-node loop

  /** A Python value, as far as the camera-node test needs one. */
  datatype PyValue = PyInt(i: int) | PyStr(s: string) | PyDict(keys: seq<string>)

  /** The keys of a node dictionary. */
  function NodeKeys(n: GltfNode): seq<string>
  {
    ["name"] + (if n.mesh.Some? then ["mesh"] else []) + (if n.children.Some? then ["children"] else [])
    + (if n.matrix.Some? then ["matrix"] else [])
  }

  /**
   * `'camera' in node` where `node` comes from `enumerate`: membership in an
   * (index, dictionary) pair compares the string with the two elements, so it
   * is false whatever keys the dictionary has, a "camera" key included.
   */
  lemma CameraTestNeverHolds(i: int, keys: seq<string>)
    ensures PyStr("camera") !in [PyInt(i), PyDict(keys)]
  {
  }

  // ---------------------------------------------------------------------------
  // The glTF document

  /** A mesh entry: its name and the rest of the entry, which the fix-up does not touch. */
  datatype JsonMesh = JsonMesh(name: string, primitives: seq<nat>)

  /** A material entry: pbrMetallicRoughness.baseColorFactor (when present) and alphaMode. */
  datatype Material = Material(baseColorFactor: Option<seq<real>>, alphaMode: string)

  /** A material whose alpha can be read: it has a color with at least four entries. */
  predicate HasAlpha(m: Material)
  {
    m.baseColorFactor.Some? && |m.baseColorFactor.value| >= 4
  }

  predicate Translucent(m: Material)
    requires HasAlpha(m)
  {
    m.baseColorFactor.value[3] < 1.0
  }

  function Blended(m: Material): Material
    requires HasAlpha(m)
  {
    if Translucent(m) then m.(alphaMode := "BLEND") else m
  }

  /** Index of the first material whose alpha cannot be read, or the count when there is none. */
  function FirstWithoutAlpha(ms: seq<Material>): (b: nat)
    ensures b <= |ms|
    ensures forall k | 0 <= k < b :: HasAlpha(ms[k])
    ensures b < |ms| ==> !HasAlpha(ms[b])
  {
    if ms == [] || !HasAlpha(ms[0]) then 0 else 1 + FirstWithoutAlpha(ms[1..])
  }

  /** Mesh `i` named after record `i`, for every record that has a mesh. */
  function RenamedMeshes(meshes: seq<JsonMesh>, names: seq<string>): seq<JsonMesh>
  {
    seq(|meshes|, i requires 0 <= i < |meshes| => if i < |names| then meshes[i].(name := names[i]) else meshes[i])
  }

  /** The materials after the alpha loop: fixed up to the first one whose alpha cannot be read. */
  function BlendedMaterials(ms: seq<Material>): seq<Material>
  {
    var b := FirstWithoutAlpha(ms);
    seq(|ms|, k requires 0 <= k < |ms| => if k < b then Blended(ms[k]) else ms[k])
  }

  /** The parts of the glTF JSON document the fix-up reads or writes. */
  datatype DocState = DocState(meshes: seq<JsonMesh>, materials: seq<Material>, nodes: seq<GltfNode>,
                               scenes: seq<seq<nat>>, generator: string)

  /**
   * The fix-up of the written document with the walk's mesh names and nodes.
   * It raises when there are more mesh records than meshes, when a material's
   * alpha cannot be read, or when the document has no scene.
   */
  function FixUp(d: DocState, names: seq<string>, nodes: seq<GltfNode>, unit: string, generator: string): Result<DocState, ExportError>
    requires nodes != []
  {
    if |names| > |d.meshes| || FirstWithoutAlpha(d.materials) < |d.materials| || d.scenes == [] then Err(MalformedDocument)
    else
      Ok(DocState(RenamedMeshes(d.meshes, names), BlendedMaterials(d.materials),
                  WithRootMatrix(nodes, ScaleToMeters(unit).0), d.scenes[0 := [|nodes| - 1]], generator))
  }

  /** The node list with the root matrix set on its last node. */
  function WithRootMatrix(nodes: seq<GltfNode>, scale: real): (r: seq<GltfNode>)
    requires nodes != []
    ensures |r| == |nodes| && r[..|r| - 1] == nodes[..|nodes| - 1]
    ensures r[|r| - 1].matrix == Some(RootMatrix(scale))
    ensures r[|r| - 1].(matrix := None) == nodes[|nodes| - 1].(matrix := None)
  {
    nodes[|nodes| - 1 := nodes[|nodes| - 1].(matrix := Some(RootMatrix(scale)))]
  }

  /**
   * What the fix-up promises: mesh names set by position and nothing else of a
   * mesh changed; a material gets BLEND exactly when its alpha is below 1 and
   * is otherwise untouched; the node list is the walk's, with the unit-scale
   * root matrix on the last node; scene 0 shows only the root; the generator
   * is set.
   */
  lemma FixUpSpec(d: DocState, names: seq<string>, nodes: seq<GltfNode>, unit: string, generator: string)
    requires nodes != []
    ensures FixUp(d, names, nodes, unit, generator).Ok? <==>
      |names| <= |d.meshes| && (forall k | 0 <= k < |d.materials| :: HasAlpha(d.materials[k])) && d.scenes != []
    ensures FixUp(d, names, nodes, unit, generator).Ok? ==>
      var e := FixUp(d, names, nodes, unit, generator).value;
      && |e.meshes| == |d.meshes|
      && (forall i | 0 <= i < |names| :: e.meshes[i].name == names[i])
      && (forall i | 0 <= i < |e.meshes| :: e.meshes[i].primitives == d.meshes[i].primitives)
      && (forall i | |names| <= i < |e.meshes| :: e.meshes[i] == d.meshes[i])
      && |e.materials| == |d.materials|
      && (forall k | 0 <= k < |e.materials| ::
            && e.materials[k].baseColorFactor == d.materials[k].baseColorFactor
            && e.materials[k].alphaMode ==
                 if d.materials[k].baseColorFactor.value[3] < 1.0 then "BLEND" else d.materials[k].alphaMode)
      && |e.nodes| == |nodes| && e.nodes[..|nodes| - 1] == nodes[..|nodes| - 1]
      && e.nodes[|nodes| - 1].matrix == Some(RootMatrix(ScaleToMeters(unit).0))
      && |e.scenes| == |d.scenes| && e.scenes[0] == [|e.nodes| - 1] && e.scenes[1..] == d.scenes[1..]
      && e.generator == generator
  {
    if FixUp(d, names, nodes, unit, generator).Ok? {
      var e := FixUp(d, names, nodes, unit, generator).value;
      assert e.scenes[1..] == d.scenes[1..];
    }
  }

  /** The glTF JSON document read back after writing. */
  class GltfDocument {
    var meshes: seq<JsonMesh>
    var materials: seq<Material>
    var nodes: seq<GltfNode>
    var scenes: seq<seq<nat>>
    var generator: string

    constructor (d: DocState)
      ensures State() == d
    {
      meshes := d.meshes;
      materials := d.materials;
      nodes := d.nodes;
      scenes := d.scenes;
      generator := d.generator;
    }

    function State(): DocState
      reads this
    {
      DocState(meshes, materials, nodes, scenes, generator)
    }

    /**
     * Mesh `i` takes the name of record `i`. With more records than meshes the
     * loop raises IndexError after renaming every mesh.
     */
    method RenameMeshes(names: seq<string>) returns (ok: bool)
      modifies this`meshes
      ensures ok <==> |names| <= |old(meshes)|
      ensures meshes == RenamedMeshes(old(meshes), names)
    {
      for i := 0 to |names|
        invariant |meshes| == |old(meshes)|
        invariant i <= |meshes|
        invariant forall k | 0 <= k < |meshes| ::
          meshes[k] == if k < i then old(meshes[k]).(name := names[k]) else old(meshes[k])
      {
        if i == |meshes| {
          return false;
        }
        meshes := meshes[i := meshes[i].(name := names[i])];
      }
      return true;
    }

    /**
     * Every material with alpha below 1 gets alphaMode BLEND; the others are
     * untouched. A material without a readable alpha raises, after the
     * materials before it were fixed.
     */
    method FixAlphaModes() returns (ok: bool)
      modifies this`materials
      ensures ok <==> FirstWithoutAlpha(old(materials)) == |old(materials)|
      ensures materials == BlendedMaterials(old(materials))
    {
      ghost var b := FirstWithoutAlpha(materials);
      for i := 0 to |materials|
        invariant |materials| == |old(materials)|
        invariant i <= b
        invariant forall k | 0 <= k < |materials| ::
          materials[k] == if k < i then Blended(old(materials[k])) else old(materials[k])
      {
        var rgba := materials[i].baseColorFactor;
        if rgba.None? || |rgba.value| < 4 {
          return false;
        }
        if rgba.value[3] < 1.0 {
          materials := materials[i := materials[i].(alphaMode := "BLEND")];
        }
      }
      return true;
    }
  }

  // ---------------------------------------------------------------------------
  // The logic object

  /** A model node; the walk only reads and restores its polydata. */
  class ModelNode {
    var polyData: Mesh

    constructor (m: Mesh)
      ensures polyData == m
    {
      polyData := m;
    }
  }

  /** What the host supplies to exportModel. */
  datatype Environment = Environment(
    caps: Capabilities,
    /** The id CreateFolderItem gives the folder that receives a segmentation's models. */
    createdFolderId: nat,
    /** The model items ExportAllSegmentsToModels puts in that folder. */
    exportSegments: Item -> seq<Item>,
    /** The suffix of the scene's length unit. */
    lengthUnit: string,
    /** Application name and version. */
    generator: string)

  datatype Outcome = WroteGltf(unitWarning: bool) | WroteObj | SceneOnly

  /** The folder exportModel walks, by the owner plugin of the input item. */
  function InputFolder(input: Item, owner: string, env: Environment): Option<Item>
  {
    if owner == "Folder" then Some(input)
    else if owner == "Segmentations" then
      Some(Item(env.createdFolderId, input.name + "_Models", OtherItem, NoMesh, env.exportSegments(input)))
    else None
  }

  class ExportLogic {
    var reductionFactor: real
    var exportToFile: bool
    var processed: nat
    /** The reductionFactor parameter of the decimation parameter node, once the node exists. */
    var nodeFactor: Option<real>
    /** The polydata of the renderer's actors. */
    var actors: seq<Mesh>
    var gltfNodes: seq<GltfNode>
    var gltfMeshes: seq<string>
    /** Whether the output folder is the input folder, so each model is its own output node. */
    var reuseInputNodes: bool

    constructor ()
      ensures reductionFactor == 0.9 && exportToFile && processed == 0 && nodeFactor.None?
      ensures actors == [] && gltfNodes == [] && gltfMeshes == []
    {
      reductionFactor := 0.9;
      exportToFile := true;
      processed := 0;
      nodeFactor := None;
      actors := [];
      gltfNodes := [];
      gltfMeshes := [];
      reuseInputNodes := false;
    }

    function State(): WalkState
      reads this
    {
      WalkState(processed, nodeFactor, actors, gltfNodes, gltfMeshes)
    }

    function Settings(caps: Capabilities): Config
      reads this`reductionFactor, this`exportToFile, this`reuseInputNodes
    {
      Config(reductionFactor, exportToFile, reuseInputNodes, caps)
    }

    /**
     * Decimates (or copies) the input model into the output model, computes
     * normals and, when writing to a file, adds an actor. The input's normals
     * are removed for the decimator when the workaround applies and are
     * restored afterwards: a separate input is unchanged when the call returns.
     * Input and output are the same node exactly when the logic reuses input
     * nodes.
     */
    method AddModelToRenderer(input: ModelNode, output: ModelNode, caps: Capabilities) returns (added: bool)
      requires (input == output) == reuseInputNodes
      modifies this`nodeFactor, this`actors, input, output
      ensures input != output ==> input.polyData == old(input.polyData)
      ensures (State(), added) == ModelStep(Settings(caps), old(State()), old(input.polyData))
      ensures var nf := old(nodeFactor).GetOr(reductionFactor);
        output.polyData == if added && exportToFile then ExportedModel(Settings(caps), nf, old(input.polyData))
                           else DecimatedModel(Settings(caps), nf, old(input.polyData))
    {
      if nodeFactor.None? {
        nodeFactor := Some(reductionFactor);
      }
      if SkipDecimation(reductionFactor, input.polyData) {
        output.polyData := input.polyData;
      } else {
        var originalNormals: Option<nat> := None;
        if NeedsNormalsWorkaround(input.polyData) {
          originalNormals := input.polyData.normals;
          input.polyData := input.polyData.(normals := None);
        }
        output.polyData := caps.decimate(input.polyData, nodeFactor.value);
        if originalNormals.Some? {
          input.polyData := input.polyData.(normals := originalNormals);
        }
      }
      var outputPolyData := caps.computeNormals(output.polyData);
      if IsEmptyModel(outputPolyData) {
        return false;
      }
      if !exportToFile {
        return true;
      }
      output.polyData := outputPolyData;
      actors := actors + [outputPolyData];
      return true;
    }

    /**
     * The first half of the loop body of addModelsToRenderer: a model or plane
     * child is counted and rendered and, when exported, gets a mesh record and
     * a mesh node, whose index joins the folder's children.
     */
    method AddChildModel(c: Item, caps: Capabilities, children: seq<nat>) returns (updated: seq<nat>)
      modifies this`processed, this`nodeFactor, this`actors, this`gltfNodes, this`gltfMeshes
      ensures (State(), updated) == VisitItem(Settings(caps), old(State()), c, children)
    {
      updated := children;
      if c.kind != OtherItem {
        processed := processed + 1;
        var input := new ModelNode(c.geometry);
        var output := input;
        if !reuseInputNodes {
          output := new ModelNode(NoMesh);
        }
        var added := AddModelToRenderer(input, output, caps);
        if added {
          var name := NormaliseMeshName(c.name);
          var meshIndex := |gltfMeshes|;
          gltfMeshes := gltfMeshes + [name];
          var nodeIndex := |gltfNodes|;
          gltfNodes := gltfNodes + [MeshNode(meshIndex, name)];
          updated := updated + [nodeIndex];
        }
      }
    }

    /** Renders every model below folder `f` and records the folder's glTF nodes in post-order. */
    method AddModelsToRenderer(f: Item, caps: Capabilities) returns (r: Result<(), ExportError>)
      modifies this`processed, this`nodeFactor, this`actors, this`gltfNodes, this`gltfMeshes
      decreases f
      ensures r.Ok? <==> WalkFolder(Settings(caps), old(State()), f).Ok?
      ensures r.Ok? ==> State() == WalkFolder(Settings(caps), old(State()), f).value
      ensures r.Err? ==> r.error == WalkFolder(Settings(caps), old(State()), f).error
    {
      if f.id == 0 {
        return Err(NoSuchFolder);
      }
      ghost var spec := WalkFolder(Settings(caps), State(), f);
      var children: seq<nat> := [];
      for i := 0 to |f.children|
        invariant spec == WalkChildren(Settings(caps), State(), f, i, children)
      {
        var c := f.children[i];
        children := AddChildModel(c, caps, children);
        if |c.children| > 0 {
          ghost var mid := State();
          var sub := AddModelsToRenderer(c, caps);
          if sub.Err? {
            return sub;
          }
          assert |mid.nodes| < |gltfNodes|;
          children := children + [|gltfNodes| - 1];
        }
      }
      gltfNodes := gltfNodes + [FolderNode(f.name, children)];
      return Ok(());
    }

    /** The camera-node loop: its membership test never holds, so it appends nothing. */
    method AddCameraNodes()
      modifies this`gltfNodes
      ensures gltfNodes == old(gltfNodes)
    {
      var i := 0;
      while i < |gltfNodes|
        invariant i <= |gltfNodes| && gltfNodes == old(gltfNodes)
      {
        var node := [PyInt(i), PyDict(NodeKeys(gltfNodes[i]))];
        if PyStr("camera") in node {
          assert false;
        }
        i := i + 1;
      }
    }

    /**
     * The glTF fix-up of exportModel. The node list becomes shared with the
     * document, so the root matrix also lands in the logic's own node records.
     */
    method PatchDocument(doc: GltfDocument, env: Environment) returns (r: Result<bool, ExportError>)
      requires gltfNodes != []
      modifies this`gltfNodes, doc
      ensures r.Ok? <==> FixUp(old(doc.State()), gltfMeshes, old(gltfNodes), env.lengthUnit, env.generator).Ok?
      ensures r.Err? ==> r.error == MalformedDocument
      ensures r.Ok? ==> r.value == ScaleToMeters(env.lengthUnit).1
      ensures r.Ok? ==> doc.State() == FixUp(old(doc.State()), gltfMeshes, old(gltfNodes), env.lengthUnit, env.generator).value
      ensures r.Ok? ==> gltfNodes == doc.nodes
    {
      var renamed := doc.RenameMeshes(gltfMeshes);
      if !renamed {
        return Err(MalformedDocument);
      }
      var fixed := doc.FixAlphaModes();
      if !fixed {
        return Err(MalformedDocument);
      }
      AddCameraNodes();
      doc.nodes := gltfNodes;
      var rootNodeIndex := |doc.nodes| - 1;
      var (scale, warning) := ScaleToMeters(env.lengthUnit);
      doc.nodes := doc.nodes[rootNodeIndex := doc.nodes[rootNodeIndex].(matrix := Some(RootMatrix(scale)))];
      gltfNodes := doc.nodes;
      if |doc.scenes| == 0 {
        return Err(MalformedDocument);
      }
      doc.scenes := doc.scenes[0 := [rootNodeIndex]];
      doc.generator := env.generator;
      return Ok(warning);
    }

    /** The walk of exportModel, from a zero counter and empty node and mesh records. */
    method WalkFromScratch(folder: Item, caps: Capabilities) returns (walked: Result<(), ExportError>)
      modifies this`processed, this`nodeFactor, this`actors, this`gltfNodes, this`gltfMeshes
      ensures var walk := WalkFolder(Settings(caps), WalkState(0, old(nodeFactor), old(actors), [], []), folder);
        && (walked.Ok? <==> walk.Ok?)
        && (walk.Ok? ==> State() == walk.value)
        && (walk.Err? ==> walked == Err(NoSuchFolder) && walk.error == NoSuchFolder)
    {
      processed := 0;
      gltfNodes := [];
      gltfMeshes := [];
      ghost var start := State();
      walked := AddModelsToRenderer(folder, caps);
      WalkFolderError(Settings(caps), start, folder);
    }

    /** The export-format branch of exportModel, after the walk. */
    method WriteOutput(fmt: string, doc: GltfDocument, env: Environment) returns (r: Result<Outcome, ExportError>)
      requires gltfNodes != []
      modifies this`gltfNodes, doc
      ensures !exportToFile ==> r == Ok(SceneOnly)
      ensures exportToFile && fmt !in {"glTF", "OBJ"} ==> r == Err(UnsupportedFormat)
      ensures exportToFile && fmt == "OBJ" ==> r == Ok(WroteObj)
      ensures exportToFile && fmt == "glTF" ==>
        var fixed := FixUp(old(doc.State()), gltfMeshes, old(gltfNodes), env.lengthUnit, env.generator);
        && (fixed.Err? <==> r == Err(MalformedDocument))
        && (fixed.Ok? ==> r == Ok(WroteGltf(ScaleToMeters(env.lengthUnit).1)) && doc.State() == fixed.value && gltfNodes == doc.nodes)
      ensures !(exportToFile && fmt == "glTF") ==> gltfNodes == old(gltfNodes) && doc.State() == old(doc.State())
    {
      if !exportToFile {
        return Ok(SceneOnly);
      }
      if fmt == "glTF" {
        var patched := PatchDocument(doc, env);
        if patched.Err? {
          return Err(patched.error);
        }
        return Ok(WroteGltf(patched.value));
      } else if fmt == "OBJ" {
        return Ok(WroteObj);
      }
      return Err(UnsupportedFormat);
    }

    /**
     * The part of exportModel after the arguments are checked: the walk, the
     * format branch, and the release of the counter, renderer and decimation
     * parameter node on success.
     */
    method ExportFolder(folder: Item, fmt: string, env: Environment, doc: GltfDocument) returns (r: Result<Outcome, ExportError>)
      modifies this`processed, this`nodeFactor, this`actors, this`gltfNodes, this`gltfMeshes, doc
      ensures var walk := WalkFolder(Settings(env.caps), WalkState(0, old(nodeFactor), old(actors), [], []), folder);
        && (walk.Err? ==> r == Err(walk.error))
        && (walk.Ok? && exportToFile && fmt !in {"glTF", "OBJ"} ==> r == Err(UnsupportedFormat))
        && (walk.Ok? && exportToFile && fmt == "glTF" ==>
              var fixed := FixUp(old(doc.State()), walk.value.meshes, walk.value.nodes, env.lengthUnit, env.generator);
              && (fixed.Err? <==> r == Err(MalformedDocument))
              && (fixed.Ok? ==> r == Ok(WroteGltf(ScaleToMeters(env.lengthUnit).1)) && doc.State() == fixed.value && gltfNodes == doc.nodes))
        && (walk.Ok? && exportToFile && fmt == "OBJ" ==> r == Ok(WroteObj))
        && (walk.Ok? && !exportToFile ==> r == Ok(SceneOnly))
        && (r.Ok? ==> walk.Ok? && gltfMeshes == walk.value.meshes)
        && (r.Ok? && !r.value.WroteGltf? ==> gltfNodes == walk.value.nodes && doc.State() == old(doc.State()))
      ensures r.Err? ==> r.error in {NoSuchFolder, UnsupportedFormat, MalformedDocument}
      ensures r.Ok? ==> processed == 0 && nodeFactor.None? && actors == []
    {
      var walked := WalkFromScratch(folder, env.caps);
      if walked.Err? {
        return Err(walked.error);
      }
      var written := WriteOutput(fmt, doc, env);
      if written.Err? {
        return written;
      }
      processed := 0;
      actors := [];
      nodeFactor := None;
      return written;
    }

    /**
     * exportModel: validates the arguments, walks the input folder from fresh
     * node and mesh records, and for glTF patches the written document; the
     * counter, the renderer and the decimation parameter node are released
     * at the end.
     */
    method ExportModel(input: Item, owner: string, outputFolder: Option<string>, factor: Option<real>,
                       format: Option<string>, env: Environment, doc: GltfDocument) returns (r: Result<Outcome, ExportError>)
      modifies this, doc
      ensures reductionFactor == factor.GetOr(old(reductionFactor))
      ensures exportToFile <==> format.GetOr("glTF") != "scene"
      ensures r == Err(NoOutputFolder) <==> exportToFile && outputFolder.None?
      ensures !(exportToFile && outputFolder.None?) && InputFolder(input, owner, env).None? ==> r == Err(UnsupportedInput)
      ensures !(exportToFile && outputFolder.None?) && InputFolder(input, owner, env).Some? ==>
        var walk := WalkFolder(Settings(env.caps), WalkState(0, old(nodeFactor), old(actors), [], []), InputFolder(input, owner, env).value);
        && (walk.Err? ==> r == Err(walk.error))
        && (walk.Ok? && exportToFile && format.GetOr("glTF") !in {"glTF", "OBJ"} ==> r == Err(UnsupportedFormat))
        && (walk.Ok? && exportToFile && format.GetOr("glTF") == "glTF" ==>
              var fixed := FixUp(old(doc.State()), walk.value.meshes, walk.value.nodes, env.lengthUnit, env.generator);
              && (fixed.Err? <==> r == Err(MalformedDocument))
              && (fixed.Ok? ==> r == Ok(WroteGltf(ScaleToMeters(env.lengthUnit).1)) && doc.State() == fixed.value && gltfNodes == doc.nodes))
        && (walk.Ok? && exportToFile && format.GetOr("glTF") == "OBJ" ==> r == Ok(WroteObj))
        && (walk.Ok? && !exportToFile ==> r == Ok(SceneOnly))
        && (r.Ok? ==> walk.Ok? && gltfMeshes == walk.value.meshes)
        && (r.Ok? && !r.value.WroteGltf? ==> gltfNodes == walk.value.nodes && doc.State() == old(doc.State()))
      ensures r.Ok? ==> processed == 0 && nodeFactor.None? && actors == []
      ensures !(exportToFile && outputFolder.None?) && InputFolder(input, owner, env).Some? ==>
        (reuseInputNodes <==> owner == "Segmentations")
    {
      var fmt := format.GetOr("glTF");
      if factor.Some? {
        reductionFactor := factor.value;
      }
      exportToFile := fmt != "scene";
      if outputFolder.None? && exportToFile {
        return Err(NoOutputFolder);
      }
      var folder: Item;
      if owner == "Folder" {
        folder := input;
        reuseInputNodes := false;
      } else if owner == "Segmentations" {
        reuseInputNodes := true;
        folder := Item(env.createdFolderId, input.name + "_Models", OtherItem, NoMesh, env.exportSegments(input));
      } else {
        return Err(UnsupportedInput);
      }
      r := ExportFolder(folder, fmt, env, doc);
    }
  }
}
