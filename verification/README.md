# OpenAnatomy export and atlas tree, modelled in Dafny

This project models the core of SlicerOpenAnatomy, a 3D Slicer extension that
exports anatomical atlases. Three pieces of its sequential logic are modelled over
plain values: subject-hierarchy trees, ontology records, glTF documents and byte
buffers. The host application's Qt/VTK/MRML objects are replaced by those values.

- `export_policy.dfy` (module `ExportPolicy`) holds the pure rules of the
  OpenAnatomy export logic:
  - the decimation skip test;
  - the normals workaround for triangle strips;
  - the empty-model test;
  - the `^Model_[0-9]+_(.+)` mesh-name rule;
  - the length-unit scale and the LPS→LSA root matrix.
- `export_logic.dfy` (module `OpenAnatomyExport`) has two parts.
  - The walk of `addModelsToRenderer` is specified by functions
    (`WalkFolder`, `WalkChildren`, `VisitItem`) and implemented by methods of
    the class `ExportLogic`. The class's fields mirror `_gltfNodes`,
    `_gltfMeshes`, the processed counter, the decimation parameter node and the
    renderer's actors.
  - The glTF document fix-up of `exportModel` works on a `GltfDocument` object.
    `FixUp` specifies it and lemmas prove its properties.
- `export_tree.dfy` (module `OpenAnatomyTree`) states where the walk puts each
  glTF node. A folder's nodes form one block laid out child by child in
  post-order, and each index a folder node lists is exactly one child's mesh
  node or the last node of that child's own sub-walk.
- `atlas_editor.dfy` (module `AtlasEditor`) models the Atlas Editor logic.
  - `buildTopHierarchy` and `buildHierarchy` are loop methods proved equal to
    the spec functions `TopHierarchy` and `Hierarchy`.
  - `getCheckedItems` is proved equal to `CheckedMap`.
  - `updateStructureView` rebuilds the `top` field of `AtlasEditorLogic`.
- `gltf_exporter.dfy` (module `GltfExporter`) models the hand-written
  `vtkGLTFExporter`.
  - The VTK→glTF component-type map.
  - `AddVtkArrayToBuffer`, which appends to buffer 0.
  - The big-endian index encoding.
  - `AddActorToModel` on a `GltfModel` object that mirrors `tinygltf::Model`.
  - `GetPolyData`, and the prop/actor/part filter of `WriteData`.
  - The pure function `AddActor` specifies each actor's additions. The lemmas
    about it state the bufferView, accessor, mesh, node and scene bookkeeping.
- `wrappers.dfy` (module `Wrappers`): `Option` and `Result`.

Where the code departs from what its comments or the glTF 2.0 format say, the
model follows the code and a lemma states the divergence:
- Indices are written most-significant byte first. Section 3.6 of the glTF 2.0
  specification requires little-endian buffer data.
- The index accessor's `count` is the number of cells, not the number of ids.
- The index buffer offset goes through a 32-bit `int`.
- Each accessor repeats its bufferView's byte offset.
- The camera-node loop never fires.

## Model

| member | source | states |
|---|---|---|
| ExportPolicy.DecimationSpec | OpenAnatomyExport/OpenAnatomyExport.py:453-485 | The input is copied unchanged iff the factor is 0, there are fewer than 50 points, or there are lines or vertices. Otherwise the decimator gets the input with every field but the normals unchanged. Its normals are cleared when strips are present and texture coordinates are absent, and are the input's own otherwise. |
| ExportPolicy.Decimation | OpenAnatomyExport/OpenAnatomyExport.py:440-442 | The decimator runs with the parameter node's factor, which may differ from the factor the skip test reads. |
| ExportPolicy.DigitRun | OpenAnatomyExport/OpenAnatomyExport.py:406 | The longest leading run of decimal digits: every character in it is a digit and the next one is not. |
| ExportPolicy.LineHead | OpenAnatomyExport/OpenAnatomyExport.py:406 | The prefix up to the first newline, which is what `.+` can match. |
| ExportPolicy.MatchModelPrefixSound | OpenAnatomyExport/OpenAnatomyExport.py:406-407 | Every match of the name rule is a real regex match: `Model_`, one or more digits, `_`, and a non-empty captured group ending at a newline or the end of the name. |
| ExportPolicy.MatchModelPrefixComplete | OpenAnatomyExport/OpenAnatomyExport.py:406-407 | Every regex match is found, and with the captured group the regex would yield. |
| ExportPolicy.ReplaceUnderscoresSpec | OpenAnatomyExport/OpenAnatomyExport.py:408 | Every `_` becomes a space and every other character is kept, so no `_` remains. |
| ExportPolicy.NormaliseMeshNameSpec | OpenAnatomyExport/OpenAnatomyExport.py:406-408 | A matching name becomes its captured group with spaces for underscores. A name the rule does not match is kept unchanged. |
| ExportPolicy.UnprefixedNameKept | OpenAnatomyExport/OpenAnatomyExport.py:406-408 | A name not starting with `Model_` is kept, underscores included. |
| ExportPolicy.ScaleToMeters | OpenAnatomyExport/OpenAnatomyExport.py:289-297 | `mm` gives 1/1000 and every other unit gives 1. A warning is raised exactly when the unit is neither `mm` nor `m`. |
| ExportPolicy.RootMatrixMapsLpsToLsa | OpenAnatomyExport/OpenAnatomyExport.py:299-305 | The root matrix sends LPS point (x, y, z) to (s·x, s·z, −s·y), which is LSA scaled to metres. |
| ExportPolicy.RootMatrixKeepsHandedness | OpenAnatomyExport/OpenAnatomyExport.py:299-305 | The root matrix's linear part has determinant s³ > 0, so it preserves orientation (handedness). The exact map, a rotation scaled by s, is RootMatrixMapsLpsToLsa's. |
| OpenAnatomyExport.VisitItemSpec | OpenAnatomyExport/OpenAnatomyExport.py:374-417 | An item without model data is skipped. Otherwise the counter goes up by one. An empty output appends no mesh, node or actor. An exported model appends one mesh record and one mesh node named after the normalised name, and its node index joins the folder's children. An actor is added only when writing to file. |
| OpenAnatomyExport.WalkFolderOk | OpenAnatomyExport/OpenAnatomyExport.py:352-353 | The walk fails iff some visited folder has the invalid id 0, and then with "folder does not exist". |
| OpenAnatomyExport.WalkChildrenOk | OpenAnatomyExport/OpenAnatomyExport.py:419-426 | The children loop fails iff a child with children of its own has the invalid id. |
| OpenAnatomyExport.WalkFolderGrows | OpenAnatomyExport/OpenAnatomyExport.py:410-429 | The walk only appends. Meshes and mesh nodes stay one-to-one: mesh node k names mesh k, and meshes are referenced in increasing order. Every appended node is either a mesh node or a folder node. |
| OpenAnatomyExport.WalkChildrenGrows | OpenAnatomyExport/OpenAnatomyExport.py:374-429 | The same as WalkFolderGrows, for the loop from any child on. |
| OpenAnatomyExport.WalkFolderRoot | OpenAnatomyExport/OpenAnatomyExport.py:355-429 | The last node appended is the folder's own node. Its children are strictly increasing indices of nodes appended during this call, all smaller than its own index: post-order. |
| OpenAnatomyExport.WalkChildrenRoot | OpenAnatomyExport/OpenAnatomyExport.py:414-429 | The same as WalkFolderRoot, starting from the children already collected. Those children stay as a prefix. |
| OpenAnatomyTree.WalkFolderEntryIndices | OpenAnatomyExport/OpenAnatomyExport.py:355-429 | The walk of a folder appends exactly SubtreeSize nodes laid out as SubtreeAt describes. Its folder node lists one index per ChildEntries entry, in order. Each index is that entry's EntryIndex: for a mesh entry, the node appended when child j was visited; for a folder entry, the last node of child j's own sub-walk. That node is the child's mesh node (named with its normalised name) or its folder node (named after the child), inside the call's block and before the folder's own node. |
| OpenAnatomyTree.WalkFolderTree | OpenAnatomyExport/OpenAnatomyExport.py:355-429 | The walk of a folder appends SubtreeSize nodes, and they hold the folder's glTF tree at every depth: each child's span starts after its earlier siblings' spans, with its mesh node first when exported, then its own subtree when it has children, and the folder node, listing ChildIndices, last. |
| OpenAnatomyTree.WalkChildrenTree | OpenAnatomyExport/OpenAnatomyExport.py:374-429 | The same layout for the children loop from child i on, with the children already collected kept in front of the indices of children i onwards. |
| OpenAnatomyTree.ChildIndicesEntries | OpenAnatomyExport/OpenAnatomyExport.py:410-426 | The indices the layout gives children i onwards are, entry for entry, the EntryIndex of each entry ChildEntries lists for them. |
| OpenAnatomyTree.EntryIndexNode | OpenAnatomyExport/OpenAnatomyExport.py:410-426 | In a laid-out tree, a mesh entry's index holds the child's mesh node and a folder entry's index holds the child's folder node, both inside the block and before the parent's folder node. |
| OpenAnatomyTree.SubtreeAtGrows | OpenAnatomyExport/OpenAnatomyExport.py:355-429 | Appending further nodes keeps a laid-out subtree where it is. |
| OpenAnatomyExport.ChildEntriesSound | OpenAnatomyExport/OpenAnatomyExport.py:374-426 | ChildEntries holds a mesh entry only for an exported child, meaning a model or plane whose output is not empty. It holds a folder entry only for a child with children of its own. |
| OpenAnatomyExport.ChildEntriesComplete | OpenAnatomyExport/OpenAnatomyExport.py:374-426 | Every exported child has its mesh entry, and every child with children has its folder entry. |
| OpenAnatomyExport.ChildEntriesOrdered | OpenAnatomyExport/OpenAnatomyExport.py:374-426 | Entries follow child order. A child's mesh entry comes before its folder entry. |
| OpenAnatomyExport.WalkFolderKeeps | OpenAnatomyExport/OpenAnatomyExport.py:374-429 | A walk keeps the nodes already recorded as a prefix and keeps the parameter node's factor. |
| OpenAnatomyExport.VisitItemIndices | OpenAnatomyExport/OpenAnatomyExport.py:410-414 | Visiting a child only extends the folder's child list, keeps it increasing and keeps every index below the node count. |
| OpenAnatomyExport.WalkFolderCounts | OpenAnatomyExport/OpenAnatomyExport.py:387-429 | The counter goes up by the number of model items in the tree. Meshes grow by at most that number. Nodes grow by the new meshes plus one per folder. Actors grow with the meshes when writing to file. |
| OpenAnatomyExport.WalkChildrenCounts | OpenAnatomyExport/OpenAnatomyExport.py:374-429 | The same counts for the loop from any child on. |
| OpenAnatomyExport.LockstepAppendMesh | OpenAnatomyExport/OpenAnatomyExport.py:410-413 | Appending a mesh record together with a node holding the old mesh count keeps meshes and mesh nodes one-to-one. |
| OpenAnatomyExport.CameraTestNeverHolds | OpenAnatomyExport/OpenAnatomyExport.py:264-267 | `'camera' in node` on an (index, dict) pair from `enumerate` is false for every index and every key list, a `camera` key included, so the loop appends nothing. |
| OpenAnatomyExport.FirstWithoutAlpha | OpenAnatomyExport/OpenAnatomyExport.py:259-262 | The index where the alpha loop raises: every material before it has a readable alpha and the material at it does not. |
| OpenAnatomyExport.WithRootMatrix | OpenAnatomyExport/OpenAnatomyExport.py:270-305 | Only the last node (the root) changes, and only its matrix, which becomes the root matrix. |
| OpenAnatomyExport.FixUpSpec | OpenAnatomyExport/OpenAnatomyExport.py:253-310 | The fix-up succeeds iff there are no more mesh records than meshes, every material has an alpha, and there is a scene. On success, mesh i takes record i's name and keeps its other fields. Exactly the materials with alpha below 1 become `BLEND`. The nodes become the walk's nodes with the root matrix on the last. Scene 0 lists only the root. The generator is replaced. |
| OpenAnatomyExport.GltfDocument.RenameMeshes | OpenAnatomyExport/OpenAnatomyExport.py:254-255 | Renames meshes by position in place. It reports failure (the IndexError) iff there are more records than meshes. |
| OpenAnatomyExport.GltfDocument.FixAlphaModes | OpenAnatomyExport/OpenAnatomyExport.py:259-262 | Sets `BLEND` on translucent materials in place, up to the first material without an alpha, and fails iff such a material exists. |
| OpenAnatomyExport.ExportLogic.constructor | OpenAnatomyExport/OpenAnatomyExport.py:138-160 | Factor 0.9, export to file on, counters reset, no parameter node, no records. |
| OpenAnatomyExport.ExportLogic.AddModelToRenderer | OpenAnatomyExport/OpenAnatomyExport.py:435-547 | Input and output are one node exactly when the logic reuses input nodes. The state changes as ModelStep says. A separate input's polydata is the same on return, normals included. The output holds the exported polydata, or the decimated one if not exported, computed from the input as it was on entry. When input and output are one node, the normals put back after decimation land on the decimated polydata. |
| OpenAnatomyExport.ExportLogic.AddChildModel | OpenAnatomyExport/OpenAnatomyExport.py:381-417 | One loop iteration's model handling equals VisitItem. The output node is the input node when input nodes are reused, and a new node otherwise. |
| OpenAnatomyExport.ExportLogic.AddModelsToRenderer | OpenAnatomyExport/OpenAnatomyExport.py:351-432 | The recursive method succeeds iff WalkFolder does, with the same error, and leaves exactly the state WalkFolder computes. |
| OpenAnatomyExport.ExportLogic.AddCameraNodes | OpenAnatomyExport/OpenAnatomyExport.py:264-267 | The camera loop leaves the node list as it was. |
| OpenAnatomyExport.ExportLogic.PatchDocument | OpenAnatomyExport/OpenAnatomyExport.py:245-310 | Patches the document as FixUp says, fails iff FixUp fails, and reports the unit warning. The node list is shared between the document and `_gltfNodes`. |
| OpenAnatomyExport.ExportLogic.WalkFromScratch | OpenAnatomyExport/OpenAnatomyExport.py:215-220 | After resetting the counter and the records, the walk's outcome and state are those of WalkFolder from the empty records. |
| OpenAnatomyExport.ExportLogic.WriteOutput | OpenAnatomyExport/OpenAnatomyExport.py:222-310 | `scene` writes nothing. A format other than glTF or OBJ fails. OBJ leaves the records alone. glTF patches the document as FixUp says. |
| OpenAnatomyExport.ExportLogic.ExportFolder | OpenAnatomyExport/OpenAnatomyExport.py:214-338 | Walk, write and cleanup composed. On success the counter, renderer and parameter node are released. |
| OpenAnatomyExport.ExportLogic.ExportModel | OpenAnatomyExport/OpenAnatomyExport.py:178-341 | The format defaults to glTF and the factor is replaced only when given. A missing output folder fails iff writing to file. An owner other than Folder/Segmentations fails. Otherwise the walk runs on the folder (or on the folder of models made from the segmentation), and the result, records and document follow the walk and the format. Input nodes are reused exactly for a segmentation, whose output folder is its input folder. |
| AtlasEditor.BuildTopHierarchy | AtlasEditor/AtlasEditor.py:261-277 | The loop method computes TopHierarchy. |
| AtlasEditor.TopHierarchySpec | AtlasEditor/AtlasEditor.py:267-277 | Succeeds iff every `#Brain_Atlas` record has a name and members. The groups are the concatenation, in document order, of their member lists. The top text is the last such record's name, or is left alone when there is none. |
| AtlasEditor.TopScanSpec | AtlasEditor/AtlasEditor.py:271-275 | The same, for the scan from any record on. |
| AtlasEditor.BuildHierarchy | AtlasEditor/AtlasEditor.py:279-299 | The nested loops with recursion compute Hierarchy. |
| AtlasEditor.HierarchySpec | AtlasEditor/AtlasEditor.py:287-294 | The parent keeps its text, state and existing children. The appended children's labels are, for each group id in order, the names of the records with that id in document order. Their count is the sum of those record counts. All of them are unchecked. |
| AtlasEditor.NodeForSpec | AtlasEditor/AtlasEditor.py:290-299 | A matched record yields an unchecked item labelled with its name. A non-Group record is a leaf. A Group record's children are labelled by its members' records. This is one level; NodeForMirrors states the nesting at every depth. |
| AtlasEditor.HierarchyMirrors | AtlasEditor/AtlasEditor.py:279-299 | One child is appended per record matching each group id, in group order and then document order. Each appended child mirrors its record at every depth. |
| AtlasEditor.NodeForMirrors | AtlasEditor/AtlasEditor.py:290-299 | The item made for a record mirrors it at every depth. It carries the record's name and is unchecked. A non-Group record gives a leaf. A Group record has one child per record matching its members, in order, each mirroring that record. |
| AtlasEditor.MaterializeRecords | AtlasEditor/AtlasEditor.py:287-294 | Materialising keeps the children already there. It appends, in order, the item made for each remaining matching record. |
| AtlasEditor.MaterializeSpec | AtlasEditor/AtlasEditor.py:287-294 | Materialising only appends, and every appended item is unchecked throughout. |
| AtlasEditor.MaterializeLabels | AtlasEditor/AtlasEditor.py:287-292 | The appended labels are the remaining matches' names, in group order and then document order. |
| AtlasEditor.UnknownIdAddsNothing | AtlasEditor/AtlasEditor.py:287-289 | A group id that no record carries adds nothing and raises nothing. |
| AtlasEditor.ExpectedLabelsCount | AtlasEditor/AtlasEditor.py:287-294 | There are as many expected labels as the summed number of records carrying each group id. |
| AtlasEditor.CheckedLabelsSpec | AtlasEditor/AtlasEditor.py:316-320 | A label is listed iff some direct child with that text is checked. Nothing checked gives the empty list. |
| AtlasEditor.CheckedLabelsOrder | AtlasEditor/AtlasEditor.py:316-320 | CheckedPositions holds exactly the positions of the checked children, strictly increasing. Label j is the text of the child at position j of that list, so the labels keep the children's order. |
| AtlasEditor.CheckedMapKeys | AtlasEditor/AtlasEditor.py:311-322 | There is a key for the text of every top-level child, even when its list is empty, and for nothing else. |
| AtlasEditor.CheckedMapLastWins | AtlasEditor/AtlasEditor.py:322 | For top-level children with the same text, the last one's list is kept. |
| AtlasEditor.CheckedMapIgnoresDeeperLevels | AtlasEditor/AtlasEditor.py:311-322 | The map does not depend on grandchildren or anything below them. |
| AtlasEditor.FreshTreeHasNothingChecked | AtlasEditor/AtlasEditor.py:294-322 | On unchecked items every key maps to the empty list. |
| AtlasEditor.StructureTreeUnchecked | AtlasEditor/AtlasEditor.py:327-343 | A freshly built structure tree is unchecked throughout, and its checked map has only empty lists. |
| AtlasEditor.AtlasEditorLogic.UpdateStructureView | AtlasEditor/AtlasEditor.py:327-343 | Clears and rebuilds `top` as StructureTree of the document. The result ignores the old tree, so a repeat on the same document gives the same tree. |
| AtlasEditor.AtlasEditorLogic.GetCheckedItems | AtlasEditor/AtlasEditor.py:301-324 | The nested loops compute CheckedMap of the top item's children. |
| GltfExporter.ComponentTypeSpec | OpenAnatomyExporter/Logic/vtkGLTFExporter.cxx:71-88 | A VTK type is mapped iff it is one of the nine numeric types. The glTF component has the same byte size and signedness as the VTK type. |
| GltfExporter.IntAndDoubleOutsideGltf2 | OpenAnatomyExporter/Logic/vtkGLTFExporter.cxx:80-83 | Among mapped types, exactly INT and DOUBLE map to component types that glTF 2.0 does not allow. |
| GltfExporter.ToSigned32 | OpenAnatomyExporter/Logic/vtkGLTFExporter.cxx:169-176 | The C++ `int` cast: in range and congruent mod 2³². |
| GltfExporter.EncodeIdIsBigEndian | OpenAnatomyExporter/Logic/vtkGLTFExporter.cxx:175-180 | The four shifted, truncated bytes of an id are its 32-bit value most-significant byte first. |
| GltfExporter.EncodeIdRoundTrip | OpenAnatomyExporter/Logic/vtkGLTFExporter.cxx:175-180 | Reading the 4 bytes big-endian gives back the id mod 2³². |
| GltfExporter.EncodeIdInjective | OpenAnatomyExporter/Logic/vtkGLTFExporter.cxx:175-180 | Ids that differ mod 2³² get different bytes. |
| GltfExporter.IndexBytesReadLittleEndian | OpenAnatomyExporter/Logic/vtkGLTFExporter.cxx:175-180 | A glTF reader, which reads little-endian, sees id 1 as 16777216. It reads an id correctly iff the id's bytes are a palindrome. |
| GltfExporter.EncodeCellsLength | OpenAnatomyExporter/Logic/vtkGLTFExporter.cxx:171-182 | The encoded cells take 4 bytes per point id. |
| GltfExporter.EncodeIdsAt | OpenAnatomyExporter/Logic/vtkGLTFExporter.cxx:173-181 | Bytes 4j..4j+4 encode id j. |
| GltfExporter.FirstPolyLeafSpec | OpenAnatomyExporter/Logic/vtkGLTFExporter.cxx:246-255 | The search finds nothing iff no leaf is polydata. Otherwise it returns the first polydata leaf. |
| GltfExporter.PolyDataOfSpec | OpenAnatomyExporter/Logic/vtkGLTFExporter.cxx:233-256 | Polydata is returned itself. A composite gives its first polydata leaf in iteration order. Anything else gives nothing. |
| GltfExporter.GetPolyData | OpenAnatomyExporter/Logic/vtkGLTFExporter.cxx:233-256 | The loop method computes PolyDataOf. |
| GltfExporter.CellPrevBufferSizeSpec | OpenAnatomyExporter/Logic/vtkGLTFExporter.cxx:169-170 | Below 2³¹ the index offset is the buffer length. At 2³¹ the `int` round trip turns it into 2⁶⁴ − 2³¹. |
| GltfExporter.AddActorSpec | OpenAnatomyExporter/Logic/vtkGLTFExporter.cxx:94-214 | Without polydata, polys or cells the model is unchanged. Otherwise exactly two bufferViews and two accessors are appended, and one TRIANGLES mesh whose POSITION and indices are those accessors. One node is appended with the new mesh, and its index goes onto scene 0. |
| GltfExporter.AddActorBuffer | OpenAnatomyExporter/Logic/vtkGLTFExporter.cxx:105-184 | A buffer is created only if there is none. Buffer 0 grows by the point bytes followed by the encoded cells. Other buffers are untouched. |
| GltfExporter.AddActorPositionView | OpenAnatomyExporter/Logic/vtkGLTFExporter.cxx:113-154 | The position view covers exactly the point bytes at the old buffer end, with target ARRAY_BUFFER. Its accessor is VEC3 with the points' component type and point count. |
| GltfExporter.AddActorIndexView | OpenAnatomyExporter/Logic/vtkGLTFExporter.cxx:164-203 | The index view starts at the `int`-truncated buffer length, which is the length itself when it is below 2^31. Then, when 4·ids is below 2^64 (the `size_t` byte length does not wrap), the view covers exactly the 4·ids encoded bytes. Its accessor is UNSIGNED_INT SCALAR, with count equal to the number of cells rather than ids. |
| GltfExporter.AccessorOffsetCountedTwice | OpenAnatomyExporter/Logic/vtkGLTFExporter.cxx:123-197 | Each accessor repeats its view's byte offset, so past the first actor a reader adds the offset twice. |
| GltfExporter.AddActorKeepsValid | OpenAnatomyExporter/Logic/vtkGLTFExporter.cxx:90-215 | Adding an actor keeps the model consistent. There is at most one buffer and every view is in it. There is a scene 0. Accessors, primitives, nodes and scenes reference existing entries. |
| GltfExporter.GltfModel.constructor | OpenAnatomyExporter/Logic/vtkGLTFExporter.cxx:272 | An empty tinygltf model. |
| GltfExporter.GltfModel.AddVtkArrayToBuffer | OpenAnatomyExporter/Logic/vtkGLTFExporter.cxx:63-69 | The offset is the old length of buffer 0 and the size is the array's byte count. Buffer 0 becomes old bytes + array bytes, with bytes before the offset unchanged. Other buffers are untouched. |
| GltfExporter.GltfModel.EncodePolygons | OpenAnatomyExporter/Logic/vtkGLTFExporter.cxx:164-182 | The nested cell loop produces EncodeCells. |
| GltfExporter.GltfModel.AddPositions | OpenAnatomyExporter/Logic/vtkGLTFExporter.cxx:113-154 | Appends the point data, view and accessor as AppendPositions says. |
| GltfExporter.GltfModel.AddIndices | OpenAnatomyExporter/Logic/vtkGLTFExporter.cxx:164-203 | Appends the index data, view and accessor as AppendIndices says. |
| GltfExporter.GltfModel.AddMeshNode | OpenAnatomyExporter/Logic/vtkGLTFExporter.cxx:157-214 | Appends mesh, node and scene entry as AppendMeshNode says. |
| GltfExporter.GltfModel.AddActorToModel | OpenAnatomyExporter/Logic/vtkGLTFExporter.cxx:90-215 | The model's new state is AddActor of its old state. |
| GltfExporter.AddAllCounts | OpenAnatomyExporter/Logic/vtkGLTFExporter.cxx:105-309 | After n contributing parts there are 2n views, 2n accessors and at most one buffer. |
| GltfExporter.AddAllNodes | OpenAnatomyExporter/Logic/vtkGLTFExporter.cxx:205-309 | After n contributing parts there are n meshes and n nodes, and node k holds mesh k. Scene 0 lists 0..n−1 in order. |
| GltfExporter.AddAllKeepsValid | OpenAnatomyExporter/Logic/vtkGLTFExporter.cxx:279-309 | The whole export keeps the model consistent. |
| GltfExporter.AddAllPreservesAsset | OpenAnatomyExporter/Logic/vtkGLTFExporter.cxx:272-277 | Adding actors never changes the asset version, the generator or the default scene. |
| GltfExporter.AddAllAppend | OpenAnatomyExporter/Logic/vtkGLTFExporter.cxx:279-309 | Adding two runs of parts equals adding them one after the other. |
| GltfExporter.PropInputsAdd | OpenAnatomyExporter/Logic/vtkGLTFExporter.cxx:284-305 | Every part the filter lets through adds geometry. |
| GltfExporter.ExportSceneSpec | OpenAnatomyExporter/Logic/vtkGLTFExporter.cxx:266-309 | Nothing is written iff the renderer has no actors. Otherwise the model is consistent, with glTF version 2.0, generator vtkGLTFExporter and default scene 0. It has one mesh and one node per contributing part, all listed in scene 0 in order. |
| GltfExporter.SingleActorCases | OpenAnatomyExporter/Logic/Testing/Cxx/vtkGLTFExporterTest1.cxx:90-133 | A visible actor with geometry adds one mesh. A hidden actor, a missing mapper and a mapper with no input each add no geometry. |
| GltfExporter.AddActorParts | OpenAnatomyExporter/Logic/vtkGLTFExporter.cxx:295-307 | The part loop adds exactly the contributing parts, in order. |
| GltfExporter.AddPropActors | OpenAnatomyExporter/Logic/vtkGLTFExporter.cxx:288-308 | The actor loop adds exactly the contributing parts of every actor, in order. |
| GltfExporter.WriteData | OpenAnatomyExporter/Logic/vtkGLTFExporter.cxx:259-315 | The nested loops build exactly ExportScene of the renderer, or nothing when there are no actors. |

## Left out

- Qt and Slicer GUI, widgets, parameter-node observation, event-loop pausing and logging callbacks. They are host plumbing. `addLog` messages and the `_numberOfExpectedModels` counter feed only the log, so they are not modelled.
- File I/O is not modelled.
  - Reading the ontology file and the JSON load/dump of the written glTF file are not modelled. The parsed documents are values instead.
  - The tinygltf writer (`WriteGltfSceneToFile`) and the OBJ exporter's output are not modelled. `WriteData` returns the model it would write.
  - The output path joining and the output folder item's creation and removal are not modelled either.
- MRML/VTK calls are parameters, not models. These are the subject hierarchy queries, segmentation-to-models export (`exportSegments` of the environment), the decimation CLI and the normals filter (functions of `Capabilities`), and renderer and window creation.
- OpenAnatomyExport.ExportLogic.AddChildModel models the output-node lookup by name as its two outcomes. When the output folder is the input folder (a segmentation), the lookup finds the input node itself. Otherwise the lookup finds nothing and a new node is made. Two segments with the same name, where the lookup would return the first, are not modelled. Neither is the list of temporary nodes, which depends on the MRML node lifecycle.
- `createPlaneModelFromMarkupsPlane` is not modelled because it is floating-point plane synthesis. A plane item carries its plane model directly.
- Floating-point work is not modelled. This covers the colour boost for Gouraud lighting, the RAS→LPS transform and actor material properties, position min/max bounds, and raw float point bytes (points are an opaque byte array).
- `exportImage` is not part of this model.
- ExportLogic.ExportModel does not model the state left behind when an exception escapes part-way. On an error the counter, renderer and parameter node are not released, and the contract says nothing further about them.
- AtlasEditor.AtlasEditorLogic.UpdateStructureView does not model Qt's tri-state propagation between parent and child check states. Tree items are values, so there is no aliasing between the tree and its items.
- AtlasEditor.TopHierarchy reads `@id` from a record that always has it, and AtlasEditor.NodeFor does the same with `@type`. The KeyError that the Python raises for a record without one of those keys is not modelled. A missing `annotation.name` or `member` is modelled.
- AtlasEditor.AtlasEditorLogic.GetCheckedItems returns a `map`, which has no key order. The insertion order of the Python dict's keys (the order of the top-level children) is not modelled.
- AtlasEditor.AtlasEditorLogic.UpdateStructureView states only the error it reports when building fails. The partly built tree that the Python leaves in the widget on that path (the children added before the failing record) is not stated.
- AtlasEditor.BuildHierarchy: Python's recursion limit is modelled as a `depth` budget that yields `RecursionLimit` when it runs out.
- GltfExporter.GltfModel.AddVtkArrayToBuffer does not model `size_t` overflow of the buffer size, and ignores its `bufferIndex` argument just as the C++ does.
- GltfExporter.AddActor takes it that the polydata always has a points array. The C++ would dereference a null pointer otherwise.
- GltfExporter.WriteData: the input algorithm's `Update()` is not modelled. A mapper's input is the data object it would produce.
- GltfExporter.EmptyModel takes tinygltf's defaults for a fresh `Model` (no buffers, default scene −1), since the tinygltf header is not part of this model.
- The step methods are a decomposition of the source functions into smaller proved pieces, not extra operations of the source:
  - `AddChildModel`, `WalkFromScratch`, `WriteOutput` and `ExportFolder`;
  - `AddPositions`, `AddIndices` and `AddMeshNode`;
  - `AddActorParts` and `AddPropActors`.
