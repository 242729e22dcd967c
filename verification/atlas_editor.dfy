/**
 * The structure tree of the Atlas Editor: the top-level hierarchy read from the
 * atlas ontology, the recursively materialised tree of tri-state items, and the
 * map of checked items read back from that tree.
 *
 * The parsed ontology document is a sequence of records; the Qt tree items are
 * modelled as values (text, check state, ordered children).
 */
module AtlasEditor {
  import opened Wrappers

  /** Id of the header record whose members are the top-level groups. */
  const BrainAtlasId: string := "#Brain_Atlas"
  /** Only records of this `@type` have their `member` list expanded. */
  const GroupType: string := "Group"

  /** One object of the ontology document: `@id`, `@type`, `annotation.name`, `member`. */
  datatype Record = Record(id: string, kind: string, name: Option<string>, members: Option<seq<string>>)
  type Ontology = seq<Record>

  datatype CheckState = Unchecked | PartiallyChecked | Checked

  /** A tree widget item: its text in column 0, its check state, its children in order. */
  datatype TreeItem = TreeItem(text: string, state: CheckState, children: seq<TreeItem>)

  /**
   * Exceptions the builder raises: a missing `annotation.name` or `member` key
   * (a KeyError) and running out of interpreter recursion depth.
   */
  datatype AtlasError = MissingName(id: string) | MissingMembers(id: string) | RecursionLimit

  // ---------------------------------------------------------------------------
  // buildTopHierarchy

  /**
   * The scan of buildTopHierarchy from record `i` on, given the text set so far
   * and the groups collected so far.
   */
  function TopScan(doc: Ontology, i: nat, text: string, groups: seq<string>): Result<(string, seq<string>), AtlasError>
    requires i <= |doc|
    decreases |doc| - i
  {
    if i == |doc| then Ok((text, groups))
    else
      var item := doc[i];
      if item.id != BrainAtlasId then TopScan(doc, i + 1, text, groups)
      else if item.name.None? then Err(MissingName(item.id))
      else if item.members.None? then Err(MissingMembers(item.id))
      else TopScan(doc, i + 1, item.name.value, groups + item.members.value)
  }

  /** The top item's text and the top-level group ids, starting from a top item labelled `text`. */
  function TopHierarchy(doc: Ontology, text: string): Result<(string, seq<string>), AtlasError>
  {
    TopScan(doc, 0, text, [])
  }

  /** Every header record carries the keys buildTopHierarchy reads. */
  predicate HeadersComplete(doc: Ontology)
  {
    forall k | 0 <= k < |doc| && doc[k].id == BrainAtlasId :: doc[k].name.Some? && doc[k].members.Some?
  }

  /** Reference definition: the members of every header record, concatenated in document order. */
  function AtlasMembers(doc: Ontology): seq<string>
  {
    if doc == [] then []
    else (if doc[0].id == BrainAtlasId then doc[0].members.GetOr([]) else []) + AtlasMembers(doc[1..])
  }

  method BuildTopHierarchy(doc: Ontology, topText: string) returns (r: Result<(string, seq<string>), AtlasError>)
    ensures r == TopHierarchy(doc, topText)
  {
    var text := topText;
    var groups: seq<string> := [];
    for i := 0 to |doc|
      invariant TopHierarchy(doc, topText) == TopScan(doc, i, text, groups)
    {
      var item := doc[i];
      if item.id == BrainAtlasId {
        if item.name.None? {
          return Err(MissingName(item.id));
        }
        text := item.name.value;
        if item.members.None? {
          return Err(MissingMembers(item.id));
        }
        var members := item.members.value;
        ghost var before := groups;
        for j := 0 to |members|
          invariant groups == before + members[..j]
        {
          groups := groups + [members[j]];
        }
        assert members[..|members|] == members;
      }
    }
    return Ok((text, groups));
  }

  lemma {:induction false} TopScanSpec(doc: Ontology, i: nat, text: string, groups: seq<string>)
    requires i <= |doc|
    decreases |doc| - i
    ensures TopScan(doc, i, text, groups).Ok? <==>
      forall k | i <= k < |doc| && doc[k].id == BrainAtlasId :: doc[k].name.Some? && doc[k].members.Some?
    ensures TopScan(doc, i, text, groups).Ok? ==>
      TopScan(doc, i, text, groups).value.1 == groups + AtlasMembers(doc[i..])
    ensures TopScan(doc, i, text, groups).Ok? && (forall k | i <= k < |doc| :: doc[k].id != BrainAtlasId) ==>
      TopScan(doc, i, text, groups).value.0 == text
    ensures TopScan(doc, i, text, groups).Ok? ==>
      forall k | i <= k < |doc| && doc[k].id == BrainAtlasId && (forall j | k < j < |doc| :: doc[j].id != BrainAtlasId) ::
        TopScan(doc, i, text, groups).value.0 == doc[k].name.value
  {
    if i == |doc| {
      assert doc[i..] == [];
    } else {
      var item := doc[i];
      assert doc[i..][1..] == doc[i + 1..];
      assert doc[i..][0] == item;
      if item.id != BrainAtlasId {
        TopScanSpec(doc, i + 1, text, groups);
      } else if item.name.None? || item.members.None? {
      } else {
        TopScanSpec(doc, i + 1, item.name.value, groups + item.members.value);
      }
    }
  }

  /**
   * buildTopHierarchy succeeds exactly when every header record has a name and a
   * member list; its groups are the members of all header records in document
   * order, and the top text is the name of the last header record (unchanged
   * when there is none).
   */
  lemma TopHierarchySpec(doc: Ontology, text: string)
    ensures TopHierarchy(doc, text).Ok? <==> HeadersComplete(doc)
    ensures TopHierarchy(doc, text).Ok? ==> TopHierarchy(doc, text).value.1 == AtlasMembers(doc)
    ensures TopHierarchy(doc, text).Ok? && (forall k | 0 <= k < |doc| :: doc[k].id != BrainAtlasId) ==>
      TopHierarchy(doc, text).value.0 == text
    ensures TopHierarchy(doc, text).Ok? ==>
      forall k | 0 <= k < |doc| && doc[k].id == BrainAtlasId && (forall j | k < j < |doc| :: doc[j].id != BrainAtlasId) ::
        TopHierarchy(doc, text).value.0 == doc[k].name.value
  {
    TopScanSpec(doc, 0, text, []);
    assert doc[0..] == doc;
  }

  // ---------------------------------------------------------------------------
  // buildHierarchy

  /**
   * The nested loops of buildHierarchy from group `gi` and record `di` on, with the
   * children `acc` already added to the parent. `depth` is the recursion still
   * available to the interpreter.
   */
  function Materialize(doc: Ontology, groups: seq<string>, gi: nat, di: nat, acc: seq<TreeItem>, depth: nat): Result<seq<TreeItem>, AtlasError>
    requires gi <= |groups| && di <= |doc|
    decreases depth, |groups| - gi, |doc| - di
  {
    if gi == |groups| then Ok(acc)
    else if di == |doc| then Materialize(doc, groups, gi + 1, 0, acc, depth)
    else if doc[di].id != groups[gi] then Materialize(doc, groups, gi, di + 1, acc, depth)
    else
      match NodeFor(doc, doc[di], depth)
      case Err(e) => Err(e)
      case Ok(t) => Materialize(doc, groups, gi, di + 1, acc + [t], depth)
  }

  /** The unchecked item made for one matching record; only Group records recurse. */
  function NodeFor(doc: Ontology, r: Record, depth: nat): Result<TreeItem, AtlasError>
    decreases depth, 0, 0
  {
    if r.name.None? then Err(MissingName(r.id))
    else if r.kind != GroupType then Ok(TreeItem(r.name.value, Unchecked, []))
    else if r.members.None? then Err(MissingMembers(r.id))
    else if depth == 0 then Err(RecursionLimit)
    else
      match Materialize(doc, r.members.value, 0, 0, [], depth - 1)
      case Err(e) => Err(e)
      case Ok(cs) => Ok(TreeItem(r.name.value, Unchecked, cs))
  }

  /** The children buildHierarchy appends under `parent` for the ids in `groups`. */
  function Hierarchy(doc: Ontology, parent: TreeItem, groups: seq<string>, depth: nat): Result<TreeItem, AtlasError>
  {
    match Materialize(doc, groups, 0, 0, parent.children, depth)
    case Err(e) => Err(e)
    case Ok(cs) => Ok(parent.(children := cs))
  }

  method BuildHierarchy(doc: Ontology, parent: TreeItem, groups: seq<string>, depth: nat) returns (r: Result<TreeItem, AtlasError>)
    decreases depth
    ensures r == Hierarchy(doc, parent, groups, depth)
  {
    var kids := parent.children;
    for gi := 0 to |groups|
      invariant Materialize(doc, groups, 0, 0, parent.children, depth) == Materialize(doc, groups, gi, 0, kids, depth)
    {
      for di := 0 to |doc|
        invariant Materialize(doc, groups, 0, 0, parent.children, depth) == Materialize(doc, groups, gi, di, kids, depth)
      {
        var item := doc[di];
        if item.id == groups[gi] {
          if item.name.None? {
            return Err(MissingName(item.id));
          }
          var child := TreeItem(item.name.value, Unchecked, []);
          if item.kind == GroupType {
            if item.members.None? {
              return Err(MissingMembers(item.id));
            }
            if depth == 0 {
              return Err(RecursionLimit);
            }
            var members := item.members.value;
            var groups1: seq<string> := [];
            for m := 0 to |members|
              invariant groups1 == members[..m]
            {
              groups1 := groups1 + [members[m]];
            }
            assert groups1 == members;
            var sub := BuildHierarchy(doc, child, groups1, depth - 1);
            if sub.Err? {
              return Err(sub.error);
            }
            child := sub.value;
          }
          kids := kids + [child];
        }
      }
    }
    return Ok(parent.(children := kids));
  }

  function Labels(items: seq<TreeItem>): (r: seq<string>)
    ensures |r| == |items|
    ensures forall k | 0 <= k < |items| :: r[k] == items[k].text
  {
    if items == [] then [] else [items[0].text] + Labels(items[1..])
  }

  /** Reference definition: the names of the records carrying id `g`, in document order. */
  function NamesWithId(doc: Ontology, g: string): seq<string>
  {
    if doc == [] then []
    else (if doc[0].id == g then [doc[0].name.GetOr("")] else []) + NamesWithId(doc[1..], g)
  }

  /** Number of records carrying id `g`. */
  function CountId(doc: Ontology, g: string): nat
  {
    if doc == [] then 0 else (if doc[0].id == g then 1 else 0) + CountId(doc[1..], g)
  }

  /** Reference definition: one text per matching record, group by group. */
  function ExpectedLabels(doc: Ontology, groups: seq<string>): seq<string>
  {
    if groups == [] then [] else NamesWithId(doc, groups[0]) + ExpectedLabels(doc, groups[1..])
  }

  function SumCounts(doc: Ontology, groups: seq<string>): nat
  {
    if groups == [] then 0 else CountId(doc, groups[0]) + SumCounts(doc, groups[1..])
  }

  lemma {:induction false} NamesWithIdCount(doc: Ontology, g: string)
    ensures |NamesWithId(doc, g)| == CountId(doc, g)
  {
    if doc != [] {
      NamesWithIdCount(doc[1..], g);
    }
  }

  lemma {:induction false} ExpectedLabelsCount(doc: Ontology, groups: seq<string>)
    ensures |ExpectedLabels(doc, groups)| == SumCounts(doc, groups)
  {
    if groups != [] {
      NamesWithIdCount(doc, groups[0]);
      ExpectedLabelsCount(doc, groups[1..]);
    }
  }

  /** Every item of the tree, at every depth, is Unchecked. */
  predicate AllUnchecked(t: TreeItem)
    decreases t
  {
    t.state == Unchecked && forall k | 0 <= k < |t.children| :: AllUnchecked(t.children[k])
  }

  /**
   * What Materialize appends: one item per record whose id is a group, in group
   * order and then document order, labelled with the record's name, every item
   * freshly Unchecked at every depth.
   */
  lemma {:induction false} MaterializeSpec(doc: Ontology, groups: seq<string>, gi: nat, di: nat, acc: seq<TreeItem>, depth: nat)
    requires gi <= |groups| && di <= |doc|
    requires Materialize(doc, groups, gi, di, acc, depth).Ok?
    decreases depth, |groups| - gi, |doc| - di
    ensures |acc| <= |Materialize(doc, groups, gi, di, acc, depth).value|
    ensures Materialize(doc, groups, gi, di, acc, depth).value[..|acc|] == acc
    ensures forall k | |acc| <= k < |Materialize(doc, groups, gi, di, acc, depth).value| ::
      AllUnchecked(Materialize(doc, groups, gi, di, acc, depth).value[k])
  {
    if gi == |groups| {
    } else if di == |doc| {
      MaterializeSpec(doc, groups, gi + 1, 0, acc, depth);
    } else if doc[di].id != groups[gi] {
      MaterializeSpec(doc, groups, gi, di + 1, acc, depth);
    } else {
      var t := NodeFor(doc, doc[di], depth).value;
      NodeForSpec(doc, doc[di], depth);
      MaterializeSpec(doc, groups, gi, di + 1, acc + [t], depth);
      var r := Materialize(doc, groups, gi, di + 1, acc + [t], depth).value;
      PrefixOfPrefix(r, acc, t);
    }
  }

  /** The labels Materialize appends are the reference ones, group by group. */
  lemma {:induction false} MaterializeLabels(doc: Ontology, groups: seq<string>, gi: nat, di: nat, acc: seq<TreeItem>, depth: nat)
    requires gi <= |groups| && di <= |doc|
    requires Materialize(doc, groups, gi, di, acc, depth).Ok?
    decreases |groups| - gi, |doc| - di
    ensures Labels(Materialize(doc, groups, gi, di, acc, depth).value) == Labels(acc) + RemainingLabels(doc, groups, gi, di)
  {
    if gi == |groups| {
    } else if di == |doc| {
      MaterializeLabels(doc, groups, gi + 1, 0, acc, depth);
      RemainingLabelsNextGroup(doc, groups, gi);
    } else if doc[di].id != groups[gi] {
      MaterializeLabels(doc, groups, gi, di + 1, acc, depth);
      RemainingLabelsNextRecord(doc, groups, gi, di);
    } else {
      var t := MaterializeMatch(doc, groups, gi, di, acc, depth);
      MaterializeLabels(doc, groups, gi, di + 1, acc + [t], depth);
      RemainingLabelsNextRecord(doc, groups, gi, di);
      LabelsAppend(acc, t);
      ConsStep(Labels(Materialize(doc, groups, gi, di, acc, depth).value), Labels(acc), t.text,
               RemainingLabels(doc, groups, gi, di), RemainingLabels(doc, groups, gi, di + 1));
    }
  }

  lemma ConsStep(whole: seq<string>, front: seq<string>, x: string, r0: seq<string>, r1: seq<string>)
    requires whole == front + [x] + r1 && r0 == [x] + r1
    ensures whole == front + r0
  {
  }

  /** A matching record adds the item NodeFor makes for it, labelled with the record's name. */
  lemma MaterializeMatch(doc: Ontology, groups: seq<string>, gi: nat, di: nat, acc: seq<TreeItem>, depth: nat)
      returns (t: TreeItem)
    requires gi < |groups| && di < |doc| && doc[di].id == groups[gi]
    requires Materialize(doc, groups, gi, di, acc, depth).Ok?
    ensures NodeFor(doc, doc[di], depth) == Ok(t)
    ensures Materialize(doc, groups, gi, di + 1, acc + [t], depth) == Materialize(doc, groups, gi, di, acc, depth)
    ensures t.text == doc[di].name.GetOr("")
  {
    t := NodeFor(doc, doc[di], depth).value;
  }

  lemma LabelsAppend(acc: seq<TreeItem>, t: TreeItem)
    ensures Labels(acc + [t]) == Labels(acc) + [t.text]
  {
  }

  lemma PrefixOfPrefix(r: seq<TreeItem>, acc: seq<TreeItem>, t: TreeItem)
    requires |acc| + 1 <= |r| && r[..|acc| + 1] == acc + [t]
    ensures r[..|acc|] == acc && r[|acc|] == t
  {
    assert r[..|acc| + 1][..|acc|] == r[..|acc|];
    assert r[|acc|] == r[..|acc| + 1][|acc|];
  }

  /** The labels Materialize still has to add from group `gi` and record `di` on. */
  function RemainingLabels(doc: Ontology, groups: seq<string>, gi: nat, di: nat): seq<string>
    requires gi <= |groups| && di <= |doc|
  {
    if gi == |groups| then [] else NamesWithId(doc[di..], groups[gi]) + ExpectedLabels(doc, groups[gi + 1..])
  }

  lemma RemainingLabelsNextGroup(doc: Ontology, groups: seq<string>, gi: nat)
    requires gi < |groups|
    ensures RemainingLabels(doc, groups, gi, |doc|) == RemainingLabels(doc, groups, gi + 1, 0)
  {
    assert doc[|doc|..] == [];
    assert doc[0..] == doc;
    if gi + 1 < |groups| {
      assert groups[gi + 1..][1..] == groups[gi + 2..];
      assert groups[gi + 1..][0] == groups[gi + 1];
    } else {
      assert groups[gi + 1..] == [];
    }
  }

  lemma RemainingLabelsNextRecord(doc: Ontology, groups: seq<string>, gi: nat, di: nat)
    requires gi < |groups| && di < |doc|
    ensures RemainingLabels(doc, groups, gi, di) ==
      (if doc[di].id == groups[gi] then [doc[di].name.GetOr("")] else []) + RemainingLabels(doc, groups, gi, di + 1)
  {
    assert doc[di..][1..] == doc[di + 1..];
    assert doc[di..][0] == doc[di];
  }

  /**
   * The item made for one record carries the record's name and is Unchecked; a
   * non-Group record becomes a leaf, a Group record gets one child per record
   * matching each of its members.
   */
  lemma {:induction false} NodeForSpec(doc: Ontology, r: Record, depth: nat)
    requires NodeFor(doc, r, depth).Ok?
    decreases depth, 0, 0
    ensures var t := NodeFor(doc, r, depth).value;
      && r.name.Some? && t.text == r.name.value
      && AllUnchecked(t)
      && (r.kind != GroupType ==> t.children == [])
      && (r.kind == GroupType ==> r.members.Some? && Labels(t.children) == ExpectedLabels(doc, r.members.value))
  {
    if r.kind == GroupType {
      MaterializeSpec(doc, r.members.value, 0, 0, [], depth - 1);
      MaterializeLabels(doc, r.members.value, 0, 0, [], depth - 1);
      assert doc[0..] == doc;
    }
  }

  /**
   * buildHierarchy appends under `parent` exactly one Unchecked item per record
   * matching each group id, in order; the number appended is the sum over the
   * ids of the number of records carrying that id.
   */
  lemma HierarchySpec(doc: Ontology, parent: TreeItem, groups: seq<string>, depth: nat)
    requires Hierarchy(doc, parent, groups, depth).Ok?
    ensures var t := Hierarchy(doc, parent, groups, depth).value;
      && t.text == parent.text && t.state == parent.state
      && |parent.children| <= |t.children| && t.children[..|parent.children|] == parent.children
      && Labels(t.children) == Labels(parent.children) + ExpectedLabels(doc, groups)
      && |t.children| == |parent.children| + SumCounts(doc, groups)
      && forall k | |parent.children| <= k < |t.children| :: AllUnchecked(t.children[k])
  {
    MaterializeSpec(doc, groups, 0, 0, parent.children, depth);
    MaterializeLabels(doc, groups, 0, 0, parent.children, depth);
    ExpectedLabelsCount(doc, groups);
    assert doc[0..] == doc;
    var t := Hierarchy(doc, parent, groups, depth).value;
    assert |Labels(t.children)| == |t.children|;
  }

  /** Reference definition: the records carrying id `g`, in document order. */
  function RecordsWithId(doc: Ontology, g: string): seq<Record>
  {
    if doc == [] then []
    else (if doc[0].id == g then [doc[0]] else []) + RecordsWithId(doc[1..], g)
  }

  /** Reference definition: the records matching each group id, group by group. */
  function MatchingRecords(doc: Ontology, groups: seq<string>): seq<Record>
  {
    if groups == [] then [] else RecordsWithId(doc, groups[0]) + MatchingRecords(doc, groups[1..])
  }

  /** The records Materialize still has to turn into items from group `gi` and record `di` on. */
  function RemainingRecords(doc: Ontology, groups: seq<string>, gi: nat, di: nat): seq<Record>
    requires gi <= |groups| && di <= |doc|
  {
    if gi == |groups| then [] else RecordsWithId(doc[di..], groups[gi]) + MatchingRecords(doc, groups[gi + 1..])
  }

  lemma RemainingRecordsStart(doc: Ontology, groups: seq<string>)
    ensures RemainingRecords(doc, groups, 0, 0) == MatchingRecords(doc, groups)
  {
    assert doc[0..] == doc;
    if groups != [] {
      assert groups[1..] == groups[0 + 1..];
    }
  }

  lemma RemainingRecordsNextGroup(doc: Ontology, groups: seq<string>, gi: nat)
    requires gi < |groups|
    ensures RemainingRecords(doc, groups, gi, |doc|) == RemainingRecords(doc, groups, gi + 1, 0)
  {
    assert doc[|doc|..] == [];
    assert doc[0..] == doc;
    if gi + 1 < |groups| {
      assert groups[gi + 1..][1..] == groups[gi + 2..];
      assert groups[gi + 1..][0] == groups[gi + 1];
    } else {
      assert groups[gi + 1..] == [];
    }
  }

  lemma RemainingRecordsNextRecord(doc: Ontology, groups: seq<string>, gi: nat, di: nat)
    requires gi < |groups| && di < |doc|
    ensures RemainingRecords(doc, groups, gi, di) ==
      (if doc[di].id == groups[gi] then [doc[di]] else []) + RemainingRecords(doc, groups, gi, di + 1)
  {
    assert doc[di..][1..] == doc[di + 1..];
    assert doc[di..][0] == doc[di];
  }

  /** Past the first `|acc|` items, `items` holds the item NodeFor makes for each of `recs`, in order. */
  predicate MadeFrom(doc: Ontology, recs: seq<Record>, depth: nat, items: seq<TreeItem>, acc: seq<TreeItem>)
  {
    && |items| == |acc| + |recs| && items[..|acc|] == acc
    && forall k | 0 <= k < |recs| :: NodeFor(doc, recs[k], depth) == Ok(items[|acc| + k])
  }

  /** Materialize appends, in order, the item NodeFor makes for each record it still has to visit. */
  lemma {:induction false} MaterializeRecords(doc: Ontology, groups: seq<string>, gi: nat, di: nat, acc: seq<TreeItem>, depth: nat)
    requires gi <= |groups| && di <= |doc|
    requires Materialize(doc, groups, gi, di, acc, depth).Ok?
    decreases |groups| - gi, |doc| - di
    ensures MadeFrom(doc, RemainingRecords(doc, groups, gi, di), depth, Materialize(doc, groups, gi, di, acc, depth).value, acc)
  {
    if gi == |groups| {
    } else if di == |doc| {
      MaterializeRecords(doc, groups, gi + 1, 0, acc, depth);
      RemainingRecordsNextGroup(doc, groups, gi);
    } else if doc[di].id != groups[gi] {
      MaterializeRecords(doc, groups, gi, di + 1, acc, depth);
      RemainingRecordsNextRecord(doc, groups, gi, di);
    } else {
      var t := MaterializeMatch(doc, groups, gi, di, acc, depth);
      MaterializeRecords(doc, groups, gi, di + 1, acc + [t], depth);
      RemainingRecordsNextRecord(doc, groups, gi, di);
      var items := Materialize(doc, groups, gi, di, acc, depth).value;
      MadeFromCons(doc, doc[di], RemainingRecords(doc, groups, gi, di + 1), depth, items, acc, t);
    }
  }

  lemma MadeFromCons(doc: Ontology, r: Record, recs: seq<Record>, depth: nat, items: seq<TreeItem>, acc: seq<TreeItem>, t: TreeItem)
    requires NodeFor(doc, r, depth) == Ok(t)
    requires MadeFrom(doc, recs, depth, items, acc + [t])
    ensures MadeFrom(doc, [r] + recs, depth, items, acc)
  {
    PrefixOfPrefix(items, acc, t);
    var all := [r] + recs;
    forall k | 1 <= k < |all| ensures NodeFor(doc, all[k], depth) == Ok(items[|acc| + k]) {
      assert all[k] == recs[k - 1];
      assert |acc| + k == |acc + [t]| + (k - 1);
    }
    assert all[0] == r;
  }

  /**
   * Item `t` is the tree made for record `r`, at every depth: it carries the
   * record's name and is Unchecked; a non-Group record gives a leaf, and a
   * Group record has one child per record matching each of its members, in
   * order, each the tree made for that record.
   */
  predicate Mirrors(doc: Ontology, t: TreeItem, r: Record)
    decreases t
  {
    && r.name.Some? && t.text == r.name.value && t.state == Unchecked
    && (r.kind != GroupType ==> t.children == [])
    && (r.kind == GroupType ==>
          && r.members.Some?
          && |t.children| == |MatchingRecords(doc, r.members.value)|
          && forall k | 0 <= k < |t.children| :: Mirrors(doc, t.children[k], MatchingRecords(doc, r.members.value)[k]))
  }

  /** The item NodeFor makes mirrors its record down to the leaves. */
  lemma {:induction false} NodeForMirrors(doc: Ontology, r: Record, depth: nat)
    requires NodeFor(doc, r, depth).Ok?
    decreases depth
    ensures Mirrors(doc, NodeFor(doc, r, depth).value, r)
  {
    if r.kind == GroupType {
      var members := r.members.value;
      var cs := Materialize(doc, members, 0, 0, [], depth - 1).value;
      MaterializeRecords(doc, members, 0, 0, [], depth - 1);
      RemainingRecordsStart(doc, members);
      var recs := MatchingRecords(doc, members);
      forall k | 0 <= k < |cs| ensures Mirrors(doc, cs[k], recs[k]) {
        assert NodeFor(doc, recs[k], depth - 1) == Ok(cs[k]);
        NodeForMirrors(doc, recs[k], depth - 1);
      }
    }
  }

  /**
   * buildHierarchy appends under `parent` one item per record matching each
   * group id, in order, and each appended item mirrors its record down to the
   * leaves.
   */
  lemma HierarchyMirrors(doc: Ontology, parent: TreeItem, groups: seq<string>, depth: nat)
    requires Hierarchy(doc, parent, groups, depth).Ok?
    ensures |Hierarchy(doc, parent, groups, depth).value.children| == |parent.children| + |MatchingRecords(doc, groups)|
    ensures forall k | 0 <= k < |MatchingRecords(doc, groups)| ::
      Mirrors(doc, Hierarchy(doc, parent, groups, depth).value.children[|parent.children| + k], MatchingRecords(doc, groups)[k])
  {
    var cs := Hierarchy(doc, parent, groups, depth).value.children;
    MaterializeRecords(doc, groups, 0, 0, parent.children, depth);
    RemainingRecordsStart(doc, groups);
    var recs := MatchingRecords(doc, groups);
    forall k | 0 <= k < |recs| ensures Mirrors(doc, cs[|parent.children| + k], recs[k]) {
      NodeForMirrors(doc, recs[k], depth);
    }
  }

  /** An id that no record carries adds nothing and raises nothing. */
  lemma {:induction false} UnknownIdAddsNothing(doc: Ontology, groups: seq<string>, gi: nat, di: nat, acc: seq<TreeItem>, depth: nat)
    requires gi < |groups| && di <= |doc|
    requires forall k | 0 <= k < |doc| :: doc[k].id != groups[gi]
    decreases |doc| - di
    ensures Materialize(doc, groups, gi, di, acc, depth) == Materialize(doc, groups, gi + 1, 0, acc, depth)
  {
    if di < |doc| {
      UnknownIdAddsNothing(doc, groups, gi, di + 1, acc, depth);
    }
  }

  // ---------------------------------------------------------------------------
  // getCheckedItems

  /** Labels of the Checked items among `items`, in order. */
  function CheckedLabels(items: seq<TreeItem>): seq<string>
  {
    if items == [] then []
    else CheckedLabels(items[..|items| - 1]) + (if items[|items| - 1].state == Checked then [items[|items| - 1].text] else [])
  }

  /** The dictionary getCheckedItems fills while walking the top item's children `signals`. */
  function CheckedMap(signals: seq<TreeItem>): map<string, seq<string>>
  {
    if signals == [] then map[]
    else
      var last := signals[|signals| - 1];
      CheckedMap(signals[..|signals| - 1])[last.text := CheckedLabels(last.children)]
  }

  lemma {:induction false} CheckedLabelsSpec(items: seq<TreeItem>)
    ensures |CheckedLabels(items)| <= |items|
    ensures forall x :: x in CheckedLabels(items) <==> exists k | 0 <= k < |items| :: items[k].state == Checked && items[k].text == x
    ensures (forall k | 0 <= k < |items| :: items[k].state != Checked) ==> CheckedLabels(items) == []
  {
    if items != [] {
      var front := items[..|items| - 1];
      CheckedLabelsSpec(front);
      forall x ensures x in CheckedLabels(items) <==> exists k | 0 <= k < |items| :: items[k].state == Checked && items[k].text == x {
        if x in CheckedLabels(items) && x !in CheckedLabels(front) {
          assert items[|items| - 1].state == Checked && items[|items| - 1].text == x;
        }
        if exists k | 0 <= k < |items| :: items[k].state == Checked && items[k].text == x {
          var k :| 0 <= k < |items| && items[k].state == Checked && items[k].text == x;
          if k < |items| - 1 {
            assert front[k] == items[k];
          }
        }
      }
    }
  }

  /** Positions of the Checked items among `items`, in order. */
  function CheckedPositions(items: seq<TreeItem>): seq<nat>
  {
    if items == [] then []
    else CheckedPositions(items[..|items| - 1]) + (if items[|items| - 1].state == Checked then [|items| - 1] else [])
  }

  /** Each position is below every later one. */
  predicate StrictlyIncreasing(s: seq<nat>)
  {
    forall j, l | 0 <= j < l < |s| :: s[j] < s[l]
  }

  /**
   * The order getCheckedItems lists labels in: `CheckedLabels(items)` has one
   * label per Checked item, and its `j`-th label is the text of the `j`-th
   * Checked item, the Checked items taken in their order among `items`.
   */
  lemma {:induction false} CheckedLabelsOrder(items: seq<TreeItem>)
    ensures StrictlyIncreasing(CheckedPositions(items))
    ensures forall k | 0 <= k < |items| :: k in CheckedPositions(items) <==> items[k].state == Checked
    ensures forall j | 0 <= j < |CheckedPositions(items)| :: CheckedPositions(items)[j] < |items|
    ensures |CheckedLabels(items)| == |CheckedPositions(items)|
    ensures forall j | 0 <= j < |CheckedPositions(items)| :: CheckedLabels(items)[j] == items[CheckedPositions(items)[j]].text
  {
    if items != [] {
      var front := items[..|items| - 1];
      CheckedLabelsOrder(front);
      var ps := CheckedPositions(items);
      var ls := CheckedLabels(items);
      var fps := CheckedPositions(front);
      forall j | 0 <= j < |ps| ensures ps[j] < |items| && (j < |fps| ==> ps[j] == fps[j] && ps[j] < |items| - 1) {
        if j < |fps| {
          assert ps[j] == fps[j];
        }
      }
      forall j, l | 0 <= j < l < |ps| ensures ps[j] < ps[l] {
        if l < |fps| {
          assert ps[j] == fps[j] && ps[l] == fps[l];
        }
      }
      forall k | 0 <= k < |items| ensures k in ps <==> items[k].state == Checked {
        if k < |items| - 1 {
          assert front[k] == items[k];
        }
      }
      forall j | 0 <= j < |ps| ensures ls[j] == items[ps[j]].text {
        if j < |CheckedPositions(front)| {
          assert ps[j] == CheckedPositions(front)[j] && ls[j] == CheckedLabels(front)[j];
          assert front[ps[j]] == items[ps[j]];
        }
      }
    }
  }

  /** getCheckedItems has one key per direct child of the top item, also when nothing under it is checked. */
  lemma {:induction false} CheckedMapKeys(signals: seq<TreeItem>)
    ensures forall x :: x in CheckedMap(signals) <==> exists k | 0 <= k < |signals| :: signals[k].text == x
  {
    if signals != [] {
      var n := |signals| - 1;
      var front := signals[..n];
      CheckedMapKeys(front);
      forall x ensures x in CheckedMap(signals) <==> exists k | 0 <= k < |signals| :: signals[k].text == x {
        if x in CheckedMap(signals) && x != signals[n].text {
          assert x in CheckedMap(front);
          var k :| 0 <= k < n && front[k].text == x;
          assert signals[k].text == x;
        }
        if exists k | 0 <= k < |signals| :: signals[k].text == x {
          var k :| 0 <= k < |signals| && signals[k].text == x;
          if k < n {
            assert front[k].text == x;
          }
        }
      }
    }
  }

  /**
   * The value for a text is the list of Checked direct children of the LAST
   * top-level child carrying that text: an earlier child with the same text is
   * overwritten.
   */
  lemma {:induction false} CheckedMapLastWins(signals: seq<TreeItem>, k: nat)
    requires k < |signals|
    requires forall j | k < j < |signals| :: signals[j].text != signals[k].text
    ensures signals[k].text in CheckedMap(signals)
    ensures CheckedMap(signals)[signals[k].text] == CheckedLabels(signals[k].children)
  {
    var n := |signals| - 1;
    if k < n {
      var front := signals[..n];
      CheckedMapLastWins(front, k);
    }
  }

  /** Items below the top item's grandchildren: everything under each grandchild is dropped. */
  function Prune(signals: seq<TreeItem>): (r: seq<TreeItem>)
    ensures |r| == |signals|
  {
    seq(|signals|, k requires 0 <= k < |signals| =>
      signals[k].(children := seq(|signals[k].children|, j requires 0 <= j < |signals[k].children| => signals[k].children[j].(children := []))))
  }

  lemma {:induction false} CheckedLabelsShallow(items: seq<TreeItem>, pruned: seq<TreeItem>)
    requires |pruned| == |items|
    requires forall j | 0 <= j < |items| :: pruned[j].text == items[j].text && pruned[j].state == items[j].state
    ensures CheckedLabels(pruned) == CheckedLabels(items)
  {
    if items != [] {
      CheckedLabelsShallow(items[..|items| - 1], pruned[..|pruned| - 1]);
    }
  }

  /** getCheckedItems reads only two levels: what lies below the grandchildren never matters. */
  lemma {:induction false} CheckedMapIgnoresDeeperLevels(signals: seq<TreeItem>)
    ensures CheckedMap(Prune(signals)) == CheckedMap(signals)
  {
    if signals != [] {
      var n := |signals| - 1;
      CheckedMapIgnoresDeeperLevels(signals[..n]);
      assert Prune(signals)[..n] == Prune(signals[..n]);
      CheckedLabelsShallow(signals[n].children, Prune(signals)[n].children);
    }
  }

  /** The index of the last top-level child carrying `x`. */
  function LastWithText(signals: seq<TreeItem>, x: string): (k: nat)
    requires exists k | 0 <= k < |signals| :: signals[k].text == x
    ensures k < |signals| && signals[k].text == x
    ensures forall j | k < j < |signals| :: signals[j].text != x
  {
    var n := |signals| - 1;
    if signals[n].text == x then n
    else
      var k :| 0 <= k < |signals| && signals[k].text == x;
      assert k < n && signals[..n][k].text == x;
      LastWithText(signals[..n], x)
  }

  /** On an untouched tree maps to the empty list. */
  lemma FreshTreeHasNothingChecked(signals: seq<TreeItem>)
    requires forall k | 0 <= k < |signals| :: AllUnchecked(signals[k])
    ensures forall x | x in CheckedMap(signals) :: CheckedMap(signals)[x] == []
  {
    CheckedMapKeys(signals);
    forall x | x in CheckedMap(signals) ensures CheckedMap(signals)[x] == [] {
      var k := LastWithText(signals, x);
      CheckedMapLastWins(signals, k);
      assert AllUnchecked(signals[k]);
      CheckedLabelsSpec(signals[k].children);
    }
  }

  // ---------------------------------------------------------------------------
  // updateStructureView

  /** The tree updateStructureView builds from the ontology: a fresh top item and its hierarchy. */
  function StructureTree(doc: Ontology, depth: nat): Result<TreeItem, AtlasError>
  {
    match TopHierarchy(doc, "")
    case Err(e) => Err(e)
    case Ok(top) => Hierarchy(doc, TreeItem(top.0, Unchecked, []), top.1, depth)
  }

  /** A freshly built structure tree has nothing checked anywhere. */
  lemma StructureTreeUnchecked(doc: Ontology, depth: nat)
    requires StructureTree(doc, depth).Ok?
    ensures AllUnchecked(StructureTree(doc, depth).value)
    ensures forall x | x in CheckedMap(StructureTree(doc, depth).value.children) ::
      CheckedMap(StructureTree(doc, depth).value.children)[x] == []
  {
    var top := TopHierarchy(doc, "").value;
    HierarchySpec(doc, TreeItem(top.0, Unchecked, []), top.1, depth);
    FreshTreeHasNothingChecked(StructureTree(doc, depth).value.children);
  }

  /** The editor logic; `top` is the tree's top item (qTreeWidgetItemsTop). */
  class AtlasEditorLogic {
    var top: TreeItem

    constructor ()
      ensures top == TreeItem("", Unchecked, [])
    {
      top := TreeItem("", Unchecked, []);
    }

    /**
     * Clears the tree and rebuilds it from the ontology. The new tree does not
     * depend on the old one, so rebuilding from an unchanged document is idempotent.
     */
    method UpdateStructureView(doc: Ontology, depth: nat) returns (r: Result<(), AtlasError>)
      modifies this
      ensures r.Ok? <==> StructureTree(doc, depth).Ok?
      ensures r.Err? ==> r.error == StructureTree(doc, depth).error
      ensures r.Ok? ==> top == StructureTree(doc, depth).value
    {
      top := TreeItem("", Unchecked, []);
      var head := BuildTopHierarchy(doc, top.text);
      if head.Err? {
        return Err(head.error);
      }
      top := top.(text := head.value.0);
      var built := BuildHierarchy(doc, top, head.value.1, depth);
      if built.Err? {
        return Err(built.error);
      }
      top := built.value;
      return Ok(());
    }

    method GetCheckedItems() returns (checked: map<string, seq<string>>)
      ensures checked == CheckedMap(top.children)
    {
      checked := map[];
      var root := top;
      var signalCount := |root.children|;
      for i := 0 to signalCount
        invariant checked == CheckedMap(root.children[..i])
      {
        var signal := root.children[i];
        var checkedSweeps: seq<string> := [];
        var numChildren := |signal.children|;
        for n := 0 to numChildren
          invariant checkedSweeps == CheckedLabels(signal.children[..n])
        {
          var child := signal.children[n];
          if child.state == Checked {
            checkedSweeps := checkedSweeps + [child.text];
          }
          assert signal.children[..n + 1][..n] == signal.children[..n];
        }
        assert signal.children[..numChildren] == signal.children;
        checked := checked[signal.text := checkedSweeps];
        assert root.children[..i + 1][..i] == root.children[..i];
      }
      assert root.children[..signalCount] == root.children;
    }
  }
}
