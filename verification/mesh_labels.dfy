/** `MeshClassificationFracking`: splitting a meshing block's triangles by
    the semantic labels of their vertices, and the per-block bookkeeping of
    classified meshes. Labels are `NRMeshingVertexSemanticLabel` ordinals;
    the wireframe computation is left to the mesh a label's triangles are
    handed to. */
module MeshLabels {
  import opened Wrappers

  type Label = int

  /** The two ordinals the classifier refuses (it logs them as invalid). */
  predicate IsInvalidLabel(l: Label) {
    l == 9 || l == 3
  }

  /** The valid labels occurring in `ls`. */
  function ValidLabels(ls: seq<Label>): set<Label> {
    set i | 0 <= i < |ls| && !IsInvalidLabel(ls[i]) :: ls[i]
  }

  predicate Distinct(s: seq<Label>) {
    forall i, j :: 0 <= i < j < |s| ==> s[i] != s[j]
  }

  /** `RemoveDuplicateLabels`: the valid labels of a triangle, each once, in
      order of first occurrence (the order a hash set of a few enum values
      built without removals enumerates them in). */
  function RemoveDuplicateLabels(ls: seq<Label>): (r: seq<Label>)
    ensures Distinct(r)
    ensures forall l :: l in r <==> l in ValidLabels(ls)
    ensures forall k :: 0 <= k < |r| ==> !IsInvalidLabel(r[k])
  {
    var r := AddLabels([], ls);
    assert forall k :: 0 <= k < |r| ==> r[k] in ValidLabels(ls);
    r
  }

  /** The hash-set loop: adds the valid labels of `ls` not yet in `acc`. */
  function AddLabels(acc: seq<Label>, ls: seq<Label>): (r: seq<Label>)
    requires Distinct(acc)
    ensures Distinct(r)
    ensures forall l :: l in r <==> l in acc || l in ValidLabels(ls)
    ensures |r| >= |acc| && r[..|acc|] == acc
    decreases |ls|
  {
    if |ls| == 0 then acc
    else
      var l := ls[0];
      var acc' := if IsInvalidLabel(l) || l in acc then acc else acc + [l];
      var r := AddLabels(acc', ls[1..]);
      assert ValidLabels(ls) == ValidLabels(ls[1..]) + (if IsInvalidLabel(l) then {} else {l}) by {
        assert forall i :: 1 <= i < |ls| ==> ls[i] == ls[1..][i - 1];
        assert forall i :: 0 <= i < |ls| - 1 ==> ls[1..][i] == ls[i + 1];
      }
      assert r[..|acc|] == r[..|acc'|][..|acc|];
      r
  }

  /** How often `l` occurs in `s`. */
  function Count(s: seq<Label>, l: Label): nat {
    if |s| == 0 then 0 else Count(s[..|s| - 1], l) + (if s[|s| - 1] == l then 1 else 0)
  }

  /** Counting over a longer prefix never gives less. */
  lemma {:induction false} CountMonotone(s: seq<Label>, l: Label, i: nat, j: nat)
    requires i <= j <= |s|
    ensures Count(s[..i], l) <= Count(s[..j], l)
    decreases j - i
  {
    if i < j {
      CountMonotone(s, l, i, j - 1);
      assert s[..j][..j - 1] == s[..j - 1];
    }
  }

  /** The index exception of reading `triangleLabels[0]` of an empty array. */
  datatype LabelError = IndexOutOfRange | DuplicateKey | NullReference

  /** `SelectMostMatchingLabelForTriangle`: a label occurring most often;
      among those, the first to reach that count. An empty array throws. */
  method SelectMostMatchingLabel(ls: seq<Label>) returns (r: Result<Label, LabelError>)
    ensures r.Failure? <==> |ls| == 0
    ensures r.Success? ==> r.value in ls
    ensures r.Success? ==> forall l :: Count(ls, l) <= Count(ls, r.value)
    ensures r.Success? ==> forall l, j :: 0 <= j <= |ls| && Count(ls[..j], l) >= Count(ls, r.value) ==>
      Count(ls[..j], r.value) >= Count(ls, r.value)
  {
    if |ls| == 0 {
      return Failure(IndexOutOfRange);
    }
    var counts: map<Label, nat> := map[];
    var maxCount := 0;
    var selected := ls[0];
    var i := 0;
    while i < |ls|
      invariant 0 <= i <= |ls|
      invariant selected in ls
      invariant forall l :: l in counts <==> l in ls[..i]
      invariant forall l :: l in counts ==> counts[l] == Count(ls[..i], l)
      invariant Count(ls[..i], selected) == maxCount
      invariant forall l :: Count(ls[..i], l) <= maxCount
      invariant FirstToReach(ls, i, selected, maxCount)
    {
      var current := ls[i];
      CountSnoc(ls, i);
      CountAbsent(ls[..i], current);
      var count := if current in counts then counts[current] else 0;
      counts := counts[current := count + 1];
      assert Count(ls[..i + 1], current) == count + 1;
      assert ls[..i + 1] == ls[..i] + [current];
      if maxCount < count + 1 {
        NewLeaderFirst(ls, i, maxCount);
        maxCount := count + 1;
        selected := current;
      } else {
        KeepLeaderFirst(ls, i, selected, maxCount);
      }
      i := i + 1;
    }
    assert ls[..|ls|] == ls;
    return Success(selected);
  }

  /** Among the prefixes up to `n`, any prefix in which some label occurs
      `m` times already holds `sel` that often. */
  ghost predicate FirstToReach(ls: seq<Label>, n: nat, sel: Label, m: nat)
    requires n <= |ls|
  {
    forall l, j :: 0 <= j <= n && Count(ls[..j], l) >= m ==> Count(ls[..j], sel) >= m
  }

  /** Extending the prefix by one entry counts that entry once more. */
  lemma CountSnoc(ls: seq<Label>, i: nat)
    requires i < |ls|
    ensures forall l :: Count(ls[..i + 1], l) == Count(ls[..i], l) + (if ls[i] == l then 1 else 0)
  {
    assert ls[..i + 1][..i] == ls[..i];
  }

  /** A label overtaking the maximum at entry `i` is the first to reach its
      new count: no earlier prefix holds any label that often. */
  lemma NewLeaderFirst(ls: seq<Label>, i: nat, maxCount: nat)
    requires i < |ls|
    requires forall l :: Count(ls[..i], l) <= maxCount
    requires maxCount < Count(ls[..i + 1], ls[i])
    ensures FirstToReach(ls, i + 1, ls[i], Count(ls[..i + 1], ls[i]))
  {
    var c := Count(ls[..i + 1], ls[i]);
    forall l, j | 0 <= j <= i + 1 && Count(ls[..j], l) >= c
      ensures Count(ls[..j], ls[i]) >= c
    {
      if j <= i {
        CountMonotone(ls, l, j, i);
      }
    }
  }

  /** When entry `i` does not overtake the maximum, the leader stays the
      first to reach it. */
  lemma KeepLeaderFirst(ls: seq<Label>, i: nat, selected: Label, maxCount: nat)
    requires i < |ls|
    requires FirstToReach(ls, i, selected, maxCount)
    requires Count(ls[..i], selected) == maxCount
    ensures FirstToReach(ls, i + 1, selected, maxCount)
  {
    CountMonotone(ls, selected, i, i + 1);
  }

  /** A label that does not occur is counted zero times. */
  lemma {:induction false} CountAbsent(s: seq<Label>, l: Label)
    ensures l !in s ==> Count(s, l) == 0
    decreases |s|
  {
    if |s| > 0 {
      CountAbsent(s[..|s| - 1], l);
    }
  }

  /** One triangle of the block's index buffer: three vertex indices. */
  datatype Tri = Tri(a: int, b: int, c: int)

  /** Every vertex index of every triangle names a vertex of the label
      array. */
  predicate IndicesInRange(tris: seq<Tri>, labels: seq<Label>) {
    forall k :: 0 <= k < |tris| ==> 0 <= tris[k].a < |labels| && 0 <= tris[k].b < |labels| && 0 <= tris[k].c < |labels|
  }

  /** The labels of a triangle's three vertices. */
  function VertexLabels(t: Tri, labels: seq<Label>): (r: seq<Label>)
    requires 0 <= t.a < |labels| && 0 <= t.b < |labels| && 0 <= t.c < |labels|
    ensures |r| == 3 && r[0] == labels[t.a] && r[1] == labels[t.b] && r[2] == labels[t.c]
  {
    [labels[t.a], labels[t.b], labels[t.c]]
  }

  /** The triangle lists per label, in the order of the available labels. */
  type TriangleLists = map<Label, seq<Tri>>

  /** Appends one triangle to the list of each label of `selected` that has
      a list; a label without one is skipped (the lookup's exception is
      caught and logged). With distinct labels, each list grows by the
      triangle at most once. */
  function AppendToLabels(lists: TriangleLists, selected: seq<Label>, t: Tri): (r: TriangleLists)
    ensures r.Keys == lists.Keys
    ensures Distinct(selected) ==> forall l :: l in lists ==> r[l] == lists[l] + (if l in selected then [t] else [])
    decreases |selected|
  {
    if |selected| == 0 then lists
    else
      var l := selected[0];
      var lists' := if l in lists then lists[l := lists[l] + [t]] else lists;
      var r := AppendToLabels(lists', selected[1..], t);
      assert Distinct(selected) ==> Distinct(selected[1..]) && l !in selected[1..] by {
        if Distinct(selected) {
          forall i, j | 0 <= i < j < |selected[1..]| ensures selected[1..][i] != selected[1..][j] {
            assert selected[1..][i] == selected[i + 1] && selected[1..][j] == selected[j + 1];
          }
        }
      }
      assert forall m :: m in selected <==> m == l || m in selected[1..];
      r
  }

  /** The reference classification: the triangles of `tris` one of whose
      vertices carries the valid label `l`, in order. */
  function TrianglesWithLabel(tris: seq<Tri>, labels: seq<Label>, l: Label): (r: seq<Tri>)
    requires IndicesInRange(tris, labels)
  {
    if |tris| == 0 then []
    else
      TrianglesWithLabel(tris[..|tris| - 1], labels, l)
      + (if l in ValidLabels(VertexLabels(tris[|tris| - 1], labels)) then [tris[|tris| - 1]] else [])
  }

  /** The indices of a non-empty run are in range exactly when those before
      the last triangle and the last one's are. */
  lemma InRangeSnoc(tris: seq<Tri>, labels: seq<Label>)
    requires |tris| > 0
    ensures var t := tris[|tris| - 1];
      IndicesInRange(tris, labels) <==>
        IndicesInRange(tris[..|tris| - 1], labels) && 0 <= t.a < |labels| && 0 <= t.b < |labels| && 0 <= t.c < |labels|
  {
    var prefix := tris[..|tris| - 1];
    assert forall k :: 0 <= k < |prefix| ==> prefix[k] == tris[k];
  }

  /** The triangle loop of `ExtractClassifiedMesh` over the first `n`
      triangles. A vertex index outside the label array throws and aborts
      the whole extraction. */
  function Classify(lists: TriangleLists, tris: seq<Tri>, labels: seq<Label>): (r: Result<TriangleLists, LabelError>)
    ensures r.Success? ==> r.value.Keys == lists.Keys
    ensures r.Success? <==> IndicesInRange(tris, labels)
    ensures r.Failure? ==> r.error == IndexOutOfRange
  {
    if |tris| == 0 then Success(lists)
    else
      var before :- Classify(lists, tris[..|tris| - 1], labels);
      var t := tris[|tris| - 1];
      InRangeSnoc(tris, labels);
      if !(0 <= t.a < |labels| && 0 <= t.b < |labels| && 0 <= t.c < |labels|) then
        Failure(IndexOutOfRange)
      else
        Success(AppendToLabels(before, RemoveDuplicateLabels(VertexLabels(t, labels)), t))
  }

  /** The classification loop appends to each label's list exactly the
      triangles the reference picks for that label, each once. */
  lemma {:induction false} ClassifyIsReference(lists: TriangleLists, tris: seq<Tri>, labels: seq<Label>)
    requires IndicesInRange(tris, labels)
    ensures Classify(lists, tris, labels).Success?
    ensures forall l :: l in lists ==>
      Classify(lists, tris, labels).value[l] == lists[l] + TrianglesWithLabel(tris, labels, l)
  {
    if |tris| > 0 {
      var prefix := tris[..|tris| - 1];
      InRangeSnoc(tris, labels);
      ClassifyIsReference(lists, prefix, labels);
      var before := Classify(lists, prefix, labels).value;
      var t := tris[|tris| - 1];
      var selected := RemoveDuplicateLabels(VertexLabels(t, labels));
      var after := AppendToLabels(before, selected, t);
      assert Classify(lists, tris, labels) == Success(after);
      forall l | l in lists
        ensures after[l] == lists[l] + TrianglesWithLabel(tris, labels, l)
      {
        ClassifyStep(lists[l], before, tris, labels, l);
      }
    }
  }

  /** One triangle of the loop: a label's list grows by the triangle exactly
      when the reference takes it for that label. */
  lemma ClassifyStep(start: seq<Tri>, before: TriangleLists, tris: seq<Tri>, labels: seq<Label>, l: Label)
    requires |tris| > 0 && IndicesInRange(tris, labels)
    requires IndicesInRange(tris[..|tris| - 1], labels)
    requires l in before && before[l] == start + TrianglesWithLabel(tris[..|tris| - 1], labels, l)
    ensures var t := tris[|tris| - 1];
      AppendToLabels(before, RemoveDuplicateLabels(VertexLabels(t, labels)), t)[l]
        == start + TrianglesWithLabel(tris, labels, l)
  {
    var t := tris[|tris| - 1];
    var selected := RemoveDuplicateLabels(VertexLabels(t, labels));
    assert l in selected <==> l in ValidLabels(VertexLabels(t, labels));
  }

  /** Fresh empty lists for the available labels; a label listed twice
      makes the dictionary's `Add` throw. */
  function EmptyLists(available: seq<Label>): (r: Result<TriangleLists, LabelError>)
    ensures r.Success? <==> Distinct(available)
    ensures r.Failure? ==> r.error == DuplicateKey
    ensures r.Success? ==> (forall l :: l in r.value <==> l in available) && forall l :: l in r.value ==> r.value[l] == []
  {
    if |available| == 0 then Success(map[])
    else
      var rest :- EmptyLists(available[..|available| - 1]);
      var l := available[|available| - 1];
      if l in rest then Failure(DuplicateKey)
      else
        assert forall i, j :: 0 <= i < j < |available| - 1 ==> available[..|available| - 1][i] == available[i] && available[..|available| - 1][j] == available[j];
        Success(rest[l := []])
  }

  /** `ExtractClassifiedMesh`: for each available label, the triangles of
      the block having a vertex with that label. */
  function ExtractClassified(available: seq<Label>, tris: seq<Tri>, labels: seq<Label>): (r: Result<TriangleLists, LabelError>)
    ensures r.Success? <==> Distinct(available) && IndicesInRange(tris, labels)
    ensures r.Success? ==> forall l :: l in r.value <==> l in available
    ensures r.Failure? ==> r.error == (if Distinct(available) then IndexOutOfRange else DuplicateKey)
  {
    var lists :- EmptyLists(available);
    Classify(lists, tris, labels)
  }

  /** On a block whose vertex indices are in range, every available
      label's list is exactly the reference selection of triangles. */
  lemma ExtractClassifiedIsReference(available: seq<Label>, tris: seq<Tri>, labels: seq<Label>)
    requires Distinct(available)
    requires IndicesInRange(tris, labels)
    ensures ExtractClassified(available, tris, labels).Success?
    ensures forall l :: l in available ==> ExtractClassified(available, tris, labels).value[l] == TrianglesWithLabel(tris, labels, l)
  {
    var lists := EmptyLists(available).value;
    ClassifyIsReference(lists, tris, labels);
    assert forall l :: l in lists ==> lists[l] + TrianglesWithLabel(tris, labels, l) == TrianglesWithLabel(tris, labels, l);
  }

  /** `NRMeshingBlockState`. */
  datatype BlockState = BlockNew | BlockUpdated | BlockDeleted | BlockUnchanged

  /** The classifier's per-block state: the labels of the block's filter
      dictionary, each mapped to whether a mesh filter was instantiated for
      it (false for the null stored for a prefab without one), and the
      classified triangles per label. */
  datatype Classifier = Classifier(filters: map<nat, map<Label, bool>>, meshes: map<nat, TriangleLists>)

  /** `HandleDeletedBlock`: drops the block's filters. Its classified meshes
      stay cached and are reused if the block comes back. */
  function HandleDeletedBlock(c: Classifier, id: nat): (r: Classifier)
    ensures id !in r.filters
    ensures forall other :: other != id && other in c.filters ==> other in r.filters && r.filters[other] == c.filters[other]
    ensures r.filters.Keys == c.filters.Keys - {id}
    ensures r.meshes == c.meshes
  {
    c.(filters := c.filters - {id})
  }

  /** The meshes a block gets when it is first seen: an empty mesh for
      each available label (the labels are distinct here). */
  function EmptyMeshes(available: seq<Label>): (r: TriangleLists)
    requires Distinct(available)
    ensures forall l :: l in r <==> l in available
    ensures forall l :: l in r ==> r[l] == []
  {
    EmptyLists(available).value
  }

  /** The filter dictionary a block gets when it is first seen: one entry
      per prefab label, holding an instance exactly when the prefab has a
      mesh filter (`unset` names the labels whose prefab has none). */
  function NewFilters(prefabLabels: seq<Label>, unset: set<Label>): (f: map<Label, bool>)
    ensures forall l :: l in f <==> l in prefabLabels
    ensures forall l :: l in f ==> (f[l] <==> l !in unset)
  {
    map l | l in prefabLabels :: l !in unset
  }

  /** The filters of block `id` once `HandleUpdateBlock` has registered it:
      those already registered, or a new dictionary. */
  function BlockFilters(c: Classifier, id: nat, prefabLabels: seq<Label>, unset: set<Label>): map<Label, bool> {
    if id in c.filters then c.filters[id] else NewFilters(prefabLabels, unset)
  }

  /** Some available label has a null filter in the block's dictionary:
      setting its shared mesh dereferences null. */
  predicate HasNullFilter(f: map<Label, bool>, available: seq<Label>) {
    exists l :: l in available && l in f && !f[l]
  }

  /** `HandleUpdateBlock`: registers the block's filters (one per prefab
      label) if missing, then its meshes (one per available label, the
      same labels) if missing, then recomputes the meshes from the block's
      triangles and vertex labels. The registrations stay when a later step
      throws: a label listed twice throws before anything is registered, a
      vertex index out of range throws with the block registered and its
      meshes as they were, and a null filter for an available label throws
      once the meshes have been recomputed. */
  function HandleUpdateBlock(c: Classifier, id: nat, prefabLabels: seq<Label>, unset: set<Label>, tris: seq<Tri>,
                             labels: seq<Label>): (r: (Classifier, Option<LabelError>))
    ensures r.1.None? <==>
      Distinct(prefabLabels) && IndicesInRange(tris, labels) && !HasNullFilter(BlockFilters(c, id, prefabLabels, unset), prefabLabels)
    ensures r.1 == Some(NullReference) <==>
      Distinct(prefabLabels) && IndicesInRange(tris, labels) && HasNullFilter(BlockFilters(c, id, prefabLabels, unset), prefabLabels)
    ensures !Distinct(prefabLabels) ==> r == (c, Some(DuplicateKey))
    ensures Distinct(prefabLabels) ==> id in r.0.filters && id in r.0.meshes
    ensures id in c.filters ==> r.0.filters == c.filters
    ensures id !in c.filters && Distinct(prefabLabels) ==>
      r.0.filters == c.filters[id := NewFilters(prefabLabels, unset)]
    ensures forall other :: other != id ==>
      (other in r.0.meshes <==> other in c.meshes) && (other in c.meshes ==> r.0.meshes[other] == c.meshes[other])
    ensures Distinct(prefabLabels) && !IndicesInRange(tris, labels) ==>
      r == (Classifier(r.0.filters, if id in c.meshes then c.meshes else c.meshes[id := EmptyMeshes(prefabLabels)]),
            Some(IndexOutOfRange))
    ensures r.1.None? || r.1 == Some(NullReference) ==> forall l :: l in prefabLabels ==>
      l in r.0.meshes[id] && r.0.meshes[id][l] == TrianglesWithLabel(tris, labels, l)
  {
    if !Distinct(prefabLabels) && !(id in c.filters && id in c.meshes) then (c, Some(DuplicateKey))
    else
      var filters := if id in c.filters then c.filters else c.filters[id := NewFilters(prefabLabels, unset)];
      var meshes := if id in c.meshes then c.meshes else c.meshes[id := EmptyMeshes(prefabLabels)];
      var registered := Classifier(filters, meshes);
      match ExtractClassified(prefabLabels, tris, labels)
      case Failure(e) => (registered, Some(e))
      case Success(lists) =>
        ExtractClassifiedIsReference(prefabLabels, tris, labels);
        var updated := registered.(meshes := meshes[id := lists]);
        if HasNullFilter(filters[id], prefabLabels) then (updated, Some(NullReference)) else (updated, None)
  }

  /** `UpdateMeshInfo`: new and updated blocks are classified, deleted ones
      dropped, unchanged ones left alone. The exception of a failed update
      is passed on with the classifier as the update left it. */
  function UpdateMeshInfo(c: Classifier, id: nat, state: BlockState, prefabLabels: seq<Label>, unset: set<Label>,
                          tris: seq<Tri>, labels: seq<Label>): (r: (Classifier, Option<LabelError>))
    ensures state == BlockUnchanged ==> r == (c, None)
    ensures state == BlockDeleted ==> r == (HandleDeletedBlock(c, id), None)
    ensures (state == BlockNew || state == BlockUpdated) ==> r == HandleUpdateBlock(c, id, prefabLabels, unset, tris, labels)
  {
    match state
    case BlockNew => HandleUpdateBlock(c, id, prefabLabels, unset, tris, labels)
    case BlockUpdated => HandleUpdateBlock(c, id, prefabLabels, unset, tris, labels)
    case BlockDeleted => (HandleDeletedBlock(c, id), None)
    case BlockUnchanged => (c, None)
  }

  /** `ClearMeshInfo`: deletes every block with filters. */
  function ClearMeshInfo(c: Classifier): (r: Classifier)
    ensures r.filters == map[] && r.meshes == c.meshes
  {
    c.(filters := map[])
  }

  /** A deleted block that is updated again gets its filters back, and
      deleting it a second time has no further effect. */
  lemma DeleteThenUpdate(c: Classifier, id: nat, prefabLabels: seq<Label>, unset: set<Label>, tris: seq<Tri>, labels: seq<Label>)
    requires Distinct(prefabLabels)
    ensures var d := HandleDeletedBlock(c, id);
      && HandleDeletedBlock(d, id) == d
      && HandleUpdateBlock(d, id, prefabLabels, unset, tris, labels).0.filters[id] == NewFilters(prefabLabels, unset)
  {
  }

  /** An update that throws on a bad index leaves the block registered, so
      a retry with good data classifies it as a first update would. */
  lemma RetryAfterFailure(c: Classifier, id: nat, prefabLabels: seq<Label>, unset: set<Label>, bad: seq<Tri>, tris: seq<Tri>, labels: seq<Label>)
    requires Distinct(prefabLabels) && !IndicesInRange(bad, labels) && IndicesInRange(tris, labels)
    ensures var failed := HandleUpdateBlock(c, id, prefabLabels, unset, bad, labels);
      var retried := HandleUpdateBlock(failed.0, id, prefabLabels, unset, tris, labels);
      && failed.1 == Some(IndexOutOfRange)
      && retried == HandleUpdateBlock(c, id, prefabLabels, unset, tris, labels)
  {
  }

  /** A first update of a block whose prefab for an available label has no
      mesh filter throws a null reference, after the block is registered and
      its meshes are recomputed; an update with every filter set succeeds. */
  lemma NullFilterThrowsAfterExtraction(c: Classifier, id: nat, prefabLabels: seq<Label>, unset: set<Label>,
                                       tris: seq<Tri>, labels: seq<Label>)
    requires id !in c.filters && Distinct(prefabLabels) && IndicesInRange(tris, labels)
    ensures var r := HandleUpdateBlock(c, id, prefabLabels, unset, tris, labels);
      && (r.1 == Some(NullReference) <==> exists l :: l in prefabLabels && l in unset)
      && (r.1.None? <==> forall l :: l in prefabLabels ==> l !in unset)
      && r.0.filters == c.filters[id := NewFilters(prefabLabels, unset)]
      && forall l :: l in prefabLabels ==> r.0.meshes[id][l] == TrianglesWithLabel(tris, labels, l)
  {
    var f := NewFilters(prefabLabels, unset);
    assert HasNullFilter(f, prefabLabels) <==> exists l :: l in prefabLabels && l in unset by {
      if exists l :: l in prefabLabels && l in unset {
        var l :| l in prefabLabels && l in unset;
        assert l in f && !f[l];
      }
    }
  }
}
