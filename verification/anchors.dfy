/** `NRWorldAnchorStore` and `NRWorldAnchor`: the store's dictionary of
    loaded anchors keyed by native handle, the handles of the anchor being
    created and the one being remapped, the saved uuid-to-key table, the
    anchors' change-only state setters and the per-frame refresh from the
    native anchor list. Anchor components are objects: the dictionary holds
    references, so a state set on an anchor is seen under every key that
    holds it. The native mapping calls are parameters: the handle, uuid or
    state they return and whether they succeed. */
module WorldAnchors {
  import opened Wrappers
  import opened Geometry

  /** `NRAnchorState`. Only UNKNOWN, SUCCESS and FAILURE are named by the
      modelled code; the remaining states are kept apart by a code. */
  datatype AnchorState = AnchorUnknown | AnchorSuccess | AnchorFailure | AnchorOther(code: nat)

  /** `MappingState`: a non-failure anchor state cast to the mapping state of
      the same ordinal, or one of the two failure kinds. */
  datatype MappingState = SameOrdinal(state: AnchorState) | RemapFailure | NewFailure

  /** The fields of an `NRWorldAnchor` component. */
  datatype Anchor = Anchor(uuid: string, handle: nat, trackingState: TrackingState,
                           anchorState: AnchorState, userKey: string)

  /** A freshly added anchor component: stopped, state UNKNOWN. */
  function NewAnchor(userKey: string): (a: Anchor)
    ensures a.trackingState == Stopped && a.anchorState == AnchorUnknown
    ensures a.handle == 0 && a.userKey == userKey
  {
    Anchor("", 0, Stopped, AnchorUnknown, userKey)
  }

  /** The identity of an anchor component object. */
  type AnchorId = nat

  /** The events an anchor raises, with the anchor that raised them. */
  datatype AnchorEvent =
    | TrackingChanged(anchor: AnchorId, tracking: TrackingState)
    | AnchorStateChanged(anchor: AnchorId, mapping: MappingState)

  /** An entry of the anchor dictionary: a handle and the anchor held
      under it. */
  datatype Entry = Entry(key: nat, anchor: AnchorId)

  /** The store: the anchor dictionary in enumeration order, the anchor
      objects it refers to, the two in-progress handles (0 when idle) and
      the saved uuid-to-key table. */
  datatype Store = Store(dict: seq<Entry>, objects: map<AnchorId, Anchor>, creating: nat,
                         remapping: nat, saved: map<string, string>)

  /** No two entries of the anchor dictionary share a key. */
  predicate DistinctKeys(dict: seq<Entry>) {
    forall i, j :: 0 <= i < j < |dict| ==> dict[i].key != dict[j].key
  }

  /** The dictionary's keys are distinct and every entry refers to an
      existing anchor. */
  predicate Valid(s: Store) {
    DistinctKeys(s.dict) && forall e :: e in s.dict ==> e.anchor in s.objects
  }

  /** Every anchor in the dictionary is held under its own nonzero handle,
      and so under one key only. Binding an anchor to a second handle
      breaks this: the anchor is then held under its old key as well. */
  predicate Consistent(s: Store) {
    Valid(s) && forall e :: e in s.dict ==> e.key != 0 && s.objects[e.anchor].handle == e.key
  }

  /** Two entries with the same key in a dictionary without repeated keys
      are the same entry. */
  lemma SameKeySameEntry(dict: seq<Entry>, x: Entry, y: Entry)
    requires DistinctKeys(dict) && x in dict && y in dict && x.key == y.key
    ensures x == y
  {
    var i :| 0 <= i < |dict| && dict[i] == x;
    var j :| 0 <= j < |dict| && dict[j] == y;
    assert !(i < j) && !(j < i);
  }

  /** The position of the entry keyed `h`, or -1. */
  function IndexOfHandle(dict: seq<Entry>, h: nat): (i: int)
    ensures -1 <= i < |dict|
    ensures i >= 0 ==> dict[i].key == h
    ensures i == -1 <==> forall j :: 0 <= j < |dict| ==> dict[j].key != h
    ensures i >= 0 ==> forall j :: 0 <= j < i ==> dict[j].key != h
  {
    if |dict| == 0 then -1
    else if dict[0].key == h then 0
    else var k := IndexOfHandle(dict[1..], h); if k < 0 then -1 else k + 1
  }

  /** `m_AnchorDict.TryGetValue(h)`: the anchor held under `h`. */
  function Lookup(dict: seq<Entry>, h: nat): (r: Option<AnchorId>)
    ensures r.Some? <==> exists j :: 0 <= j < |dict| && dict[j].key == h
    ensures r.None? <==> forall e :: e in dict ==> e.key != h
    ensures r.Some? ==> Entry(h, r.value) in dict
  {
    var i := IndexOfHandle(dict, h);
    if i < 0 then None else Some(dict[i].anchor)
  }

  /** `m_AnchorDict[e.key] = e.anchor`: replaces the entry in place or
      appends a new one. */
  function Put(dict: seq<Entry>, e: Entry): (r: seq<Entry>)
    ensures Lookup(r, e.key) == Some(e.anchor)
    ensures forall h :: h != e.key ==> Lookup(r, h) == Lookup(dict, h)
    ensures DistinctKeys(dict) ==> forall x :: x in r <==> x == e || (x in dict && x.key != e.key)
    ensures DistinctKeys(dict) ==> DistinctKeys(r)
  {
    var i := IndexOfHandle(dict, e.key);
    var r := if i < 0 then dict + [e] else dict[i := e];
    PutIndexes(dict, e, i, r);
    PutKeepsDistinct(dict, e, i, r);
    PutEntries(dict, e, i, r);
    r
  }

  /** Where `Put` leaves each key: `e`'s at the slot it replaced or at the
      end, every other key where it was. */
  lemma PutIndexes(dict: seq<Entry>, e: Entry, i: int, r: seq<Entry>)
    requires i == IndexOfHandle(dict, e.key)
    requires r == if i < 0 then dict + [e] else dict[i := e]
    ensures IndexOfHandle(r, e.key) == (if i < 0 then |dict| else i)
    ensures forall h :: h != e.key ==> IndexOfHandle(r, h) == IndexOfHandle(dict, h)
  {
    if i < 0 {
      PutAppends(dict, e);
    } else {
      PutReplaces(dict, e, i);
    }
  }

  /** Appending an entry with a new key finds it at the end and every other
      key where it was. */
  lemma PutAppends(dict: seq<Entry>, e: Entry)
    requires forall j :: 0 <= j < |dict| ==> dict[j].key != e.key
    ensures IndexOfHandle(dict + [e], e.key) == |dict|
    ensures forall h :: h != e.key ==> IndexOfHandle(dict + [e], h) == IndexOfHandle(dict, h)
  {
    var r := dict + [e];
    assert forall j :: 0 <= j < |dict| ==> r[j] == dict[j];
    IndexOfHandleIs(r, e.key, |dict|);
    forall h | h != e.key
      ensures IndexOfHandle(r, h) == IndexOfHandle(dict, h)
    {
      IndexOfHandleIs(r, h, IndexOfHandle(dict, h));
    }
  }

  /** Overwriting the first entry keyed like `e` finds `e` there and every
      other key where it was. */
  lemma PutReplaces(dict: seq<Entry>, e: Entry, i: int)
    requires 0 <= i < |dict| && dict[i].key == e.key
    requires forall j :: 0 <= j < i ==> dict[j].key != e.key
    ensures IndexOfHandle(dict[i := e], e.key) == i
    ensures forall h :: h != e.key ==> IndexOfHandle(dict[i := e], h) == IndexOfHandle(dict, h)
  {
    var r := dict[i := e];
    IndexOfHandleIs(r, e.key, i);
    forall h | h != e.key
      ensures IndexOfHandle(r, h) == IndexOfHandle(dict, h)
    {
      IndexOfHandleIs(r, h, IndexOfHandle(dict, h));
    }
  }

  /** The first position keyed `h`, or -1 when there is none, is what
      `IndexOfHandle` finds. */
  lemma IndexOfHandleIs(dict: seq<Entry>, h: nat, k: int)
    requires -1 <= k < |dict|
    requires k >= 0 ==> dict[k].key == h && forall j :: 0 <= j < k ==> dict[j].key != h
    requires k == -1 ==> forall j :: 0 <= j < |dict| ==> dict[j].key != h
    ensures IndexOfHandle(dict, h) == k
  {
  }

  /** `Put` keeps the keys distinct. */
  lemma PutKeepsDistinct(dict: seq<Entry>, e: Entry, i: int, r: seq<Entry>)
    requires i == IndexOfHandle(dict, e.key)
    requires r == if i < 0 then dict + [e] else dict[i := e]
    ensures DistinctKeys(dict) ==> DistinctKeys(r)
  {
  }

  /** The entries after `Put` on distinct keys: the new one and the old
      ones with other keys (the one with the same key is replaced). */
  lemma PutEntries(dict: seq<Entry>, e: Entry, i: int, r: seq<Entry>)
    requires i == IndexOfHandle(dict, e.key)
    requires r == if i < 0 then dict + [e] else dict[i := e]
    ensures DistinctKeys(dict) ==> forall x :: x in r <==> x == e || (x in dict && x.key != e.key)
  {
    if DistinctKeys(dict) {
      forall x | x in dict && x.key != e.key
        ensures x in r
      {
        var j :| 0 <= j < |dict| && dict[j] == x;
        assert r[j] == x;
      }
      forall x | x in r && x != e
        ensures x in dict && x.key != e.key
      {
        var j :| 0 <= j < |r| && r[j] == x;
        assert j != i && r[j] == dict[j];
      }
    }
  }

  /** `m_AnchorDict.Remove(h)`. */
  function RemoveHandle(dict: seq<Entry>, h: nat): (r: seq<Entry>)
    requires DistinctKeys(dict)
    ensures Lookup(r, h) == None
    ensures DistinctKeys(r)
    ensures forall x :: x in r <==> x in dict && x.key != h
  {
    var i := IndexOfHandle(dict, h);
    if i < 0 then dict
    else
      var r := dict[..i] + dict[i + 1..];
      assert forall j :: 0 <= j < |r| ==> r[j] == dict[if j < i then j else j + 1];
      assert forall x :: x in dict && x.key != h ==> x in r by {
        forall x | x in dict && x.key != h
          ensures x in r
        {
          var j :| 0 <= j < |dict| && dict[j] == x;
          assert r[if j < i then j else j - 1] == x;
        }
      }
      r
  }

  /** `IsCreatingNewAnchor`. */
  predicate IsCreatingNewAnchor(s: Store) {
    s.creating != 0
  }

  /** `IsRemapping`. */
  predicate IsRemapping(s: Store) {
    s.remapping != 0
  }

  /** `removeProcessingAnchorHandle`: clears whichever of the two
      in-progress handles equals `h`, and nothing else. */
  function RemoveProcessingAnchorHandle(s: Store, h: nat): (r: Store)
    ensures r.dict == s.dict && r.objects == s.objects && r.saved == s.saved
    ensures r.creating == (if s.creating == h then 0 else s.creating)
    ensures r.remapping == (if s.remapping == h then 0 else s.remapping)
  {
    s.(creating := if s.creating == h then 0 else s.creating,
       remapping := if s.remapping == h then 0 else s.remapping)
  }

  /** After the in-progress handles are released for a nonzero handle,
      neither of them is that handle any more, and an unrelated one
      survives. */
  lemma RemoveProcessingReleasesOnlyThatHandle(s: Store, h: nat)
    requires h != 0
    ensures RemoveProcessingAnchorHandle(s, h).creating != h
    ensures RemoveProcessingAnchorHandle(s, h).remapping != h
    ensures s.creating != h ==> IsCreatingNewAnchor(RemoveProcessingAnchorHandle(s, h)) == IsCreatingNewAnchor(s)
    ensures s.remapping != h ==> IsRemapping(RemoveProcessingAnchorHandle(s, h)) == IsRemapping(s)
    ensures s.creating == h ==> !IsCreatingNewAnchor(RemoveProcessingAnchorHandle(s, h))
    ensures s.remapping == h ==> !IsRemapping(RemoveProcessingAnchorHandle(s, h))
  {
  }

  /** A terminal anchor state: SUCCESS or FAILURE. */
  predicate IsFinished(state: AnchorState) {
    state == AnchorSuccess || state == AnchorFailure
  }

  /** `handleProcessingFinish`: releases the handle only when mapping has
      finished, in success or in failure. */
  function HandleProcessingFinish(s: Store, h: nat, state: AnchorState): (r: Store)
    ensures !IsFinished(state) ==> r == s
    ensures IsFinished(state) ==> r == RemoveProcessingAnchorHandle(s, h)
  {
    if IsFinished(state) then RemoveProcessingAnchorHandle(s, h) else s
  }

  /** `CreateAnchor`: the native side hands out a handle and the anchor's
      uuid. Handle 0 fails and changes nothing; otherwise the anchor object
      takes the handle and uuid, is held under the handle and becomes the
      anchor being created. */
  function CreateAnchor(s: Store, id: AnchorId, nativeHandle: nat, nativeUuid: string): (r: (Store, bool))
    requires id in s.objects
    ensures r.1 <==> nativeHandle != 0
    ensures !r.1 ==> r.0 == s
    ensures r.1 ==> r.0.objects == s.objects[id := s.objects[id].(uuid := nativeUuid, handle := nativeHandle)]
    ensures r.1 ==> Lookup(r.0.dict, nativeHandle) == Some(id)
    ensures r.1 ==> forall h :: h != nativeHandle ==> Lookup(r.0.dict, h) == Lookup(s.dict, h)
    ensures r.1 ==> IsCreatingNewAnchor(r.0) && r.0.creating == nativeHandle
    ensures r.0.remapping == s.remapping && r.0.saved == s.saved
    ensures Valid(s) ==> Valid(r.0)
  {
    if nativeHandle == 0 then (s, false)
    else
      var a := s.objects[id].(uuid := nativeUuid, handle := nativeHandle);
      (s.(dict := Put(s.dict, Entry(nativeHandle, id)), objects := s.objects[id := a], creating := nativeHandle), true)
  }

  /** `BindAnchor`: the anchor object takes the given handle and is held
      under it. An entry holding it under another key stays, so a re-bound
      anchor is held under both keys; the in-progress handles are
      untouched. */
  function BindAnchor(s: Store, id: AnchorId, h: nat): (r: Store)
    requires id in s.objects
    ensures r.objects == s.objects[id := s.objects[id].(handle := h)]
    ensures Lookup(r.dict, h) == Some(id)
    ensures forall h' :: h' != h ==> Lookup(r.dict, h') == Lookup(s.dict, h')
    ensures r.creating == s.creating && r.remapping == s.remapping && r.saved == s.saved
    ensures Valid(s) ==> Valid(r)
  {
    s.(dict := Put(s.dict, Entry(h, id)), objects := s.objects[id := s.objects[id].(handle := h)])
  }

  /** An anchor not yet in the dictionary, bound (or created) under a
      nonzero handle, keeps every anchor under its own handle. */
  lemma BindFreshKeepsConsistent(s: Store, id: AnchorId, h: nat, uuid: string)
    requires Consistent(s) && id in s.objects && h != 0
    requires forall e :: e in s.dict ==> e.anchor != id
    ensures Consistent(BindAnchor(s, id, h))
    ensures Consistent(CreateAnchor(s, id, h, uuid).0)
  {
  }

  /** Re-binding an anchor that is held under its handle to another handle
      leaves it held under both, so the dictionary no longer holds each
      anchor under its own handle. */
  lemma RebindHoldsUnderBothKeys(s: Store, id: AnchorId, h: nat)
    requires Consistent(s) && id in s.objects
    requires Lookup(s.dict, s.objects[id].handle) == Some(id) && h != s.objects[id].handle
    ensures var r := BindAnchor(s, id, h);
      && Lookup(r.dict, s.objects[id].handle) == Some(id) && Lookup(r.dict, h) == Some(id)
      && !Consistent(r)
  {
    var r := BindAnchor(s, id, h);
    assert Entry(s.objects[id].handle, id) in r.dict;
  }

  /** `Remap`: when the native remap starts, the anchor becomes the one
      being remapped. */
  function Remap(s: Store, id: AnchorId, nativeStarted: bool): (r: (Store, bool))
    requires id in s.objects
    ensures r.1 <==> nativeStarted
    ensures r.1 ==> r.0 == s.(remapping := s.objects[id].handle)
    ensures !r.1 ==> r.0 == s
  {
    if nativeStarted then (s.(remapping := s.objects[id].handle), true) else (s, false)
  }

  /** `toMappingState`, evaluated against the store's in-progress handles. */
  function ToMappingState(s: Store, h: nat, state: AnchorState): (m: MappingState)
    ensures state != AnchorFailure ==> m == SameOrdinal(state)
    ensures state == AnchorFailure ==> (m == RemapFailure <==> h == s.remapping)
    ensures state == AnchorFailure ==> (m == NewFailure <==> h != s.remapping)
  {
    if state != AnchorFailure then SameOrdinal(state)
    else if h == s.remapping then RemapFailure
    else NewFailure
  }

  /** Failures are the only states the mapping state renames, and a
      non-failure state can be read back from its mapping state. */
  lemma MappingStateKeepsNonFailures(s: Store, h: nat, state: AnchorState)
    ensures ToMappingState(s, h, state).SameOrdinal? <==> state != AnchorFailure
    ensures ToMappingState(s, h, state).SameOrdinal? ==> ToMappingState(s, h, state).state == state
  {
  }

  /** The `CurrentTrackingState` setter: stores the value in the anchor
      object and raises `OnTrackingChanged` only on an actual change. */
  function SetTrackingState(s: Store, id: AnchorId, value: TrackingState): (r: (Store, seq<AnchorEvent>))
    requires id in s.objects
    ensures r.0 == s.(objects := s.objects[id := s.objects[id].(trackingState := value)])
    ensures s.objects[id].trackingState == value ==> r.1 == []
    ensures s.objects[id].trackingState != value ==> r.1 == [TrackingChanged(id, value)]
  {
    var a := s.objects[id];
    if a.trackingState != value then (s.(objects := s.objects[id := a.(trackingState := value)]), [TrackingChanged(id, value)])
    else
      assert s.objects[id := a] == s.objects;
      (s, [])
  }

  /** The `CurrentAnchorState` setter: on an actual change, stores the
      value, raises `OnAnchorStateChanged` with the mapping state seen
      before the store is told, and then tells the store. */
  function SetAnchorState(s: Store, id: AnchorId, value: AnchorState): (r: (Store, seq<AnchorEvent>))
    requires id in s.objects
    ensures r.0.objects == s.objects[id := s.objects[id].(anchorState := value)]
    ensures s.objects[id].anchorState == value ==> r == (s, [])
    ensures s.objects[id].anchorState != value ==>
      r.1 == [AnchorStateChanged(id, ToMappingState(s, s.objects[id].handle, value))]
    ensures s.objects[id].anchorState != value ==>
      r.0 == HandleProcessingFinish(s.(objects := r.0.objects), s.objects[id].handle, value)
    ensures r.0.dict == s.dict && r.0.saved == s.saved
  {
    var a := s.objects[id];
    if a.anchorState != value then
      (HandleProcessingFinish(s.(objects := s.objects[id := a.(anchorState := value)]), a.handle, value),
       [AnchorStateChanged(id, ToMappingState(s, a.handle, value))])
    else
      assert s.objects[id := a] == s.objects;
      (s, [])
  }

  /** A state set on an anchor is seen under every key that holds it, the
      old key of a re-bound anchor included. */
  lemma SetStateSeenUnderEveryKey(s: Store, id: AnchorId, t: TrackingState, v: AnchorState, k: nat)
    requires id in s.objects && Lookup(s.dict, k) == Some(id)
    ensures var r := SetAnchorState(SetTrackingState(s, id, t).0, id, v).0;
      && Lookup(r.dict, k) == Some(id)
      && r.objects[id].trackingState == t && r.objects[id].anchorState == v
  {
  }

  /** Setting either state twice to the same value raises nothing the
      second time. */
  lemma SettersFireOncePerChange(s: Store, id: AnchorId, t: TrackingState, v: AnchorState)
    requires id in s.objects
    ensures SetTrackingState(SetTrackingState(s, id, t).0, id, t).1 == []
    ensures var once := SetAnchorState(s, id, v).0;
      SetAnchorState(once, id, v) == (once, [])
  {
  }

  /** A failed creation is reported as NEW_FAILURE and releases the
      creating handle; a failed remap is reported as REMAP_FAILURE and
      releases the remapping handle. */
  lemma FailureReportsAndReleases(s: Store, id: AnchorId)
    requires id in s.objects
    requires s.objects[id].anchorState != AnchorFailure && s.objects[id].handle != 0
    requires s.objects[id].handle == s.creating || s.objects[id].handle == s.remapping
    ensures var h := s.objects[id].handle;
      var r := SetAnchorState(s, id, AnchorFailure);
      && r.1 == [AnchorStateChanged(id, if h == s.remapping then RemapFailure else NewFailure)]
      && r.0.creating != h && r.0.remapping != h
  {
  }

  /** How one anchor ends after `DisableAllAnchors`, given the in-progress
      handles it was compared with: FAILURE for the anchor being created or
      remapped, Stopped tracking for any other, and nothing else changed. */
  predicate Disabled(before: Anchor, after: Anchor, creating: nat, remapping: nat) {
    if before.handle == creating || before.handle == remapping
    then after == before.(anchorState := AnchorFailure)
    else after == before.(trackingState := Stopped)
  }

  /** `m_AnchorDict.Values`, in enumeration order. */
  function Values(dict: seq<Entry>): (r: seq<AnchorId>)
    ensures |r| == |dict| && forall j :: 0 <= j < |dict| ==> r[j] == dict[j].anchor
  {
    if |dict| == 0 then [] else [dict[0].anchor] + Values(dict[1..])
  }

  /** `m_AnchorDict.Keys`, in enumeration order. */
  function Keys(dict: seq<Entry>): (r: seq<nat>)
    ensures |r| == |dict| && forall j :: 0 <= j < |dict| ==> r[j] == dict[j].key
  {
    if |dict| == 0 then [] else [dict[0].key] + Keys(dict[1..])
  }

  /** One iteration of `DisableAllAnchors`: FAILURE for the anchor being
      created or remapped, Stopped tracking for any other. */
  function DisableOne(s: Store, id: AnchorId): (r: (Store, seq<AnchorEvent>))
    requires id in s.objects
    ensures r.0.dict == s.dict && r.0.saved == s.saved
    ensures id in r.0.objects && r.0.objects == s.objects[id := r.0.objects[id]]
    ensures Disabled(s.objects[id], r.0.objects[id], s.creating, s.remapping)
    ensures r.0.creating == s.creating || (r.0.creating == 0 && s.creating == s.objects[id].handle)
    ensures r.0.remapping == s.remapping || (r.0.remapping == 0 && s.remapping == s.objects[id].handle)
  {
    var a := s.objects[id];
    if a.handle == s.creating || a.handle == s.remapping
    then SetAnchorState(s, id, AnchorFailure)
    else SetTrackingState(s, id, Stopped)
  }

  /** The loop of `DisableAllAnchors` from the `i`-th anchor of a snapshot
      of the dictionary's values on. */
  function DisableFrom(s: Store, ids: seq<AnchorId>, i: nat): (r: (Store, seq<AnchorEvent>))
    requires i <= |ids| && forall j :: 0 <= j < |ids| ==> ids[j] in s.objects
    ensures r.0.dict == s.dict && r.0.saved == s.saved && r.0.objects.Keys == s.objects.Keys
    decreases |ids| - i
  {
    if i == |ids| then (s, [])
    else
      var step := DisableOne(s, ids[i]);
      var rest := DisableFrom(step.0, ids, i + 1);
      (rest.0, step.1 + rest.1)
  }

  /** `DisableAllAnchors`. */
  function DisableAllAnchors(s: Store): (r: (Store, seq<AnchorEvent>))
    requires Valid(s)
    ensures r.0.dict == s.dict && r.0.saved == s.saved && r.0.objects.Keys == s.objects.Keys
  {
    var ids := Values(s.dict);
    assert forall j :: 0 <= j < |ids| ==> s.dict[j] in s.dict;
    DisableFrom(s, ids, 0)
  }

  /** The loop's condition from the `i`-th anchor on: the anchors still to
      be reached have distinct nonzero handles, and the store's in-progress
      handles single out the same of them as `c` and `m` do. */
  ghost predicate DisableReady(s: Store, ids: seq<AnchorId>, i: nat, c: nat, m: nat)
    requires i <= |ids| && forall j :: 0 <= j < |ids| ==> ids[j] in s.objects
  {
    && (forall j :: i <= j < |ids| ==> s.objects[ids[j]].handle != 0)
    && (forall j, k :: i <= j < k < |ids| ==> s.objects[ids[j]].handle != s.objects[ids[k]].handle)
    && (forall j :: i <= j < |ids| ==>
         (s.objects[ids[j]].handle == s.creating <==> s.objects[ids[j]].handle == c) &&
         (s.objects[ids[j]].handle == s.remapping <==> s.objects[ids[j]].handle == m))
  }

  /** One iteration disables the anchor it reaches as `c` and `m` decide,
      touches no other anchor, and keeps the loop's condition for the
      rest. */
  lemma DisableOneStep(s: Store, ids: seq<AnchorId>, i: nat, c: nat, m: nat)
    requires i < |ids| && forall j :: 0 <= j < |ids| ==> ids[j] in s.objects
    requires DisableReady(s, ids, i, c, m)
    ensures var next := DisableOne(s, ids[i]).0;
      && (forall j :: 0 <= j < |ids| ==> ids[j] in next.objects)
      && Disabled(s.objects[ids[i]], next.objects[ids[i]], c, m)
      && (forall j :: i < j < |ids| ==> ids[j] != ids[i])
      && DisableReady(next, ids, i + 1, c, m)
  {
    var next := DisableOne(s, ids[i]).0;
    assert forall j :: i < j < |ids| ==> ids[j] != ids[i] && next.objects[ids[j]] == s.objects[ids[j]];
  }

  /** From the `i`-th anchor on, the loop treats each anchor as the
      original in-progress handles `c` and `m` decide, and leaves every
      anchor it does not reach alone. */
  lemma {:induction false} DisableFromOutcome(s: Store, ids: seq<AnchorId>, i: nat, c: nat, m: nat)
    requires i <= |ids| && forall j :: 0 <= j < |ids| ==> ids[j] in s.objects
    requires DisableReady(s, ids, i, c, m)
    ensures forall o :: o in s.objects && o !in ids[i..] ==> DisableFrom(s, ids, i).0.objects[o] == s.objects[o]
    ensures forall j :: i <= j < |ids| ==> Disabled(s.objects[ids[j]], DisableFrom(s, ids, i).0.objects[ids[j]], c, m)
    decreases |ids| - i
  {
    if i < |ids| {
      var id := ids[i];
      var next := DisableOne(s, id).0;
      DisableOneStep(s, ids, i, c, m);
      DisableFromOutcome(next, ids, i + 1, c, m);
      assert id !in ids[i + 1..];
      forall o | o in s.objects && o !in ids[i..]
        ensures DisableFrom(s, ids, i).0.objects[o] == s.objects[o]
      {
        assert o != id && o !in ids[i + 1..];
      }
      forall j | i < j < |ids|
        ensures Disabled(s.objects[ids[j]], DisableFrom(s, ids, i).0.objects[ids[j]], c, m)
      {
        assert next.objects[ids[j]] == s.objects[ids[j]];
      }
    }
  }

  /** With every anchor held under its own handle, `DisableAllAnchors`
      fails the anchor being created or remapped and stops every other one,
      changing no other field, and leaves anchors outside the dictionary
      alone. */
  lemma DisableAllAnchorsOutcome(s: Store)
    requires Consistent(s)
    ensures forall e :: e in s.dict ==>
      Disabled(s.objects[e.anchor], DisableAllAnchors(s).0.objects[e.anchor], s.creating, s.remapping)
    ensures forall o :: o in s.objects && (forall e :: e in s.dict ==> e.anchor != o) ==>
      DisableAllAnchors(s).0.objects[o] == s.objects[o]
  {
    var ids := Values(s.dict);
    assert forall j :: 0 <= j < |ids| ==> s.dict[j] in s.dict;
    DisableFromOutcome(s, ids, 0, s.creating, s.remapping);
    forall e | e in s.dict
      ensures Disabled(s.objects[e.anchor], DisableAllAnchors(s).0.objects[e.anchor], s.creating, s.remapping)
    {
      var j :| 0 <= j < |s.dict| && s.dict[j] == e;
      assert ids[j] == e.anchor;
    }
  }

  /** `DestroyAnchor`: drops the dictionary entry under the anchor's handle
      and releases that handle if it was in progress, in whatever state the
      anchor is. The anchor object itself stays as it is. */
  function DestroyAnchor(s: Store, id: AnchorId): (r: (Store, bool))
    requires Valid(s) && id in s.objects
    ensures r.1
    ensures Lookup(r.0.dict, s.objects[id].handle) == None && Valid(r.0)
    ensures forall x :: x in r.0.dict <==> x in s.dict && x.key != s.objects[id].handle
    ensures r.0.creating == (if s.creating == s.objects[id].handle then 0 else s.creating)
    ensures r.0.remapping == (if s.remapping == s.objects[id].handle then 0 else s.remapping)
    ensures r.0.objects == s.objects && r.0.saved == s.saved
    ensures Consistent(s) ==> Consistent(r.0)
  {
    var h := s.objects[id].handle;
    (RemoveProcessingAnchorHandle(s.(dict := RemoveHandle(s.dict, h)), h), true)
  }

  /** The loop of `Destroy` over a snapshot of the dictionary's keys: each
      key still present has its anchor destroyed. */
  function DestroyKeys(s: Store, keys: seq<nat>): (r: Store)
    requires Valid(s)
    ensures Valid(r) && r.objects == s.objects && r.saved == s.saved
    ensures forall x :: x in r.dict ==> x in s.dict
    ensures r.creating == 0 || r.creating == s.creating
    ensures r.remapping == 0 || r.remapping == s.remapping
    decreases |keys|
  {
    if |keys| == 0 then s
    else
      match Lookup(s.dict, keys[0])
      case None => DestroyKeys(s, keys[1..])
      case Some(id) => DestroyKeys(DestroyAnchor(s, id).0, keys[1..])
  }

  /** `Destroy`: destroys the anchor of every key in the dictionary. With
      every anchor under its own handle the dictionary ends empty. */
  function DestroyAll(s: Store): (r: Store)
    requires Valid(s)
    ensures Valid(r) && r.objects == s.objects && r.saved == s.saved
    ensures forall x :: x in r.dict ==> x in s.dict
    ensures Consistent(s) ==> r.dict == []
    ensures r.creating == 0 || r.creating == s.creating
    ensures r.remapping == 0 || r.remapping == s.remapping
  {
    var keys := Keys(s.dict);
    assert forall x :: x in s.dict ==> x.key in keys by {
      forall x | x in s.dict
        ensures x.key in keys
      {
        var j :| 0 <= j < |s.dict| && s.dict[j] == x;
        assert keys[j] == x.key;
      }
    }
    if Consistent(s) then DestroyKeysEmpties(s, keys); DestroyKeys(s, keys)
    else DestroyKeys(s, keys)
  }

  /** Destroying the anchors of a list of keys covering the dictionary,
      each held under its own handle, empties it. */
  lemma {:induction false} DestroyKeysEmpties(s: Store, keys: seq<nat>)
    requires Consistent(s)
    requires forall x :: x in s.dict ==> x.key in keys
    ensures DestroyKeys(s, keys).dict == []
    decreases |keys|
  {
    assert |s.dict| > 0 ==> s.dict[0] in s.dict;
    if |keys| > 0 {
      var next := match Lookup(s.dict, keys[0]) case None => s case Some(id) => DestroyAnchor(s, id).0;
      assert DestroyKeys(s, keys) == DestroyKeys(next, keys[1..]);
      assert forall x :: x in next.dict ==> x.key != keys[0] && x in s.dict;
      DestroyKeysEmpties(next, keys[1..]);
    }
  }

  /** With every anchor under its own handle, destroying everything also
      releases an in-progress handle held by an anchor in the
      dictionary. */
  lemma {:induction false} DestroyKeysReleases(s: Store, keys: seq<nat>)
    requires Consistent(s)
    requires forall x :: x in s.dict ==> x.key in keys
    ensures (exists x :: x in s.dict && x.key == s.creating) ==> DestroyKeys(s, keys).creating == 0
    ensures (exists x :: x in s.dict && x.key == s.remapping) ==> DestroyKeys(s, keys).remapping == 0
    decreases |keys|
  {
    if |keys| > 0 {
      var k := keys[0];
      var next := match Lookup(s.dict, k) case None => s case Some(id) => DestroyAnchor(s, id).0;
      assert DestroyKeys(s, keys) == DestroyKeys(next, keys[1..]);
      assert forall x :: x in s.dict && x.key != k ==> x in next.dict;
      assert forall x :: x in next.dict ==> x.key != k && x in s.dict;
      DestroyKeysReleases(next, keys[1..]);
    }
  }

  /** `Destroy` releases an in-progress handle held by an anchor in the
      dictionary when every anchor is under its own handle. */
  lemma DestroyAllReleases(s: Store)
    requires Consistent(s)
    ensures (exists x :: x in s.dict && x.key == s.creating) ==> DestroyAll(s).creating == 0
    ensures (exists x :: x in s.dict && x.key == s.remapping) ==> DestroyAll(s).remapping == 0
  {
    var keys := Keys(s.dict);
    forall x | x in s.dict
      ensures x.key in keys
    {
      var j :| 0 <= j < |s.dict| && s.dict[j] == x;
      assert keys[j] == x.key;
    }
    DestroyKeysReleases(s, keys);
  }

  /** After an anchor held under handle 1 is re-bound to handle 2, `Destroy`
      removes the entry under 2 when it reaches key 1, finds nothing left
      under 2, and so leaves the anchor in the dictionary under 1. */
  lemma RebindSurvivesDestroyAll()
    ensures var a := Anchor("u", 1, Stopped, AnchorUnknown, "k");
      var s := Store([Entry(1, 0)], map[0 := a], 0, 0, map[]);
      var bound := BindAnchor(s, 0, 2);
      && bound.dict == [Entry(1, 0), Entry(2, 0)]
      && DestroyAll(bound).dict == [Entry(1, 0)]
  {
    var a := Anchor("u", 1, Stopped, AnchorUnknown, "k");
    var s := Store([Entry(1, 0)], map[0 := a], 0, 0, map[]);
    var bound := BindAnchor(s, 0, 2);
    assert IndexOfHandle([Entry(1, 0)], 2) == -1;
    assert bound.dict == [Entry(1, 0), Entry(2, 0)];
    assert Keys(bound.dict) == [1, 2];
    assert IndexOfHandle(bound.dict, 1) == 0;
    var first := DestroyAnchor(bound, 0).0;
    assert IndexOfHandle(bound.dict, 2) == 1;
    assert first.dict == [Entry(1, 0)];
    assert Lookup(first.dict, 2) == None;
    assert DestroyKeys(first, [2]) == DestroyKeys(first, []);
  }

  /** The uuid is that of some anchor in the dictionary. */
  predicate IsLoaded(s: Store, uuid: string) {
    exists x :: x in s.dict && x.anchor in s.objects && s.objects[x.anchor].uuid == uuid
  }

  /** `GetLoadableAnchorUUID`: the saved entries whose uuid no anchor in the
      dictionary holds. */
  function GetLoadableAnchorUUID(s: Store): (r: map<string, string>)
    ensures forall u :: u in r <==> u in s.saved && !IsLoaded(s, u)
    ensures forall u :: u in r ==> r[u] == s.saved[u]
  {
    map u | u in s.saved && !IsLoaded(s, u) :: s.saved[u]
  }

  /** `SaveAnchor`: forgets an earlier save of the anchor, then records its
      uuid with the user key once the native save succeeds, or erases it
      when the save fails. */
  function SaveAnchor(s: Store, id: AnchorId, nativeSaved: bool): (r: (Store, bool))
    requires id in s.objects
    ensures r.1
    ensures nativeSaved ==> r.0.saved == s.saved[s.objects[id].uuid := s.objects[id].userKey]
    ensures !nativeSaved ==> r.0.saved == s.saved - {s.objects[id].uuid}
    ensures r.0 == s.(saved := r.0.saved)
  {
    var a := s.objects[id];
    var forgotten := s.saved - {a.uuid};
    (s.(saved := if nativeSaved then forgotten[a.uuid := a.userKey] else forgotten), true)
  }

  /** `EraseAnchor`: forgets the uuid; the result says whether a map file
      existed to delete. */
  function EraseAnchor(s: Store, uuid: string, fileExists: bool): (r: (Store, bool))
    ensures r.0 == s.(saved := s.saved - {uuid})
    ensures r.1 <==> fileExists
  {
    (s.(saved := s.saved - {uuid}), fileExists)
  }

  /** `LoadwithUUID`: for a saved uuid with a map file, the native side
      loads a handle handed to the callback; a handle of 0 forgets the
      uuid. An unknown uuid or a missing file does nothing. */
  function LoadWithUuid(s: Store, uuid: string, fileExists: bool, nativeHandle: nat): (r: (Store, Option<nat>))
    ensures r.1.Some? <==> uuid in s.saved && fileExists && nativeHandle != 0
    ensures r.1.Some? ==> r.1.value == nativeHandle && r.0 == s
    ensures r.1.None? && uuid in s.saved && fileExists ==> r.0 == s.(saved := s.saved - {uuid})
    ensures !(uuid in s.saved && fileExists) ==> r.0 == s
  {
    if uuid in s.saved && fileExists then
      if nativeHandle == 0 then (s.(saved := s.saved - {uuid}), None) else (s, Some(nativeHandle))
    else (s, None)
  }

  /** A saved anchor is not loadable while in the dictionary, and becomes
      loadable with its user key once destroyed if no other anchor in the
      dictionary has its uuid. */
  lemma LoadableAfterDestroy(s: Store, e: Entry)
    requires Consistent(s) && e in s.dict && s.objects[e.anchor].uuid in s.saved
    requires forall x :: x in s.dict && s.objects[x.anchor].uuid == s.objects[e.anchor].uuid ==> x.key == e.key
    ensures var u := s.objects[e.anchor].uuid;
      && u !in GetLoadableAnchorUUID(s)
      && u in GetLoadableAnchorUUID(DestroyAnchor(s, e.anchor).0)
      && GetLoadableAnchorUUID(DestroyAnchor(s, e.anchor).0)[u] == s.saved[u]
  {
    var u := s.objects[e.anchor].uuid;
    assert IsLoaded(s, u);
    var d := DestroyAnchor(s, e.anchor).0;
    assert !IsLoaded(d, u);
  }

  /** Saving an anchor in the dictionary successfully does not make it
      loadable; erasing its uuid makes it unloadable whatever else
      holds. */
  lemma SaveAndEraseLoadability(s: Store, e: Entry, fileExists: bool)
    requires Valid(s) && e in s.dict
    ensures s.objects[e.anchor].uuid !in GetLoadableAnchorUUID(SaveAnchor(s, e.anchor, true).0)
    ensures s.objects[e.anchor].uuid !in GetLoadableAnchorUUID(EraseAnchor(s, s.objects[e.anchor].uuid, fileExists).0)
  {
    assert IsLoaded(SaveAnchor(s, e.anchor, true).0, s.objects[e.anchor].uuid);
  }

  /** The loop of `OnUpdate` over the native anchor list: an anchor held
      under a listed handle takes the native tracking state, then the
      native anchor state, through its setters. */
  function UpdateFrom(s: Store, listed: seq<nat>, trackingOf: nat -> TrackingState,
                      stateOf: nat -> AnchorState): (r: (Store, seq<AnchorEvent>))
    requires Valid(s)
    ensures Valid(r.0) && r.0.dict == s.dict && r.0.saved == s.saved && r.0.objects.Keys == s.objects.Keys
    ensures forall o :: o in s.objects ==> r.0.objects[o].handle == s.objects[o].handle
    decreases |listed|
  {
    if |listed| == 0 then (s, [])
    else
      var h := listed[0];
      match Lookup(s.dict, h)
      case None => UpdateFrom(s, listed[1..], trackingOf, stateOf)
      case Some(id) =>
        var t := SetTrackingState(s, id, trackingOf(h));
        var a := SetAnchorState(t.0, id, stateOf(h));
        var rest := UpdateFrom(a.0, listed[1..], trackingOf, stateOf);
        (rest.0, t.1 + a.1 + rest.1)
  }

  /** `OnUpdate`, on the device: nothing with an empty dictionary;
      otherwise every anchor held under a handle of the native list takes
      that handle's tracking and anchor state. Moving a tracked anchor's
      transform to its pose is left to the engine. */
  function OnUpdate(s: Store, listed: seq<nat>, trackingOf: nat -> TrackingState,
                    stateOf: nat -> AnchorState): (r: (Store, seq<AnchorEvent>))
    requires Valid(s)
    ensures |s.dict| == 0 ==> r == (s, [])
    ensures Valid(r.0) && r.0.dict == s.dict && r.0.saved == s.saved && r.0.objects.Keys == s.objects.Keys
  {
    if |s.dict| == 0 then (s, []) else UpdateFrom(s, listed, trackingOf, stateOf)
  }

  /** With every anchor under its own handle and no handle listed twice,
      the refresh gives each anchor under a listed handle exactly the
      native states of that handle, and leaves every other anchor as it
      was. */
  lemma {:induction false} UpdateFromOutcome(s: Store, listed: seq<nat>, trackingOf: nat -> TrackingState,
                                             stateOf: nat -> AnchorState)
    requires Consistent(s)
    requires forall j, k :: 0 <= j < k < |listed| ==> listed[j] != listed[k]
    ensures var r := UpdateFrom(s, listed, trackingOf, stateOf).0;
      && (forall x :: x in s.dict && x.key in listed ==>
           r.objects[x.anchor] == s.objects[x.anchor].(trackingState := trackingOf(x.key), anchorState := stateOf(x.key)))
      && (forall o :: o in s.objects && s.objects[o].handle !in listed ==> r.objects[o] == s.objects[o])
    decreases |listed|
  {
    if |listed| > 0 {
      var h := listed[0];
      assert forall j :: 0 <= j < |listed| - 1 ==> listed[1..][j] == listed[j + 1];
      assert forall k :: k in listed <==> k == h || k in listed[1..];
      assert h !in listed[1..];
      match Lookup(s.dict, h)
      case None =>
        UpdateFromOutcome(s, listed[1..], trackingOf, stateOf);
      case Some(id) =>
        var next := SetAnchorState(SetTrackingState(s, id, trackingOf(h)).0, id, stateOf(h)).0;
        assert s.objects[id].handle == h;
        assert next.objects == s.objects[id := s.objects[id].(trackingState := trackingOf(h), anchorState := stateOf(h))];
        assert Consistent(next);
        UpdateFromOutcome(next, listed[1..], trackingOf, stateOf);
        forall x | x in s.dict && x.key == h
          ensures x.anchor == id
        {
          SameKeySameEntry(s.dict, x, Entry(h, id));
        }
    }
  }

  /** `OnUpdate` on a non-empty dictionary, each anchor under its own
      handle and no handle listed twice: listed anchors take the native
      states, the others stay as they were. */
  lemma OnUpdateOutcome(s: Store, listed: seq<nat>, trackingOf: nat -> TrackingState, stateOf: nat -> AnchorState)
    requires Consistent(s)
    requires forall j, k :: 0 <= j < k < |listed| ==> listed[j] != listed[k]
    ensures var r := OnUpdate(s, listed, trackingOf, stateOf).0;
      && (forall x :: x in s.dict && x.key in listed ==>
           r.objects[x.anchor] == s.objects[x.anchor].(trackingState := trackingOf(x.key), anchorState := stateOf(x.key)))
      && (forall o :: o in s.objects && s.objects[o].handle !in listed ==> r.objects[o] == s.objects[o])
  {
    UpdateFromOutcome(s, listed, trackingOf, stateOf);
  }
}
