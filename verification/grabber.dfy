/** `NRGrabber`: the per-object count of trigger contacts that makes an
    object ready to grab, the press edges of the grab button, and the
    bookkeeping of grabbing and releasing. Objects are identified by
    number; positions and the nearest-object search are parameters. */
module Grabber {
  import opened Wrappers
  import opened Geometry

  /** An `NRGrabbableObject`, by identity. */
  type Obj = nat

  /** What the grabber tells the objects. */
  datatype GrabEvent = GrabBegin(obj: Obj) | GrabEnd(obj: Obj) | Move(obj: Obj)

  /** The grabber's state: the button state of the last update, the
      grab-ready dictionary from each object to how many of its colliders
      are inside the grabber's trigger, the grabbed objects in grab order,
      their start offsets, and whether the grabber's own colliders are on. */
  datatype Grabber = Grabber(previousPress: bool, ready: map<Obj, int>, grabbing: seq<Obj>,
                             offsets: map<Obj, Pose>, collidersEnabled: bool)

  const NewGrabber: Grabber := Grabber(false, map[], [], map[], true)

  /** `IsGrabbingObjects`. */
  predicate IsGrabbingObjects(g: Grabber) {
    |g.grabbing| > 0
  }

  /** The ready dictionary's invariant: every count is positive. */
  predicate ReadyValid(ready: map<Obj, int>) {
    forall o :: o in ready ==> ready[o] >= 1
  }

  /** How many contacts `o` has; 0 when it is not ready. */
  function CountOf(ready: map<Obj, int>, o: Obj): int {
    if o in ready then ready[o] else 0
  }

  /** `OnTriggerEnter`: the first contact adds the object with count 1,
      each further one adds 1. A collider without a grabbable object is
      ignored. */
  function OnTriggerEnter(g: Grabber, other: Option<Obj>): (r: Grabber)
    requires ReadyValid(g.ready)
    ensures ReadyValid(r.ready)
    ensures other.None? ==> r == g
    ensures other.Some? ==> CountOf(r.ready, other.value) == CountOf(g.ready, other.value) + 1
    ensures other.Some? ==> forall p :: p != other.value ==> CountOf(r.ready, p) == CountOf(g.ready, p)
    ensures other.Some? ==> r.ready.Keys == g.ready.Keys + {other.value}
    ensures r.grabbing == g.grabbing && r.offsets == g.offsets
  {
    match other
    case None => g
    case Some(o) => g.(ready := g.ready[o := CountOf(g.ready, o) + 1])
  }

  /** `OnTriggerExit`: the last contact removes the object; an earlier one
      only lowers its count; an object not ready is ignored. */
  function OnTriggerExit(g: Grabber, other: Option<Obj>): (r: Grabber)
    requires ReadyValid(g.ready)
    ensures ReadyValid(r.ready)
    ensures other.None? ==> r == g
    ensures other.Some? ==> CountOf(r.ready, other.value) == (if CountOf(g.ready, other.value) > 1 then CountOf(g.ready, other.value) - 1 else 0)
    ensures other.Some? ==> forall p :: p != other.value ==> CountOf(r.ready, p) == CountOf(g.ready, p)
    ensures other.Some? && CountOf(g.ready, other.value) <= 1 ==> r.ready.Keys == g.ready.Keys - {other.value}
    ensures other.Some? && CountOf(g.ready, other.value) > 1 ==> r.ready.Keys == g.ready.Keys
    ensures r.grabbing == g.grabbing && r.offsets == g.offsets
  {
    match other
    case None => g
    case Some(o) =>
      if o !in g.ready then g
      else if g.ready[o] > 1 then g.(ready := g.ready[o := g.ready[o] - 1])
      else g.(ready := g.ready - {o})
  }

  /** Leaving the trigger undoes entering it: the contact counts, and so
      the set of ready objects, are as before. */
  lemma EnterThenExitRestoresCounts(g: Grabber, o: Obj)
    requires ReadyValid(g.ready)
    ensures var r := OnTriggerExit(OnTriggerEnter(g, Some(o)), Some(o));
      && (forall p :: CountOf(r.ready, p) == CountOf(g.ready, p))
      && r.ready == g.ready
  {
  }

  /** No object is grabbed twice. */
  predicate NoDuplicates(s: seq<Obj>) {
    forall i, j :: 0 <= i < j < |s| ==> s[i] != s[j]
  }

  /** `GrabTarget`: an object that can be grabbed joins the grabbing list
      (once), gets a start offset if it had none, stops being ready and is
      told `GrabBegin`; any other object is left alone. */
  function GrabTarget(g: Grabber, target: Obj, canGrab: set<Obj>, offset: Pose): (r: (Grabber, seq<GrabEvent>))
    requires ReadyValid(g.ready)
    ensures ReadyValid(r.0.ready)
    ensures target !in canGrab ==> r == (g, [])
    ensures target in canGrab ==> r.1 == [GrabBegin(target)]
    ensures target in canGrab ==> target in r.0.grabbing && target !in r.0.ready && target in r.0.offsets
    ensures target in canGrab ==> r.0.ready == g.ready - {target}
    ensures target in canGrab ==> forall o :: o in r.0.grabbing <==> o in g.grabbing || o == target
    ensures NoDuplicates(g.grabbing) ==> NoDuplicates(r.0.grabbing)
    ensures forall o :: o in g.offsets ==> o in r.0.offsets && r.0.offsets[o] == g.offsets[o]
    ensures r.0.previousPress == g.previousPress && r.0.collidersEnabled == g.collidersEnabled
  {
    if target !in canGrab then (g, [])
    else
      var grabbing := if target in g.grabbing then g.grabbing else g.grabbing + [target];
      var offsets := if target in g.offsets then g.offsets else g.offsets[target := offset];
      (g.(grabbing := grabbing, offsets := offsets, ready := g.ready - {target}), [GrabBegin(target)])
  }

  /** The multi-grab loop: grabs every ready object in enumeration order. */
  function GrabAll(g: Grabber, queue: seq<Obj>, canGrab: set<Obj>, offsetOf: Obj -> Pose): (r: (Grabber, seq<GrabEvent>))
    requires ReadyValid(g.ready)
    ensures ReadyValid(r.0.ready)
    ensures NoDuplicates(g.grabbing) ==> NoDuplicates(r.0.grabbing)
    ensures forall o :: o in r.0.grabbing <==> o in g.grabbing || (o in queue && o in canGrab)
    ensures r.0.previousPress == g.previousPress && r.0.collidersEnabled == g.collidersEnabled
    decreases |queue|
  {
    if |queue| == 0 then (g, [])
    else
      var step := GrabTarget(g, queue[0], canGrab, offsetOf(queue[0]));
      var rest := GrabAll(step.0, queue[1..], canGrab, offsetOf);
      assert forall o :: o in queue <==> o == queue[0] || o in queue[1..];
      (rest.0, step.1 + rest.1)
  }

  /** `keys` enumerates the dictionary's keys, each once. */
  predicate Enumerates(keys: seq<Obj>, ready: map<Obj, int>) {
    (forall o :: o in keys ==> o in ready) && (forall o :: o in ready ==> o in keys) && NoDuplicates(keys)
  }

  /** A rising edge of the button: not pressed before, pressed now. */
  predicate TriggeredGrab(g: Grabber, press: bool) {
    !g.previousPress && press
  }

  /** A falling edge of the button. */
  predicate ReleaseAction(g: Grabber, press: bool) {
    g.previousPress && !press
  }

  /** Whether `UpdateGrabbles` starts a grab: on a rising edge, with
      nothing held and something ready. */
  predicate StartsGrab(g: Grabber, press: bool) {
    TriggeredGrab(g, press) && |g.grabbing| == 0 && |g.ready| != 0
  }

  /** `ReleaseAllGrabbedObject`: tells every grabbed object `GrabEnd`, then
      empties the ready dictionary, the grabbing list and the offsets and
      turns the grabber's colliders back on. */
  function ReleaseAll(g: Grabber): (r: (Grabber, seq<GrabEvent>))
    ensures r.0.ready == map[] && r.0.grabbing == [] && r.0.offsets == map[]
    ensures r.0.collidersEnabled && r.0.previousPress == g.previousPress
    ensures |r.1| == |g.grabbing| && forall i :: 0 <= i < |g.grabbing| ==> r.1[i] == GrabEnd(g.grabbing[i])
  {
    (g.(ready := map[], grabbing := [], offsets := map[], collidersEnabled := true), GrabEnds(g.grabbing))
  }

  function GrabEnds(objs: seq<Obj>): (events: seq<GrabEvent>)
    ensures |events| == |objs| && forall i :: 0 <= i < |objs| ==> events[i] == GrabEnd(objs[i])
  {
    if |objs| == 0 then [] else [GrabEnd(objs[0])] + GrabEnds(objs[1..])
  }

  function Moves(objs: seq<Obj>): (events: seq<GrabEvent>)
    ensures |events| == |objs| && forall i :: 0 <= i < |objs| ==> events[i] == Move(objs[i])
  {
    if |objs| == 0 then [] else [Move(objs[0])] + Moves(objs[1..])
  }

  /** `UpdateGrabbles` with the button state `press`. On a grab start a
      single grabber takes the nearest ready object (`nearest`, the result
      of the distance search, when there is one), a multi grabber takes
      every ready object and clears the ready dictionary; either way its own
      colliders turn off. The multi grabber goes through the keys in the
      dictionary's enumeration order `keys`. A falling edge then releases everything;
      otherwise held objects follow the grabber, except in the update that
      grabbed them. */
  function UpdateGrabbles(g: Grabber, press: bool, multi: bool, nearest: Option<Obj>, keys: seq<Obj>,
                          canGrab: set<Obj>, offsetOf: Obj -> Pose): (r: (Grabber, seq<GrabEvent>))
    requires ReadyValid(g.ready)
    requires nearest.Some? ==> nearest.value in g.ready
    requires Enumerates(keys, g.ready)
    ensures ReadyValid(r.0.ready)
    ensures r.0.previousPress == press
    ensures ReleaseAction(g, press) ==> r.0.grabbing == [] && r.0.ready == map[] && r.0.collidersEnabled
    ensures !StartsGrab(g, press) && !ReleaseAction(g, press) ==>
      r.0 == g.(previousPress := press) && r.1 == (if TriggeredGrab(g, press) then [] else Moves(g.grabbing))
    ensures StartsGrab(g, press) ==> !r.0.collidersEnabled
    ensures StartsGrab(g, press) && !multi ==>
      r.0.grabbing == (if nearest.Some? && nearest.value in canGrab then [nearest.value] else [])
    ensures StartsGrab(g, press) && multi ==>
      r.0.ready == map[] && forall o :: o in r.0.grabbing <==> o in g.ready && o in canGrab
    ensures NoDuplicates(g.grabbing) ==> NoDuplicates(r.0.grabbing)
  {
    var triggered := TriggeredGrab(g, press);
    var release := ReleaseAction(g, press);
    var g1 := g.(previousPress := press);
    var grabbed: (Grabber, seq<GrabEvent>) :=
      if StartsGrab(g, press) then
        var taken :=
          if !multi then
            (if nearest.Some? then GrabTarget(g1, nearest.value, canGrab, offsetOf(nearest.value)) else (g1, []))
          else
            var all := GrabAll(g1, keys, canGrab, offsetOf);
            (all.0.(ready := map[]), all.1);
        (taken.0.(collidersEnabled := false), taken.1)
      else (g1, []);
    if release then
      var released := ReleaseAll(grabbed.0);
      (released.0, grabbed.1 + released.1)
    else if |grabbed.0.grabbing| > 0 && !triggered then
      (grabbed.0, grabbed.1 + Moves(grabbed.0.grabbing))
    else grabbed
  }

  /** Pressing and releasing the button in two updates grabs the nearest
      ready object and then lets it go, leaving nothing held or ready. */
  lemma PressThenReleaseLetsGo(g: Grabber, o: Obj, keys: seq<Obj>, restKeys: seq<Obj>, canGrab: set<Obj>, offsetOf: Obj -> Pose)
    requires ReadyValid(g.ready) && !g.previousPress && |g.grabbing| == 0
    requires o in g.ready && o in canGrab && Enumerates(keys, g.ready) && Enumerates(restKeys, g.ready - {o})
    ensures var pressed := UpdateGrabbles(g, true, false, Some(o), keys, canGrab, offsetOf);
      && pressed.0.grabbing == [o]
      && pressed.1 == [GrabBegin(o)]
      && var released := UpdateGrabbles(pressed.0, false, false, None, restKeys, canGrab, offsetOf);
         released.0.grabbing == [] && released.0.ready == map[] && released.1 == [GrabEnd(o)]
  {
    assert |g.ready| != 0;
  }
}
