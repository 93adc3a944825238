/** `HandState`: one hand's tracking state as the hand-tracking provider
    fills it in each frame. */
module HandStates {
  import opened Geometry

  /** `HandEnum`. */
  datatype HandEnum = NoHand | RightHand | LeftHand

  /** `HandGesture`. */
  datatype HandGesture = NoGesture | OpenHand | Grab | Pinch | Point | Victory | Call | SystemGesture | ThumbsUp

  /** `HandJointID`, by its ordinal (wrist 0 to pinky tip 22). */
  type HandJointID = int

  const JointMax: int := 23

  /** The state of one hand. */
  datatype HandState = HandState(handEnum: HandEnum, isTracked: bool, pointerPose: Pose, pointerPoseValid: bool,
                                 imageTimestamp: nat, currentGesture: HandGesture, confidence: real,
                                 joints: map<HandJointID, Pose>)

  /** `Reset`: untracked, identity pointer pose marked invalid, no gesture
      and no joints. The hand, timestamp and confidence are kept. */
  function Reset(h: HandState): (r: HandState)
    ensures !r.isTracked && !r.pointerPoseValid && r.pointerPose == IdentityPose
    ensures r.currentGesture == NoGesture && r.joints == map[]
    ensures r.handEnum == h.handEnum && r.imageTimestamp == h.imageTimestamp && r.confidence == h.confidence
  {
    h.(isTracked := false, pointerPose := IdentityPose, pointerPoseValid := false,
       currentGesture := NoGesture, joints := map[])
  }

  /** The constructor: the hand is fixed and the rest starts reset. */
  function NewHandState(hand: HandEnum): (r: HandState)
    ensures r.handEnum == hand
    ensures Reset(r) == r
  {
    HandState(hand, false, IdentityPose, false, 0, NoGesture, 0.0, map[])
  }

  /** Resetting twice is resetting once. */
  lemma ResetIdempotent(h: HandState)
    ensures Reset(Reset(h)) == Reset(h)
  {
  }

  /** `isPinching` on the device (the editor also counts the left mouse
      button, which is not modelled): the current gesture is a pinch. */
  predicate IsPinching(h: HandState) {
    h.currentGesture == Pinch
  }

  /** `GetJointPose`: the recorded pose of the joint. For a joint with no
      pose, `TryGetValue` overwrites the identity it was initialised with by
      `default(Pose)`, so the result is the all-zero pose. */
  function GetJointPose(h: HandState, joint: HandJointID): (r: Pose)
    ensures joint in h.joints ==> r == h.joints[joint]
    ensures joint !in h.joints ==> r == DefaultPose && r != IdentityPose
  {
    if joint in h.joints then h.joints[joint] else DefaultPose
  }

  /** A reset hand reports no pinch and the all-zero pose for every
      joint. */
  lemma ResetHandHasNoJoints(h: HandState, joint: HandJointID)
    ensures !IsPinching(Reset(h))
    ensures GetJointPose(Reset(h), joint) == DefaultPose
  {
  }
}
