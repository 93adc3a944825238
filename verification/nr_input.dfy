/** The controller bookkeeping of `NRInput`: which controller state slot a
    hand reads, whether a hand's controller is available, the domain hand,
    connection and recenter events, and the input-source fallback. The
    number of available controllers is an input: it comes from the active
    provider. */
module NRInputModel {

  /** `ControllerHandEnum`: Right = 0, Left = 1. */
  datatype Hand = Right | Left

  function HandOrdinal(h: Hand): (n: int)
    ensures n == 0 || n == 1
  {
    if h == Right then 0 else 1
  }

  function OtherHand(h: Hand): (o: Hand)
    ensures o != h
  {
    if h == Right then Left else Right
  }

  /** `ConvertHandToIndex`: with fewer than two controllers, the domain hand
      reads slot 0 and the other hand slot 1; otherwise a hand reads the slot
      of its own ordinal. */
  function ConvertHandToIndex(availableCount: int, domainHand: Hand, hand: Hand): (i: int)
    ensures i == 0 || i == 1
    ensures availableCount < 2 ==> (i == 0 <==> hand == domainHand)
    ensures availableCount >= 2 ==> i == HandOrdinal(hand)
  {
    if availableCount < 2 then (if domainHand == hand then 0 else 1)
    else HandOrdinal(hand)
  }

  /** Whatever the controller count and domain hand, the two hands read
      different slots, so the mapping is a bijection onto {0, 1}. */
  lemma HandsReadDistinctSlots(availableCount: int, domainHand: Hand)
    ensures ConvertHandToIndex(availableCount, domainHand, Right) != ConvertHandToIndex(availableCount, domainHand, Left)
  {
  }

  /** The provider variants that matter here: the hand-tracking provider
      answers availability from the hand state, the others from the count. */
  datatype ProviderKind = HandProvider | ControllerProvider

  /** `CheckControllerAvailable`: with the hand provider, whether that hand's
      pointer pose is valid; otherwise two controllers make both hands
      available, one only the domain hand, none neither. */
  function CheckControllerAvailable(kind: ProviderKind, pointerPoseValid: Hand -> bool, availableCount: int,
                                    domainHand: Hand, hand: Hand): (ok: bool)
    ensures kind == HandProvider ==> ok == pointerPoseValid(hand)
    ensures kind == ControllerProvider ==>
      (ok <==> availableCount == 2 || (availableCount == 1 && hand == domainHand))
  {
    if kind == HandProvider then pointerPoseValid(hand)
    else if availableCount == 2 then true
    else if availableCount == 1 then hand == domainHand
    else false
  }

  /** With one controller, exactly one hand is available: the domain hand. */
  lemma OneControllerServesDomainHand(domainHand: Hand, pv: Hand -> bool)
    ensures CheckControllerAvailable(ControllerProvider, pv, 1, domainHand, domainHand)
    ensures !CheckControllerAvailable(ControllerProvider, pv, 1, domainHand, OtherHand(domainHand))
  {
  }

  /** `SetDomainHandMode`: changes the domain hand and raises
      `OnDomainHandChanged` with the new hand, unless it is already the
      domain hand. */
  function SetDomainHandMode(domainHand: Hand, hand: Hand): (r: (Hand, seq<Hand>))
    ensures r.0 == hand
    ensures |r.1| <= 1
    ensures |r.1| == 1 <==> hand != domainHand
    ensures |r.1| == 1 ==> r.1[0] == hand
  {
    if domainHand == hand then (domainHand, []) else (hand, [hand])
  }

  /** Setting the same hand twice raises the event at most once. */
  lemma SetDomainHandTwice(domainHand: Hand, hand: Hand)
    ensures var (d1, e1) := SetDomainHandMode(domainHand, hand);
      SetDomainHandMode(d1, hand) == (d1, [])
  {
  }

  datatype ConnectionEvent = Connected | Disconnected

  /** `CheckControllerConnection`: a connect event when the count rose since
      the last check, a disconnect event when it fell, nothing when equal;
      the current count is remembered. */
  function CheckControllerConnection(lastCount: int, currentCount: int): (r: (seq<ConnectionEvent>, int))
    ensures r.1 == currentCount
    ensures |r.0| <= 1
    ensures r.0 == [Connected] <==> lastCount < currentCount
    ensures r.0 == [Disconnected] <==> lastCount > currentCount
  {
    if lastCount < currentCount then ([Connected], currentCount)
    else if lastCount > currentCount then ([Disconnected], currentCount)
    else ([], currentCount)
  }

  /** The connection events over a run of polled counts. */
  function ConnectionRun(lastCount: int, counts: seq<int>): (r: (seq<ConnectionEvent>, int))
    ensures |counts| > 0 ==> r.1 == counts[|counts| - 1]
    ensures |counts| == 0 ==> r == ([], lastCount)
    ensures |r.0| <= |counts|
    decreases |counts|
  {
    if |counts| == 0 then ([], lastCount)
    else
      var (e, c) := CheckControllerConnection(lastCount, counts[0]);
      var (rest, final) := ConnectionRun(c, counts[1..]);
      (e + rest, final)
  }

  /** Polling an unchanged count raises nothing, however often. */
  lemma {:induction false} SteadyCountIsSilent(c: int, counts: seq<int>)
    requires forall k :: 0 <= k < |counts| ==> counts[k] == c
    ensures ConnectionRun(c, counts).0 == []
    decreases |counts|
  {
    if |counts| > 0 {
      SteadyCountIsSilent(c, counts[1..]);
    }
  }

  datatype RecenterEvent = BeforeRecenter | Recentering | AfterRecenter

  /** `CheckControllerRecentered`: when the domain hand's controller reports
      a recenter, raises Before, Recentering and After in that order, except
      that the ignore flag suppresses Before and After; the flag is then
      cleared. Nothing happens without a recenter. */
  function CheckControllerRecentered(recentered: bool, ignoreCallback: bool): (r: (seq<RecenterEvent>, bool))
    ensures !recentered ==> r == ([], ignoreCallback)
    ensures recentered ==> !r.1 && Recentering in r.0
    ensures recentered && !ignoreCallback ==> r.0 == [BeforeRecenter, Recentering, AfterRecenter]
    ensures recentered && ignoreCallback ==> r.0 == [Recentering]
  {
    if !recentered then ([], ignoreCallback)
    else
      var before := if !ignoreCallback then [BeforeRecenter] else [];
      var after := if !ignoreCallback then [AfterRecenter] else [];
      (before + [Recentering] + after, false)
  }

  /** The ignore flag swallows the callbacks of one recenter only: the next
      recenter raises all three events. */
  lemma IgnoreLastsOneRecenter(ignoreCallback: bool)
    ensures var (_, flag) := CheckControllerRecentered(true, ignoreCallback);
      CheckControllerRecentered(true, flag).0 == [BeforeRecenter, Recentering, AfterRecenter]
  {
  }

  /** `InputSourceEnum`. */
  datatype InputSource = Hands | Controller

  /** `AdaptInputSource`: hands fall back to the controller when the device
      does not support hand tracking. */
  function AdaptInputSource(src: InputSource, handTrackingSupported: bool): (a: InputSource)
    ensures a == Hands ==> src == Hands && handTrackingSupported
    ensures src == Controller ==> a == Controller
    ensures handTrackingSupported ==> a == src
  {
    if src == Hands && !handTrackingSupported then Controller else src
  }

  /** Adapting is idempotent. */
  lemma AdaptIdempotent(src: InputSource, supported: bool)
    ensures AdaptInputSource(AdaptInputSource(src, supported), supported) == AdaptInputSource(src, supported)
  {
  }

  /** `SetInputSourceSafely`: tries the adapted source, and on failure the
      controller. `trySet` stands for `SetInputSource`. The result lists the
      sources tried, in order. */
  function SetInputSourceSafely(src: InputSource, handTrackingSupported: bool, trySet: InputSource -> bool)
    : (tried: seq<InputSource>)
    ensures 1 <= |tried| <= 2
    ensures tried[0] == AdaptInputSource(src, handTrackingSupported)
    ensures |tried| == 2 <==> !trySet(tried[0])
    ensures |tried| == 2 ==> tried[1] == Controller
    ensures Hands in tried ==> handTrackingSupported
  {
    var a := AdaptInputSource(src, handTrackingSupported);
    if trySet(a) then [a] else [a, Controller]
  }
}
