/** `TrackingInfomationTips`: the tip shown while the head tracker has not
    started or has lost tracking, and the camera culling masks that hide
    everything but the tip's layer meanwhile. */
module TrackingTips {
  import opened Wrappers
  import opened CSharp

  /** The position of the highest set bit of a positive number. */
  function HighestBit(v: nat): (r: nat)
    requires v > 0
    ensures Pow2(r) <= v < Pow2(r + 1)
  {
    if v == 1 then 0 else HighestBit(v / 2) + 1
  }

  /** `HighestBit` finds the exponent of a power of two. */
  lemma {:induction false} HighestBitOfPow2(k: nat)
    ensures HighestBit(Pow2(k)) == k
  {
    if k > 0 {
      HighestBitOfPow2(k - 1);
      assert Pow2(k) / 2 == Pow2(k - 1);
    }
  }

  /** The layer `LayerMaskToLayer` picks: the highest layer of the mask, or
      -1 for an empty or negative mask. */
  function MaskLayer(mask: int): (r: int)
    ensures mask <= 0 <==> r == -1
  {
    if mask <= 0 then -1 else HighestBit(mask)
  }

  /** One halving step keeps `v` within the bounds of the shifted value. */
  lemma HalveBounds(v: int, layer: nat, p: nat)
    requires p > 0
    requires layer * p <= v < (layer + 1) * p
    ensures (layer / 2) * (2 * p) <= v < (layer / 2 + 1) * (2 * p)
  {
    var h := layer / 2;
    assert layer == 2 * h + layer % 2;
    assert (2 * h) * p <= layer * p;
    assert (layer + 1) * p <= (2 * h + 2) * p;
    assert (h * 2) * p == h * (2 * p);
    assert ((h + 1) * 2) * p == (h + 1) * (2 * p);
  }

  /** `LayerMaskToLayer`: shifts the mask right until it is zero, counting
      the shifts, and returns one less than the count. */
  method LayerMaskToLayer(mask: int) returns (r: int)
    ensures mask <= 0 ==> r == -1
    ensures mask > 0 ==> 0 <= r && Pow2(r) <= mask < Pow2(r + 1)
    ensures r == MaskLayer(mask)
    ensures IsInt32(mask) ==> r <= 30
  {
    var layerNumber: nat := 0;
    var layer := mask;
    ghost var p: nat := 1;
    while layer > 0
      invariant p == Pow2(layerNumber)
      invariant mask <= 0 ==> layerNumber == 0 && layer == mask
      invariant mask > 0 ==> layer >= 0 && layer * p <= mask < (layer + 1) * p
      invariant mask > 0 && layerNumber > 0 ==> 2 * Pow2(layerNumber - 1) == p && Pow2(layerNumber - 1) <= mask
      decreases if layer > 0 then layer else 0
    {
      HalveBounds(mask, layer, p);
      AtLeastFactor(layer, p);
      layer := layer / 2;
      layerNumber := layerNumber + 1;
      p := 2 * p;
    }
    r := layerNumber - 1;
    if mask > 0 {
      LayerFound(mask, r);
    }
  }

  /** A positive multiple of `p` is at least `p`. */
  lemma AtLeastFactor(layer: int, p: nat)
    requires layer >= 1
    ensures layer * p >= p
  {
  }

  /** The bracketing exponent of a positive mask is its `MaskLayer`, and
      for a 32-bit mask it is at most 30. */
  lemma LayerFound(mask: int, r: nat)
    requires mask > 0 && Pow2(r) <= mask < Pow2(r + 1)
    ensures r == MaskLayer(mask)
    ensures IsInt32(mask) ==> r <= 30
  {
    UniqueHighestBit(mask, r);
    if IsInt32(mask) && r > 30 {
      Pow2Monotone(31, r);
      Pow2Word();
    }
  }

  /** The exponent bracketing a positive number is unique. */
  lemma UniqueHighestBit(v: nat, k: nat)
    requires Pow2(k) <= v < Pow2(k + 1)
    ensures HighestBit(v) == k
  {
    var h := HighestBit(v);
    if h < k {
      Pow2Monotone(h + 1, k);
    } else if h > k {
      Pow2Monotone(k + 1, h);
    }
  }

  /** The culling mask the tip is shown with: `1 << layer`, where a layer of
      -1 shifts by 31. */
  function TipMask(tipsLayerMask: int): (r: int)
    ensures IsInt32(r)
  {
    ShiftLeft32(1, MaskLayer(tipsLayerMask))
  }

  /** A tips layer mask that names a single layer is the culling mask the
      tip is shown with. */
  lemma {:induction false} SingleLayerTipMask(k: nat)
    requires k <= 30
    ensures MaskLayer(Pow2(k)) == k
    ensures TipMask(Pow2(k)) == Pow2(k)
  {
    HighestBitOfPow2(k);
    Pow2Monotone(k, 30);
    Pow2Word();
    assert k % 32 == k;
    assert IsInt32(1 * Pow2(k));
  }

  /** An empty tips layer mask gives layer -1, and `1 << -1` shows layer 31
      only: the mask becomes `int.MinValue`. */
  lemma EmptyTipsLayerShowsLayer31()
    ensures MaskLayer(0) == -1
    ensures TipMask(0) == -TwoTo31
  {
    assert -1 % 32 == 31;
    Pow2Word();
  }

  /** `TipType`. */
  datatype TipType = TipUnInitialized | TipLostTracking | TipNone

  /** The tips component: which tips were instantiated, which are active,
      the current one, the two eye cameras' culling masks, and the masks
      they had at start. */
  datatype Tips = Tips(instantiated: set<TipType>, active: set<TipType>, current: Option<TipType>,
                       leftMask: int, rightMask: int, originLeft: int, originRight: int, tipsLayerMask: int)

  /** Exactly the current tip is active, and it was instantiated. */
  predicate TipsValid(s: Tips) {
    && s.active == (if s.current.Some? then {s.current.value} else {})
    && s.active <= s.instantiated
    && TipNone !in s.instantiated
  }

  /** `ShowTips`. A tip is instantiated the first time it is shown and
      becomes the only active one; the eye cameras then see only the tips
      layer. `TipNone` hides the current tip and restores the cameras'
      original masks. */
  function ShowTips(s: Tips, t: TipType): (r: Tips)
    ensures r.originLeft == s.originLeft && r.originRight == s.originRight && r.tipsLayerMask == s.tipsLayerMask
    ensures t != TipNone ==> r.current == Some(t) && t in r.instantiated && r.instantiated == s.instantiated + {t}
    ensures t != TipNone ==> r.leftMask == TipMask(s.tipsLayerMask) && r.rightMask == TipMask(s.tipsLayerMask)
    ensures t == TipNone ==> r.current.None? && r.instantiated == s.instantiated
    ensures t == TipNone ==> r.leftMask == s.originLeft && r.rightMask == s.originRight
  {
    match t
    case TipNone =>
      var active := if s.current.Some? then s.active - {s.current.value} else s.active;
      s.(active := active, current := None, leftMask := s.originLeft, rightMask := s.originRight)
    case _ =>
      var mask := TipMask(s.tipsLayerMask);
      var s' := s.(instantiated := s.instantiated + {t}, leftMask := mask, rightMask := mask);
      if s.current == Some(t) then s'
      else
        var active := if s.current.Some? then s.active - {s.current.value} else s.active;
        s'.(active := active + {t}, current := Some(t))
  }

  /** `Start`: remembers the eye cameras' masks and shows the
      uninitialised tip. */
  function Start(leftMask: int, rightMask: int, tipsLayerMask: int): (r: Tips)
    ensures TipsValid(r)
    ensures r.current == Some(TipUnInitialized) && r.active == {TipUnInitialized}
    ensures r.originLeft == leftMask && r.originRight == rightMask
  {
    ShowTips(Tips({}, {}, None, leftMask, rightMask, leftMask, rightMask, tipsLayerMask), TipUnInitialized)
  }

  /** Showing any tip keeps exactly the current tip active. */
  lemma ShowTipsKeepsValid(s: Tips, t: TipType)
    requires TipsValid(s)
    ensures TipsValid(ShowTips(s, t))
    ensures t != TipNone ==> ShowTips(s, t).active == {t}
    ensures t == TipNone ==> ShowTips(s, t).active == {}
  {
  }

  /** Losing tracking and getting the pose back leaves the cameras with
      their original masks and no tip showing, whatever the order of tips
      before. */
  lemma LostThenReadyRestores(s: Tips)
    requires TipsValid(s)
    ensures var r := ShowTips(ShowTips(s, TipLostTracking), TipNone);
      && TipsValid(r) && r.active == {}
      && r.leftMask == s.originLeft && r.rightMask == s.originRight
      && TipLostTracking in r.instantiated
  {
    ShowTipsKeepsValid(s, TipLostTracking);
    ShowTipsKeepsValid(ShowTips(s, TipLostTracking), TipNone);
  }
}
