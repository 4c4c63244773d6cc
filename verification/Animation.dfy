/** The frames of an LCD plugin: which one each call shows. LCDPlugin.cpp. */
module Animation {

  /** Position in the list of frames, and calls made on the current one. */
  datatype Anim = Anim(index: nat, counter: nat)

  /** How many calls each frame lasts. */
  type Durations = seq<nat>

  /** At least one frame, none shorter than one call, all counted in 16 bits. */
  predicate Playable(d: Durations) {
    d != [] && forall n | n in d :: 1 <= n < 0x1_0000
  }

  const START: Anim := Anim(0, 0)

  /** One call: stay, or go to the next frame, the first one after the last. */
  function Step(d: Durations, a: Anim): Anim
    requires a.index < |d|
  {
    if a.counter >= d[a.index]
    then Anim(if a.index + 1 == |d| then 0 else a.index + 1, 1)
    else Anim(a.index, a.counter + 1)
  }

  function After(d: Durations, k: nat): (a: Anim)
    requires d != []
    ensures a.index < |d|
  {
    if k == 0 then START else Step(d, After(d, k - 1))
  }

  function Total(d: Durations): nat {
    if d == [] then 0 else d[0] + Total(d[1..])
  }

  /** The calls the frames before `i` last. */
  function StartOf(d: Durations, i: nat): nat
    requires i <= |d|
  {
    if i == 0 then 0 else d[0] + StartOf(d[1..], i - 1)
  }

  /** The frame whose interval of calls contains `t`. */
  function FrameOf(d: Durations, t: nat): (i: nat)
    requires t < Total(d)
    ensures i < |d| && StartOf(d, i) <= t < StartOf(d, i) + d[i]
  {
    if t < d[0] then 0 else 1 + FrameOf(d[1..], t - d[0])
  }

  lemma TotalPositive(d: Durations)
    requires Playable(d)
    ensures Total(d) > 0
  {
    assert d[0] in d;
  }

  lemma {:induction false} StartStep(d: Durations, i: nat)
    requires i < |d|
    ensures StartOf(d, i + 1) == StartOf(d, i) + d[i]
  {
    if i > 0 {
      StartStep(d[1..], i - 1);
    }
  }

  lemma {:induction false} StartEnd(d: Durations)
    ensures StartOf(d, |d|) == Total(d)
  {
    if d != [] {
      StartEnd(d[1..]);
    }
  }

  lemma {:induction false} StartMonotone(d: Durations, i: nat, j: nat)
    requires i <= j <= |d|
    ensures StartOf(d, i) <= StartOf(d, j)
  {
    if i < j {
      StartMonotone(d, i, j - 1);
      StartStep(d, j - 1);
    }
  }

  lemma IntervalsOrdered(d: Durations, i: nat, j: nat)
    requires i < j <= |d|
    ensures StartOf(d, i) + d[i] <= StartOf(d, j)
  {
    StartStep(d, i);
    StartMonotone(d, i + 1, j);
  }

  lemma FrameUnique(d: Durations, t: nat, i: nat)
    requires t < Total(d) && i < |d| && StartOf(d, i) <= t < StartOf(d, i) + d[i]
    ensures FrameOf(d, t) == i
  {
    var f := FrameOf(d, t);
    if f < i {
      IntervalsOrdered(d, f, i);
    } else if i < f {
      IntervalsOrdered(d, i, f);
    }
  }

  /** After a reset, call number `k` (from 1) shows the frame whose interval contains k - 1, modulo the
      length of the whole animation. */
  lemma {:induction false} ShownByCall(d: Durations, k: nat)
    requires Playable(d) && k >= 1
    ensures Total(d) > 0
    ensures After(d, k) == Located(d, (k - 1) % Total(d))
  {
    hide *;
    ShownNext(d, k - 1);
  }

  lemma {:induction false} ShownNext(d: Durations, k: nat)
    requires Playable(d)
    ensures Total(d) > 0 && d != []
    ensures After(d, k + 1) == Located(d, k % Total(d))
  {
    TotalPositive(d);
    if k == 0 {
      FirstCall(d);
    } else {
      ShownNext(d, k - 1);
      AfterIs(d, k + 1);
      NextShown(d, k - 1);
    }
  }

  lemma AfterIs(d: Durations, k: nat)
    requires d != [] && k > 0
    ensures After(d, k) == Step(d, After(d, k - 1))
  {
  }

  lemma NextShown(d: Durations, k: nat)
    requires Playable(d) && Total(d) > 0
    ensures Step(d, Located(d, k % Total(d))) == Located(d, (k + 1) % Total(d))
  {
    hide *;
    NextModulo(k, Total(d));
    NextLocated(d, k % Total(d));
  }

  /** The state in which the interval point `t` is shown. */
  function Located(d: Durations, t: nat): (a: Anim)
    requires t < Total(d)
    ensures a.index < |d|
  {
    Anim(FrameOf(d, t), t - StartOf(d, FrameOf(d, t)) + 1)
  }

  lemma FirstCall(d: Durations)
    requires Playable(d)
    ensures Total(d) > 0 && After(d, 1) == Located(d, 0)
  {
    assert d[0] in d;
    assert After(d, 0) == START;
  }

  lemma NextLocated(d: Durations, t: nat)
    requires Playable(d) && t < Total(d)
    ensures Step(d, Located(d, t)) == Located(d, if t + 1 == Total(d) then 0 else t + 1)
  {
    var i := FrameOf(d, t);
    StartStep(d, i);
    StartEnd(d);
    if i + 1 < |d| {
      IntervalsOrdered(d, i + 1, |d|);
      assert d[i + 1] in d;
    }
    if t + 1 < StartOf(d, i) + d[i] {
      StartMonotone(d, i + 1, |d|);
      FrameUnique(d, t + 1, i);
    } else if i + 1 < |d| {
      FrameUnique(d, t + 1, i + 1);
    } else {
      assert d[0] in d;
      FrameUnique(d, 0, 0);
    }
  }

  lemma NextModulo(k: nat, n: nat)
    requires n > 0
    ensures (k + 1) % n == if k % n + 1 == n then 0 else k % n + 1
  {
    var q, r := k / n, k % n;
    assert k == q * n + r;
    if r + 1 == n {
      assert k + 1 == (q + 1) * n;
      ModuloIs(k + 1, n, q + 1, 0);
    } else {
      ModuloIs(k + 1, n, q, r + 1);
    }
  }

  lemma ModuloIs(k: nat, n: nat, q: nat, r: nat)
    requires r < n && k == q * n + r
    ensures k % n == r
  {
    var q', r' := k / n, k % n;
    if q > q' {
      AtLeastOne(q, q', n);
    } else if q < q' {
      AtLeastOne(q', q, n);
    }
  }

  lemma {:induction false} AtLeastOne(a: nat, b: nat, n: nat)
    requires a > b
    ensures a * n >= b * n + n
  {
    assert a * n == (a - 1) * n + n;
    if a - 1 > b {
      AtLeastOne(a - 1, b, n);
    }
  }

  class LCDPlugin {
    const numFrames: Durations
    var itCurrentPBMFrame: nat
    var PBMFrameCounter: nat
    var PBMFrameIndex: nat

    /** Where the animation is, once the iterator and the index agree. */
    function State(): Anim
      reads this
    {
      Anim(itCurrentPBMFrame, PBMFrameCounter)
    }

    predicate Valid()
      reads this
    {
      Playable(numFrames) && itCurrentPBMFrame < |numFrames| && PBMFrameIndex == itCurrentPBMFrame
    }

    constructor (numFrames: Durations)
      ensures this.numFrames == numFrames
      ensures itCurrentPBMFrame == PBMFrameIndex == PBMFrameCounter == 0
    {
      this.numFrames := numFrames;
      itCurrentPBMFrame, PBMFrameCounter, PBMFrameIndex := 0, 0, 0;
    }

    /** Back to the first frame after the last one; fails if there is no frame at all. */
    method CheckPBMFrameIndex() returns (thrown: bool)
      requires itCurrentPBMFrame <= |numFrames|
      modifies this
      ensures thrown == (old(itCurrentPBMFrame) == |numFrames| == 0)
      ensures if old(itCurrentPBMFrame) == |numFrames|
              then itCurrentPBMFrame == 0
                   && (!thrown ==> PBMFrameCounter == 0 && PBMFrameIndex == 0)
              else unchanged(this)
    {
      if itCurrentPBMFrame == |numFrames| {
        itCurrentPBMFrame := 0;
        if itCurrentPBMFrame == |numFrames| {
          return true;
        }
        PBMFrameCounter := 0;
        PBMFrameIndex := 0;
      }
      thrown := false;
    }

    method ResetPBMFrameIndex() returns (thrown: bool)
      modifies this
      ensures thrown == (numFrames == [])
      ensures !thrown ==> State() == START && PBMFrameIndex == 0
    {
      itCurrentPBMFrame := |numFrames|;
      thrown := CheckPBMFrameIndex();
    }

    method PrepareNextPBMFrame()
      requires Valid()
      modifies this
      ensures Valid() && State() == Step(numFrames, old(State()))
    {
      assert numFrames[itCurrentPBMFrame] in numFrames;
      if PBMFrameCounter >= numFrames[itCurrentPBMFrame] {
        itCurrentPBMFrame := itCurrentPBMFrame + 1;
        var thrown := CheckPBMFrameIndex();
        PBMFrameIndex := itCurrentPBMFrame;
        PBMFrameCounter := 0;
      }
      PBMFrameCounter := (PBMFrameCounter + 1) % 0x1_0000;
    }

    /** A reset and `k` calls: the frame shown is the one of the closed form. */
    method Play(k: nat)
      requires Playable(numFrames) && k >= 1
      modifies this
      ensures Valid() && Total(numFrames) > 0
      ensures PBMFrameIndex == FrameOf(numFrames, (k - 1) % Total(numFrames))
    {
      hide FrameOf;
      var thrown := ResetPBMFrameIndex();
      var i := 0;
      while i < k
        invariant 0 <= i <= k && Valid() && State() == After(numFrames, i)
      {
        PrepareNextPBMFrame();
        i := i + 1;
      }
      ShownByCall(numFrames, k);
    }
  }
}
