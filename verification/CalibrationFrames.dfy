/**
 Chessboard detection over the captured frames of a calibration: the frames without a
 pattern are erased, back to front, from several arrays that belong together.
 */
module CalibrationFrames {
  /** The elements whose flag is set, in their order. */
  function Kept<T>(xs: seq<T>, valid: seq<bool>): seq<T>
    requires |xs| == |valid|
  {
    if xs == [] then [] else
      var n := |xs| - 1;
      Kept(xs[..n], valid[..n]) + if valid[n] then [xs[n]] else []
  }

  /** The places of the set flags. */
  function Places(valid: seq<bool>): seq<nat> {
    if valid == [] then [] else
      var n := |valid| - 1;
      Places(valid[..n]) + if valid[n] then [n] else []
  }

  /** The places are in range and rise. */
  lemma {:induction false} PlacesAreRising(valid: seq<bool>)
    ensures forall k <- Places(valid) :: k < |valid|
    ensures forall j, k | 0 <= j < k < |Places(valid)| :: Places(valid)[j] < Places(valid)[k]
  {
    if valid != [] {
      var front := Places(valid[..|valid| - 1]);
      PlacesAreRising(valid[..|valid| - 1]);
      assert forall j | 0 <= j < |front| :: front[j] in front && Places(valid)[j] == front[j];
    }
  }

  /** They are exactly those of the set flags. */
  lemma {:induction false} PlacesAreTheSetFlags(valid: seq<bool>, k: nat)
    ensures k in Places(valid) <==> k < |valid| && valid[k]
  {
    if valid != [] { PlacesAreTheSetFlags(valid[..|valid| - 1], k); }
  }

  /** A filtered array holds what stood at those places: all arrays filtered by the same flags stay aligned. */
  lemma {:induction false} KeptIsAtPlaces<T>(xs: seq<T>, valid: seq<bool>, k: nat)
    requires |xs| == |valid|
    ensures |Kept(xs, valid)| == |Places(valid)|
    ensures k < |Places(valid)| ==> Places(valid)[k] < |xs| && Kept(xs, valid)[k] == xs[Places(valid)[k]]
  {
    if xs != [] { KeptIsAtPlaces(xs[..|xs| - 1], valid[..|xs| - 1], k); }
  }

  lemma KeptIsAtAllPlaces<T>(xs: seq<T>, valid: seq<bool>)
    requires |xs| == |valid|
    ensures |Kept(xs, valid)| == |Places(valid)|
    ensures forall k | 0 <= k < |Places(valid)| :: Places(valid)[k] < |xs| && Kept(xs, valid)[k] == xs[Places(valid)[k]]
  {
    KeptIsAtPlaces(xs, valid, 0);
    forall k | 0 <= k < |Places(valid)|
      ensures Places(valid)[k] < |xs| && Kept(xs, valid)[k] == xs[Places(valid)[k]]
    {
      KeptIsAtPlaces(xs, valid, k);
    }
  }

  lemma PlacesByFlag(valid: seq<bool>)
    ensures forall j, k | 0 <= j < k < |Places(valid)| :: Places(valid)[j] < Places(valid)[k]
    ensures forall i: nat :: i in Places(valid) <==> i < |valid| && valid[i]
  {
    PlacesAreRising(valid);
    forall i: nat
      ensures i in Places(valid) <==> i < |valid| && valid[i]
    {
      PlacesAreTheSetFlags(valid, i);
    }
  }

  /** Filtering what is left once more changes nothing. */
  lemma {:induction false} KeptTwice<T>(xs: seq<T>, valid: seq<bool>)
    requires |xs| == |valid|
    ensures |Kept(xs, valid)| == |Kept(valid, valid)| && Kept(Kept(xs, valid), Kept(valid, valid)) == Kept(xs, valid)
  {
    if xs != [] {
      var n := |xs| - 1;
      KeptTwice(xs[..n], valid[..n]);
      if valid[n] {
        assert Kept(xs, valid)[..|Kept(xs, valid)| - 1] == Kept(xs[..n], valid[..n]);
        assert Kept(valid, valid)[..|Kept(xs, valid)| - 1] == Kept(valid[..n], valid[..n]);
      } else {
        assert Kept(xs, valid) == Kept(xs[..n], valid[..n]);
        assert Kept(valid, valid) == Kept(valid[..n], valid[..n]);
      }
    }
  }

  lemma {:induction false} KeptFromFront<T>(xs: seq<T>, valid: seq<bool>)
    requires |xs| == |valid| > 0
    ensures Kept(xs, valid) == (if valid[0] then [xs[0]] else []) + Kept(xs[1..], valid[1..])
  {
    var n := |xs| - 1;
    if n > 0 {
      KeptFromFront(xs[..n], valid[..n]);
      assert xs[..n][1..] == xs[1..][..n - 1] && valid[..n][1..] == valid[1..][..n - 1];
    }
  }

  function CountSet(flags: seq<bool>): nat {
    if flags == [] then 0 else CountSet(flags[..|flags| - 1]) + if flags[|flags| - 1] then 1 else 0
  }

  /** As many elements are kept as there are flags set. */
  lemma {:induction false} KeptCount<T>(xs: seq<T>, valid: seq<bool>)
    requires |xs| == |valid|
    ensures |Kept(xs, valid)| == CountSet(valid)
    ensures Kept(xs, valid) != [] <==> true in valid
  {
    if xs != [] {
      var n := |xs| - 1;
      KeptCount(xs[..n], valid[..n]);
      assert valid == valid[..n] + [valid[n]];
    }
  }

  lemma {:induction false} KeptAll<T>(xs: seq<T>, valid: seq<bool>)
    requires |xs| == |valid| && forall v <- valid :: v
    ensures Kept(xs, valid) == xs && CountSet(valid) == |xs|
  {
    if xs != [] {
      var n := |xs| - 1;
      assert forall v <- valid[..n] :: v in valid;
      assert valid[n] in valid;
      KeptAll(xs[..n], valid[..n]);
    }
  }

  /** Flags made to fit an array of another length: what lies beyond the flags is kept. */
  function Fitted(valid: seq<bool>, n: nat): (v: seq<bool>)
    ensures |v| == n && (n == |valid| ==> v == valid)
  {
    seq(n, k requires 0 <= k < n => k >= |valid| || valid[k])
  }

  /** An array of `n` elements has a place for every flag that is not set. */
  predicate Reaches(n: nat, valid: seq<bool>) {
    forall k | 0 <= k < |valid| && !valid[k] :: k < n
  }

  /** As many elements go as there are flags not set. */
  lemma {:induction false} FittedCount(valid: seq<bool>, n: nat)
    requires Reaches(n, valid)
    ensures n - CountSet(Fitted(valid, n)) == |valid| - CountSet(valid)
    decreases n + |valid|
  {
    if n > |valid| {
      assert Fitted(valid, n)[..n - 1] == Fitted(valid, n - 1);
      FittedCount(valid, n - 1);
    } else if n < |valid| {
      var front := valid[..|valid| - 1];
      assert valid[|valid| - 1] && Fitted(valid, n) == Fitted(front, n);
      FittedCount(front, n);
    }
  }

  /** An array filtered by the flags of another is as long as that one afterwards exactly if it was before. */
  lemma LengthsAgreeIff<A, B>(xs: seq<A>, ys: seq<B>, valid: seq<bool>)
    requires |xs| == |valid| && Reaches(|ys|, valid)
    ensures |Kept(ys, Fitted(valid, |ys|))| == |Kept(xs, valid)| <==> |ys| == |xs|
    ensures |ys| == |xs| ==> Kept(ys, Fitted(valid, |ys|)) == Kept(ys, valid)
  {
    KeptCount(xs, valid);
    KeptCount(ys, Fitted(valid, |ys|));
    FittedCount(valid, |ys|);
  }

  function Erased<T>(xs: seq<T>, i: nat): seq<T>
    requires i < |xs|
  {
    xs[..i] + xs[i + 1..]
  }

  /** An array of which the part from place `i` on has been filtered. */
  function FilteredFrom<T>(xs: seq<T>, valid: seq<bool>, i: nat): seq<T>
    requires i <= |xs| == |valid|
  {
    xs[..i] + Kept(xs[i..], valid[i..])
  }

  /** One step of the backward loop. */
  lemma EraseStep<T>(xs: seq<T>, valid: seq<bool>, i: nat)
    requires i < |xs| == |valid|
    ensures |FilteredFrom(xs, valid, i + 1)| > i && FilteredFrom(xs, valid, i + 1)[i] == xs[i]
    ensures FilteredFrom(xs, valid, i)
            == if valid[i] then FilteredFrom(xs, valid, i + 1) else Erased(FilteredFrom(xs, valid, i + 1), i)
  {
    KeptFromFront(xs[i..], valid[i..]);
    assert xs[i..][1..] == xs[i + 1..] && valid[i..][1..] == valid[i + 1..];
    assert xs[..i + 1] == xs[..i] + [xs[i]];
  }

  lemma FilteredEnds<T>(xs: seq<T>, valid: seq<bool>)
    requires |xs| == |valid|
    ensures FilteredFrom(xs, valid, |xs|) == xs
    ensures FilteredFrom(xs, valid, 0) == Kept(xs, valid)
  {
  }

  /** What a detector says of one frame: whether it found the pattern, and the corners it left behind either way. */
  datatype Detection<Corners> = Detection(isFound: bool, corners: Corners)

  function Flags<Image, Corners>(frames: seq<Image>, detect: Image -> Detection<Corners>): (v: seq<bool>)
    ensures |v| == |frames|
  {
    seq(|frames|, i requires 0 <= i < |frames| => detect(frames[i]).isFound)
  }

  function AllCorners<Image, Corners>(frames: seq<Image>, detect: Image -> Detection<Corners>): (c: seq<Corners>)
    ensures |c| == |frames|
  {
    seq(|frames|, i requires 0 <= i < |frames| => detect(frames[i]).corners)
  }

  function Copies<T>(x: T, n: nat): (s: seq<T>)
    ensures |s| == n
  {
    seq(n, _ => x)
  }

  function Both(a: seq<bool>, b: seq<bool>): (v: seq<bool>)
    requires |a| == |b|
    ensures |v| == |a|
  {
    seq(|a|, i requires 0 <= i < |a| => a[i] && b[i])
  }

  /** Every frame left has its own corners beside it, and a pattern in it. */
  lemma FramesStayAligned<Image, Corners>(frames: seq<Image>, detect: Image -> Detection<Corners>,
                                          valid: seq<bool>, k: nat)
    requires |valid| == |frames| && forall i | 0 <= i < |frames| && valid[i] :: detect(frames[i]).isFound
    requires k < |Kept(frames, valid)|
    ensures |Kept(AllCorners(frames, detect), valid)| == |Kept(frames, valid)|
    ensures detect(Kept(frames, valid)[k]) == Detection(true, Kept(AllCorners(frames, detect), valid)[k])
  {
    KeptIsAtPlaces(frames, valid, k);
    KeptIsAtPlaces(AllCorners(frames, detect), valid, k);
    PlacesAreTheSetFlags(valid, Places(valid)[k]);
  }

  lemma DetectStep<Image, Corners, Reference>(frames: seq<Image>, detect: Image -> Detection<Corners>,
                                              reference: Reference, i: nat)
    requires i < |frames|
    ensures Flags(frames, detect)[..i + 1] == Flags(frames, detect)[..i] + [detect(frames[i]).isFound]
    ensures AllCorners(frames, detect)[..i + 1] == AllCorners(frames, detect)[..i] + [detect(frames[i]).corners]
    ensures Copies(reference, i + 1) == Copies(reference, i) + [reference]
    ensures CountSet(Flags(frames, detect)[..i] + [detect(frames[i]).isFound])
            == CountSet(Flags(frames, detect)[..i]) + if detect(frames[i]).isFound then 1 else 0
  {
    var flags := Flags(frames, detect)[..i] + [detect(frames[i]).isFound];
    assert flags[..|flags| - 1] == Flags(frames, detect)[..i];
  }

  /** One frame taken: the image, the pose of the tracked device then, and whether poses are used then. */
  datatype Capture<Image, Pose> = Capture(image: Image, pose: Pose, usesDevicePoses: bool)

  function FramesOf<Image, Pose>(cs: seq<Capture<Image, Pose>>): (f: seq<Image>)
    ensures |f| == |cs|
  {
    seq(|cs|, i requires 0 <= i < |cs| => cs[i].image)
  }

  function AllPoses<Image, Pose>(cs: seq<Capture<Image, Pose>>): (p: seq<Pose>)
    ensures |p| == |cs|
  {
    seq(|cs|, i requires 0 <= i < |cs| => cs[i].pose)
  }

  function Settings<Image, Pose>(cs: seq<Capture<Image, Pose>>): (v: seq<bool>)
    ensures |v| == |cs|
  {
    seq(|cs|, i requires 0 <= i < |cs| => cs[i].usesDevicePoses)
  }

  /** The poses recorded. */
  function PosesOf<Image, Pose>(cs: seq<Capture<Image, Pose>>): seq<Pose> {
    Kept(AllPoses(cs), Settings(cs))
  }

  lemma OneMoreCapture<Image, Pose>(cs: seq<Capture<Image, Pose>>, c: Capture<Image, Pose>)
    ensures FramesOf(cs + [c]) == FramesOf(cs) + [c.image]
    ensures PosesOf(cs + [c]) == PosesOf(cs) + if c.usesDevicePoses then [c.pose] else []
  {
    assert AllPoses(cs + [c])[..|cs|] == AllPoses(cs) && Settings(cs + [c])[..|cs|] == Settings(cs);
  }

  lemma {:induction false} CountIsFullIff(flags: seq<bool>)
    ensures CountSet(flags) <= |flags|
    ensures CountSet(flags) == |flags| <==> forall v <- flags :: v
  {
    if flags != [] {
      var n := |flags| - 1;
      CountIsFullIff(flags[..n]);
      assert forall v <- flags[..n] :: v in flags;
      assert flags[n] in flags;
      assert forall v <- flags :: v in flags[..n] || v == flags[n];
    }
  }

  /**
   A capture records as many poses as frames if and only if the setting was on for every
   frame taken; then each frame has its own pose beside it.
   */
  lemma CaptureIsAlignedIff<Image, Pose>(cs: seq<Capture<Image, Pose>>)
    ensures |PosesOf(cs)| == |FramesOf(cs)| <==> forall c <- cs :: c.usesDevicePoses
    ensures (forall c <- cs :: c.usesDevicePoses) ==> PosesOf(cs) == AllPoses(cs)
  {
    KeptCount(AllPoses(cs), Settings(cs));
    CountIsFullIff(Settings(cs));
    assert forall i | 0 <= i < |cs| :: cs[i] in cs && Settings(cs)[i] == cs[i].usesDevicePoses;
    if forall c <- cs :: c.usesDevicePoses {
      KeptAll(AllPoses(cs), Settings(cs));
    } else {
      var c :| c in cs && !c.usesDevicePoses;
      var i :| 0 <= i < |cs| && cs[i] == c;
      assert Settings(cs)[i] in Settings(cs);
    }
  }

  class CalibrationData<Image(==), Corners(==), Reference(==), Pose(==)> {
    var frames: seq<Image>
    var refPoints: seq<Reference>
    var cbPoints: seq<Corners>
    var validFrames: seq<bool>
    var devicePoses: seq<Pose>   // rotation and translation of the tracked device, when those are used
    var numValidFrames: nat
    var numTakenFrames: nat

    constructor (frames: seq<Image>, devicePoses: seq<Pose>)
      ensures this.frames == frames && this.devicePoses == devicePoses
    {
      this.frames, this.devicePoses := frames, devicePoses;
      refPoints, cbPoints, validFrames := [], [], [];
      numValidFrames, numTakenFrames := 0, 0;
    }

    /** Takes one frame, with the pose of the tracked device if the setting is on, after the captures `cs`. */
    method CaptureFrame(c: Capture<Image, Pose>, ghost cs: seq<Capture<Image, Pose>>)
      requires frames == FramesOf(cs) && devicePoses == PosesOf(cs)
      modifies this`frames, this`devicePoses
      ensures frames == FramesOf(cs + [c]) && devicePoses == PosesOf(cs + [c])
      ensures frames == old(frames) + [c.image]
      ensures devicePoses == if c.usesDevicePoses then old(devicePoses) + [c.pose] else old(devicePoses)
    {
      OneMoreCapture(cs, c);
      frames := frames + [c.image];
      if c.usesDevicePoses { devicePoses := devicePoses + [c.pose]; }
    }

    /** Runs the detector over all frames, starting over. */
    method DetectAll(reference: Reference, detect: Image -> Detection<Corners>)
      modifies this`refPoints, this`cbPoints, this`validFrames, this`numValidFrames, this`numTakenFrames
      ensures validFrames == Flags(frames, detect) && cbPoints == AllCorners(frames, detect)
      ensures refPoints == Copies(reference, |frames|)
      ensures numValidFrames == CountSet(validFrames) && numTakenFrames == |frames|
      ensures forall i | 0 <= i < |frames| ::
                && validFrames[i] == detect(frames[i]).isFound && cbPoints[i] == detect(frames[i]).corners
                && refPoints[i] == reference
    {
      refPoints, cbPoints, validFrames := [], [], [];
      numValidFrames := 0;
      for i := 0 to |frames|
        invariant validFrames == Flags(frames, detect)[..i] && cbPoints == AllCorners(frames, detect)[..i]
        invariant refPoints == Copies(reference, i)
        invariant numValidFrames == CountSet(validFrames)
      {
        DetectStep(frames, detect, reference, i);
        var d := detect(frames[i]);
        validFrames, cbPoints, refPoints := validFrames + [d.isFound], cbPoints + [d.corners], refPoints + [reference];
        if d.isFound { numValidFrames := numValidFrames + 1; }
      }
      numTakenFrames := |frames|;
    }

    ghost predicate Aligned()
      reads this
    {
      |frames| == |refPoints| == |cbPoints| == |validFrames|
    }

    method EraseFrame(i: nat)
      requires Aligned() && i < |frames|
      modifies this`frames, this`refPoints, this`cbPoints, this`validFrames
      ensures Aligned()
      ensures frames == Erased(old(frames), i) && cbPoints == Erased(old(cbPoints), i)
      ensures refPoints == Erased(old(refPoints), i) && validFrames == Erased(old(validFrames), i)
    {
      frames := frames[..i] + frames[i + 1..];
      cbPoints := cbPoints[..i] + cbPoints[i + 1..];
      refPoints := refPoints[..i] + refPoints[i + 1..];
      validFrames := validFrames[..i] + validFrames[i + 1..];
    }

    /** How far the backward loop has come with the arrays `fs`, `cs`, `rs` and `vs`. */
    ghost predicate IsFilteredFrom(fs: seq<Image>, cs: seq<Corners>, rs: seq<Reference>, vs: seq<bool>,
                                   valid: seq<bool>, i: nat)
      requires i <= |fs| == |cs| == |rs| == |vs| == |valid|
      reads this
    {
      && Aligned()
      && frames == FilteredFrom(fs, valid, i) && cbPoints == FilteredFrom(cs, valid, i)
      && refPoints == FilteredFrom(rs, valid, i) && validFrames == FilteredFrom(vs, valid, i)
    }

    /** The loop body for one camera: erases frame `i` unless it is valid. */
    method EraseUnless(keep: bool, i: nat, ghost fs: seq<Image>, ghost cs: seq<Corners>, ghost rs: seq<Reference>,
                       ghost vs: seq<bool>, ghost valid: seq<bool>)
      requires i < |fs| == |cs| == |rs| == |vs| == |valid| && keep == valid[i]
      requires IsFilteredFrom(fs, cs, rs, vs, valid, i + 1)
      modifies this`frames, this`refPoints, this`cbPoints, this`validFrames
      ensures IsFilteredFrom(fs, cs, rs, vs, valid, i)
    {
      EraseStep(fs, valid, i);
      EraseStep(cs, valid, i);
      EraseStep(rs, valid, i);
      EraseStep(vs, valid, i);
      if !keep { EraseFrame(i); }
    }

    /** And the pose of frame `i`. */
    method ErasePoseUnless(keep: bool, i: nat, ghost ps: seq<Pose>, ghost vs: seq<bool>)
      requires i < |vs| && keep == vs[i] && Reaches(|ps|, vs) && devicePoses == ErasedDownTo(ps, vs, i + 1)
      modifies this`devicePoses
      ensures devicePoses == ErasedDownTo(ps, vs, i)
    {
      ErasePoseStep(ps, vs, i);
      if !keep { devicePoses := devicePoses[..i] + devicePoses[i + 1..]; }
    }

    /** The backward loop for one camera. */
    method EraseInvalid(usesDevicePoses: bool)
      requires Aligned() && (usesDevicePoses ==> Reaches(|devicePoses|, validFrames))
      modifies this`frames, this`refPoints, this`cbPoints, this`validFrames, this`devicePoses
      ensures var valid := old(validFrames);
              && IsFilteredFrom(old(frames), old(cbPoints), old(refPoints), valid, valid, 0)
              && devicePoses == if usesDevicePoses then Kept(old(devicePoses), Fitted(valid, |old(devicePoses)|))
                                else old(devicePoses)
    {
      ghost var fs, cs, rs, vs, ps := frames, cbPoints, refPoints, validFrames, devicePoses;
      NothingFiltered(fs, cs, rs, vs, vs);
      NothingErased(ps, vs);
      var i := |frames| - 1;
      while i >= 0
        invariant -1 <= i < |fs| == |cs| == |rs| == |vs|
        invariant IsFilteredFrom(fs, cs, rs, vs, vs, i + 1)
        invariant devicePoses == if usesDevicePoses then ErasedDownTo(ps, vs, i + 1) else ps
      {
        EraseStep(vs, vs, i);
        var keep := validFrames[i];
        EraseUnless(keep, i, fs, cs, rs, vs, vs);
        if usesDevicePoses { ErasePoseUnless(keep, i, ps, vs); }
        i := i - 1;
      }
      FilteredEnds(ps, Fitted(vs, |ps|));
    }

    /** Detects and filters, for one camera. */
    method KeepFramesWithPattern(reference: Reference, detect: Image -> Detection<Corners>,
                                        usesDevicePoses: bool)
      returns (ok: bool)
      requires usesDevicePoses ==> Reaches(|devicePoses|, Flags(frames, detect))
      modifies this
      ensures var valid := Flags(old(frames), detect);
              && frames == Kept(old(frames), valid) && cbPoints == Kept(AllCorners(old(frames), detect), valid)
              && validFrames == Kept(valid, valid) && refPoints == Kept(Copies(reference, |valid|), valid)
              && devicePoses == (if usesDevicePoses then Kept(old(devicePoses), Fitted(valid, |old(devicePoses)|))
                                 else old(devicePoses))
              && numValidFrames == |frames| && numTakenFrames == |old(frames)|
              && (ok <==> true in valid)
    {
      DetectAll(reference, detect);
      ghost var fs, cs, rs, vs := frames, cbPoints, refPoints, validFrames;
      EraseInvalid(usesDevicePoses);
      AllFiltered(fs, cs, rs, vs, vs);
      KeptCount(fs, vs);
      KeptCount(rs, vs);
      return refPoints != [];
    }

    /**
     One camera: what is left are the frames in which the detector finds a pattern, in their
     order, each beside its corners, its reference points and, if the arrays agreed before,
     the pose of the device.  `places` are their places among the frames taken.
     */
    method FindFrameCalibrationPatterns(reference: Reference, detect: Image -> Detection<Corners>,
                                        usesDevicePoses: bool)
      returns (ok: bool, ghost places: seq<nat>)
      requires usesDevicePoses ==> forall k | 0 <= k < |frames| && !detect(frames[k]).isFound :: k < |devicePoses|
      modifies this
      ensures forall j, k | 0 <= j < k < |places| :: places[j] < places[k]
      ensures forall i: nat :: i in places <==> i < |old(frames)| && detect(old(frames)[i]).isFound
      ensures |frames| == |cbPoints| == |refPoints| == |validFrames| == |places|
      ensures forall k | 0 <= k < |places| ::
                && places[k] < |old(frames)| && frames[k] == old(frames)[places[k]]
                && detect(frames[k]) == Detection(true, cbPoints[k]) && validFrames[k] && refPoints[k] == reference
      ensures !usesDevicePoses ==> devicePoses == old(devicePoses)
      ensures usesDevicePoses && |old(devicePoses)| == |old(frames)| ==>
                && |devicePoses| == |places|
                && forall k | 0 <= k < |places| ::
                     places[k] < |old(devicePoses)| && devicePoses[k] == old(devicePoses)[places[k]]
      ensures numValidFrames == |frames| && numTakenFrames == |old(frames)|
      ensures ok <==> exists i | 0 <= i < |old(frames)| :: detect(old(frames)[i]).isFound
    {
      ghost var fs, ps, valid := frames, devicePoses, Flags(frames, detect);
      ok := KeepFramesWithPattern(reference, detect, usesDevicePoses);
      places := Places(valid);
      FoundAreKept(fs, detect, valid, reference);
      if |ps| == |fs| {
        KeptIsAtAllPlaces(ps, valid);
      }
    }
  }

  /** What filtering by the detector's own flags leaves of the arrays it fills. */
  lemma FoundAreKept<Image, Corners, Reference>(fs: seq<Image>, detect: Image -> Detection<Corners>, valid: seq<bool>,
                                                reference: Reference)
    requires valid == Flags(fs, detect)
    ensures var places := Places(valid);
            && (forall j, k | 0 <= j < k < |places| :: places[j] < places[k])
            && (forall i: nat :: i in places <==> i < |fs| && detect(fs[i]).isFound)
            && |Kept(fs, valid)| == |Kept(AllCorners(fs, detect), valid)| == |Kept(Copies(reference, |fs|), valid)|
               == |Kept(valid, valid)| == |places|
            && (forall k | 0 <= k < |places| ::
                  && places[k] < |fs| && Kept(fs, valid)[k] == fs[places[k]]
                  && detect(Kept(fs, valid)[k]) == Detection(true, Kept(AllCorners(fs, detect), valid)[k])
                  && Kept(valid, valid)[k] && Kept(Copies(reference, |fs|), valid)[k] == reference)
            && (true in valid <==> exists i | 0 <= i < |fs| :: detect(fs[i]).isFound)
  {
    var places := Places(valid);
    PlacesByFlag(valid);
    KeptIsAtAllPlaces(fs, valid);
    KeptIsAtAllPlaces(valid, valid);
    KeptIsAtAllPlaces(AllCorners(fs, detect), valid);
    KeptIsAtAllPlaces(Copies(reference, |fs|), valid);
    forall k | 0 <= k < |places|
      ensures places[k] < |fs| && valid[places[k]] && detect(fs[places[k]]).isFound
    {
      assert places[k] in places;
    }
    if i :| 0 <= i < |fs| && detect(fs[i]).isFound {
      assert valid[i];
    }
  }

  /** An array of any length of which the places from `i` on have been erased if their flag is not set. */
  function ErasedDownTo<T>(xs: seq<T>, valid: seq<bool>, i: nat): seq<T> {
    FilteredFrom(xs, Fitted(valid, |xs|), if i <= |xs| then i else |xs|)
  }

  lemma NothingErased<T>(xs: seq<T>, valid: seq<bool>)
    ensures ErasedDownTo(xs, valid, |valid|) == xs
  {
    var fitted := Fitted(valid, |xs|);
    if |valid| < |xs| {
      KeptAll(xs[|valid|..], fitted[|valid|..]);
    } else {
      FilteredEnds(xs, fitted);
    }
  }

  lemma ErasePoseStep<T>(xs: seq<T>, valid: seq<bool>, i: nat)
    requires i < |valid| && Reaches(|xs|, valid)
    ensures !valid[i] ==> i < |ErasedDownTo(xs, valid, i + 1)|
    ensures ErasedDownTo(xs, valid, i)
            == if valid[i] then ErasedDownTo(xs, valid, i + 1) else Erased(ErasedDownTo(xs, valid, i + 1), i)
  {
    if i < |xs| {
      EraseStep(xs, Fitted(valid, |xs|), i);
    }
  }

  lemma NothingFiltered<A, B, C>(fs: seq<A>, cs: seq<B>, rs: seq<C>, vs: seq<bool>, valid: seq<bool>)
    requires |fs| == |cs| == |rs| == |vs| == |valid|
    ensures FilteredFrom(fs, valid, |valid|) == fs && FilteredFrom(cs, valid, |valid|) == cs
    ensures FilteredFrom(rs, valid, |valid|) == rs && FilteredFrom(vs, valid, |valid|) == vs
  {
  }

  lemma AllFiltered<A, B, C>(fs: seq<A>, cs: seq<B>, rs: seq<C>, vs: seq<bool>, valid: seq<bool>)
    requires |fs| == |cs| == |rs| == |vs| == |valid|
    ensures FilteredFrom(fs, valid, 0) == Kept(fs, valid) && FilteredFrom(cs, valid, 0) == Kept(cs, valid)
    ensures FilteredFrom(rs, valid, 0) == Kept(rs, valid) && FilteredFrom(vs, valid, 0) == Kept(vs, valid)
  {
    FilteredEnds(fs, valid);
    FilteredEnds(cs, valid);
    FilteredEnds(rs, valid);
    FilteredEnds(vs, valid);
  }

  /** The backward loop for two cameras. */
  method EraseUnlessBoth<Image(==), Corners(==), Reference(==), Pose(==)>(
      left: CalibrationData<Image, Corners, Reference, Pose>, right: CalibrationData<Image, Corners, Reference, Pose>)
    requires left != right && left.Aligned() && right.Aligned() && |left.frames| == |right.frames|
    modifies left`frames, left`refPoints, left`cbPoints, left`validFrames
    modifies right`frames, right`refPoints, right`cbPoints, right`validFrames
    ensures var valid := Both(old(left.validFrames), old(right.validFrames));
            && left.IsFilteredFrom(old(left.frames), old(left.cbPoints), old(left.refPoints),
                                   old(left.validFrames), valid, 0)
            && right.IsFilteredFrom(old(right.frames), old(right.cbPoints), old(right.refPoints),
                                    old(right.validFrames), valid, 0)
  {
    ghost var fl, cl, rl, vl := left.frames, left.cbPoints, left.refPoints, left.validFrames;
    ghost var fr, cr, rr, vr := right.frames, right.cbPoints, right.refPoints, right.validFrames;
    ghost var valid := Both(vl, vr);
    NothingFiltered(fl, cl, rl, vl, valid);
    NothingFiltered(fr, cr, rr, vr, valid);
    var i := |left.frames| - 1;
    while i >= 0
      invariant -1 <= i < |fl| == |cl| == |rl| == |vl| == |fr| == |cr| == |rr| == |vr|
      invariant left.IsFilteredFrom(fl, cl, rl, vl, valid, i + 1)
      invariant right.IsFilteredFrom(fr, cr, rr, vr, valid, i + 1)
    {
      EraseStep(vl, valid, i);
      EraseStep(vr, valid, i);
      var keep := left.validFrames[i] && right.validFrames[i];
      left.EraseUnless(keep, i, fl, cl, rl, vl, valid);
      right.EraseUnless(keep, i, fr, cr, rr, vr, valid);
      i := i - 1;
    }
  }

  /** Detects and filters, for two cameras. */
  method KeepCapturesWithPattern<Image(==), Corners(==), Reference(==), Pose(==)>(
      left: CalibrationData<Image, Corners, Reference, Pose>, right: CalibrationData<Image, Corners, Reference, Pose>,
      reference: Reference, detect: Image -> Detection<Corners>) returns (ok: bool)
    requires left != right && |left.frames| == |right.frames|
    modifies left`frames, left`refPoints, left`cbPoints, left`validFrames
    modifies left`numValidFrames, left`numTakenFrames
    modifies right`frames, right`refPoints, right`cbPoints, right`validFrames
    modifies right`numValidFrames, right`numTakenFrames
    ensures var l, r := old(left.frames), old(right.frames);
            var valid := Both(Flags(l, detect), Flags(r, detect));
            && left.frames == Kept(l, valid) && left.cbPoints == Kept(AllCorners(l, detect), valid)
            && right.frames == Kept(r, valid) && right.cbPoints == Kept(AllCorners(r, detect), valid)
            && left.validFrames == Kept(Flags(l, detect), valid) && right.validFrames == Kept(Flags(r, detect), valid)
            && left.refPoints == right.refPoints == Kept(Copies(reference, |l|), valid)
            && left.numTakenFrames == right.numTakenFrames == |l|
            && (ok <==> true in valid)
  {
    left.DetectAll(reference, detect);
    right.DetectAll(reference, detect);
    ghost var fl, cl, rl, vl := left.frames, left.cbPoints, left.refPoints, left.validFrames;
    ghost var fr, cr, rr, vr := right.frames, right.cbPoints, right.refPoints, right.validFrames;
    ghost var valid := Both(vl, vr);
    EraseUnlessBoth(left, right);
    AllFiltered(fl, cl, rl, vl, valid);
    AllFiltered(fr, cr, rr, vr, valid);
    KeptCount(rl, valid);
    return left.refPoints != [];
  }

  /**
   Two cameras: what is left of both are the captures in which the detector finds a pattern
   for both, in their order; `places` are their places among the captures taken.
   */
  method FindFrameCalibrationPatternsStereo<Image(==), Corners(==), Reference(==), Pose(==)>(
      left: CalibrationData<Image, Corners, Reference, Pose>, right: CalibrationData<Image, Corners, Reference, Pose>,
      reference: Reference, detect: Image -> Detection<Corners>) returns (ok: bool, ghost places: seq<nat>)
    requires left != right && |left.frames| == |right.frames|
    modifies left`frames, left`refPoints, left`cbPoints, left`validFrames
    modifies left`numValidFrames, left`numTakenFrames
    modifies right`frames, right`refPoints, right`cbPoints, right`validFrames
    modifies right`numValidFrames, right`numTakenFrames
    ensures forall j, k | 0 <= j < k < |places| :: places[j] < places[k]
    ensures forall i: nat :: i in places
                             <==> && i < |old(left.frames)| && detect(old(left.frames)[i]).isFound
                                  && detect(old(right.frames)[i]).isFound
    ensures |left.frames| == |left.cbPoints| == |left.refPoints| == |left.validFrames| == |places|
    ensures |right.frames| == |right.cbPoints| == |right.refPoints| == |right.validFrames| == |places|
    ensures forall k | 0 <= k < |places| ::
              && places[k] < |old(left.frames)| && left.frames[k] == old(left.frames)[places[k]]
              && detect(left.frames[k]) == Detection(true, left.cbPoints[k]) && left.refPoints[k] == reference
    ensures forall k | 0 <= k < |places| ::
              && places[k] < |old(right.frames)| && right.frames[k] == old(right.frames)[places[k]]
              && detect(right.frames[k]) == Detection(true, right.cbPoints[k]) && right.refPoints[k] == reference
    ensures forall k | 0 <= k < |places| :: left.validFrames[k] && right.validFrames[k]
    ensures left.numTakenFrames == right.numTakenFrames == |old(left.frames)|
    ensures ok <==> exists i | 0 <= i < |old(left.frames)| ::
                      detect(old(left.frames)[i]).isFound && detect(old(right.frames)[i]).isFound
  {
    ghost var fl, fr := left.frames, right.frames;
    ghost var valid := Both(Flags(fl, detect), Flags(fr, detect));
    ok := KeepCapturesWithPattern(left, right, reference, detect);
    places := Places(valid);
    FoundByBothAreKept(fl, fr, detect, valid);
    EyeIsKept(fl, detect, valid, reference);
    EyeIsKept(fr, detect, valid, reference);
  }

  lemma FoundByBothAreKept<Image, Corners>(fl: seq<Image>, fr: seq<Image>, detect: Image -> Detection<Corners>,
                                           valid: seq<bool>)
    requires |fl| == |fr| && valid == Both(Flags(fl, detect), Flags(fr, detect))
    ensures forall j, k | 0 <= j < k < |Places(valid)| :: Places(valid)[j] < Places(valid)[k]
    ensures forall i: nat :: i in Places(valid) <==> i < |fl| && detect(fl[i]).isFound && detect(fr[i]).isFound
    ensures true in valid <==> exists i | 0 <= i < |fl| :: detect(fl[i]).isFound && detect(fr[i]).isFound
  {
    PlacesByFlag(valid);
    assert forall i | 0 <= i < |fl| :: valid[i] == (detect(fl[i]).isFound && detect(fr[i]).isFound);
    if true in valid {
      var i :| 0 <= i < |valid| && valid[i] == true;
      assert detect(fl[i]).isFound && detect(fr[i]).isFound;
    }
    if i :| 0 <= i < |fl| && detect(fl[i]).isFound && detect(fr[i]).isFound {
      assert valid[i];
    }
  }

  /** What is left for one camera, when all flags set are of frames in which it found the pattern. */
  lemma EyeIsKept<Image, Corners, Reference>(fs: seq<Image>, detect: Image -> Detection<Corners>, valid: seq<bool>,
                                             reference: Reference)
    requires |valid| == |fs| && forall i | 0 <= i < |fs| && valid[i] :: detect(fs[i]).isFound
    ensures var places := Places(valid);
            && |Kept(fs, valid)| == |Kept(AllCorners(fs, detect), valid)| == |Kept(Copies(reference, |fs|), valid)|
               == |Kept(Flags(fs, detect), valid)| == |places|
            && forall k | 0 <= k < |places| ::
                 && places[k] < |fs| && Kept(fs, valid)[k] == fs[places[k]]
                 && detect(Kept(fs, valid)[k]) == Detection(true, Kept(AllCorners(fs, detect), valid)[k])
                 && Kept(Copies(reference, |fs|), valid)[k] == reference && Kept(Flags(fs, detect), valid)[k]
  {
    var places := Places(valid);
    PlacesByFlag(valid);
    KeptIsAtAllPlaces(fs, valid);
    KeptIsAtAllPlaces(Flags(fs, detect), valid);
    KeptIsAtAllPlaces(AllCorners(fs, detect), valid);
    KeptIsAtAllPlaces(Copies(reference, |fs|), valid);
    forall k | 0 <= k < |places|
      ensures places[k] < |fs| && detect(fs[places[k]]).isFound
    {
      assert places[k] in places;
    }
  }
}
