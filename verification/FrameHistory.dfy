/**
 The history fields of the passthrough system: which earlier views a render call may use
 for reprojection.  The fields are overwritten on every call; the theorems say what they
 hold in terms of the whole sequence of calls, and when that is what they are for.
 */
module FrameHistory {
  /** A view as the renderer gets it; what the matrices contain does not matter here. */
  datatype View = View(viewToWorld: seq<real>, worldToProjection: seq<real>)

  datatype Eyes = Eyes(left: View, right: View)

  /** What the fields hold before they are first written. */
  const ZERO := Eyes(View([], []), View([], []))

  /**
   One call: which camera frame it renders, the sequence number that frame carries, the HMD
   views, and the camera matrices computed from the frame.  The code sees the number only.
   */
  datatype Call = Call(frame: nat, sequence: nat, hmd: Eyes, camera: Eyes)

  datatype Params = Params(isFirstRender: bool, camera: Eyes, prevHmdFrame: Eyes, colorHistory: Eyes)

  /** The first call of the run of equal sequence numbers that call `i` is in. */
  function RunStart(calls: seq<Call>, i: nat): (s: nat)
    requires i < |calls|
    ensures s <= i
  {
    if i > 0 && calls[i - 1].sequence == calls[i].sequence then RunStart(calls, i - 1) else i
  }

  /** The first call of the run of calls up to `i` that render the same camera frame. */
  function FrameStart(calls: seq<Call>, i: nat): (f: nat)
    requires i < |calls|
    ensures f <= i
  {
    if i > 0 && calls[i - 1].frame == calls[i].frame then FrameStart(calls, i - 1) else i
  }

  /** The view of the call before, which exists from the second call on. */
  function PreviousView(calls: seq<Call>, i: nat): Eyes
    requires i < |calls|
  {
    if i == 0 then ZERO else calls[i - 1].hmd
  }

  /**
   What the fields are for: whether a call is the first render of its camera frame, the
   camera matrices of that first render, the view of the call before, and the view at the
   first render of the camera frame before.
   */
  function Intended(calls: seq<Call>, i: nat): Params
    requires i < |calls|
  {
    var f := FrameStart(calls, i);
    Params(f == i, calls[f].camera, PreviousView(calls, i),
           if f == 0 then ZERO else calls[FrameStart(calls, f - 1)].hmd)
  }

  /** The first `n` camera frames were all numbered zero, like the frame the fields start out with. */
  predicate AllZero(calls: seq<Call>, n: nat)
    requires n <= |calls|
  {
    forall k | 0 <= k < n :: calls[k].sequence == 0
  }

  /** What the code delivers: a first run numbered zero is taken for one already rendered. */
  function Delivered(calls: seq<Call>, i: nat): Params
    requires i < |calls|
  {
    var s, unset := RunStart(calls, i), AllZero(calls, i + 1);
    Params(s == i && !unset, if unset then ZERO else calls[s].camera, PreviousView(calls, i),
           if AllZero(calls, s) then ZERO else calls[RunStart(calls, s - 1)].hmd)
  }

  class History {
    var lastFrameSequence: nat
    var lastHmdFrame: Eyes
    var currentCameraFrameHmd: Eyes
    var currentCameraFrameCamera: Eyes
    var lastCameraFrameHmd: Eyes
    ghost var calls: seq<Call>

    ghost predicate Valid()
      reads this
    {
      if calls == [] then
        lastFrameSequence == 0
        && lastHmdFrame == currentCameraFrameHmd == currentCameraFrameCamera == lastCameraFrameHmd == ZERO
      else
        var i := |calls| - 1;
        && lastFrameSequence == calls[i].sequence
        && lastHmdFrame == calls[i].hmd
        && currentCameraFrameHmd == (if AllZero(calls, i + 1) then ZERO else calls[RunStart(calls, i)].hmd)
        && currentCameraFrameCamera == Delivered(calls, i).camera
        && lastCameraFrameHmd == Delivered(calls, i).colorHistory
    }

    constructor ()
      ensures Valid() && calls == []
    {
      lastFrameSequence := 0;
      lastHmdFrame, currentCameraFrameHmd, currentCameraFrameCamera, lastCameraFrameHmd := ZERO, ZERO, ZERO, ZERO;
      calls := [];
    }

    method CalculateFrameProjection(call: Call) returns (p: Params)
      requires Valid()
      modifies this
      ensures Valid() && calls == old(calls) + [call]
      ensures p == Delivered(calls, |calls| - 1)
      ensures p.isFirstRender <==> call.sequence != if |calls| > 1 then calls[|calls| - 2].sequence else 0
      ensures p.isFirstRender ==> p.camera == call.camera
      ensures |calls| > 1 ==> p.prevHmdFrame == calls[|calls| - 2].hmd
    {
      var prevHmdFrame := lastHmdFrame;
      lastHmdFrame := call.hmd;
      var camera, isFirst;
      if call.sequence != lastFrameSequence {
        lastFrameSequence := call.sequence;
        isFirst := true;
        camera := call.camera;
        currentCameraFrameCamera := camera;
        lastCameraFrameHmd := currentCameraFrameHmd;
        currentCameraFrameHmd := call.hmd;
      } else {
        isFirst := false;
        camera := currentCameraFrameCamera;
      }
      if calls == [] {
        FirstCall(call);
        assert calls + [call] == [call];
      } else if call.sequence == calls[|calls| - 1].sequence {
        SameNumberAgain(calls, call);
      } else {
        NextNumber(calls, call);
      }
      calls := calls + [call];
      p := Params(isFirst, camera, prevHmdFrame, lastCameraFrameHmd);
    }
  }

  /** Later calls do not change the runs of earlier ones. */
  lemma {:induction false} MoreCalls(calls: seq<Call>, more: seq<Call>, i: nat)
    requires i < |calls|
    ensures RunStart(calls + more, i) == RunStart(calls, i)
  {
    if i > 0 {
      MoreCalls(calls, more, i - 1);
    }
  }

  lemma OneMoreZero(calls: seq<Call>, call: Call, n: nat)
    requires n <= |calls|
    ensures AllZero(calls + [call], n) == AllZero(calls, n)
    ensures AllZero(calls + [call], |calls| + 1) == (AllZero(calls, |calls|) && call.sequence == 0)
  {
    var now := calls + [call];
    assert forall k | 0 <= k < |calls| :: now[k] == calls[k];
    assert now[|calls|] == call;
  }

  /** A further call with the number rendered last. */
  lemma SameNumberAgain(calls: seq<Call>, call: Call)
    requires calls != [] && call.sequence == calls[|calls| - 1].sequence
    ensures var i, now := |calls| - 1, calls + [call];
            && RunStart(now, i + 1) == RunStart(calls, i) && AllZero(now, i + 2) == AllZero(calls, i + 1)
            && Delivered(now, i + 1) == Delivered(calls, i).(isFirstRender := false, prevHmdFrame := calls[i].hmd)
  {
    var i := |calls| - 1;
    var s := RunStart(calls, i);
    MoreCalls(calls, [call], i);
    OneMoreZero(calls, call, s);
    assert AllZero(calls, i + 1) ==> calls[i].sequence == 0;
    if s > 0 {
      MoreCalls(calls, [call], s - 1);
    }
  }

  /** A call with another number. */
  lemma NextNumber(calls: seq<Call>, call: Call)
    requires calls != [] && call.sequence != calls[|calls| - 1].sequence
    ensures var i, now := |calls| - 1, calls + [call];
            && RunStart(now, i + 1) == i + 1 && !AllZero(now, i + 2)
            && Delivered(now, i + 1)
               == Params(true, call.camera, calls[i].hmd,
                         if AllZero(calls, i + 1) then ZERO else calls[RunStart(calls, i)].hmd)
  {
    var i := |calls| - 1;
    MoreCalls(calls, [call], i);
    OneMoreZero(calls, call, i + 1);
    assert AllZero(calls, i + 1) ==> calls[i].sequence == 0;
  }

  /** The very first call. */
  lemma FirstCall(call: Call)
    ensures RunStart([call], 0) == 0 && AllZero([call], 1) == (call.sequence == 0)
    ensures Delivered([call], 0)
            == if call.sequence == 0 then Params(false, ZERO, ZERO, ZERO) else Params(true, call.camera, ZERO, ZERO)
  {
    assert [call][0].sequence == call.sequence;
  }

  /** RunStart is the left end of the maximal block of equal sequence numbers around a call. */
  lemma {:induction false} RunStartIsLeftEnd(calls: seq<Call>, i: nat, s: nat)
    requires s <= i < |calls|
    ensures s == RunStart(calls, i)
            <==> && (forall k :: s <= k <= i ==> calls[k].sequence == calls[i].sequence)
                 && (s > 0 ==> calls[s - 1].sequence != calls[i].sequence)
  {
    if i > 0 && calls[i - 1].sequence == calls[i].sequence {
      if s <= i - 1 {
        RunStartIsLeftEnd(calls, i - 1, s);
      }
    }
  }

  /** And FrameStart of the maximal block of one camera frame. */
  lemma {:induction false} FrameStartIsLeftEnd(calls: seq<Call>, i: nat, f: nat)
    requires f <= i < |calls|
    ensures f == FrameStart(calls, i)
            <==> && (forall k :: f <= k <= i ==> calls[k].frame == calls[i].frame)
                 && (f > 0 ==> calls[f - 1].frame != calls[i].frame)
  {
    if i > 0 && calls[i - 1].frame == calls[i].frame {
      if f <= i - 1 {
        FrameStartIsLeftEnd(calls, i - 1, f);
      }
    }
  }

  // ----- When the numbers tell the frames apart

  /** A camera frame rendered again still has its number. */
  predicate Numbered(calls: seq<Call>) {
    forall i | 0 < i < |calls| && calls[i - 1].frame == calls[i].frame :: calls[i - 1].sequence == calls[i].sequence
  }

  predicate Changes(calls: seq<Call>, i: nat)
    requires i < |calls|
  {
    i == 0 || calls[i - 1].frame != calls[i].frame
  }

  /** The number differs from the one rendered before, which is zero at first. */
  predicate IsNoticed(calls: seq<Call>, i: nat)
    requires i < |calls|
  {
    if i == 0 then calls[0].sequence != 0 else calls[i - 1].sequence != calls[i].sequence
  }

  /** How the run of equal numbers that a call is in extends beyond its frame. */
  lemma {:induction false} RunOfFrame(calls: seq<Call>, i: nat)
    requires Numbered(calls) && i < |calls|
    ensures var f := FrameStart(calls, i);
            && Changes(calls, f)
            && RunStart(calls, i) == RunStart(calls, f) && calls[i].sequence == calls[f].sequence
            && (AllZero(calls, i + 1) <==> AllZero(calls, f + 1))
            && (IsNoticed(calls, f) ==> RunStart(calls, f) == f && !AllZero(calls, f + 1))
            && (f > 0 && !IsNoticed(calls, f) ==>
                  RunStart(calls, f) == RunStart(calls, f - 1) && (AllZero(calls, f + 1) <==> AllZero(calls, f)))
  {
    if i > 0 && calls[i - 1].frame == calls[i].frame {
      RunOfFrame(calls, i - 1);
      AllZeroStep(calls, i);
    } else {
      AllZeroStep(calls, i);
    }
  }

  lemma AllZeroStep(calls: seq<Call>, i: nat)
    requires i < |calls|
    ensures AllZero(calls, i + 1) <==> AllZero(calls, i) && calls[i].sequence == 0
    ensures i > 0 && AllZero(calls, i) ==> calls[i - 1].sequence == 0
    ensures i > 0 && calls[i - 1].sequence == calls[i].sequence ==> (AllZero(calls, i + 1) <==> AllZero(calls, i))
  {
    if i > 0 && AllZero(calls, i) {
      assert calls[i - 1].sequence == 0;
    }
  }

  /** The view that is current after call `i`: that of the first render of its run, if the run was noticed. */
  function CurrentView(calls: seq<Call>, i: nat): Eyes
    requires i < |calls|
  {
    if AllZero(calls, i + 1) then ZERO else calls[RunStart(calls, i)].hmd
  }

  /** What a frame that is not noticed keeps of the frame before it. */
  function KeptCamera(calls: seq<Call>, f: nat): Eyes
    requires f < |calls|
  {
    if f == 0 then ZERO else Delivered(calls, f - 1).camera
  }

  function KeptView(calls: seq<Call>, f: nat): Eyes
    requires f < |calls|
  {
    if f == 0 then ZERO else CurrentView(calls, f - 1)
  }

  /**
   Exactly when a call is told rightly whether it is the first render of its frame, and gets
   the matrices of that first render: a frame that is not noticed is rendered with the
   matrices of the frame before it.
   */
  lemma CameraIsRightIff(calls: seq<Call>, i: nat)
    requires Numbered(calls) && i < |calls|
    ensures var f, d, want := FrameStart(calls, i), Delivered(calls, i), Intended(calls, i);
            && (d.isFirstRender == want.isFirstRender <==> f < i || IsNoticed(calls, i))
            && (d.camera == want.camera <==> IsNoticed(calls, f) || KeptCamera(calls, f) == calls[f].camera)
            && d.prevHmdFrame == want.prevHmdFrame
  {
    var f := FrameStart(calls, i);
    RunOfFrame(calls, i);
    if f > 0 {
      AllZeroStep(calls, f);
    }
    if f < i {
      RunIsNotNew(calls, i);
    }
    RunStartIsZero(calls, f);
  }

  /** The color history of a call, by whether its frame was noticed. */
  lemma ColorHistoryOfFrame(calls: seq<Call>, i: nat)
    requires Numbered(calls) && i < |calls|
    ensures var f, d := FrameStart(calls, i), Delivered(calls, i);
            && (f == 0 ==> d.colorHistory == ZERO)
            && (f > 0 && !IsNoticed(calls, f) ==> d.colorHistory == Delivered(calls, f - 1).colorHistory)
            && (f > 0 && IsNoticed(calls, f) ==> d.colorHistory == CurrentView(calls, f - 1))
  {
    RunOfFrame(calls, i);
    RunStartIsZero(calls, FrameStart(calls, i));
  }

  /** The current view after a call, by whether its frame was noticed. */
  lemma CurrentViewOfFrame(calls: seq<Call>, i: nat)
    requires Numbered(calls) && i < |calls|
    ensures var f := FrameStart(calls, i);
            CurrentView(calls, i) == if IsNoticed(calls, f) then calls[f].hmd else KeptView(calls, f)
  {
    RunOfFrame(calls, i);
    RunStartIsZero(calls, FrameStart(calls, i));
  }

  /**
   Exactly when a call gets the view at the first render of the frame before: both frames
   have to be noticed, other than by coincidence.
   */
  lemma ColorHistoryIsRightIff(calls: seq<Call>, i: nat)
    requires Numbered(calls) && i < |calls|
    ensures var f, d, want := FrameStart(calls, i), Delivered(calls, i), Intended(calls, i);
            && (f == 0 ==> d.colorHistory == want.colorHistory)
            && (f > 0 ==>
                  var g := FrameStart(calls, f - 1);
                  d.colorHistory == want.colorHistory
                  <==> if !IsNoticed(calls, f) then Delivered(calls, f - 1).colorHistory == calls[g].hmd
                       else IsNoticed(calls, g) || KeptView(calls, g) == calls[g].hmd)
  {
    var f := FrameStart(calls, i);
    ColorHistoryOfFrame(calls, i);
    if f > 0 {
      CurrentViewOfFrame(calls, f - 1);
    }
  }

  lemma RunIsNotNew(calls: seq<Call>, i: nat)
    requires Numbered(calls) && i < |calls| && FrameStart(calls, i) < i
    ensures RunStart(calls, i) < i
  {
  }

  /** A run of zeros from the start begins at the start. */
  lemma RunStartIsZero(calls: seq<Call>, i: nat)
    requires i < |calls|
    ensures AllZero(calls, i + 1) ==> RunStart(calls, i) == 0
  {
    if AllZero(calls, i + 1) {
      RunStartIsLeftEnd(calls, i, 0);
    }
  }

  /**
   All calls of a session get the right history if and only if the first frame is not
   numbered zero and no frame carries the number of the frame rendered just before it.
   */
  lemma SessionIsRightIff(calls: seq<Call>)
    requires Numbered(calls)
    ensures (forall i | 0 <= i < |calls| :: Delivered(calls, i) == Intended(calls, i))
            <==> forall i | 0 <= i < |calls| && Changes(calls, i) :: IsNoticed(calls, i)
  {
    if forall i | 0 <= i < |calls| && Changes(calls, i) :: IsNoticed(calls, i) {
      forall i | 0 <= i < |calls|
        ensures Delivered(calls, i) == Intended(calls, i)
      {
        NoticedHistoryIsRight(calls, i);
      }
    }
    forall i | 0 <= i < |calls| && Changes(calls, i)
      ensures Delivered(calls, i) == Intended(calls, i) ==> IsNoticed(calls, i)
    {
      CameraIsRightIff(calls, i);
    }
  }

  lemma NoticedHistoryIsRight(calls: seq<Call>, i: nat)
    requires Numbered(calls) && i < |calls|
    requires forall k | 0 <= k < |calls| && Changes(calls, k) :: IsNoticed(calls, k)
    ensures Delivered(calls, i) == Intended(calls, i)
  {
    var f := FrameStart(calls, i);
    CameraIsRightIff(calls, i);
    ColorHistoryIsRightIff(calls, i);
    RunOfFrame(calls, i);
    if f > 0 {
      RunOfFrame(calls, f - 1);
    }
  }

  // ----- A camera that numbers its frames modulo 16, from zero

  const NUMBERS := 16

  predicate CountsModulo(calls: seq<Call>) {
    forall i | 0 <= i < |calls| :: calls[i].sequence == calls[i].frame % NUMBERS
  }

  /**
   Then the history is right exactly when no two different frames rendered one after the
   other are a multiple of 16 apart, and the first is no such multiple.
   */
  lemma ModuloSessionIsRightIff(calls: seq<Call>)
    requires CountsModulo(calls)
    ensures (forall i | 0 <= i < |calls| :: Delivered(calls, i) == Intended(calls, i))
            <==> && (calls != [] ==> calls[0].frame % NUMBERS != 0)
                 && forall i | 0 < i < |calls| && calls[i - 1].frame != calls[i].frame ::
                      (calls[i].frame - calls[i - 1].frame) % NUMBERS != 0
  {
    SessionIsRightIff(calls);
    forall i | 0 < i < |calls|
      ensures IsNoticed(calls, i) <==> (calls[i].frame - calls[i - 1].frame) % NUMBERS != 0
    {
      SameRemainder(calls[i - 1].frame, calls[i].frame);
    }
    if calls != [] {
      assert Changes(calls, 0);
    }
  }

  lemma SameRemainder(a: nat, b: nat)
    ensures a % NUMBERS == b % NUMBERS <==> (b - a) % NUMBERS == 0
  {
  }

  /**
   Its very first frame does not count as rendered, and its second is drawn without the
   view its first was drawn from.
   */
  lemma HistoryOfSecondFrameIsLost(first: Call, second: Call)
    requires first.frame == first.sequence == 0 && second.frame == second.sequence == 5 && first.hmd != ZERO
    ensures Intended([first, second], 1).colorHistory == first.hmd
    ensures Delivered([first, second], 1).colorHistory == ZERO
    ensures Intended([first, second], 0).isFirstRender && !Delivered([first, second], 0).isFirstRender
  {
    var calls := [first, second];
    assert RunStart(calls, 1) == 1 && RunStart(calls, 0) == 0;
    assert FrameStart(calls, 1) == 1 && FrameStart(calls, 0) == 0;
  }

  /** When 16 frames pass undrawn the next one is drawn with the camera matrices of the one before them. */
  lemma FrameOfSameNumberIsMissed(first: Call, second: Call)
    requires first.frame == first.sequence == 3 && second.frame == 19 && second.sequence == 3
    ensures Intended([first, second], 1).isFirstRender && !Delivered([first, second], 1).isFirstRender
    ensures Intended([first, second], 1).camera == second.camera
    ensures Delivered([first, second], 1).camera == first.camera
  {
    var calls := [first, second];
    assert RunStart(calls, 1) == 0 && FrameStart(calls, 1) == 1;
    assert !AllZero(calls, 2) by {
      assert calls[0].sequence == 3;
    }
  }
}
