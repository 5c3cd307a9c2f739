/**
 The deferred release of swapchain images.  A `Tracker` is what the layer records about
 one swapchain, a `Link` puts it between the swapchain as the application knows it and
 the swapchain as the runtime knows it.  The theorems say that the runtime sees a
 conforming application, and that the application sees a conforming runtime.
 */
module DeferredRelease {
  import opened Wrappers
  import opened SwapchainProtocol

  /**
   The layer's bookkeeping for one swapchain.  A missing queue counts as an empty one; a
   missing waited flag is told apart from a cleared one.
   */
  datatype Tracker = Tracker(tracked: bool, acquired: seq<nat>, waited: Option<bool>, held: seq<nat>)

  const BLANK := Tracker(false, [], None, [])

  /** One intercepted call: its answer, and the runtime's answers to the calls it caused. */
  datatype Outcome = Outcome(tracker: Tracker, runtime: Chain, result: Result, issued: seq<Result>)

  function Forward(t: Tracker, rt: Chain, call: Call): Outcome {
    Outcome(t, Apply(rt, call), Respond(rt, call), [Respond(rt, call)])
  }

  function AcquireCall(t: Tracker, rt: Chain, call: Call): Outcome {
    if !t.tracked then
      Forward(t, rt, call)
    else
      var r := Respond(rt, call);
      var flag := if t.waited.None? || (r.Acquired? && t.acquired == []) then Some(false) else t.waited;
      var queue := if r.Acquired? then t.acquired + [r.index] else t.acquired;
      Forward(t.(waited := flag, acquired := queue), rt, call)
  }

  function WaitCall(t: Tracker, rt: Chain, call: Call): Outcome {
    if !t.tracked then
      Forward(t, rt, call)
    else
      var early := t.held != [];
      var rt1 := if early then Apply(rt, ReleaseImage) else rt;
      var held := if early then t.held[1..] else t.held;
      var r := Respond(rt1, call);
      var flag := if Succeeded(r) && t.waited.Some? then Some(true) else t.waited;
      Outcome(t.(held := held, waited := flag), Apply(rt1, call), r,
              (if early then [Respond(rt, ReleaseImage)] else []) + [r])
  }

  function ReleaseCall(t: Tracker, rt: Chain, passthrough: bool): Outcome {
    if !t.tracked || t.acquired == [] then
      Forward(t, rt, ReleaseImage)
    else if !passthrough || t.waited == Some(false) then
      Forward(t.(acquired := t.acquired[1..]), rt, ReleaseImage)
    else
      Outcome(t.(waited := Some(false), held := t.held + [t.acquired[0]], acquired := t.acquired[1..]),
              rt, Success, [])
  }

  function Intercept(t: Tracker, rt: Chain, call: Call, passthrough: bool): Outcome {
    match call
    case AcquireImage(_) => AcquireCall(t, rt, call)
    case WaitImage(_) => WaitCall(t, rt, call)
    case ReleaseImage => ReleaseCall(t, rt, passthrough)
  }

  /** Hands every held image back to the runtime, oldest first. */
  function Drain(t: Tracker, rt: Chain): Outcome
    decreases |t.held|
  {
    if t.held == [] then
      Outcome(t, rt, Success, [])
    else
      var rest := Drain(t.(held := t.held[1..], waited := Some(false)), Apply(rt, ReleaseImage));
      rest.(issued := [Respond(rt, ReleaseImage)] + rest.issued)
  }

  /** The image the layer draws into: the newest held image of a tracked swapchain. */
  function DrawTarget(t: Tracker): Option<nat> {
    if t.tracked && t.held != [] then Some(t.held[|t.held| - 1]) else None
  }

  // ----- One swapchain between the application and the runtime

  datatype Link = Link(app: Chain, tracker: Tracker, runtime: Chain)

  ghost predicate Coupled(l: Link) {
    && WellFormed(l.app) && WellFormed(l.runtime)
    && l.app.images == l.runtime.images
    && l.runtime.outstanding == l.tracker.held + l.app.outstanding
    && |l.tracker.held| <= 1
    && (l.tracker.held == [] ==> l.runtime == l.app)
    && (l.tracker.held != [] ==>
          && l.tracker.tracked
          && l.runtime.waited && !l.app.waited
          && l.app.released == Some(l.tracker.held[0])
          && l.tracker.waited == Some(false))
    && (l.tracker.tracked ==>
          && l.tracker.acquired == l.app.outstanding
          && (l.app.outstanding != [] ==> l.tracker.waited.Some?)
          && (l.app.waited ==> l.tracker.waited == Some(true)))
  }

  function CallLink(l: Link, call: Call, passthrough: bool): Link {
    var o := Intercept(l.tracker, l.runtime, call, passthrough);
    Link(Answered(l.app, call, o.result), o.tracker, o.runtime)
  }

  function DrainLink(l: Link): Link {
    var o := Drain(l.tracker, l.runtime);
    Link(l.app, o.tracker, o.runtime)
  }

  /** The one situation in which deferring a release starves the application's next acquire. */
  predicate Starved(l: Link, call: Call) {
    call.AcquireImage? && l.tracker.held != [] && |l.app.outstanding| + 1 == l.app.images
  }

  /** While an image is held, the runtime's next release is that image. */
  lemma HeldIsFront(l: Link)
    requires Coupled(l) && l.tracker.held != []
    ensures Legal(l.runtime, ReleaseImage)
    ensures l.runtime.outstanding[0] == l.tracker.held[0]
    ensures l.runtime.outstanding[1..] == l.app.outstanding
    ensures Apply(l.runtime, ReleaseImage) == l.app
  {
  }

  lemma AcquireIsTransparent(l: Link, call: Call)
    requires Coupled(l) && Legal(l.app, call) && MayAnswer(l.runtime, call) && call.AcquireImage?
    ensures Coupled(CallLink(l, call, false))
    ensures AcquireCall(l.tracker, l.runtime, call).result == Respond(l.app, call) <==> !Starved(l, call)
    ensures AcquireCall(l.tracker, l.runtime, call).result == CallOrderInvalid <==> Starved(l, call)
  {
    var r := Respond(l.runtime, call);
    if r.Acquired? {
      assert l.runtime.outstanding + [r.index] == l.tracker.held + (l.app.outstanding + [r.index]);
      assert forall x :: x in l.app.outstanding ==> x in l.runtime.outstanding;
      ApplyKeepsWellFormed(l.runtime, call);
      ApplyKeepsWellFormed(l.app, call);
    }
  }

  lemma WaitIsTransparent(l: Link, call: Call)
    requires Coupled(l) && Legal(l.app, call) && call.WaitImage?
    ensures Coupled(CallLink(l, call, false))
    ensures var o := WaitCall(l.tracker, l.runtime, call);
            CallOrderInvalid !in o.issued && o.result == Respond(l.app, call)
  {
    if l.tracker.held != [] {
      HeldIsFront(l);
      assert l.tracker.held[1..] == [];
    }
  }

  lemma ReleaseIsTransparent(l: Link, passthrough: bool)
    requires Coupled(l) && Legal(l.app, ReleaseImage)
    ensures Coupled(CallLink(l, ReleaseImage, passthrough))
    ensures var o := ReleaseCall(l.tracker, l.runtime, passthrough);
            CallOrderInvalid !in o.issued && o.result == Success
  {
    assert l.tracker.held == [];
    assert l.app.outstanding == [l.app.outstanding[0]] + l.app.outstanding[1..];
    ApplyKeepsWellFormed(l.app, ReleaseImage);
  }

  /**
   A legal application call keeps the coupling; the calls it causes are legal for the
   runtime, and its answer is the answer the application would get without the layer,
   except exactly when the layer sits on the last free image.
   */
  lemma LegalCallIsTransparent(l: Link, call: Call, passthrough: bool)
    requires Coupled(l) && Legal(l.app, call) && MayAnswer(l.runtime, call)
    ensures Coupled(CallLink(l, call, passthrough))
    ensures var o := Intercept(l.tracker, l.runtime, call, passthrough);
            && (CallOrderInvalid in o.issued <==> Starved(l, call))
            && (o.result == Respond(l.app, call) <==> !Starved(l, call))
  {
    match call
    case AcquireImage(_) => AcquireIsTransparent(l, call);
    case WaitImage(_) => WaitIsTransparent(l, call);
    case ReleaseImage => ReleaseIsTransparent(l, passthrough);
  }

  /** Draining leaves the runtime in exactly the state the application believes in. */
  lemma DrainSynchronizes(l: Link)
    requires Coupled(l)
    ensures Coupled(DrainLink(l))
    ensures DrainLink(l).runtime == l.app && DrainLink(l).tracker.held == []
    ensures CallOrderInvalid !in Drain(l.tracker, l.runtime).issued
  {
    if l.tracker.held != [] {
      HeldIsFront(l);
      var t := l.tracker.(held := l.tracker.held[1..], waited := Some(false));
      assert t.held == [];
      assert Drain(t, l.app) == Outcome(t, l.app, Success, []);
    }
  }

  /**
   An image released without having been waited on is refused by the runtime, unless the
   layer defers it and reports success: with passthrough on and the waited flag not cleared.
   A release that is passed on leaves the flag as it was, so that it may outlive its image.
   */
  lemma UnwaitedReleaseIsRefusedIff(t: Tracker, rt: Chain, passthrough: bool)
    requires t.tracked && t.acquired != [] && !rt.waited
    ensures var o := ReleaseCall(t, rt, passthrough);
            && (o.result == CallOrderInvalid <==> !passthrough || t.waited == Some(false))
            && (o.result == Success <==> passthrough && t.waited != Some(false))
            && (!passthrough ==> o.tracker.waited == t.waited && o.tracker.held == t.held)
  {
  }

  // ----- Every swapchain of the session, over a whole run

  type Handle = nat

  datatype World = World(links: map<Handle, Link>, passthrough: bool)

  datatype Event =
    | Create(h: Handle, images: nat, tracked: bool)
    | Destroy(h: Handle)
    | AppCall(h: Handle, call: Call)
    | BeginFrame(enabled: bool)
    | EndFrame

  const START := World(map[], false)

  predicate LegalEvent(w: World, e: Event) {
    match e
    case Create(h, _, _) => h !in w.links
    case Destroy(h) => h in w.links
    case AppCall(h, call) =>
      h in w.links && Legal(w.links[h].app, call) && MayAnswer(w.links[h].runtime, call)
    case BeginFrame(_) => true
    case EndFrame => true
  }

  function Step(w: World, e: Event): World
    requires LegalEvent(w, e)
  {
    match e
    case Create(h, images, tracked) =>
      w.(links := w.links[h := Link(NewChain(images), BLANK.(tracked := tracked), NewChain(images))])
    case Destroy(h) => w.(links := w.links - {h})
    case AppCall(h, call) => w.(links := w.links[h := CallLink(w.links[h], call, w.passthrough)])
    case BeginFrame(enabled) => w.(passthrough := enabled)
    case EndFrame => w.(links := map h | h in w.links :: DrainLink(w.links[h]))
  }

  /** The runtime's answers to the swapchain calls that `e` makes the layer issue. */
  ghost function Issued(w: World, e: Event): set<Result>
    requires LegalEvent(w, e)
  {
    match e
    case AppCall(h, call) =>
      var l := w.links[h];
      set r | r in Intercept(l.tracker, l.runtime, call, w.passthrough).issued
    case EndFrame =>
      set h, r | h in w.links && r in Drain(w.links[h].tracker, w.links[h].runtime).issued :: r
    case _ => {}
  }

  ghost predicate AllCoupled(w: World) {
    forall h :: h in w.links ==> Coupled(w.links[h])
  }

  predicate StarvedEvent(w: World, e: Event) {
    e.AppCall? && e.h in w.links && Starved(w.links[e.h], e.call)
  }

  lemma StepKeepsCoupling(w: World, e: Event)
    requires AllCoupled(w) && LegalEvent(w, e)
    ensures AllCoupled(Step(w, e))
    ensures CallOrderInvalid in Issued(w, e) <==> StarvedEvent(w, e)
    ensures e.EndFrame? ==>
              forall h :: h in w.links ==>
                && h in Step(w, e).links
                && Step(w, e).links[h].runtime == Step(w, e).links[h].app == w.links[h].app
                && Step(w, e).links[h].tracker.held == []
    ensures e.AppCall? ==> forall h :: h in w.links && h != e.h ==> Step(w, e).links[h] == w.links[h]
  {
    match e
    case AppCall(h, call) =>
      LegalCallIsTransparent(w.links[h], call, w.passthrough);
    case EndFrame =>
      forall h | h in w.links
        ensures Coupled(DrainLink(w.links[h]))
        ensures DrainLink(w.links[h]).runtime == w.links[h].app && DrainLink(w.links[h]).tracker.held == []
        ensures CallOrderInvalid !in Drain(w.links[h].tracker, w.links[h].runtime).issued
      {
        DrainSynchronizes(w.links[h]);
      }
    case _ =>
  }

  predicate LegalRun(es: seq<Event>)
    decreases |es|, 0
  {
    es == [] || (LegalRun(es[..|es| - 1]) && LegalEvent(Run(es[..|es| - 1]), es[|es| - 1]))
  }

  function Run(es: seq<Event>): World
    requires LegalRun(es)
    decreases |es|, 1
  {
    if es == [] then START else Step(Run(es[..|es| - 1]), es[|es| - 1])
  }

  ghost function IssuedInRun(es: seq<Event>): set<Result>
    requires LegalRun(es)
    decreases |es|
  {
    if es == [] then {}
    else IssuedInRun(es[..|es| - 1]) + Issued(Run(es[..|es| - 1]), es[|es| - 1])
  }

  lemma {:induction false} RunIsCoupled(es: seq<Event>)
    requires LegalRun(es)
    ensures AllCoupled(Run(es))
    decreases |es|
  {
    if es != [] {
      RunIsCoupled(es[..|es| - 1]);
      StepKeepsCoupling(Run(es[..|es| - 1]), es[|es| - 1]);
    }
  }

  // ----- What an application can tell from its own calls

  /** The setting at the last begin of a frame. */
  predicate Passthrough(es: seq<Event>)
    decreases |es|
  {
    es != [] && var e := es[|es| - 1]; if e.BeginFrame? then e.enabled else Passthrough(es[..|es| - 1])
  }

  /** The swapchain exists and was created for the session the layer looks after. */
  predicate Tracked(es: seq<Event>, h: Handle)
    decreases |es|
  {
    && es != []
    && var e := es[|es| - 1];
       if e.Create? && e.h == h then e.tracked
       else if e == Destroy(h) then false
       else Tracked(es[..|es| - 1], h)
  }

  predicate EndsDeferral(e: Event, h: Handle) {
    e.EndFrame? || (e.Create? && e.h == h) || e == Destroy(h) || (e.AppCall? && e.h == h && e.call.WaitImage?)
  }

  /**
   The last release of an image was made with passthrough on, and no wait for the next
   image, no end of the frame and no end of the swapchain has followed.
   */
  predicate Deferred(es: seq<Event>, h: Handle)
    decreases |es|
  {
    && es != []
    && var front, e := es[..|es| - 1], es[|es| - 1];
       if e == AppCall(h, ReleaseImage) then Passthrough(front) && Tracked(front, h)
       else !EndsDeferral(e, h) && Deferred(front, h)
  }

  /** The same, by the place of that release. */
  ghost predicate DefersAt(es: seq<Event>, r: nat, h: Handle)
    requires r < |es|
  {
    && es[r] == AppCall(h, ReleaseImage) && Passthrough(es[..r]) && Tracked(es[..r], h)
    && forall k | r < k < |es| :: !EndsDeferral(es[k], h) && es[k] != AppCall(h, ReleaseImage)
  }

  lemma {:induction false} DeferredIff(es: seq<Event>, h: Handle)
    ensures Deferred(es, h) <==> exists r :: 0 <= r < |es| && DefersAt(es, r, h)
    decreases |es|
  {
    if es != [] {
      var n := |es| - 1;
      var front := es[..n];
      DeferredIff(front, h);
      assert forall r | 0 <= r < n :: front[..r] == es[..r];
      if Deferred(es, h) {
        if es[n] == AppCall(h, ReleaseImage) {
          assert DefersAt(es, n, h);
        } else {
          var r :| 0 <= r < n && DefersAt(front, r, h);
          assert DefersAt(es, r, h);
        }
      }
      if r :| 0 <= r < |es| && DefersAt(es, r, h) {
        if r < n {
          assert DefersAt(front, r, h);
        }
      }
    }
  }

  /** What an event does to the image held of one swapchain. */
  lemma EventDefers(w: World, e: Event, h: Handle)
    requires AllCoupled(w) && LegalEvent(w, e) && h in Step(w, e).links
    ensures var before, after := h in w.links && w.links[h].tracker.held != [], Step(w, e).links[h].tracker.held != [];
            if e == AppCall(h, ReleaseImage) then after <==> w.passthrough && w.links[h].tracker.tracked
            else after <==> before && !EndsDeferral(e, h)
    ensures !(e.Create? && e.h == h) ==>
              h in w.links && Step(w, e).links[h].tracker.tracked == w.links[h].tracker.tracked
  {
    if e.AppCall? && e.h == h {
      assert Coupled(w.links[h]);
    } else if e.EndFrame? {
      StepKeepsCoupling(w, e);
      DrainKeepsTracked(w.links[h].tracker, w.links[h].runtime);
    }
  }

  lemma {:induction false} DrainKeepsTracked(t: Tracker, rt: Chain)
    ensures Drain(t, rt).tracker.tracked == t.tracked
    decreases |t.held|
  {
    if t.held != [] {
      DrainKeepsTracked(t.(held := t.held[1..], waited := Some(false)), Apply(rt, ReleaseImage));
    }
  }

  /** The layer holds an image of a swapchain exactly when its application can tell that it does. */
  lemma {:induction false} HeldIffDeferred(es: seq<Event>, h: Handle)
    requires LegalRun(es)
    ensures Run(es).passthrough == Passthrough(es)
    ensures Tracked(es, h) <==> h in Run(es).links && Run(es).links[h].tracker.tracked
    ensures Deferred(es, h) <==> h in Run(es).links && Run(es).links[h].tracker.held != []
    decreases |es|
  {
    if es != [] {
      var front, e := es[..|es| - 1], es[|es| - 1];
      HeldIffDeferred(front, h);
      RunIsCoupled(front);
      if h in Run(es).links {
        EventDefers(Run(front), e, h);
      }
    }
  }

  /** Event `k` acquires an image while one is deferred and the application may acquire just one more. */
  predicate StarvedAt(es: seq<Event>, k: nat)
    requires LegalRun(es) && k < |es|
  {
    && es[k].AppCall? && es[k].call.AcquireImage? && Deferred(es[..k], es[k].h)
    && LegalRun(es[..k]) && es[k].h in Run(es[..k]).links
    && var app := Run(es[..k]).links[es[k].h].app;
       |app.outstanding| + 1 == app.images
  }

  lemma LastIsStarvedIff(es: seq<Event>)
    requires LegalRun(es) && es != []
    ensures StarvedAt(es, |es| - 1) <==> StarvedEvent(Run(es[..|es| - 1]), es[|es| - 1])
  {
    var e := es[|es| - 1];
    if e.AppCall? {
      HeldIffDeferred(es[..|es| - 1], e.h);
    }
  }

  /**
   Over any run of legal application calls, passthrough toggles, waits that expire and
   frame ends, on any number of swapchains: the coupling always holds, and the layer
   issues an illegal call if and only if the application acquired the last image it could
   while it had a deferred release.
   */
  lemma {:induction false} RunIsLegalForTheRuntime(es: seq<Event>)
    requires LegalRun(es)
    ensures AllCoupled(Run(es))
    ensures CallOrderInvalid in IssuedInRun(es) <==> exists k :: 0 <= k < |es| && StarvedAt(es, k)
    decreases |es|
  {
    RunIsCoupled(es);
    if es != [] {
      var n := |es| - 1;
      var front := es[..n];
      RunIsCoupled(front);
      RunIsLegalForTheRuntime(front);
      StepKeepsCoupling(Run(front), es[n]);
      LastIsStarvedIff(es);
      forall k | 0 <= k < n
        ensures StarvedAt(es, k) == StarvedAt(front, k)
      {
        assert front[..k] == es[..k];
      }
    }
  }

  /** In every reachable state the runtime's queue is the held image, then the acquired ones. */
  lemma ReachableQueues(es: seq<Event>, h: Handle)
    requires LegalRun(es) && h in Run(es).links
    ensures var l := Run(es).links[h];
            && (l.tracker.tracked ==> l.runtime.outstanding == l.tracker.held + l.tracker.acquired)
            && |l.tracker.held| <= 1
            && (l.tracker.waited == Some(true) ==> l.tracker.held == [])
  {
    RunIsCoupled(es);
  }

  /** An image the application has released last and does not own, and that the runtime has not been given back yet. */
  predicate InBetween(l: Link, image: nat) {
    && l.app.released == Some(image) && image !in l.app.outstanding
    && l.runtime.outstanding != [] && l.runtime.outstanding[0] == image && l.runtime.waited
  }

  lemma HeldIsInBetween(l: Link)
    requires Coupled(l) && l.tracker.held != []
    ensures InBetween(l, l.tracker.held[|l.tracker.held| - 1])
  {
    HeldIsFront(l);
    assert forall i :: 0 <= i < |l.app.outstanding| ==> l.app.outstanding[i] == l.runtime.outstanding[i + 1];
  }

  /** Whatever the layer draws into is such an image. */
  lemma DrawnImageIsBetweenAppAndRuntime(es: seq<Event>, h: Handle)
    requires LegalRun(es) && h in Run(es).links
    requires DrawTarget(Run(es).links[h].tracker).Some?
    ensures InBetween(Run(es).links[h], DrawTarget(Run(es).links[h].tracker).value)
  {
    RunIsCoupled(es);
    HeldIsInBetween(Run(es).links[h]);
  }

  /** When the runtime's xrEndFrame is reached it has received every release of the application. */
  lemma EndFrameDefersNothing(es: seq<Event>, h: Handle)
    requires LegalRun(es) && h in Run(es).links
    ensures var l := Step(Run(es), EndFrame).links[h];
            && l.tracker.held == []
            && l.runtime == l.app == Run(es).links[h].app
  {
    RunIsCoupled(es);
    StepKeepsCoupling(Run(es), EndFrame);
  }

  lemma OneMoreEvent(es: seq<Event>, e: Event)
    requires LegalRun(es) && LegalEvent(Run(es), e)
    ensures LegalRun(es + [e]) && Run(es + [e]) == Step(Run(es), e)
    ensures Issued(Run(es), e) <= IssuedInRun(es + [e])
  {
    assert (es + [e])[..|es|] == es;
  }

  /**
   The starved acquire does occur: one image, released and deferred, and acquired again
   before the frame ends.
   */
  lemma SingleImageSwapchainStarves()
    ensures var es := [Create(0, 1, true)] + [BeginFrame(true)] + [AppCall(0, AcquireImage(Some(0)))]
                      + [AppCall(0, WaitImage(Ready))] + [AppCall(0, ReleaseImage)]
                      + [AppCall(0, AcquireImage(Some(0)))];
            LegalRun(es) && CallOrderInvalid in IssuedInRun(es)
  {
    OneMoreEvent([], Create(0, 1, true));
    var es1 := [] + [Create(0, 1, true)];
    OneMoreEvent(es1, BeginFrame(true));
    var es2 := es1 + [BeginFrame(true)];
    OneMoreEvent(es2, AppCall(0, AcquireImage(Some(0))));
    var es3 := es2 + [AppCall(0, AcquireImage(Some(0)))];
    OneMoreEvent(es3, AppCall(0, WaitImage(Ready)));
    var es4 := es3 + [AppCall(0, WaitImage(Ready))];
    OneMoreEvent(es4, AppCall(0, ReleaseImage));
    var es5 := es4 + [AppCall(0, ReleaseImage)];
    OneMoreEvent(es5, AppCall(0, AcquireImage(Some(0))));
    RunIsCoupled(es5);
    StepKeepsCoupling(Run(es5), AppCall(0, AcquireImage(Some(0))));
  }
}
