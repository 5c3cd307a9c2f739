/**
 The API layer's swapchain interception as the object it is: maps that its entry points
 update in place, in front of a runtime.  Every entry point is proved against the
 per-swapchain functions of DeferredRelease, and to leave all other swapchains alone.
 */
module SwapchainLayer {
  import opened Wrappers
  import opened SwapchainProtocol
  import opened DeferredRelease

  /** The next element of the call chain.  Its answers follow the swapchain discipline. */
  class Runtime {
    var chains: map<Handle, Chain>

    constructor ()
      ensures chains == map[]
    {
      chains := map[];
    }

    method Swapchain(h: Handle, call: Call) returns (r: Result)
      requires h in chains
      modifies this
      ensures r == Respond(old(chains[h]), call)
      ensures chains == old(chains)[h := Apply(old(chains[h]), call)]
    {
      r := Respond(chains[h], call);
      chains := chains[h := Apply(chains[h], call)];
    }
  }

  /** Every swapchain has been drained, and nothing else happened to it. */
  ghost predicate AllDrained(before: map<Handle, (Tracker, Chain)>, after: map<Handle, (Tracker, Chain)>) {
    && before.Keys == after.Keys
    && forall h :: h in before ==>
         var o := Drain(before[h].0, before[h].1); after[h] == (o.tracker, o.runtime)
  }

  /** What UpdateSwapchains reads from one view of the projection layer and from the runtime. */
  datatype ViewInfo = ViewInfo(color: Handle, depth: Option<Handle>, enumerates: bool, enumeratesDepth: bool)

  /** The image indices one eye is drawn with; absent ones stay at -1. */
  datatype EyeTargets = EyeTargets(frame: int, depth: int)

  const NO_TARGETS := EyeTargets(-1, -1)

  /** The swapchain stored for an eye. */
  function Stored(swapchains: map<bool, Handle>, left: bool): Option<Handle> {
    if left in swapchains then Some(swapchains[left]) else None
  }

  predicate CanBeDrawn(color: Tracker, stored: Option<Handle>, view: ViewInfo) {
    DrawTarget(color).Some? && (stored == Some(view.color) || view.enumerates)
  }

  /** The indices for an eye, given the tracker of its color swapchain and the images held of its depth swapchain. */
  function TargetsOf(color: Tracker, stored: Option<Handle>, view: ViewInfo, depthHeld: seq<nat>): EyeTargets {
    if !CanBeDrawn(color, stored, view) then NO_TARGETS
    else EyeTargets(DrawTarget(color).value, if depthHeld == [] then -1 else Last(depthHeld))
  }

  class Layer {
    const runtime: Runtime
    var properties: set<Handle>
    var acquired: map<Handle, seq<nat>>
    var waited: map<Handle, bool>
    var held: map<Handle, seq<nat>>
    var usePassthrough: bool
    var beginFrameCalled: bool
    var storedColor: map<bool, Handle>
    var storedDepth: map<bool, Handle>

    constructor (rt: Runtime)
      ensures runtime == rt && !usePassthrough
      ensures forall h :: TrackerOf(h) == BLANK
    {
      runtime := rt;
      properties, acquired, waited, held := {}, map[], map[], map[];
      usePassthrough, beginFrameCalled := false, false;
      storedColor, storedDepth := map[], map[];
    }

    ghost function TrackerOf(h: Handle): Tracker
      reads this`properties, this`acquired, this`waited, this`held
    {
      Tracker(h in properties,
              if h in acquired then acquired[h] else [],
              if h in waited then Some(waited[h]) else None,
              if h in held then held[h] else [])
    }

    twostate predicate OthersUnchanged(h: Handle)
      reads this
    {
      forall k :: k != h ==> TrackerOf(k) == old(TrackerOf(k))
    }

    twostate predicate Performs(h: Handle, o: Outcome)
      reads this, runtime
    {
      && TrackerOf(h) == o.tracker
      && OthersUnchanged(h)
      && runtime.chains == old(runtime.chains)[h := o.runtime]
    }

    /** xrCreateSwapchain; `h` is the handle the runtime would give out, `succeeds` whether it does. */
    method CreateSwapchain(h: Handle, images: nat, currentSession: bool, succeeds: bool)
      requires h !in runtime.chains && TrackerOf(h) == BLANK
      modifies this`properties, runtime
      ensures TrackerOf(h) == BLANK.(tracked := currentSession && succeeds)
      ensures OthersUnchanged(h) && held == old(held)
      ensures Snapshot() == if succeeds then old(Snapshot())[h := (TrackerOf(h), NewChain(images))] else old(Snapshot())
      ensures runtime.chains == if succeeds then old(runtime.chains)[h := NewChain(images)] else old(runtime.chains)
    {
      if !succeeds {
        return;
      }
      runtime.chains := runtime.chains[h := NewChain(images)];
      if currentSession {
        properties := properties + {h};
      }
    }

    method DestroySwapchain(h: Handle)
      requires h in runtime.chains
      modifies this`properties, this`acquired, this`waited, this`held, runtime
      ensures TrackerOf(h) == BLANK
      ensures OthersUnchanged(h) && held.Keys == old(held).Keys - {h}
      ensures Snapshot() == old(Snapshot()) - {h}
      ensures runtime.chains == old(runtime.chains) - {h}
    {
      acquired := acquired - {h};
      waited := waited - {h};
      held := held - {h};
      properties := properties - {h};
      runtime.chains := runtime.chains - {h};
    }

    /** Makes sure that the three maps have an entry for `h`. */
    method EmplaceEntries(h: Handle)
      modifies this`acquired, this`waited, this`held
      ensures h in acquired && h in waited && h in held
      ensures var t := old(TrackerOf(h));
              TrackerOf(h) == t.(waited := if t.waited.None? then Some(false) else t.waited)
      ensures held.Keys == old(held).Keys + {h}
      ensures OthersUnchanged(h)
    {
      if h !in acquired {
        acquired := acquired[h := []];
      }
      if h !in waited {
        waited := waited[h := false];
      }
      if h !in held {
        held := held[h := []];
      }
    }

    method AcquireSwapchainImage(h: Handle, pick: Option<nat>) returns (r: Result)
      requires h in runtime.chains
      modifies this`acquired, this`waited, this`held, runtime
      ensures var o := AcquireCall(old(TrackerOf(h)), old(runtime.chains[h]), AcquireImage(pick));
              Performs(h, o) && r == o.result
      ensures held.Keys <= old(held).Keys + {h}
    {
      if h !in properties {
        r := runtime.Swapchain(h, AcquireImage(pick));
        return;
      }
      EmplaceEntries(h);
      r := runtime.Swapchain(h, AcquireImage(pick));
      if r.Acquired? {
        if acquired[h] == [] {
          waited := waited[h := false];
        }
        acquired := acquired[h := acquired[h] + [r.index]];
      }
    }

    /** Gives a held image back before the next one is waited on. */
    method ReleaseEarly(h: Handle)
      requires h in runtime.chains
      modifies this`held, runtime
      ensures var t, rt := old(TrackerOf(h)), old(runtime.chains[h]);
              && TrackerOf(h) == (if t.held == [] then t else t.(held := t.held[1..]))
              && runtime.chains == old(runtime.chains)[h := if t.held == [] then rt else Apply(rt, ReleaseImage)]
      ensures OthersUnchanged(h) && held.Keys == old(held).Keys
    {
      if h in held && held[h] != [] {
        held := held[h := held[h][1..]];
        var _ := runtime.Swapchain(h, ReleaseImage);
      }
    }

    method WaitSwapchainImage(h: Handle, answer: WaitAnswer) returns (r: Result)
      requires h in runtime.chains
      modifies this`waited, this`held, runtime
      ensures var o := WaitCall(old(TrackerOf(h)), old(runtime.chains[h]), WaitImage(answer));
              Performs(h, o) && r == o.result
      ensures held.Keys <= old(held).Keys + {h}
    {
      if h !in properties {
        r := runtime.Swapchain(h, WaitImage(answer));
      } else {
        ReleaseEarly(h);
        r := runtime.Swapchain(h, WaitImage(answer));
        if Succeeded(r) {
          if h in waited {
            waited := waited[h := true];
          }
        }
      }
    }

    method ReleaseSwapchainImage(h: Handle) returns (r: Result)
      requires h in runtime.chains
      modifies this`acquired, this`waited, this`held, runtime
      ensures var o := ReleaseCall(old(TrackerOf(h)), old(runtime.chains[h]), usePassthrough);
              Performs(h, o) && r == o.result
      ensures held.Keys <= old(held).Keys + {h}
    {
      if h !in properties {
        r := runtime.Swapchain(h, ReleaseImage);
        return;
      }
      if h in acquired && acquired[h] != [] {
        if !usePassthrough || (h in waited && !waited[h]) {
          acquired := acquired[h := acquired[h][1..]];
          r := runtime.Swapchain(h, ReleaseImage);
        } else {
          waited := waited[h := false];
          held := held[h := (if h in held then held[h] else []) + [acquired[h][0]]];
          acquired := acquired[h := acquired[h][1..]];
          assert runtime.chains == old(runtime.chains)[h := old(runtime.chains[h])];
          r := Success;
        }
      } else {
        r := runtime.Swapchain(h, ReleaseImage);
      }
    }

    /** The inner loop: hands the held images of one swapchain back. */
    method DrainSwapchain(h: Handle)
      requires h in held && h in runtime.chains
      modifies this`waited, this`held, runtime
      ensures Performs(h, Drain(old(TrackerOf(h)), old(runtime.chains[h])))
      ensures held.Keys == old(held).Keys && runtime.chains.Keys == old(runtime.chains).Keys
    {
      ghost var goal := Drain(TrackerOf(h), runtime.chains[h]);
      while held[h] != []
        invariant h in held && h in runtime.chains
        invariant Drain(TrackerOf(h), runtime.chains[h]).tracker == goal.tracker
        invariant Drain(TrackerOf(h), runtime.chains[h]).runtime == goal.runtime
        invariant OthersUnchanged(h)
        invariant forall k :: k != h ==> (k in runtime.chains <==> k in old(runtime.chains))
        invariant forall k :: k != h && k in runtime.chains ==> runtime.chains[k] == old(runtime.chains[k])
        invariant held.Keys == old(held).Keys
        decreases |held[h]|
      {
        held := held[h := held[h][1..]];
        waited := waited[h := false];
        var _ := runtime.Swapchain(h, ReleaseImage);
      }
    }

    /** What the layer and the runtime record about every swapchain of the runtime. */
    ghost function Snapshot(): map<Handle, (Tracker, Chain)>
      reads this, runtime
    {
      map h | h in runtime.chains :: (TrackerOf(h), runtime.chains[h])
    }

    /** Compared with `before`, swapchain `h` has been drained and nothing else happened to it. */
    ghost predicate Drained(h: Handle, before: map<Handle, (Tracker, Chain)>)
      requires h in before && h in runtime.chains
      reads this, runtime
    {
      var o := Drain(before[h].0, before[h].1);
      TrackerOf(h) == o.tracker && runtime.chains[h] == o.runtime
    }

    /** The drain of all swapchains, when those in `todo` are still to be visited. */
    ghost predicate DrainedExcept(todo: set<Handle>, before: map<Handle, (Tracker, Chain)>)
      reads this, runtime
    {
      && before.Keys == runtime.chains.Keys
      && todo <= held.Keys <= runtime.chains.Keys
      && (forall h :: h in before && h in todo ==> (TrackerOf(h), runtime.chains[h]) == before[h])
      && (forall h :: h in before && h !in todo ==> Drained(h, before) && TrackerOf(h).held == [])
    }

    method DrainNext(h: Handle, ghost todo: set<Handle>, ghost before: map<Handle, (Tracker, Chain)>)
      requires h in todo && DrainedExcept(todo, before)
      modifies this`waited, this`held, runtime
      ensures DrainedExcept(todo - {h}, before)
      ensures held.Keys == old(held).Keys
    {
      assert (TrackerOf(h), runtime.chains[h]) == before[h];
      DrainEmptiesHeld(TrackerOf(h), runtime.chains[h]);
      DrainSwapchain(h);
    }

    method ReleaseHeldSwapchainImages()
      requires held.Keys <= runtime.chains.Keys
      modifies this`waited, this`held, runtime
      ensures runtime.chains.Keys == old(runtime.chains).Keys
      ensures AllDrained(old(Snapshot()), Snapshot())
      ensures held == map[]
    {
      ghost var before := Snapshot();
      var todo := held.Keys;
      forall h | h in before && h !in todo
        ensures Drained(h, before)
      {
        DrainEmptiesHeld(before[h].0, before[h].1);
      }
      while todo != {}
        invariant DrainedExcept(todo, before)
        decreases |todo|
      {
        var h :| h in todo;
        DrainNext(h, todo, before);
        todo := todo - {h};
      }
      ClearHeld(before);
    }

    /** Drops the queues once they are all empty. */
    method ClearHeld(ghost before: map<Handle, (Tracker, Chain)>)
      requires DrainedExcept({}, before)
      modifies this`held
      ensures forall h :: h in before ==> Drained(h, before)
      ensures held == map[]
    {
      held := map[];
      forall h | h in before
        ensures Drained(h, before)
      {
        assert old(Drained(h, before));
        assert TrackerOf(h) == old(TrackerOf(h));
      }
    }

    /** xrBeginFrame; `succeeds` is the runtime's answer. */
    method BeginFrame(currentSession: bool, enablePassthrough: bool, succeeds: bool)
      modifies this`usePassthrough, this`beginFrameCalled
      ensures usePassthrough == (currentSession && enablePassthrough)
      ensures beginFrameCalled == (old(beginFrameCalled) || (currentSession && succeeds))
      ensures forall h :: TrackerOf(h) == old(TrackerOf(h))
    {
      usePassthrough := currentSession && enablePassthrough;
      if currentSession && succeeds {
        beginFrameCalled := true;
      }
    }

    /** An eye is drawn when its image is deferred and its swapchain is known or can be enumerated. */
    ghost predicate IsDrawn(left: bool, view: ViewInfo)
      reads this
    {
      CanBeDrawn(TrackerOf(view.color), Stored(storedColor, left), view)
    }

    /** The swapchain whose depth goes with an eye: the one the view names if it is usable, else the one used before. */
    ghost function DepthSource(left: bool, view: ViewInfo): Option<Handle>
      reads this
    {
      if view.depth.Some? && TrackerOf(view.depth.value).tracked && view.enumeratesDepth then view.depth
      else Stored(storedDepth, left)
    }

    /** What the renderer is told about an eye. */
    ghost function Targets(left: bool, view: ViewInfo, readDepth: bool): EyeTargets
      reads this
    {
      var source := DepthSource(left, view);
      TargetsOf(TrackerOf(view.color), Stored(storedColor, left), view,
                if readDepth && view.depth.Some? && source.Some? then TrackerOf(source.value).held else [])
    }

    /**
     Looks up the images of one eye.  The depth index may come from the depth swapchain that
     was stored before, which need not be the one the view names now.
     */
    method UpdateSwapchains(left: bool, view: ViewInfo, readDepth: bool) returns (targets: EyeTargets)
      modifies this`storedColor, this`storedDepth
      ensures targets == old(Targets(left, view, readDepth))
      ensures storedDepth
              == old(if IsDrawn(left, view) && readDepth && view.depth.Some? && DepthSource(left, view).Some?
                     then storedDepth[left := DepthSource(left, view).value] else storedDepth)
      ensures storedColor - {left} == old(storedColor) - {left} && storedDepth - {left} == old(storedDepth) - {left}
      ensures var shown := && view.color in properties && view.color in held && held[view.color] != []
                           && ((left in old(storedColor) && old(storedColor)[left] == view.color) || view.enumerates);
              && targets.frame == (if shown then held[view.color][|held[view.color]| - 1] else -1)
              && (!shown || !readDepth || view.depth.None? ==> targets.depth == -1)
              && storedColor == if shown then old(storedColor)[left := view.color] else old(storedColor)
    {
      TargetsOnFields(this, left, view, readDepth);
      targets := NO_TARGETS;
      if view.color !in properties {
        return;
      }
      if view.color !in held || held[view.color] == [] {
        return;
      }
      var queue := held[view.color];
      targets := targets.(frame := queue[|queue| - 1]);
      if left !in storedColor || storedColor[left] != view.color {
        if view.enumerates {
          storedColor := storedColor[left := view.color];
        } else {
          return NO_TARGETS;
        }
      }
      if !readDepth || view.depth.None? {
        return;
      }
      var depth := UpdateDepth(left, view.depth.value, view.enumeratesDepth);
      targets := targets.(depth := depth);
    }

    /** The depth swapchain of an eye: stores the one named if it is usable, and looks its newest held image up. */
    method UpdateDepth(left: bool, named: Handle, enumerates: bool) returns (depth: int)
      modifies this`storedDepth
      ensures storedDepth == if named in properties && enumerates then old(storedDepth)[left := named]
                             else old(storedDepth)
      ensures depth == if left in storedDepth && storedDepth[left] in held && held[storedDepth[left]] != []
                       then held[storedDepth[left]][|held[storedDepth[left]]| - 1] else -1
    {
      if left !in storedDepth || storedDepth[left] != named {
        if named in properties && enumerates {
          storedDepth := storedDepth[left := named];
        }
      }
      if left in storedDepth && storedDepth[left] in held && held[storedDepth[left]] != [] {
        var depthQueue := held[storedDepth[left]];
        return depthQueue[|depthQueue| - 1];
      }
      return -1;
    }

    /** Looks up both eyes; the lookups do not disturb each other, nor anything but the stored swapchains. */
    method UpdateEyes(views: (ViewInfo, ViewInfo), readDepth: bool) returns (left: EyeTargets, right: EyeTargets)
      modifies this`storedColor, this`storedDepth
      ensures left == old(Targets(true, views.0, readDepth)) && right == old(Targets(false, views.1, readDepth))
      ensures Snapshot() == old(Snapshot())
    {
      left := UpdateSwapchains(true, views.0, readDepth);
      assert Stored(storedColor, false) == old(Stored(storedColor, false));
      assert DepthSource(false, views.1) == old(DepthSource(false, views.1));
      right := UpdateSwapchains(false, views.1, readDepth);
    }

    /** What an xrEndFrame draws of the eyes of the projection layer chosen for passthrough, if any. */
    method DrawFrame(layer: Option<(ViewInfo, ViewInfo)>, resetPending: bool, displayTime: nat, readDepth: bool)
      returns (left: EyeTargets, right: EyeTargets, drawn: bool)
      modifies this`storedColor, this`storedDepth, this`beginFrameCalled
      ensures drawn <==> layer.Some? && usePassthrough && !resetPending && displayTime != 0 && old(beginFrameCalled)
      ensures drawn ==>
                && left == old(Targets(true, layer.value.0, readDepth))
                && right == old(Targets(false, layer.value.1, readDepth))
      ensures !drawn ==> left == NO_TARGETS && right == NO_TARGETS
      ensures Snapshot() == old(Snapshot()) && !beginFrameCalled
    {
      left, right, drawn := NO_TARGETS, NO_TARGETS, false;
      var invalidEndFrame := displayTime == 0 || !beginFrameCalled;
      if usePassthrough && !resetPending && !invalidEndFrame && layer.Some? {
        left, right := UpdateEyes(layer.value, readDepth);
        drawn := true;
      }
      beginFrameCalled := false;
    }

    /** xrEndFrame on the tracked session; `submitted` is what the runtime knows when its own xrEndFrame is called. */
    method EndFrame(layer: Option<(ViewInfo, ViewInfo)>, resetPending: bool, displayTime: nat, readDepth: bool)
      returns (left: EyeTargets, right: EyeTargets, drawn: bool, ghost submitted: map<Handle, Chain>)
      requires held.Keys <= runtime.chains.Keys
      modifies this`waited, this`held, this`beginFrameCalled, this`storedColor, this`storedDepth, runtime
      ensures submitted == runtime.chains && runtime.chains.Keys == old(runtime.chains).Keys
      ensures AllDrained(old(Snapshot()), Snapshot()) && held == map[]
      ensures drawn <==>
                && layer.Some? && old(usePassthrough) && !resetPending
                && displayTime != 0 && old(beginFrameCalled)
      ensures drawn ==>
                && left == old(Targets(true, layer.value.0, readDepth))
                && right == old(Targets(false, layer.value.1, readDepth))
      ensures drawn ==>
                var view := layer.value.0;
                left.frame == old(if view.color in properties && view.color in held && held[view.color] != []
                                     && ((true in storedColor && storedColor[true] == view.color) || view.enumerates)
                                  then held[view.color][|held[view.color]| - 1] else -1)
      ensures drawn ==>
                var view := layer.value.1;
                right.frame == old(if view.color in properties && view.color in held && held[view.color] != []
                                      && ((false in storedColor && storedColor[false] == view.color) || view.enumerates)
                                   then held[view.color][|held[view.color]| - 1] else -1)
      ensures !drawn ==> left == right == EyeTargets(-1, -1)
      ensures !beginFrameCalled
      ensures resetPending ==> storedColor == map[] && storedDepth == map[]
    {
      if layer.Some? {
        TargetsOnFields(this, true, layer.value.0, readDepth);
        TargetsOnFields(this, false, layer.value.1, readDepth);
      }
      left, right, drawn := DrawFrame(layer, resetPending, displayTime, readDepth);
      ReleaseHeldSwapchainImages();
      submitted := runtime.chains;
      if resetPending {
        ForgetStoredSwapchains();
      }
    }

    method ForgetStoredSwapchains()
      modifies this`storedColor, this`storedDepth
      ensures storedColor == map[] && storedDepth == map[]
      ensures Snapshot() == old(Snapshot())
    {
      storedColor, storedDepth := map[], map[];
    }
  }

  // ----- Whose images the targets are

  /**
   The frame index of either eye, on the fields: the newest held image of a tracked color
   swapchain that is the one used before for that eye or can be enumerated, and otherwise -1
   for frame and depth. There is no depth index unless depth is read and the view names one.
   */
  lemma TargetsOnFields(layer: Layer, left: bool, view: ViewInfo, readDepth: bool)
    ensures var t, c := layer.Targets(left, view, readDepth), view.color;
            && (if c in layer.properties && c in layer.held && layer.held[c] != []
                   && ((left in layer.storedColor && layer.storedColor[left] == c) || view.enumerates)
                then t.frame == layer.held[c][|layer.held[c]| - 1]
                else t.frame == -1 && t.depth == -1)
            && (!readDepth || view.depth.None? ==> t.depth == -1)
  {
  }

  /** The newest held image of a swapchain, or no image. */
  function NewestHeld(t: Tracker): int {
    if t.held == [] then -1 else Last(t.held)
  }

  /** The depth swapchain a view names can be used: it is tracked and its images can be enumerated. */
  ghost predicate IsUsable(layer: Layer, view: ViewInfo)
    requires view.depth.Some?
    reads layer
  {
    layer.TrackerOf(view.depth.value).tracked && view.enumeratesDepth
  }

  /**
   An eye that is drawn with depth gets the depth of the swapchain its view names if that
   one is usable or was used before.  Otherwise it gets the depth of the swapchain used
   before, which is another one, or none if there was none.
   */
  lemma DepthComesFromNamedIff(layer: Layer, left: bool, view: ViewInfo)
    requires layer.IsDrawn(left, view) && view.depth.Some?
    ensures var depth, named := layer.Targets(left, view, true).depth, view.depth.value;
            var own := IsUsable(layer, view) || (left in layer.storedDepth && layer.storedDepth[left] == named);
            && (own ==> depth == NewestHeld(layer.TrackerOf(named)))
            && (!own && left in layer.storedDepth ==>
                  && layer.storedDepth[left] != named
                  && depth == NewestHeld(layer.TrackerOf(layer.storedDepth[left])))
            && (!own && left !in layer.storedDepth ==> depth == -1)
            && (layer.DepthSource(left, view) == view.depth <==> own)
  {
  }

  /**
   So the index is right for the swapchain named, other than by coincidence, exactly when
   that one is usable or stored.
   */
  lemma DepthIndexIsRightIff(layer: Layer, left: bool, view: ViewInfo)
    requires layer.IsDrawn(left, view) && view.depth.Some?
    ensures var want := NewestHeld(layer.TrackerOf(view.depth.value));
            layer.Targets(left, view, true).depth == want
            <==> || IsUsable(layer, view)
                 || (left in layer.storedDepth
                     && (layer.storedDepth[left] == view.depth.value
                         || NewestHeld(layer.TrackerOf(layer.storedDepth[left])) == want))
                 || (left !in layer.storedDepth && want == -1)
  {
    DepthComesFromNamedIff(layer, left, view);
  }

  /**
   A depth swapchain with more images than are asked for cannot be enumerated: a view that
   names such a swapchain, 7, is drawn with the depth of the swapchain used before, 8.
   */
  lemma DepthOfAnotherSwapchain(layer: Layer, color: Handle)
    requires layer.IsDrawn(true, ViewInfo(color, Some(7), true, false))
    requires true in layer.storedDepth && layer.storedDepth[true] == 8
    requires layer.TrackerOf(7).held == [1] && layer.TrackerOf(8).held == [2]
    ensures layer.Targets(true, ViewInfo(color, Some(7), true, false), true).depth == 2
    ensures NewestHeld(layer.TrackerOf(7)) == 1
  {
    DepthComesFromNamedIff(layer, true, ViewInfo(color, Some(7), true, false));
  }

  // ----- The layer in reachable states

  /** Every swapchain of the runtime is coupled with what the application knows of it, `apps`. */
  ghost predicate CoupledTo(snapshot: map<Handle, (Tracker, Chain)>, apps: map<Handle, Chain>) {
    && snapshot.Keys == apps.Keys
    && forall h :: h in apps ==> Coupled(LinkIn(snapshot, apps, h))
  }

  ghost function LinkIn(snapshot: map<Handle, (Tracker, Chain)>, apps: map<Handle, Chain>, h: Handle): Link
    requires h in apps && h in snapshot
  {
    Link(apps[h], snapshot[h].0, snapshot[h].1)
  }

  /** What the three intercepted calls do, seen from the snapshot. */
  twostate lemma PerformedOnSnapshot(layer: Layer, h: Handle, o: Outcome)
    requires h in old(layer.runtime.chains) && layer.Performs(h, o)
    ensures layer.Snapshot() == old(layer.Snapshot())[h := (o.tracker, o.runtime)]
  {
  }

  /** A legal call of the application keeps every swapchain coupled. */
  lemma CallKeepsCoupled(before: map<Handle, (Tracker, Chain)>, apps: map<Handle, Chain>, h: Handle, call: Call,
                         passthrough: bool)
    requires CoupledTo(before, apps) && h in apps && Legal(apps[h], call) && MayAnswer(before[h].1, call)
    ensures var o := Intercept(before[h].0, before[h].1, call, passthrough);
            CoupledTo(before[h := (o.tracker, o.runtime)], apps[h := Answered(apps[h], call, o.result)])
  {
    LegalCallIsTransparent(LinkIn(before, apps, h), call, passthrough);
    var l := CallLink(LinkIn(before, apps, h), call, passthrough);
    OneLinkChanges(before, apps, h, l.app, l.tracker, l.runtime);
  }

  lemma OneLinkChanges(before: map<Handle, (Tracker, Chain)>, apps: map<Handle, Chain>, h: Handle, app: Chain,
                       t: Tracker, rt: Chain)
    requires CoupledTo(before, apps) && h in apps && Coupled(Link(app, t, rt))
    ensures CoupledTo(before[h := (t, rt)], apps[h := app])
  {
    var after, apps' := before[h := (t, rt)], apps[h := app];
    forall k | k in apps'
      ensures Coupled(LinkIn(after, apps', k))
    {
      if k != h {
        assert LinkIn(after, apps', k) == LinkIn(before, apps, k);
      }
    }
  }

  /** A new swapchain starts out coupled, whether it is tracked or not. */
  lemma CreationKeepsCoupled(before: map<Handle, (Tracker, Chain)>, apps: map<Handle, Chain>, h: Handle, images: nat,
                             tracked: bool)
    requires CoupledTo(before, apps)
    ensures CoupledTo(before[h := (BLANK.(tracked := tracked), NewChain(images))], apps[h := NewChain(images)])
  {
    var after, apps' := before[h := (BLANK.(tracked := tracked), NewChain(images))], apps[h := NewChain(images)];
    forall k | k in apps'
      ensures Coupled(LinkIn(after, apps', k))
    {
      if k != h {
        assert LinkIn(after, apps', k) == LinkIn(before, apps, k);
      }
    }
  }

  lemma DestructionKeepsCoupled(before: map<Handle, (Tracker, Chain)>, apps: map<Handle, Chain>, h: Handle)
    requires CoupledTo(before, apps)
    ensures CoupledTo(before - {h}, apps - {h})
  {
    forall k | k in apps - {h}
      ensures Coupled(LinkIn(before - {h}, apps - {h}, k))
    {
      assert LinkIn(before - {h}, apps - {h}, k) == LinkIn(before, apps, k);
    }
  }

  /** After the drain of a frame's end the runtime knows every swapchain as the application does. */
  lemma DrainedIsSynchronized(before: map<Handle, (Tracker, Chain)>, after: map<Handle, (Tracker, Chain)>,
                              apps: map<Handle, Chain>)
    requires AllDrained(before, after) && CoupledTo(before, apps)
    ensures CoupledTo(after, apps)
    ensures forall h :: h in apps ==> h in after && after[h].1 == apps[h] && after[h].0.held == []
  {
    forall h | h in apps
      ensures h in after && after[h].1 == apps[h] && after[h].0.held == [] && Coupled(LinkIn(after, apps, h))
    {
      DrainSynchronizes(LinkIn(before, apps, h));
      assert LinkIn(after, apps, h) == DrainLink(LinkIn(before, apps, h));
    }
  }

  /** Every image an eye is drawn with is one the application released last and the runtime has not been given back. */
  lemma TargetsAreInBetween(layer: Layer, apps: map<Handle, Chain>, left: bool, view: ViewInfo, readDepth: bool)
    requires CoupledTo(layer.Snapshot(), apps) && layer.held.Keys <= apps.Keys
    ensures var t := layer.Targets(left, view, readDepth);
            && (t.frame != -1 ==>
                  && t.frame >= 0 && view.color in apps
                  && InBetween(LinkIn(layer.Snapshot(), apps, view.color), t.frame))
            && (t.depth != -1 ==>
                  && t.depth >= 0 && layer.DepthSource(left, view).Some?
                  && var d := layer.DepthSource(left, view).value;
                     d in apps && InBetween(LinkIn(layer.Snapshot(), apps, d), t.depth))
  {
    var t, snapshot := layer.Targets(left, view, readDepth), layer.Snapshot();
    if t.frame != -1 {
      assert view.color in layer.held;
      HeldIsInBetween(LinkIn(snapshot, apps, view.color));
    }
    if t.depth != -1 {
      var d := layer.DepthSource(left, view).value;
      assert d in layer.held;
      HeldIsInBetween(LinkIn(snapshot, apps, d));
    }
  }

  lemma {:induction false} DrainEmptiesHeld(t: Tracker, rt: Chain)
    ensures Drain(t, rt).tracker.held == []
    ensures t.held == [] ==> Drain(t, rt).tracker == t && Drain(t, rt).runtime == rt
    decreases |t.held|
  {
    if t.held != [] {
      DrainEmptiesHeld(t.(held := t.held[1..], waited := Some(false)), Apply(rt, ReleaseImage));
    }
  }
}
