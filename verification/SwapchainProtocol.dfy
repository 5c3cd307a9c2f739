/**
 The call-order discipline of one swapchain, after section 10.1 "Swapchain Image
 Management" of the OpenXR 1.0 specification.  A runtime answers a call that breaks the
 discipline with XR_ERROR_CALL_ORDER_INVALID and changes nothing.
 */
module SwapchainProtocol {
  import opened Wrappers

  /** What the runtime decides by itself when it waits for an image. */
  datatype WaitAnswer = Ready | Expired | Failed

  /** An application call, with the answer the runtime is free to choose. */
  datatype Call =
    | AcquireImage(pick: Option<nat>)
    | WaitImage(answer: WaitAnswer)
    | ReleaseImage

  datatype Result =
    | Acquired(index: nat)
    | Success
    | TimeoutExpired
    | Failure
    | CallOrderInvalid

  /** XR_SUCCEEDED: an expired timeout is one of the success codes. */
  predicate Succeeded(r: Result) {
    r.Acquired? || r.Success? || r.TimeoutExpired?
  }

  /**
   One swapchain: the images acquired and not yet released, oldest first, whether the
   oldest has been waited on, and the image released last.
   */
  datatype Chain = Chain(images: nat, outstanding: seq<nat>, waited: bool, released: Option<nat>)

  function NewChain(images: nat): Chain {
    Chain(images, [], false, None)
  }

  predicate Distinct(s: seq<nat>) {
    forall i, j :: 0 <= i < j < |s| ==> s[i] != s[j]
  }

  predicate WellFormed(c: Chain) {
    && Distinct(c.outstanding)
    && (forall i :: 0 <= i < |c.outstanding| ==> c.outstanding[i] < c.images)
    && |c.outstanding| <= c.images
    && (c.waited ==> c.outstanding != [])
  }

  predicate Legal(c: Chain, call: Call) {
    match call
    case AcquireImage(_) => |c.outstanding| < c.images
    case WaitImage(_) => c.outstanding != [] && !c.waited
    case ReleaseImage => c.waited && c.outstanding != []
  }

  /** A runtime only hands out an image of the swapchain that is not outstanding. */
  predicate MayAnswer(c: Chain, call: Call) {
    call.AcquireImage? && call.pick.Some? && Legal(c, call) ==>
      call.pick.value < c.images && call.pick.value !in c.outstanding
  }

  /** How the state changes when `call` was answered with `r`. */
  function Answered(c: Chain, call: Call, r: Result): Chain {
    match call
    case AcquireImage(_) =>
      if r.Acquired? then c.(outstanding := c.outstanding + [r.index]) else c
    case WaitImage(_) =>
      if r.Success? then c.(waited := true) else c
    case ReleaseImage =>
      if r.Success? && c.outstanding != []
      then c.(outstanding := c.outstanding[1..], waited := false, released := Some(c.outstanding[0]))
      else c
  }

  function Respond(c: Chain, call: Call): Result {
    if !Legal(c, call) then
      CallOrderInvalid
    else
      match call
      case AcquireImage(pick) => if pick.Some? then Acquired(pick.value) else Failure
      case WaitImage(answer) =>
        (match answer
         case Ready => Success
         case Expired => TimeoutExpired
         case Failed => Failure)
      case ReleaseImage => Success
  }

  function Apply(c: Chain, call: Call): Chain {
    Answered(c, call, Respond(c, call))
  }

  /** The order of calls: when a call is refused, and that the oldest image is the one waited on and released. */
  lemma CallOrder(c: Chain, pick: Option<nat>, answer: WaitAnswer)
    ensures Respond(c, AcquireImage(pick)) == CallOrderInvalid <==> |c.outstanding| >= c.images
    ensures Respond(c, WaitImage(answer)) == CallOrderInvalid <==> c.outstanding == [] || c.waited
    ensures Respond(c, ReleaseImage) == CallOrderInvalid <==> c.outstanding == [] || !c.waited
    ensures Respond(c, ReleaseImage) == Success ==> Apply(c, ReleaseImage).outstanding == c.outstanding[1..]
                                                    && Apply(c, ReleaseImage).released == Some(c.outstanding[0])
    ensures Respond(c, WaitImage(answer)) == TimeoutExpired ==> Apply(c, WaitImage(answer)) == c
  {
  }

  /** The discipline is consistent: a conforming runtime never hands out an image twice. */
  lemma ApplyKeepsWellFormed(c: Chain, call: Call)
    requires WellFormed(c) && MayAnswer(c, call)
    ensures WellFormed(Apply(c, call))
  {
  }
}
