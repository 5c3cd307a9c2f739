# Verification model of the SteamVR passthrough layer

This project models the parts of the OpenXR passthrough API layer, and of its camera
calibration tool, whose state or arithmetic is decided by their own code, and proves what
those parts promise. To check it, run `dafny verify dfyconfig.toml` in this directory.

**Deferred swapchain release.** The layer delays the application's image releases until it
has drawn the camera image into them. `SwapchainProtocol` states the call order of section
10.1 of OpenXR 1.0, for one swapchain. `DeferredRelease` puts the layer's records between
the swapchain as the application knows it and as the runtime knows it, and proves a coupling
of the three over every run. One promise turns out false: an application may acquire as
long as it has fewer images acquired than the swapchain has, but the runtime still counts the
held one, so acquiring the last image is refused. `RunIsLegalForTheRuntime` says that this
is the only way the layer ever makes an illegal call, in terms the application can follow: it
acquires the last image it may while its last release was made with passthrough on and no
wait or end of frame has come since. `SingleImageSwapchainStarves` is such a run.
`SwapchainLayer` has the layer's maps and methods, each proved to be the corresponding step,
and carries the coupling over to them. An eye can be drawn with the depth of another
swapchain than its view names; `DepthComesFromNamedIff` says when.

**Frame pool.** `FramePool` gives each locked method of `FrameQueue` as one atomic step and adds a
ledger of outstanding handles and commit numbers; its invariant holds over every
interleaving. `FrameQueue.dfy` has the queue and its handles as objects with arrays and loops,
each method proved to be its step. A queue alone does not keep its newest frame
(`NewestGoesBackIff`); that the render loop still never goes back in time is a theorem about
queue and client together, in `RenderLoop`. `PassthroughSystem` has the deques of the render
calls, `PairedLoop` the depth-mode call statement by statement between the producers of both
queues, `DepthTextures` the depth thread's texture assignment.

**Block queue.** `BlockQueueProtocol` is the discipline of the thread that serves camera
frames, as an automaton over its outside calls and their answers, and what every accepted
run satisfies; `BlockQueuePacing` says when it looks for a frame at all, by its polls and its
questions whether it is paused; `BlockQueueServer` is the thread's loop with all its exits, run against scripts
of arbitrary answers, and never makes a call that is not allowed.

**Meshes and maps.** `MeshTopology`, `CylinderMesh` and `GridMesh` treat the three mesh
generators for every size; `DistortionMap` the in-place fill of the distortion map in its three
layouts and what the offsets mean to the renderer.

**History and projection.** `FrameHistory` states the reprojection history over the whole
sequence of render calls, both as the fields are meant, by camera frame, and as the code
delivers it, by sequence number. A frame that carries the number rendered before it is taken
for that frame and drawn with its camera matrices; a first frame numbered zero gets none.
The OpenCV camera numbers its frames modulo 16 from zero and produces both; the number is not
reset with the pipeline either. `CameraIsRightIff` and `ColorHistoryIsRightIff` give the exact
conditions for a call, `SessionIsRightIff` and `ModuloSessionIsRightIff` for a session.
`DepthProjection` treats the rewritten depth row; with a plane at infinity it
ignores the depth range and the direction of an unreversed buffer, and
`InfinitePlanesAreMappedIff` says when it is still right.

**Calibration.** `CalibrationFrames` treats the erase loops over parallel arrays,
`StereoRecombination` the vector algebra of applying a stereo calibration. The reported calibration
delta uses one coordinate three times; `DeltaIsDistanceIff` says when that is the distance.

Environment answers (runtime results, wait results, pattern detection, rectification maps,
stop and pause flags, poses, decoder results) are parameters and arbitrary. Integers are
unbounded except for the 32-bit frame stamps, and floating-point numbers are reals.

## Model

| member | source | states |
|---|---|---|
| `SwapchainProtocol.ApplyKeepsWellFormed` | XR_APILAYER_NOVENDOR_steamvr_passthrough/layer.cpp:659-768 | The call order of section 10.1 of OpenXR 1.0 is consistent: no legal or refused call makes a runtime hand out an image twice or count a wait without an image |
| `SwapchainProtocol.CallOrder` | XR_APILAYER_NOVENDOR_steamvr_passthrough/layer.cpp:659-768 | When section 10.1 of OpenXR 1.0 refuses an acquire, a wait and a release, and that a release is of the oldest image |
| `DeferredRelease.HeldIsFront` | XR_APILAYER_NOVENDOR_steamvr_passthrough/layer.cpp:770-787 | While an image is held, the next release the runtime expects is of that image, is legal, and brings the runtime to the state the application believes in |
| `DeferredRelease.AcquireIsTransparent` | XR_APILAYER_NOVENDOR_steamvr_passthrough/layer.cpp:659-700 | A legal acquire keeps the coupling; it is answered as without the layer unless the held image is the last free one, and exactly then it is refused |
| `DeferredRelease.WaitIsTransparent` | XR_APILAYER_NOVENDOR_steamvr_passthrough/layer.cpp:703-733 | A legal wait, preceded by the release of a held image, keeps the coupling, causes legal calls only and is answered as without the layer, also when its timeout expires |
| `DeferredRelease.ReleaseIsTransparent` | XR_APILAYER_NOVENDOR_steamvr_passthrough/layer.cpp:736-768 | A legal release, deferred or passed on, keeps the coupling, causes legal calls only and succeeds |
| `DeferredRelease.UnwaitedReleaseIsRefusedIff` | XR_APILAYER_NOVENDOR_steamvr_passthrough/layer.cpp:745-762 | A release without a wait is refused by the runtime unless passthrough is on and the waited flag not cleared; a release passed on leaves that flag set |
| `DeferredRelease.LegalCallIsTransparent` | XR_APILAYER_NOVENDOR_steamvr_passthrough/layer.cpp:659-768 | The three together: one illegal call is issued exactly when an acquire finds the last free image held |
| `DeferredRelease.DrainSynchronizes` | XR_APILAYER_NOVENDOR_steamvr_passthrough/layer.cpp:770-787 | Draining makes legal calls only and leaves the runtime in the very state the application believes in |
| `DeferredRelease.StepKeepsCoupling` | XR_APILAYER_NOVENDOR_steamvr_passthrough/layer.cpp:622-802 | Every event of a session keeps the coupling on all swapchains, and a call on one swapchain leaves the others as they were |
| `DeferredRelease.RunIsLegalForTheRuntime` | XR_APILAYER_NOVENDOR_steamvr_passthrough/layer.cpp:659-802 | Over all runs of legal application calls, passthrough toggles, expired waits and frame ends, on any number of swapchains: the coupling holds, and the runtime sees an illegal call if and only if the application acquired the last image it may while it had a deferred release |
| `DeferredRelease.HeldIffDeferred` | XR_APILAYER_NOVENDOR_steamvr_passthrough/layer.cpp:713-787 | The layer holds an image of a swapchain exactly when the calls so far tell that its release was deferred |
| `DeferredRelease.DeferredIff` | XR_APILAYER_NOVENDOR_steamvr_passthrough/layer.cpp:713-787 | That is: its last release was made with passthrough on, on a tracked swapchain, and no wait on it, end of frame, destruction or creation has followed |
| `DeferredRelease.ReachableQueues` | XR_APILAYER_NOVENDOR_steamvr_passthrough/layer.cpp:687-766 | In every reachable state the runtime's queue is the held image followed by the acquired ones; at most one image is held, and none while the waited flag is set |
| `DeferredRelease.DrawnImageIsBetweenAppAndRuntime` | XR_APILAYER_NOVENDOR_steamvr_passthrough/layer.cpp:813-838 | The image drawn into is the one the application released last, is not acquired by it, and is the waited front image of the runtime |
| `DeferredRelease.EndFrameDefersNothing` | XR_APILAYER_NOVENDOR_steamvr_passthrough/layer.cpp:1103-1145 | When the runtime's xrEndFrame is reached nothing is held and the runtime agrees with the application about every swapchain, including the image released last |
| `DeferredRelease.SingleImageSwapchainStarves` | XR_APILAYER_NOVENDOR_steamvr_passthrough/layer.cpp:684-699 | A six-call run with one image in which the layer makes an acquire illegal that the application was entitled to |
| `SwapchainLayer.Layer.CreateSwapchain` | XR_APILAYER_NOVENDOR_steamvr_passthrough/layer.cpp:622-645 | A successful creation tracks a swapchain of the current session; a failed one changes nothing, and no other swapchain is touched |
| `SwapchainLayer.Layer.DestroySwapchain` | XR_APILAYER_NOVENDOR_steamvr_passthrough/layer.cpp:648-656 | Destroying forgets everything about a swapchain and touches no other |
| `SwapchainLayer.Layer.AcquireSwapchainImage` | XR_APILAYER_NOVENDOR_steamvr_passthrough/layer.cpp:659-700 | The three maps and the runtime change as one AcquireCall step on that swapchain, and on no other |
| `SwapchainLayer.Layer.WaitSwapchainImage` | XR_APILAYER_NOVENDOR_steamvr_passthrough/layer.cpp:703-733 | The three maps and the runtime change as one WaitCall step on that swapchain, and on no other |
| `SwapchainLayer.Layer.ReleaseSwapchainImage` | XR_APILAYER_NOVENDOR_steamvr_passthrough/layer.cpp:736-768 | The three maps and the runtime change as one ReleaseCall step on that swapchain, and on no other |
| `SwapchainLayer.Layer.DrainSwapchain` | XR_APILAYER_NOVENDOR_steamvr_passthrough/layer.cpp:774-783 | The inner loop is Drain, on that swapchain only |
| `SwapchainLayer.Layer.ReleaseHeldSwapchainImages` | XR_APILAYER_NOVENDOR_steamvr_passthrough/layer.cpp:770-787 | Whatever the iteration order, every swapchain has been drained once and the held map is empty |
| `SwapchainLayer.Layer.BeginFrame` | XR_APILAYER_NOVENDOR_steamvr_passthrough/layer.cpp:790-802 | Passthrough is on exactly for the current session with the setting enabled; the images in flight stay |
| `SwapchainLayer.Layer.UpdateSwapchains` | XR_APILAYER_NOVENDOR_steamvr_passthrough/layer.cpp:805-996 | The frame index of an eye is the newest held image of a tracked color swapchain that was used before or can be enumerated, and otherwise -1 as is the depth index; without depth reading or a depth swapchain named there is no depth index; which swapchains are remembered |
| `SwapchainLayer.Layer.UpdateDepth` | XR_APILAYER_NOVENDOR_steamvr_passthrough/layer.cpp:911-995 | A usable depth swapchain is remembered, and the index is the newest held image of the one remembered |
| `SwapchainLayer.Layer.EndFrame` | XR_APILAYER_NOVENDOR_steamvr_passthrough/layer.cpp:1017-1160 | Drawing happens exactly under the stated flags, both eyes then get the newest held images of their color swapchains on the same terms, and all held images have gone back before the runtime's xrEndFrame |
| `SwapchainLayer.DrainEmptiesHeld` | XR_APILAYER_NOVENDOR_steamvr_passthrough/layer.cpp:774-783 | Draining ends with nothing held, and does nothing to a swapchain that holds nothing |
| `SwapchainLayer.TargetsOnFields` | XR_APILAYER_NOVENDOR_steamvr_passthrough/layer.cpp:813-897 | The frame index of either eye, on the maps of the layer, and when there is no depth index |
| `SwapchainLayer.DepthComesFromNamedIff` | XR_APILAYER_NOVENDOR_steamvr_passthrough/layer.cpp:911-995 | The depth of an eye is that of the swapchain its view names exactly when that one is tracked and enumerable, or is the one used before; otherwise it is that of the one used before, if any |
| `SwapchainLayer.DepthIndexIsRightIff` | XR_APILAYER_NOVENDOR_steamvr_passthrough/layer.cpp:911-995 | When the index itself is the newest held image of the swapchain named, coincidences included |
| `SwapchainLayer.DepthOfAnotherSwapchain` | XR_APILAYER_NOVENDOR_steamvr_passthrough/layer.cpp:961-979 | A view that names a depth swapchain with too many images to enumerate is drawn with the depth of another one |
| `SwapchainLayer.PerformedOnSnapshot` | XR_APILAYER_NOVENDOR_steamvr_passthrough/layer.cpp:659-768 | Each intercepted call changes the record of one swapchain, by its outcome |
| `SwapchainLayer.CallKeepsCoupled` | XR_APILAYER_NOVENDOR_steamvr_passthrough/layer.cpp:659-768 | A legal call keeps every swapchain of the layer coupled with what the application knows of it |
| `SwapchainLayer.CreationKeepsCoupled` | XR_APILAYER_NOVENDOR_steamvr_passthrough/layer.cpp:622-645 | A new swapchain is coupled, tracked or not, and the others stay so |
| `SwapchainLayer.DestructionKeepsCoupled` | XR_APILAYER_NOVENDOR_steamvr_passthrough/layer.cpp:648-656 | The swapchains that are left stay coupled |
| `SwapchainLayer.DrainedIsSynchronized` | XR_APILAYER_NOVENDOR_steamvr_passthrough/layer.cpp:770-787 | After the drain every swapchain of the runtime is as its application believes |
| `SwapchainLayer.TargetsAreInBetween` | XR_APILAYER_NOVENDOR_steamvr_passthrough/layer.cpp:813-988 | Every frame and depth index an eye is drawn with is an image the application released last and the runtime has not been given back |
| `FramePool.StepKeepsConsistent` | XR_APILAYER_NOVENDOR_steamvr_passthrough/frame_queue.h:124-228 | Every locked method keeps the invariant: slots are partitioned, reader counts equal read handles, all read slots but the newest have a reader, and the read list is in commit order |
| `FramePool.DropReadKeeps` | XR_APILAYER_NOVENDOR_steamvr_passthrough/frame_queue.h:150-170 | The same for ReleaseRead, with its recycling from the middle of the list |
| `FramePool.CommitKeeps` | XR_APILAYER_NOVENDOR_steamvr_passthrough/frame_queue.h:186-201 | The same for CommitWrite, with its backward erase loop |
| `FramePool.CommitAndReadKeeps` | XR_APILAYER_NOVENDOR_steamvr_passthrough/frame_queue.h:203-221 | The same for CommitWriteAndAcquireRead, which is a commit followed by a read of what was committed |
| `FramePool.CommitThenRead` | XR_APILAYER_NOVENDOR_steamvr_passthrough/frame_queue.h:203-221 | The combined method is a commit followed by a read of what was committed |
| `FramePool.StaleAndLive` | XR_APILAYER_NOVENDOR_steamvr_passthrough/frame_queue.h:190-198 | The erase loop splits the read list into the slots without and with readers and loses none |
| `FramePool.LiveKeepsOrder` | XR_APILAYER_NOVENDOR_steamvr_passthrough/frame_queue.h:190-198 | What it leaves is still in commit order |
| `FramePool.RunConserves` | XR_APILAYER_NOVENDOR_steamvr_passthrough/frame_queue.h:124-228 | Over any interleaving the slots are conserved, and once a frame has been committed there is one to read |
| `FramePool.ReadStaysNonempty` | XR_APILAYER_NOVENDOR_steamvr_passthrough/frame_queue.h:160-165 | No step empties the read list |
| `FramePool.WriterIsExclusive` | XR_APILAYER_NOVENDOR_steamvr_passthrough/frame_queue.h:172-184 | A slot handed to a writer is held by no reader and no other writer |
| `FramePool.ReaderCounts` | XR_APILAYER_NOVENDOR_steamvr_passthrough/frame_queue.h:146-165 | The reader count of a slot is the number of its read handles, and zero for idle and write-held slots |
| `FramePool.ReadListIsBounded` | XR_APILAYER_NOVENDOR_steamvr_passthrough/frame_queue.h:150-201 | The read list is at most one longer than the number of slots being read |
| `FramePool.SlotsAreConserved` | XR_APILAYER_NOVENDOR_steamvr_passthrough/frame_queue.h:124-228 | Idle, read and write-held slots add up to the slots the queue was built with |
| `FramePool.ProducerGetsSlot` | XR_APILAYER_NOVENDOR_steamvr_passthrough/frame_queue.h:172-184 | A producer holding no slot gets one whenever there are two more slots than slots being read |
| `FramePool.LastFreedIsNext` | XR_APILAYER_NOVENDOR_steamvr_passthrough/frame_queue.h:160-228 | Free slots are handed out last in, first out, the oldest first of those one commit frees |
| `FramePool.StampsOfReadSlots` | XR_APILAYER_NOVENDOR_steamvr_passthrough/frame_queue.h:137-228 | A frame that is being read is not overwritten |
| `FramePool.NewestGoesBackIff` | XR_APILAYER_NOVENDOR_steamvr_passthrough/frame_queue.h:160-165 | The newest readable frame gets older exactly when the last reader of the newest slot lets go of it while an older one is in the list |
| `FramePool.NewestCanGoBack` | XR_APILAYER_NOVENDOR_steamvr_passthrough/frame_queue.h:160-165 | A concrete run with two slots: five allowed events, of which the last takes the newest readable stamp from 2 to 1 |
| `FrameQueues.FrameQueue.AcquireRead` | XR_APILAYER_NOVENDOR_steamvr_passthrough/frame_queue.h:137-148 | The locked method is the AcquireRead step and returns the newest entry |
| `FrameQueues.FrameQueue.ReleaseRead` | XR_APILAYER_NOVENDOR_steamvr_passthrough/frame_queue.h:150-170 | The forward search and erase are the ReleaseRead step |
| `FrameQueues.FrameQueue.AcquireWrite` | XR_APILAYER_NOVENDOR_steamvr_passthrough/frame_queue.h:172-184 | The locked method is the AcquireWrite step and returns the top idle entry |
| `FrameQueues.FrameQueue.CommitWrite` | XR_APILAYER_NOVENDOR_steamvr_passthrough/frame_queue.h:186-201 | The backward erase loop and push are the CommitWrite step |
| `FrameQueues.FrameQueue.CommitWriteAndAcquireRead` | XR_APILAYER_NOVENDOR_steamvr_passthrough/frame_queue.h:203-221 | The same with the reader count of the new entry raised |
| `FrameQueues.FrameQueue.RescindWrite` | XR_APILAYER_NOVENDOR_steamvr_passthrough/frame_queue.h:223-228 | The entry goes back to the idle stack |
| `FrameQueues.FramePtr.Destroy` | XR_APILAYER_NOVENDOR_steamvr_passthrough/frame_queue.h:42-48 | A handle's destruction pays its debt: a write is rescinded, a read released, a used-up handle does nothing |
| `FrameQueues.FramePtr.CommitWrite` | XR_APILAYER_NOVENDOR_steamvr_passthrough/frame_queue.h:76-84 | Commits a write handle once and leaves it without debt; does nothing to other handles |
| `FrameQueues.FramePtr.CommitWriteAndAcquireRead` | XR_APILAYER_NOVENDOR_steamvr_passthrough/frame_queue.h:86-95 | Turns a write handle into a read handle of the same entry; refuses other handles |
| `FrameQueues.FramePtr.AcquireManualRead` | XR_APILAYER_NOVENDOR_steamvr_passthrough/frame_queue.h:97-110 | Hands out the frame and leaves the handle without debt |
| `RenderLoop.ActKeepsInv` | XR_APILAYER_NOVENDOR_steamvr_passthrough/passthrough_system.cpp:684-722 | Queue and render loop together: the read handles are the deque and the frame in hand, the deque ends in the last frame drawn, and the frame in hand is no older |
| `RenderLoop.DrawnIsRecorded` | XR_APILAYER_NOVENDOR_steamvr_passthrough/passthrough_system.cpp:715-731 | The record of stamps in the state is that of the frames drawn, call by call, over any run |
| `RenderLoop.AtRestReadsAreHeld` | XR_APILAYER_NOVENDOR_steamvr_passthrough/passthrough_system.cpp:714-722 | Between render calls the deque, of at most two frames, accounts for every read handle |
| `RenderLoop.RenderedFramesNeverGoBack` | XR_APILAYER_NOVENDOR_steamvr_passthrough/passthrough_system.cpp:686-722 | Over every schedule of producer and render steps, the commit stamps of the frames drawn never fall |
| `RenderLoop.RenderCanProceed` | XR_APILAYER_NOVENDOR_steamvr_passthrough/passthrough_system.cpp:714-722 | The statements of a render call only release reads that are outstanding and never overfill the deque |
| `RenderLoop.ProducerNeverTouchesHeldFrames` | XR_APILAYER_NOVENDOR_steamvr_passthrough/passthrough_system.cpp:714-722 | A slot being written is neither in the deque nor about to be drawn |
| `RenderLoop.UnderrunOnlyWhileRendering` | XR_APILAYER_NOVENDOR_steamvr_passthrough/camera_manager_openvr.cpp:21-22 | Over every schedule on the four-slot queue the single producer can only miss a slot during a render call with a full deque |
| `RenderLoop.CpuActKeepsInv` | XR_APILAYER_NOVENDOR_steamvr_passthrough/camera_manager_openvr.cpp:1035-1096 | The CPU queue's producer holds one slot or one read, its reader one read |
| `RenderLoop.CpuQueueNeverUnderruns` | XR_APILAYER_NOVENDOR_steamvr_passthrough/camera_manager_openvr.cpp:21-22 | Over every schedule the three-slot CPU queue with one depth reader has a slot for its producer |
| `PassthroughSystem.Renderer.RenderPassthrough2D` | XR_APILAYER_NOVENDOR_steamvr_passthrough/passthrough_system.cpp:684-722 | Draws the newest frame or nothing; the deque keeps the newest frames drawn, at most two, and the old ones are released |
| `PassthroughSystem.Renderer.RenderPassthroughWithDepth` | XR_APILAYER_NOVENDOR_steamvr_passthrough/passthrough_system.cpp:756-812 | Draws and keeps a camera and a depth frame or neither; the deques stay of equal length, and the early return leaks no read |
| `PassthroughSystem.Renderer.PopPairs` | XR_APILAYER_NOVENDOR_steamvr_passthrough/passthrough_system.cpp:799-806 | The release loop trims both deques to the same length |
| `PassthroughSystem.Renderer.TakePair` | XR_APILAYER_NOVENDOR_steamvr_passthrough/passthrough_system.cpp:763-773 | A camera frame without a depth frame is given back |
| `PassthroughSystem.Renderer.SetupProcessingPipeline` | XR_APILAYER_NOVENDOR_steamvr_passthrough/passthrough_system.cpp:215-232 | No read handle of the old queues is left and both deques are empty |
| `PassthroughSystem.DrainDeque` | XR_APILAYER_NOVENDOR_steamvr_passthrough/passthrough_system.cpp:218-232 | The queue after it is the one before it with exactly the reads of the deque dropped, in order; none is left, and frames and commits are unchanged |
| `PairedLoop.DequesStayPaired` | XR_APILAYER_NOVENDOR_steamvr_passthrough/passthrough_system.cpp:756-812 | Over every interleaving of the statements of depth-mode render calls with the producers of both queues: between calls the deques are of equal length, at most two, and account for every read; within a call they differ by at most one |
| `PairedLoop.CallsTakeNewest` | XR_APILAYER_NOVENDOR_steamvr_passthrough/passthrough_system.cpp:763-773 | A call takes the newest camera frame in hand when there is one, and then the newest depth frame |
| `PairedLoop.CallsKeepCamera` | XR_APILAYER_NOVENDOR_steamvr_passthrough/passthrough_system.cpp:799-812 | It keeps the camera frame when fewer than two are held and drops the oldest otherwise |
| `PairedLoop.CallsKeepDepth` | XR_APILAYER_NOVENDOR_steamvr_passthrough/passthrough_system.cpp:799-812 | And the depth frame likewise, before it goes on |
| `PairedLoop.MissingDepthIsNoticed` | XR_APILAYER_NOVENDOR_steamvr_passthrough/passthrough_system.cpp:769-773 | Without a depth frame the call returns, with no deque changed |
| `PairedLoop.EarlyReturnLeavesDeques` | XR_APILAYER_NOVENDOR_steamvr_passthrough/passthrough_system.cpp:769-773 | And gives the camera frame back |
| `DepthTextures.ActKeepsInv` | XR_APILAYER_NOVENDOR_steamvr_passthrough/depth_reconstruction.cpp:694-705 | Texture indices are distinct over slots and count up from zero; every readable slot has one |
| `DepthTextures.AssignTextureKeepsSound` | XR_APILAYER_NOVENDOR_steamvr_passthrough/depth_reconstruction.cpp:702-705 | A slot's first write gives it the next unused index; later writes keep it, and writes to other slots do |
| `DepthTextures.RenderTargetIsExclusive` | XR_APILAYER_NOVENDOR_steamvr_passthrough/depth_reconstruction.cpp:694-859 | The texture being rendered to exists and is not one that a frame being read refers to |
| `DepthTextures.IndicesAreBounded` | XR_APILAYER_NOVENDOR_steamvr_passthrough/async_renderer.h:23-23 | All indices given out are below NUM_BUFFERED_FRAMES |
| `DepthTextures.TexturesMatchSlots` | XR_APILAYER_NOVENDOR_steamvr_passthrough/depth_reconstruction.cpp:12 | There are four textures for the four slots of the depth queue |
| `DepthTextures.DepthThread.WriteFrame` | XR_APILAYER_NOVENDOR_steamvr_passthrough/depth_reconstruction.cpp:693-860 | One iteration: the slot's texture is assigned on its first write, and the slot is committed, or rescinded when the renderer is not ready |
| `BlockQueueProtocol.BlocksAlternate` | XR_APILAYER_NOVENDOR_steamvr_passthrough/camera_manager_openvr.cpp:884-1096 | Block acquires and releases alternate |
| `BlockQueueProtocol.CpuHandlesAreConserved` | XR_APILAYER_NOVENDOR_steamvr_passthrough/camera_manager_openvr.cpp:1035-1096 | Each CPU frame taken for writing is committed once, and each read taken by a commit is dropped once |
| `BlockQueueProtocol.GpuHandlesAreConserved` | XR_APILAYER_NOVENDOR_steamvr_passthrough/camera_manager_openvr.cpp:1110-1134 | Each GPU frame taken for writing is committed or rescinded once |
| `BlockQueueProtocol.CommitsFollowCopies` | XR_APILAYER_NOVENDOR_steamvr_passthrough/camera_manager_openvr.cpp:1054-1096 | The stamps committed are the low 32 bits of the sequence numbers copied, in order |
| `BlockQueueProtocol.BufferGrowsIfNeeded` | XR_APILAYER_NOVENDOR_steamvr_passthrough/camera_manager_openvr.cpp:1049-1054 | The buffer grows to the block exactly when it is smaller |
| `BlockQueueProtocol.CopiesAreOfHeldBlocks` | XR_APILAYER_NOVENDOR_steamvr_passthrough/camera_manager_openvr.cpp:1035-1060 | A copy is of the latest block acquired, which is fresh, not empty, not yet released, and fits the buffer |
| `BlockQueueProtocol.NoFrameIsCopiedTwice` | XR_APILAYER_NOVENDOR_steamvr_passthrough/camera_manager_openvr.cpp:964-998 | Two successive copies have different sequence numbers unless the queue stalled in between |
| `BlockQueueProtocol.NewBlocksAreCopied` | XR_APILAYER_NOVENDOR_steamvr_passthrough/camera_manager_openvr.cpp:981-1047 | A usable block with a new sequence number is copied unless the thread is stopped, has no pose or finds no free frame |
| `BlockQueueProtocol.StalledBlocksAreCopied` | XR_APILAYER_NOVENDOR_steamvr_passthrough/camera_manager_openvr.cpp:976-983 | The first usable block after a stall is copied even with the number copied last, with the same excuses |
| `BlockQueueProtocol.ColorFramesAreOffered` | XR_APILAYER_NOVENDOR_steamvr_passthrough/camera_manager_openvr.cpp:1087-1137 | A frame read for the color path is not dropped before it has reached the GPU queue under its stamp, or decoding failed, or there was no texture or no renderer |
| `BlockQueueProtocol.OnlyReleasesAfterStop` | XR_APILAYER_NOVENDOR_steamvr_passthrough/camera_manager_openvr.cpp:1022-1031 | After reading that it should stop the thread makes at most one more call, the release of the block it holds |
| `BlockQueuePacing.AttemptsFollowChecks` | XR_APILAYER_NOVENDOR_steamvr_passthrough/camera_manager_openvr.cpp:902-912 | A wait for a block comes right after the answers that the thread is not paused and the queue is used, and never otherwise |
| `BlockQueuePacing.ChecksLeadToAttempts` | XR_APILAYER_NOVENDOR_steamvr_passthrough/camera_manager_openvr.cpp:902-912 | And having these answers in the inner loop, the thread waits for a block next |
| `BlockQueuePacing.PauseIsObeyed` | XR_APILAYER_NOVENDOR_steamvr_passthrough/camera_manager_openvr.cpp:890-890 | After it was told that it is paused or the queue not used, it leaves the queue alone until it asks again |
| `BlockQueuePacing.UnpausedRoundsWait` | XR_APILAYER_NOVENDOR_steamvr_passthrough/camera_manager_openvr.cpp:884-1003 | Between two rounds of which the first was not paused it has waited for a block, or was told in between that it is paused or the queue not used |
| `BlockQueuePacing.PollsLeadOn` | XR_APILAYER_NOVENDOR_steamvr_passthrough/camera_manager_openvr.cpp:884-904 | It never polls the run flag three times in a row |
| `BlockQueuePacing.ColorFollowsSetting` | XR_APILAYER_NOVENDOR_steamvr_passthrough/camera_manager_openvr.cpp:892-894 | A frame takes the color path exactly if the setting read in its round says so |
| `BlockQueueServer.Server.WaitForFrame` | XR_APILAYER_NOVENDOR_steamvr_passthrough/camera_manager_openvr.cpp:902-999 | The inner loop makes allowed calls only and ends stopped, interrupted, or with one wanted block held |
| `BlockQueueServer.Server.TryAcquire` | XR_APILAYER_NOVENDOR_steamvr_passthrough/camera_manager_openvr.cpp:912-996 | One wait: a block is kept exactly if it is wanted, and released otherwise; a stall is remembered |
| `BlockQueueServer.Server.CopyBlock` | XR_APILAYER_NOVENDOR_steamvr_passthrough/camera_manager_openvr.cpp:1006-1060 | On each of its exits the block is released; it is copied exactly on the last one |
| `BlockQueueServer.Server.FillFrame` | XR_APILAYER_NOVENDOR_steamvr_passthrough/camera_manager_openvr.cpp:1035-1060 | With a free frame the block is copied and released, without one it is released |
| `BlockQueueServer.Server.CopyCPUFrameToGPU` | XR_APILAYER_NOVENDOR_steamvr_passthrough/camera_manager_openvr.cpp:1100-1137 | On each of its exits no GPU frame is held and the CPU frame is still being read |
| `BlockQueueServer.Server.DecodeFrame` | XR_APILAYER_NOVENDOR_steamvr_passthrough/camera_manager_openvr.cpp:1117-1134 | The texture is committed under the frame's stamp or rescinded, and not held afterwards |
| `BlockQueueServer.Server.CommitFrame` | XR_APILAYER_NOVENDOR_steamvr_passthrough/camera_manager_openvr.cpp:1087-1096 | The frame is committed once, and a read taken for the color path is dropped |
| `BlockQueueServer.Server.ServeBlockQueueFrames` | XR_APILAYER_NOVENDOR_steamvr_passthrough/camera_manager_openvr.cpp:884-1096 | For any answers of the environment: every call is allowed and in pace, so that the thread serves while it is not paused; it returns stopped with nothing held, every block acquired released, every CPU frame committed and every GPU frame committed or rescinded |
| `BlockQueueServer.Server.AcquireBlock` | XR_APILAYER_NOVENDOR_steamvr_passthrough/camera_manager_openvr.cpp:912-962 | The block acquired is the one offered; a number that cannot be read stays what it was, a size counts as none |
| `CylinderMesh.MeshCreateCylinder` | XR_APILAYER_NOVENDOR_steamvr_passthrough/mesh.cpp:13-45 | The loop makes these triangles, and the vertices lie where the indices say |
| `CylinderMesh.SliceTrianglesAt` | XR_APILAYER_NOVENDOR_steamvr_passthrough/mesh.cpp:30-38 | The four triangles of each slice, by their vertex numbers |
| `CylinderMesh.CylinderIsOriented` | XR_APILAYER_NOVENDOR_steamvr_passthrough/mesh.cpp:28-41 | No directed edge occurs twice |
| `CylinderMesh.TwinReverses` | XR_APILAYER_NOVENDOR_steamvr_passthrough/mesh.cpp:28-41 | The corner at which the reverse of each directed edge starts |
| `CylinderMesh.CylinderIsClosed` | XR_APILAYER_NOVENDOR_steamvr_passthrough/mesh.cpp:28-41 | Every directed edge occurs with its reverse |
| `CylinderMesh.CylinderIsSurfaceIff` | XR_APILAYER_NOVENDOR_steamvr_passthrough/mesh.cpp:13-45 | Valid indices, one orientation and no rim: exactly for no or at least three boundary vertices |
| `CylinderMesh.CylinderEuler` | XR_APILAYER_NOVENDOR_steamvr_passthrough/mesh.cpp:13-45 | V - E + F = 2 |
| `MeshTopology.EdgesCount` | XR_APILAYER_NOVENDOR_steamvr_passthrough/mesh.cpp:13-45 | An oriented mesh has three directed edges a triangle |
| `MeshTopology.ClosedSurfaceEdgeCount` | XR_APILAYER_NOVENDOR_steamvr_passthrough/mesh.cpp:13-45 | A closed oriented mesh has three edges for two triangles |
| `GridMesh.MeshCreateGrid` | XR_APILAYER_NOVENDOR_steamvr_passthrough/mesh.cpp:49-95 | The nested loops make the grid's triangles and place its vertices |
| `GridMesh.MeshCreateHexGrid` | XR_APILAYER_NOVENDOR_steamvr_passthrough/mesh.cpp:98-151 | The same for the hex grid, with either diagonal |
| `GridMesh.PixelVertexAt` | XR_APILAYER_NOVENDOR_steamvr_passthrough/mesh.cpp:64-84 | Vertex (x, y) of the pixel grid is at the pixel center ((2x-1)/2w, (2y-1)/2h), and on the edges of the unit square around them |
| `GridMesh.PixelVerticesAreApart` | XR_APILAYER_NOVENDOR_steamvr_passthrough/mesh.cpp:68-69 | Neighbouring pixel centers are 1/w and 1/h apart |
| `GridMesh.HexVertexAt` | XR_APILAYER_NOVENDOR_steamvr_passthrough/mesh.cpp:127-139 | Vertex (x, y) of the hex grid is at (x/w, y/h), in odd rows half a step further |
| `GridMesh.PixelTrianglesAt` | XR_APILAYER_NOVENDOR_steamvr_passthrough/mesh.cpp:86-90 | The two triangles of each cell, by their vertex numbers |
| `GridMesh.HexTrianglesAt` | XR_APILAYER_NOVENDOR_steamvr_passthrough/mesh.cpp:127-146 | The same for the hex grid, by the parity of the row |
| `GridMesh.GridIsOriented` | XR_APILAYER_NOVENDOR_steamvr_passthrough/mesh.cpp:49-151 | Both generators wind all triangles the same way |
| `GridMesh.GridTriangleCount` | XR_APILAYER_NOVENDOR_steamvr_passthrough/mesh.cpp:86-90 | Two triangles a cell, for every width and height |
| `GridMesh.GridIndicesAreValid` | XR_APILAYER_NOVENDOR_steamvr_passthrough/mesh.cpp:49-151 | Every index names a vertex |
| `GridMesh.TwinUnlessOnRim` | XR_APILAYER_NOVENDOR_steamvr_passthrough/mesh.cpp:86-90 | An edge meets its reverse in a neighbouring triangle exactly when it does not lie on the rim |
| `GridMesh.GridRim` | XR_APILAYER_NOVENDOR_steamvr_passthrough/mesh.cpp:49-151 | The same for the triangle list: an edge of the mesh is without its reverse exactly when both ends lie on one side of the grid |
| `GridMesh.PixelGridTilesUnitSquare` | XR_APILAYER_NOVENDOR_steamvr_passthrough/mesh.cpp:64-94 | The signed areas of the pixel grid sum to exactly one |
| `GridMesh.PixelTrianglesFaceUp` | XR_APILAYER_NOVENDOR_steamvr_passthrough/mesh.cpp:64-94 | No triangle of the pixel grid is turned over |
| `GridMesh.HexGridIsUniform` | XR_APILAYER_NOVENDOR_steamvr_passthrough/mesh.cpp:110-150 | All triangles of the hex grid have the same area |
| `DistortionMap.CreateDistortionMap` | XR_APILAYER_NOVENDOR_steamvr_passthrough/depth_reconstruction.cpp:256-315 | In each layout every pixel of a frame gets its own offset, and every other number stays |
| `DistortionMap.LeftHalfLeadsToLeftMap` | XR_APILAYER_NOVENDOR_steamvr_passthrough/depth_reconstruction.cpp:264-270 | Side by side: the numbers stored in the left half lead to the places named by the left rectification map |
| `DistortionMap.RightHalfLeadsToRightMap` | XR_APILAYER_NOVENDOR_steamvr_passthrough/depth_reconstruction.cpp:272-278 | And those in the right half to the places named by the right map |
| `DistortionMap.LowerHalfLeadsToLeftMap` | XR_APILAYER_NOVENDOR_steamvr_passthrough/depth_reconstruction.cpp:294-300 | One above the other: the lower half leads to the places of the left map |
| `DistortionMap.UpperHalfLeadsToRightMap` | XR_APILAYER_NOVENDOR_steamvr_passthrough/depth_reconstruction.cpp:285-292 | And the upper half to those of the right map |
| `DistortionMap.MonoLeadsToLeftMap` | XR_APILAYER_NOVENDOR_steamvr_passthrough/depth_reconstruction.cpp:305-314 | A single frame leads to the places of the left map |
| `DistortionMap.FillRow` | XR_APILAYER_NOVENDOR_steamvr_passthrough/depth_reconstruction.cpp:266-270 | The inner loop writes one row of one eye and nothing else |
| `DistortionMap.FillHorizontal` | XR_APILAYER_NOVENDOR_steamvr_passthrough/depth_reconstruction.cpp:260-280 | Side by side: left frame, then right frame, row by row |
| `DistortionMap.FillVertical` | XR_APILAYER_NOVENDOR_steamvr_passthrough/depth_reconstruction.cpp:281-302 | One above the other, with the left frame below |
| `DistortionMap.FillMono` | XR_APILAYER_NOVENDOR_steamvr_passthrough/depth_reconstruction.cpp:303-315 | One frame |
| `DistortionMap.EveryPixelIsFilledIff` | XR_APILAYER_NOVENDOR_steamvr_passthrough/depth_reconstruction.cpp:258-315 | The whole map is written exactly when no odd size was halved |
| `DistortionMap.FramesAreDisjoint` | XR_APILAYER_NOVENDOR_steamvr_passthrough/depth_reconstruction.cpp:260-302 | No pixel is written for both eyes |
| `DistortionMap.WrittenOnce` | XR_APILAYER_NOVENDOR_steamvr_passthrough/depth_reconstruction.cpp:260-315 | No element is written twice: eye, row, column and coordinate can be told from its index |
| `DistortionMap.OffsetLeadsToSource` | XR_APILAYER_NOVENDOR_steamvr_passthrough/depth_reconstruction.cpp:260-315 | A pixel's texture coordinates plus its offset are those of its rectification source |
| `DistortionMap.BoundsOfFrame` | XR_APILAYER_NOVENDOR_steamvr_passthrough/passthrough_renderer.h:22-61 | The sampling bounds of an eye are the edges of its frame |
| `DistortionMap.SourceStaysInBoundsIff` | XR_APILAYER_NOVENDOR_steamvr_passthrough/passthrough_renderer.h:22-61 | The looked-up place lies within the bounds of the same eye exactly when the rectification map stays in the frame |
| `DistortionMap.ROIMatchesFrame` | XR_APILAYER_NOVENDOR_steamvr_passthrough/depth_reconstruction.cpp:366-378 | The region the depth thread reads for an eye is where that eye's offsets are stored |
| `FrameHistory.History.CalculateFrameProjection` | XR_APILAYER_NOVENDOR_steamvr_passthrough/passthrough_system.cpp:909-951 | After any sequence of calls: previous view, camera matrices and color history in terms of the calls and their numbers, a first run numbered zero being the exception |
| `FrameHistory.RunStartIsLeftEnd` | XR_APILAYER_NOVENDOR_steamvr_passthrough/passthrough_system.cpp:916-948 | The run of a call is the maximal block of equal sequence numbers that ends with it |
| `FrameHistory.FrameStartIsLeftEnd` | XR_APILAYER_NOVENDOR_steamvr_passthrough/passthrough_system.cpp:916-948 | The first render of a camera frame is the left end of its maximal block of calls |
| `FrameHistory.CameraIsRightIff` | XR_APILAYER_NOVENDOR_steamvr_passthrough/passthrough_system.cpp:909-948 | Exactly when a call is told rightly whether it is the first render of its camera frame and gets the matrices computed for that frame: a frame whose number is that rendered before it gets the matrices of the frame before |
| `FrameHistory.ColorHistoryIsRightIff` | XR_APILAYER_NOVENDOR_steamvr_passthrough/passthrough_system.cpp:934-951 | Exactly when a call gets the view at the first render of the camera frame before: other than by coincidence, when both frames had numbers different from those before them |
| `FrameHistory.SessionIsRightIff` | XR_APILAYER_NOVENDOR_steamvr_passthrough/passthrough_system.cpp:909-951 | All calls of a session get the right history if and only if the first camera frame is not numbered zero and every change of frame changes the number |
| `FrameHistory.ModuloSessionIsRightIff` | XR_APILAYER_NOVENDOR_steamvr_passthrough/camera_manager_opencv.cpp:449-450 | For frames numbered modulo 16: if and only if the first frame is no multiple of 16 and no two different frames rendered one after the other are a multiple of 16 apart |
| `FrameHistory.FrameOfSameNumberIsMissed` | XR_APILAYER_NOVENDOR_steamvr_passthrough/camera_manager_opencv.cpp:449-450 | Frames 3 and 19: the second does not count as new and is drawn with the matrices of the first |
| `FrameHistory.HistoryOfSecondFrameIsLost` | XR_APILAYER_NOVENDOR_steamvr_passthrough/camera_manager_opencv.cpp:301-450 | Frames 0 and 5: the first does not count as rendered, and the second gets no color history |
| `DepthProjection.FinitePlanesAreMapped` | XR_APILAYER_NOVENDOR_steamvr_passthrough/passthrough_system.cpp:1005-1009 | nearZ is stored as minDepth and farZ as maxDepth, whether or not Z is reversed |
| `DepthProjection.DepthIsMonotone` | XR_APILAYER_NOVENDOR_steamvr_passthrough/passthrough_system.cpp:1005-1009 | Depth is strictly monotone in distance, falling exactly when Z is reversed |
| `DepthProjection.DepthRangeIsPlaneRange` | XR_APILAYER_NOVENDOR_steamvr_passthrough/passthrough_system.cpp:1005-1009 | The distances between the planes are exactly those whose depth is in range |
| `DepthProjection.InfinityIsALimit` | XR_APILAYER_NOVENDOR_steamvr_passthrough/passthrough_system.cpp:999-1003 | The depth taken for a plane at infinity is the limit of the depths at growing distances |
| `DepthProjection.InfinitePlanesAreMappedIff` | XR_APILAYER_NOVENDOR_steamvr_passthrough/passthrough_system.cpp:980-1003 | With a plane at infinity the rewritten entries are right exactly for a reversed buffer with depths from 0 to 1 |
| `DepthProjection.RewrittenEntries` | XR_APILAYER_NOVENDOR_steamvr_passthrough/passthrough_system.cpp:999-1009 | The two entries in terms of planes and depth range |
| `DepthProjection.InfiniteDepth` | XR_APILAYER_NOVENDOR_steamvr_passthrough/passthrough_system.cpp:999-1003 | With a plane at infinity a point has the depth of the other plane over its distance, reversed or not |
| `CalibrationFrames.CalibrationData.FindFrameCalibrationPatterns` | camera-calibration/camera-calibration.cpp:1641-1712 | What is left are exactly the frames in which a pattern is found, in order, each beside its corners, reference points and, if the arrays agreed before, its pose; the counts match, and it fails exactly when no frame has a pattern |
| `CalibrationFrames.CalibrationData.KeepFramesWithPattern` | camera-calibration/camera-calibration.cpp:1666-1711 | The backward erase loop is a stable filter of all parallel arrays by the same flags, also of a pose array of another length as long as its erasures stay inside it |
| `CalibrationFrames.FindFrameCalibrationPatternsStereo` | camera-calibration/camera-calibration.cpp:1714-1815 | What is left for both cameras are exactly the captures in which both have a pattern, in order and aligned; it fails exactly when there is none |
| `CalibrationFrames.KeepCapturesWithPattern` | camera-calibration/camera-calibration.cpp:1745-1815 | The backward erase loop filters the arrays of both cameras by the same flags |
| `CalibrationFrames.CalibrationData.DetectAll` | camera-calibration/camera-calibration.cpp:1667-1688 | Every frame gets its flag, corners and reference points; the valid ones are counted |
| `CalibrationFrames.EraseStep` | camera-calibration/camera-calibration.cpp:1690-1705 | One step of the backward loop extends the filtered part by one place |
| `CalibrationFrames.KeptIsAtPlaces` | camera-calibration/camera-calibration.cpp:1690-1705 | A filtered array holds what stood at the places of the set flags, whichever array it is |
| `CalibrationFrames.PlacesAreTheSetFlags` | camera-calibration/camera-calibration.cpp:1690-1705 | Those places are exactly the set flags |
| `CalibrationFrames.PlacesAreRising` | camera-calibration/camera-calibration.cpp:1690-1705 | In their old order, each once |
| `CalibrationFrames.FramesStayAligned` | camera-calibration/camera-calibration.cpp:1690-1705 | Beside each frame left stand the corners found in that very frame |
| `CalibrationFrames.KeptTwice` | camera-calibration/camera-calibration.cpp:1690-1705 | Filtering again changes nothing |
| `CalibrationFrames.CalibrationData.CaptureFrame` | camera-calibration/camera-calibration.cpp:1343-1357 | A capture adds a frame, and a pose only while the tracked-device setting is on |
| `CalibrationFrames.CaptureIsAlignedIff` | camera-calibration/camera-calibration.cpp:1343-1357 | A capture leaves as many poses as frames, each beside its own, if and only if the setting was on for every frame taken |
| `CalibrationFrames.LengthsAgreeIff` | camera-calibration/camera-calibration.cpp:1690-1705 | Poses and frames are equally many after the filter if and only if they were before, and then filtered by the same flags |
| `StereoRecombination.MidpointAndBaseline` | camera-calibration/camera-calibration.cpp:2029-2075 | The old midpoint stays, and from left to right it is the rotated new translation |
| `StereoRecombination.StoredTranslations` | camera-calibration/camera-calibration.cpp:2029-2075 | The same on the stored numbers, written out |
| `StereoRecombination.OnlyTheMidpointMatters` | camera-calibration/camera-calibration.cpp:2029-2075 | Of the old translations only the midpoint matters, and applying the same calibration twice changes nothing more |
| `StereoRecombination.EyeDistanceIsBaselineIff` | camera-calibration/camera-calibration.cpp:2056-2075 | The eye distance is exactly the new baseline for all calibrations if and only if the rotation matrix is orthonormal |
| `StereoRecombination.RelativeRotationIsMeasured` | camera-calibration/camera-calibration.cpp:2048-2054 | From left to right camera the new rotations differ by the whole measured rotation |
| `StereoRecombination.MidpointRotationIsKept` | camera-calibration/camera-calibration.cpp:2048-2054 | The old midpoint rotation is half way between the new ones |
| `StereoRecombination.HamiltonProduct` | camera-calibration/camera-calibration.cpp:2053-2054 | The product and inverse of quaternions, written out |
| `StereoRecombination.LeftCameraMove` | camera-calibration/camera-calibration.cpp:2029-2087 | Applying a calibration moves the left camera by half the change of the baseline |
| `StereoRecombination.DeltaIsDistanceIff` | camera-calibration/camera-calibration.cpp:2029-2087 | The delta reported for a calibration depends on the change of the baseline along x only, and is the distance the left camera moved exactly when that change is, in squares, as large along x as on average along y and z |
| `StereoRecombination.DeltaMissesSidewaysMoves` | camera-calibration/camera-calibration.cpp:2086-2087 | A move that keeps x is reported as none |

## Left out

- Runtime failures of a legal release or of xrEndFrame, such as a lost session: a legal release succeeds in the model, as the layer assumes when it answers a deferred one.
- Illegal application calls, more than one session, and xrEndFrame on a session that is not tracked.
- SwapchainLayer.Layer.UpdateSwapchains: the formats, rectangles and depth range it copies for the menu and the renderer, and the render targets it creates, are not modelled; only which images are used and which swapchains are remembered.
- SwapchainLayer.Layer.EndFrame: how the projection layer is chosen among the submitted layers and how FB passthrough layers are removed from the list; the choice is a parameter.
- The struct-chain edits in xrGetSystemProperties and the passthrough handle searches.
- Frame contents: entries of a queue are known by slot number, and whoever holds no handle does not touch a frame.
- FrameQueues.FrameQueue.ReleaseRead: pointers are slot numbers, so a frame of another queue cannot be passed in.
- The move constructor of FramePtr, which leaves its source non-empty; handles are returned without a move.
- PassthroughSystem.Renderer.RenderPassthroughWithDepth: steps of other threads between its statements are covered by the interleavings of PairedLoop, not by this method; the projection mode of a Renderer is fixed, so a mode change is a new Renderer.
- Freshness across pipeline resets and on the CPU queue, where the producer's own read release can drop the newest frame.
- Texture indices of the round-robin shared camera textures, and two depth reconstructions on one renderer, where exclusivity depends on timing.
- BlockQueueServer.Server.ServeBlockQueueFrames: setup before the loop, timers, the status flags shown in the menu and sleeping; a run that never ends is covered by its finite beginnings, stopped at any point.
- The legacy frame-buffer serving thread of the camera manager.
- CylinderMesh.MeshCreateCylinder: vertex positions are named by cap and rim, since the trigonometric coordinates are not modelled.
- GridMesh.MeshCreateGrid and GridMesh.MeshCreateHexGrid mark border vertices in the z coordinate, which is not modelled; indices do not overflow.
- DistortionMap.CreateDistortionMap: the camera projection matrices it also stores.
- Which of two views' depth infos decides that depth is reversed: the source computes it for each eye and keeps the right one's.
- The quaternion interpolation halfway between rotations, Euler angles, and turning quaternions into matrices: the halves are given.
- CalibrationFrames.FindFrameCalibrationPatternsStereo: the counts of valid frames after the filter, which the source reads from entries already erased, and the tracked-device arrays, which it does not filter.
- Removing a displayed frame from a finished capture by hand.
- The chessboard reference grid is a parameter, and so is the pattern detector.
- Graphics APIs, shaders, stereo matching, calibration solvers, menus, logging, configuration and interprocess transport.
