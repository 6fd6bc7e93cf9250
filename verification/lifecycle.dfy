/** Construction, recreation and teardown of the rendering session
    (VulkanWindow in src/vulkan_window.cpp): Open builds everything in order,
    RecreateSwapChain idles the device, releases the swapchain generation and
    rebuilds it, and Release tears the whole session down. Each Vulkan object
    is an opaque handle drawn from a counter; each create or destroy call is an
    event appended to the session's trace. */
module Lifecycle {
  import opened VkTypes
  import opened DeviceSelection
  import opened QueueFamilies
  import opened SwapchainSettings
  import opened Resources

  /** What the driver and the window report when a swapchain is built: the
      surface capabilities, the window's client size and the number of images
      vkGetSwapchainImagesKHR hands back. */
  datatype SurfaceState = SurfaceState(capabilities: SurfaceCapabilities, clientSize: Extent, grantedImages: nat)

  /** One swapchain generation: the swapchain and everything built on it. */
  datatype Chain = Chain(
    swapchain: Handle,
    info: SwapchainCreateInfo,
    imageCount: nat,
    views: seq<Handle>,
    renderPass: Handle,
    pipelineLayout: Handle,
    pipeline: Handle,
    viewport: Extent,
    framebuffers: seq<Handle>,
    commandBuffers: seq<Handle>)

  /** Objects created once by Open and kept for the session's lifetime. */
  datatype Fixed = Fixed(
    instance: Handle,
    surface: Handle,
    physical: PhysicalDevice,
    families: QueueFamilyIndices,
    queueRequests: seq<QueueCreateInfo>,
    device: Handle,
    graphicsQueue: QueueRef,
    presentQueue: QueueRef,
    commandPool: Handle,
    imageAvailable: seq<Handle>,
    renderFinished: seq<Handle>,
    inFlight: seq<Handle>)

  /** The frame loop's state: m_CurrentFrame and the in-flight fences. */
  datatype Frames = Frames(current: nat, fences: seq<FenceState>)

  datatype Session = Session(fixed: Fixed, frames: Frames, chain: Chain, next: Handle, trace: seq<Event>)

  /** One image view, framebuffer and command buffer per swapchain image. */
  predicate WellSized(c: Chain) {
    && |c.views| == c.imageCount
    && |c.framebuffers| == |c.views|
    && |c.commandBuffers| == |c.framebuffers|
  }

  /** The handles of a generation up to its framebuffers, in creation order. */
  function PresentationHandles(c: Chain): multiset<Handle> {
    multiset{c.swapchain} + multiset(c.views) + multiset{c.renderPass}
    + (multiset{c.pipelineLayout} + multiset{c.pipeline}) + multiset(c.framebuffers)
  }

  function ChainHandles(c: Chain): multiset<Handle> {
    PresentationHandles(c) + multiset(c.commandBuffers)
  }

  function SyncHandles(f: Fixed): multiset<Handle> {
    multiset(f.imageAvailable) + multiset(f.renderFinished) + multiset(f.inFlight)
  }

  /** The handles created once by Open, in creation order. */
  function FixedHandles(f: Fixed): multiset<Handle> {
    multiset{f.instance} + multiset{f.surface} + multiset{f.device} + multiset{f.commandPool} + SyncHandles(f)
  }

  /** Every handle the session currently owns. */
  function LiveHandles(s: Session): multiset<Handle> {
    FixedHandles(s.fixed) + ChainHandles(s.chain)
  }

  predicate HandlesBelow(handles: multiset<Handle>, bound: Handle) {
    forall h :: h in handles ==> h < bound
  }

  predicate HandlesFrom(handles: multiset<Handle>, bound: Handle) {
    forall h :: h in handles ==> bound <= h
  }

  /** The session invariant: MAX_FRAMES_IN_FLIGHT slots, a current frame
      among them, no fence left reset without a submission behind it, one
      view/framebuffer/command buffer per image, every owned handle drawn
      below the counter, and a trace that accounts for every owned handle. */
  ghost predicate Valid(s: Session) {
    && |s.fixed.imageAvailable| == MAX_FRAMES_IN_FLIGHT
    && |s.fixed.renderFinished| == MAX_FRAMES_IN_FLIGHT
    && |s.fixed.inFlight| == MAX_FRAMES_IN_FLIGHT
    && |s.frames.fences| == MAX_FRAMES_IN_FLIGHT
    && s.frames.current < MAX_FRAMES_IN_FLIGHT
    && (forall i :: 0 <= i < |s.frames.fences| ==> s.frames.fences[i] != Unsignalled)
    && WellSized(s.chain)
    && HandlesBelow(LiveHandles(s), s.next)
    && AccountsEach(s.trace, LiveHandles(s))
  }

  // ---------------------------------------------------------------------------
  // Building one swapchain generation

  /** A generation under construction, the handle counter and the events so far. */
  datatype Build = Build(chain: Chain, next: Handle, events: seq<Event>)

  /** CreateSwapChain: the swapchain from the chosen parameters; the images
      are the ones the driver hands back. The other fields are filled by the
      later steps. */
  function CreateSwapChain(physical: PhysicalDevice, families: QueueFamilyIndices,
                           surface: SurfaceState, next: Handle): Build
    requires ExtentBoundsOrdered(surface.capabilities)
  {
    var info := SwapchainCreateInfoFor(physical, families, surface.capabilities, surface.clientSize);
    Build(Chain(next, info, surface.grantedImages, [], 0, 0, 0, Extent(0, 0), [], []),
          next + 1, [Created(SwapchainObject, next)])
  }

  /** CreateImageViews: one view per swapchain image. */
  function CreateImageViews(b: Build): Build {
    var views := Range(b.next, b.chain.imageCount);
    Build(b.chain.(views := views), b.next + |views|, b.events + CreateAll(ImageViewObject, views))
  }

  /** CreateRenderPass. */
  function CreateRenderPass(b: Build): Build {
    Build(b.chain.(renderPass := b.next), b.next + 1, b.events + [Created(RenderPassObject, b.next)])
  }

  /** The calls of CreateGraphicsPipeline: both shader modules, the layout,
      the pipeline, then both shader modules destroyed again. */
  function PipelineEvents(first: Handle): seq<Event> {
    CreateAll(ShaderModuleObject, Range(first, 2))
    + [Created(PipelineLayoutObject, first + 2)]
    + [Created(PipelineObject, first + 3)]
    + DestroyAll(ShaderModuleObject, Range(first, 2))
  }

  /** CreateGraphicsPipeline: the viewport and scissor are the swapchain extent. */
  function CreateGraphicsPipeline(b: Build): Build {
    Build(b.chain.(pipelineLayout := b.next + 2, pipeline := b.next + 3, viewport := b.chain.info.extent),
          b.next + 4, b.events + PipelineEvents(b.next))
  }

  /** CreateFramebuffers: one framebuffer per image view. */
  function CreateFramebuffers(b: Build): Build {
    var framebuffers := Range(b.next, |b.chain.views|);
    Build(b.chain.(framebuffers := framebuffers), b.next + |framebuffers|,
          b.events + CreateAll(FramebufferObject, framebuffers))
  }

  /** The recording loop: command buffer i draws into framebuffer i with the pipeline. */
  function RecordAll(commandBuffers: seq<Handle>, framebuffers: seq<Handle>, pipeline: Handle): (events: seq<Event>)
    requires |commandBuffers| == |framebuffers|
  {
    seq(|commandBuffers|, i requires 0 <= i < |commandBuffers| =>
      Recorded(commandBuffers[i], framebuffers[i], pipeline))
  }

  /** The calls of CreateCommandBuffers: one allocation per framebuffer, then
      the recording loop. */
  function CommandBufferEvents(commandBuffers: seq<Handle>, framebuffers: seq<Handle>, pipeline: Handle): seq<Event>
    requires |commandBuffers| == |framebuffers|
  {
    CreateAll(CommandBufferObject, commandBuffers) + RecordAll(commandBuffers, framebuffers, pipeline)
  }

  /** CreateCommandBuffers: one command buffer per framebuffer. */
  function CreateCommandBuffers(b: Build): Build {
    var commandBuffers := Range(b.next, |b.chain.framebuffers|);
    Build(b.chain.(commandBuffers := commandBuffers), b.next + |commandBuffers|,
          b.events + CommandBufferEvents(commandBuffers, b.chain.framebuffers, b.chain.pipeline))
  }

  /** The creation steps up to the framebuffers, as both Open and
      RecreateSwapChain run them. */
  function BuildPresentation(physical: PhysicalDevice, families: QueueFamilyIndices,
                             surface: SurfaceState, next: Handle): Build
    requires ExtentBoundsOrdered(surface.capabilities)
  {
    CreateFramebuffers(CreateGraphicsPipeline(CreateRenderPass(CreateImageViews(
      CreateSwapChain(physical, families, surface, next)))))
  }

  const PresentationKinds: set<ObjectKind> :=
    {SwapchainObject, ImageViewObject, RenderPassObject, ShaderModuleObject,
     PipelineLayoutObject, PipelineObject, FramebufferObject}

  /** Every command buffer i of the generation was recorded against framebuffer i. */
  predicate RecordsEachCommandBuffer(events: seq<Event>, c: Chain)
    requires WellSized(c)
  {
    forall i :: 0 <= i < |c.commandBuffers| ==>
      Recorded(c.commandBuffers[i], c.framebuffers[i], c.pipeline) in events
  }

  // ---------------------------------------------------------------------------
  // Rearranging handle multisets. Each equation is proved on its own, away
  // from the trace facts, where the solver settles it quickly.

  lemma ConstructedRegrouped(events: seq<Event>, kinds: set<ObjectKind>, owned: multiset<Handle>,
                             owned': multiset<Handle>, start: Handle, next: Handle)
    requires Constructed(events, kinds, owned, start, next)
    requires owned == owned'
    ensures Constructed(events, kinds, owned', start, next)
  {
  }

  lemma UnionAssociates(a: multiset<Handle>, b: multiset<Handle>, c: multiset<Handle>)
    ensures a + b + c == a + (b + c)
  {
  }

  /** The destroy order of ReleaseSwapChain against the creation order. */
  lemma TeardownOrderIsCreationOrder(fb: multiset<Handle>, cb: multiset<Handle>, p: multiset<Handle>,
                                     pl: multiset<Handle>, rp: multiset<Handle>, v: multiset<Handle>,
                                     sc: multiset<Handle>)
    ensures fb + cb + p + (pl + rp + v + sc) == sc + v + rp + (pl + p) + fb + cb
  {
  }

  /** Open's creation order against the session's fixed and chain handles. */
  lemma OpenOrderIsLive(i: multiset<Handle>, s: multiset<Handle>, d: multiset<Handle>, pres: multiset<Handle>,
                        pool: multiset<Handle>, cb: multiset<Handle>, sync: multiset<Handle>)
    ensures i + s + d + pres + pool + cb + sync == (i + s + d + pool + sync) + (pres + cb)
  {
  }

  /** Release's destroy order against the session's fixed and chain handles. */
  lemma ReleaseOrderIsLive(chain: multiset<Handle>, sync: multiset<Handle>, pool: multiset<Handle>,
                           d: multiset<Handle>, s: multiset<Handle>, i: multiset<Handle>)
    ensures chain + sync + (pool + d + s + i) == (i + s + d + pool + sync) + chain
  {
  }

  lemma PresentationKindsInOrder()
    ensures {SwapchainObject} + {ImageViewObject} + {RenderPassObject}
            + ({ShaderModuleObject} + {PipelineLayoutObject} + {PipelineObject}) + {FramebufferObject}
            == PresentationKinds
  {
  }

  lemma ChainKindsInOrder()
    ensures {FramebufferObject} + {CommandBufferObject} + {PipelineObject}
            + ({PipelineLayoutObject} + {RenderPassObject} + {ImageViewObject} + {SwapchainObject})
            == ChainKinds
  {
  }

  lemma SyncKindsInOrder()
    ensures {SemaphoreObject} + {SemaphoreObject} + {FenceObject} == SyncKinds
    ensures SyncKinds + SyncKinds == SyncKinds
  {
  }

  lemma OpenKindsInOrder()
    ensures {InstanceObject} + {SurfaceObject} + {DeviceObject} + PresentationKinds + {CommandPoolObject}
            + {CommandBufferObject} + SyncKinds == OpenKinds
  {
  }

  lemma FinalKindsInOrder()
    ensures {CommandPoolObject} + {DeviceObject} + {SurfaceObject} + {InstanceObject} == FinalKinds
  {
  }

  /** No create call names a command buffer, a semaphore or a fence, so these
      blocks may follow anything. */
  lemma NothingNeedsCommandBuffers(kinds: set<ObjectKind>)
    ensures forall x, y :: x in kinds && y in {CommandBufferObject} ==> !DependsOn(x, y)
  {
  }

  /** Command buffers may follow anything: nothing depends on them. */
  lemma AppendCommandBuffers(events: seq<Event>, kinds: set<ObjectKind>, owned: multiset<Handle>, next: Handle,
                             cbs: seq<Handle>, framebuffers: seq<Handle>, pipeline: Handle)
    requires Constructed(events, kinds, owned, 0, next)
    requires cbs == Range(next, |framebuffers|)
    ensures Constructed(events + CommandBufferEvents(cbs, framebuffers, pipeline), kinds + {CommandBufferObject},
                        owned + multiset(cbs), 0, next + |cbs|)
  {
    CommandBuffersConstruct(next, cbs, framebuffers, pipeline);
    NothingNeedsCommandBuffers(kinds);
    ExtendConstruction(events, kinds, owned, 0, next, CommandBufferEvents(cbs, framebuffers, pipeline),
                       {CommandBufferObject}, multiset(cbs), next + |cbs|);
  }

  lemma NothingNeedsSync(kinds: set<ObjectKind>)
    ensures forall x, y :: x in kinds && y in SyncKinds ==> !DependsOn(x, y)
  {
  }

  /** Only command buffers name the command pool, so it may follow the
      device and the presentation chain. */
  lemma CommandPoolFollowsPresentation()
    ensures forall x, y ::
              x in {InstanceObject} + {SurfaceObject} + {DeviceObject} + PresentationKinds && y in {CommandPoolObject}
              ==> !DependsOn(x, y)
  {
  }

  // ---------------------------------------------------------------------------
  // The construction blocks of one generation

  /** The two shader modules. */
  function ShaderHandles(first: Handle): multiset<Handle> {
    multiset(Range(first, 2))
  }

  /** Both shader modules and the layout. */
  lemma ShadersAndLayoutCreated(first: Handle)
    ensures Constructed(CreateAll(ShaderModuleObject, Range(first, 2)) + [Created(PipelineLayoutObject, first + 2)],
                        {ShaderModuleObject} + {PipelineLayoutObject},
                        ShaderHandles(first) + multiset{first + 2}, first, first + 3)
  {
    CreateAllConstructs(ShaderModuleObject, first, 2);
    CreateOneConstructs(PipelineLayoutObject, first + 2);
    ExtendConstruction(CreateAll(ShaderModuleObject, Range(first, 2)), {ShaderModuleObject},
                       ShaderHandles(first), first, first + 2,
                       [Created(PipelineLayoutObject, first + 2)], {PipelineLayoutObject}, multiset{first + 2}, first + 3);
  }

  /** Both shader modules, the layout and the pipeline, before the modules
      are destroyed again. */
  lemma PipelineCreated(first: Handle)
    ensures Constructed(CreateAll(ShaderModuleObject, Range(first, 2))
                        + [Created(PipelineLayoutObject, first + 2)] + [Created(PipelineObject, first + 3)],
                        {ShaderModuleObject} + {PipelineLayoutObject} + {PipelineObject},
                        ShaderHandles(first) + multiset{first + 2} + multiset{first + 3}, first, first + 4)
  {
    ShadersAndLayoutCreated(first);
    CreateOneConstructs(PipelineObject, first + 3);
    ExtendConstruction(CreateAll(ShaderModuleObject, Range(first, 2)) + [Created(PipelineLayoutObject, first + 2)],
                       {ShaderModuleObject} + {PipelineLayoutObject},
                       ShaderHandles(first) + multiset{first + 2}, first, first + 3,
                       [Created(PipelineObject, first + 3)], {PipelineObject}, multiset{first + 3}, first + 4);
  }

  /** The pipeline layout and the pipeline. */
  function PipelineHandles(first: Handle): multiset<Handle> {
    multiset{first + 2} + multiset{first + 3}
  }

  /** CreateGraphicsPipeline leaves the layout and the pipeline owned; the
      shader modules it created are destroyed before it returns. */
  lemma PipelineBlock(first: Handle)
    ensures Constructed(PipelineEvents(first), {ShaderModuleObject} + {PipelineLayoutObject} + {PipelineObject},
                        PipelineHandles(first), first, first + 4)
  {
    var created := CreateAll(ShaderModuleObject, Range(first, 2))
                   + [Created(PipelineLayoutObject, first + 2)] + [Created(PipelineObject, first + 3)];
    PipelineCreated(first);
    UnionAssociates(ShaderHandles(first), multiset{first + 2}, multiset{first + 3});
    ConstructedRegrouped(created, {ShaderModuleObject} + {PipelineLayoutObject} + {PipelineObject},
                         ShaderHandles(first) + multiset{first + 2} + multiset{first + 3},
                         multiset(Range(first, 2)) + PipelineHandles(first), first, first + 4);
    ExtendWithDestroys(CreateAll(ShaderModuleObject, Range(first, 2))
                       + [Created(PipelineLayoutObject, first + 2)] + [Created(PipelineObject, first + 3)],
                       {ShaderModuleObject} + {PipelineLayoutObject} + {PipelineObject},
                       PipelineHandles(first), first, first + 4, ShaderModuleObject, Range(first, 2));
  }

  lemma {:induction false} RecordAllCreatesNothing(commandBuffers: seq<Handle>, framebuffers: seq<Handle>,
                                                   pipeline: Handle)
    requires |commandBuffers| == |framebuffers|
    ensures CreatedHandles(RecordAll(commandBuffers, framebuffers, pipeline)) == multiset{}
    ensures DestroyedHandles(RecordAll(commandBuffers, framebuffers, pipeline)) == multiset{}
    ensures CreatedKinds(RecordAll(commandBuffers, framebuffers, pipeline)) == {}
    ensures CreationOrdered(RecordAll(commandBuffers, framebuffers, pipeline))
    decreases |commandBuffers|
  {
    var events := RecordAll(commandBuffers, framebuffers, pipeline);
    if |commandBuffers| > 0 {
      assert events[1..] == RecordAll(commandBuffers[1..], framebuffers[1..], pipeline);
      RecordAllCreatesNothing(commandBuffers[1..], framebuffers[1..], pipeline);
    }
  }

  lemma RecordAllConstructs(commandBuffers: seq<Handle>, framebuffers: seq<Handle>, pipeline: Handle, at: Handle)
    requires |commandBuffers| == |framebuffers|
    ensures Constructed(RecordAll(commandBuffers, framebuffers, pipeline), {}, multiset{}, at, at)
  {
    RecordAllCreatesNothing(commandBuffers, framebuffers, pipeline);
  }

  lemma CommandBuffersCreatedAndRecorded(first: Handle, framebuffers: seq<Handle>, pipeline: Handle)
    ensures var commandBuffers := Range(first, |framebuffers|);
      Constructed(CreateAll(CommandBufferObject, commandBuffers) + RecordAll(commandBuffers, framebuffers, pipeline),
                  {CommandBufferObject} + {}, multiset(commandBuffers) + multiset{}, first, first + |framebuffers|)
  {
    var n := |framebuffers|;
    var commandBuffers := Range(first, n);
    CreateAllConstructs(CommandBufferObject, first, n);
    RecordAllConstructs(commandBuffers, framebuffers, pipeline, first + n);
    ExtendConstruction(CreateAll(CommandBufferObject, commandBuffers), {CommandBufferObject},
                       multiset(commandBuffers), first, first + n,
                       RecordAll(commandBuffers, framebuffers, pipeline), {}, multiset{}, first + n);
  }

  /** CreateCommandBuffers allocates fresh handles [first, first + n). */
  lemma CommandBuffersConstruct(first: Handle, commandBuffers: seq<Handle>, framebuffers: seq<Handle>,
                                 pipeline: Handle)
    requires commandBuffers == Range(first, |framebuffers|)
    ensures Constructed(CommandBufferEvents(commandBuffers, framebuffers, pipeline), {CommandBufferObject},
                        multiset(commandBuffers), first, first + |commandBuffers|)
  {
    CommandBuffersCreatedAndRecorded(first, framebuffers, pipeline);
    assert {CommandBufferObject} + {} == {CommandBufferObject};
    assert multiset(commandBuffers) + multiset{} == multiset(commandBuffers);
  }

  /** CreateCommandBuffers records command buffer i against framebuffer i. */
  lemma CommandBuffersRecorded(commandBuffers: seq<Handle>, framebuffers: seq<Handle>, pipeline: Handle,
                               before: seq<Event>)
    requires |commandBuffers| == |framebuffers|
    ensures forall i :: 0 <= i < |commandBuffers| ==>
              Recorded(commandBuffers[i], framebuffers[i], pipeline)
                in before + CommandBufferEvents(commandBuffers, framebuffers, pipeline)
  {
    var n := |commandBuffers|;
    var events := before + CommandBufferEvents(commandBuffers, framebuffers, pipeline);
    var recorded := RecordAll(commandBuffers, framebuffers, pipeline);
    forall i | 0 <= i < n
      ensures Recorded(commandBuffers[i], framebuffers[i], pipeline) in events
    {
      assert events[|before| + n + i] == recorded[i];
    }
  }

  /** The handles and events of BuildPresentation, written out. */
  lemma PresentationShape(physical: PhysicalDevice, families: QueueFamilyIndices,
                          surface: SurfaceState, next: Handle)
    requires ExtentBoundsOrdered(surface.capabilities)
    ensures var b := BuildPresentation(physical, families, surface, next);
      var n := surface.grantedImages;
      var rp := next + 1 + n;
      && b.chain == Chain(next, SwapchainCreateInfoFor(physical, families, surface.capabilities, surface.clientSize),
                          n, Range(next + 1, n), rp, rp + 1 + 2, rp + 1 + 3, b.chain.info.extent,
                          Range(rp + 1 + 4, n), [])
      && b.next == rp + 1 + 4 + n
      && b.events == [Created(SwapchainObject, next)] + CreateAll(ImageViewObject, Range(next + 1, n))
                     + [Created(RenderPassObject, rp)] + PipelineEvents(rp + 1)
                     + CreateAll(FramebufferObject, Range(rp + 1 + 4, n))
  {
  }

  /** Swapchain and image views. */
  lemma SwapchainAndViewsBuilt(next: Handle, n: nat, rp: Handle)
    requires rp == next + 1 + n
    ensures Constructed([Created(SwapchainObject, next)] + CreateAll(ImageViewObject, Range(next + 1, n)),
                        {SwapchainObject} + {ImageViewObject},
                        multiset{next} + multiset(Range(next + 1, n)), next, rp)
  {
    CreateOneConstructs(SwapchainObject, next);
    CreateAllConstructs(ImageViewObject, next + 1, n);
    ExtendConstruction([Created(SwapchainObject, next)], {SwapchainObject}, multiset{next}, next, next + 1,
                       CreateAll(ImageViewObject, Range(next + 1, n)), {ImageViewObject},
                       multiset(Range(next + 1, n)), rp);
  }

  /** Swapchain, image views and render pass. */
  lemma FrontBuilt(next: Handle, n: nat, rp: Handle)
    requires rp == next + 1 + n
    ensures Constructed([Created(SwapchainObject, next)] + CreateAll(ImageViewObject, Range(next + 1, n))
                        + [Created(RenderPassObject, rp)],
                        {SwapchainObject} + {ImageViewObject} + {RenderPassObject},
                        multiset{next} + multiset(Range(next + 1, n)) + multiset{rp}, next, rp + 1)
  {
    SwapchainAndViewsBuilt(next, n, rp);
    CreateOneConstructs(RenderPassObject, rp);
    ExtendConstruction([Created(SwapchainObject, next)] + CreateAll(ImageViewObject, Range(next + 1, n)),
                       {SwapchainObject} + {ImageViewObject}, multiset{next} + multiset(Range(next + 1, n)), next, rp,
                       [Created(RenderPassObject, rp)], {RenderPassObject}, multiset{rp}, rp + 1);
  }

  /** Nothing in the front of a generation refers to the pipeline objects,
      and nothing before the framebuffers refers to them. */
  lemma PipelineFollowsFront()
    ensures forall x, y ::
              x in {SwapchainObject} + {ImageViewObject} + {RenderPassObject}
              && y in {ShaderModuleObject} + {PipelineLayoutObject} + {PipelineObject}
              ==> !DependsOn(x, y)
  {
  }

  lemma FramebuffersFollowPipeline()
    ensures forall x, y ::
              x in {SwapchainObject} + {ImageViewObject} + {RenderPassObject}
                   + ({ShaderModuleObject} + {PipelineLayoutObject} + {PipelineObject})
              && y in {FramebufferObject}
              ==> !DependsOn(x, y)
  {
  }

  /** The front, then the graphics pipeline. */
  lemma FrontAndPipelineBuilt(next: Handle, n: nat, rp: Handle)
    requires rp == next + 1 + n
    ensures Constructed([Created(SwapchainObject, next)] + CreateAll(ImageViewObject, Range(next + 1, n))
                        + [Created(RenderPassObject, rp)] + PipelineEvents(rp + 1),
                        {SwapchainObject} + {ImageViewObject} + {RenderPassObject}
                        + ({ShaderModuleObject} + {PipelineLayoutObject} + {PipelineObject}),
                        multiset{next} + multiset(Range(next + 1, n)) + multiset{rp}
                        + PipelineHandles(rp + 1),
                        next, rp + 1 + 4)
  {
    FrontBuilt(next, n, rp);
    AppendPipeline([Created(SwapchainObject, next)] + CreateAll(ImageViewObject, Range(next + 1, n))
                   + [Created(RenderPassObject, rp)],
                   multiset{next} + multiset(Range(next + 1, n)) + multiset{rp}, next, rp + 1);
  }

  lemma AppendPipeline(events: seq<Event>, owned: multiset<Handle>, start: Handle, first: Handle)
    requires Constructed(events, {SwapchainObject} + {ImageViewObject} + {RenderPassObject}, owned, start, first)
    ensures Constructed(events + PipelineEvents(first),
                        {SwapchainObject} + {ImageViewObject} + {RenderPassObject}
                        + ({ShaderModuleObject} + {PipelineLayoutObject} + {PipelineObject}),
                        owned + PipelineHandles(first), start, first + 4)
  {
    PipelineBlock(first);
    PipelineFollowsFront();
    ExtendConstruction(events, {SwapchainObject} + {ImageViewObject} + {RenderPassObject}, owned, start, first,
                       PipelineEvents(first), {ShaderModuleObject} + {PipelineLayoutObject} + {PipelineObject},
                       PipelineHandles(first), first + 4);
  }

  /** The front, the pipeline, then the framebuffers. */
  lemma PresentationStagesBuilt(next: Handle, n: nat, rp: Handle)
    requires rp == next + 1 + n
    ensures Constructed([Created(SwapchainObject, next)] + CreateAll(ImageViewObject, Range(next + 1, n))
                        + [Created(RenderPassObject, rp)] + PipelineEvents(rp + 1)
                        + CreateAll(FramebufferObject, Range(rp + 1 + 4, n)),
                        {SwapchainObject} + {ImageViewObject} + {RenderPassObject}
                        + ({ShaderModuleObject} + {PipelineLayoutObject} + {PipelineObject}) + {FramebufferObject},
                        multiset{next} + multiset(Range(next + 1, n)) + multiset{rp}
                        + PipelineHandles(rp + 1) + multiset(Range(rp + 1 + 4, n)),
                        next, rp + 1 + 4 + n)
  {
    FrontAndPipelineBuilt(next, n, rp);
    AppendFramebuffers([Created(SwapchainObject, next)] + CreateAll(ImageViewObject, Range(next + 1, n))
                       + [Created(RenderPassObject, rp)] + PipelineEvents(rp + 1),
                       multiset{next} + multiset(Range(next + 1, n)) + multiset{rp} + PipelineHandles(rp + 1),
                       next, rp + 1 + 4, n);
  }

  lemma AppendFramebuffers(events: seq<Event>, owned: multiset<Handle>, start: Handle, first: Handle, n: nat)
    requires Constructed(events, {SwapchainObject} + {ImageViewObject} + {RenderPassObject}
                                 + ({ShaderModuleObject} + {PipelineLayoutObject} + {PipelineObject}),
                         owned, start, first)
    ensures Constructed(events + CreateAll(FramebufferObject, Range(first, n)),
                        {SwapchainObject} + {ImageViewObject} + {RenderPassObject}
                        + ({ShaderModuleObject} + {PipelineLayoutObject} + {PipelineObject}) + {FramebufferObject},
                        owned + multiset(Range(first, n)), start, first + n)
  {
    CreateAllConstructs(FramebufferObject, first, n);
    FramebuffersFollowPipeline();
    ExtendConstruction(events, {SwapchainObject} + {ImageViewObject} + {RenderPassObject}
                               + ({ShaderModuleObject} + {PipelineLayoutObject} + {PipelineObject}),
                       owned, start, first, CreateAll(FramebufferObject, Range(first, n)), {FramebufferObject},
                       multiset(Range(first, n)), first + n);
  }

  /** The handles BuildPresentation leaves in the chain, in creation order. */
  lemma PresentationHandlesShape(physical: PhysicalDevice, families: QueueFamilyIndices,
                                 surface: SurfaceState, next: Handle, rp: Handle)
    requires ExtentBoundsOrdered(surface.capabilities)
    requires rp == next + 1 + surface.grantedImages
    ensures var b := BuildPresentation(physical, families, surface, next);
            var n := surface.grantedImages;
            && PresentationHandles(b.chain)
               == multiset{next} + multiset(Range(next + 1, n)) + multiset{rp}
                  + PipelineHandles(rp + 1) + multiset(Range(rp + 1 + 4, n))
            && b.events == [Created(SwapchainObject, next)] + CreateAll(ImageViewObject, Range(next + 1, n))
                           + [Created(RenderPassObject, rp)] + PipelineEvents(rp + 1)
                           + CreateAll(FramebufferObject, Range(rp + 1 + 4, n))
            && b.next == rp + 1 + 4 + n
  {
    PresentationShape(physical, families, surface, next);
    var b := BuildPresentation(physical, families, surface, next);
    ChainHandlesInOrder(b.chain, next, surface.grantedImages, rp);
  }

  lemma ChainHandlesInOrder(c: Chain, next: Handle, n: nat, rp: Handle)
    requires c.swapchain == next && c.views == Range(next + 1, n) && c.renderPass == rp
    requires c.pipelineLayout == rp + 1 + 2 && c.pipeline == rp + 1 + 3 && c.framebuffers == Range(rp + 1 + 4, n)
    ensures PresentationHandles(c)
            == multiset{next} + multiset(Range(next + 1, n)) + multiset{rp}
               + PipelineHandles(rp + 1) + multiset(Range(rp + 1 + 4, n))
  {
  }

  /** BuildPresentation is a construction block owning the generation's
      handles, all drawn from [next, b.next). */
  lemma PresentationBuilt(physical: PhysicalDevice, families: QueueFamilyIndices,
                          surface: SurfaceState, next: Handle)
    requires ExtentBoundsOrdered(surface.capabilities)
    ensures var b := BuildPresentation(physical, families, surface, next);
            Constructed(b.events, PresentationKinds, PresentationHandles(b.chain), next, b.next)
  {
    var n := surface.grantedImages;
    var rp := next + 1 + n;
    PresentationHandlesShape(physical, families, surface, next, rp);
    PresentationStagesBuilt(next, n, rp);
    PresentationKindsInOrder();
  }

  /** The full rebuild of RecreateSwapChain: swapchain, image views, render
      pass, pipeline, framebuffers, command buffers. */
  function BuildChain(fixed: Fixed, surface: SurfaceState, next: Handle): Build
    requires ExtentBoundsOrdered(surface.capabilities)
  {
    CreateCommandBuffers(BuildPresentation(fixed.physical, fixed.families, surface, next))
  }

  const BuildKinds: set<ObjectKind> := PresentationKinds + {CommandBufferObject}

  /** A built generation: sized one-to-one, created dependencies first from
      fresh handles in [start, next), every created handle owned by the
      generation or destroyed again, and each command buffer recorded against
      its framebuffer. */
  predicate ConstructionOf(events: seq<Event>, c: Chain, start: Handle, next: Handle) {
    && WellSized(c)
    && Constructed(events, BuildKinds, ChainHandles(c), start, next)
    && RecordsEachCommandBuffer(events, c)
  }

  /** CreateCommandBuffers on a built presentation completes a generation. */
  lemma CommandBuffersAdded(p: Build, start: Handle)
    requires Constructed(p.events, PresentationKinds, PresentationHandles(p.chain), start, p.next)
    ensures var b := CreateCommandBuffers(p);
            Constructed(b.events, BuildKinds, ChainHandles(b.chain), start, b.next)
  {
    var b := CreateCommandBuffers(p);
    var cbs := Range(p.next, |p.chain.framebuffers|);
    CommandBuffersConstruct(p.next, cbs, p.chain.framebuffers, p.chain.pipeline);
    NothingNeedsCommandBuffers(PresentationKinds);
    ExtendConstruction(p.events, PresentationKinds, PresentationHandles(p.chain), start, p.next,
                       CommandBufferEvents(cbs, p.chain.framebuffers, p.chain.pipeline), {CommandBufferObject},
                       multiset(cbs), p.next + |cbs|);
    assert PresentationHandles(b.chain) == PresentationHandles(p.chain);
  }

  lemma BuildChainFacts(fixed: Fixed, surface: SurfaceState, next: Handle)
    requires ExtentBoundsOrdered(surface.capabilities)
    ensures var b := BuildChain(fixed, surface, next);
      && ConstructionOf(b.events, b.chain, next, b.next)
      && b.chain.imageCount == surface.grantedImages
      && b.chain.info == SwapchainCreateInfoFor(fixed.physical, fixed.families, surface.capabilities, surface.clientSize)
      && b.chain.viewport == b.chain.info.extent
  {
    var p := BuildPresentation(fixed.physical, fixed.families, surface, next);
    PresentationShape(fixed.physical, fixed.families, surface, next);
    PresentationBuilt(fixed.physical, fixed.families, surface, next);
    CommandBuffersAdded(p, next);
    var b := CreateCommandBuffers(p);
    CommandBuffersRecorded(b.chain.commandBuffers, p.chain.framebuffers, p.chain.pipeline, p.events);
  }

  // ---------------------------------------------------------------------------
  // Releasing a generation

  /** The destroy calls of ReleaseSwapChain: framebuffers, command buffers
      (freed), pipeline, pipeline layout, render pass, image views, swapchain. */
  function ChainDestroys(c: Chain): seq<Event> {
    DestroyAll(FramebufferObject, c.framebuffers)
    + DestroyAll(CommandBufferObject, c.commandBuffers)
    + [Destroyed(PipelineObject, c.pipeline)]
    + [Destroyed(PipelineLayoutObject, c.pipelineLayout)]
    + [Destroyed(RenderPassObject, c.renderPass)]
    + DestroyAll(ImageViewObject, c.views)
    + [Destroyed(SwapchainObject, c.swapchain)]
  }

  /** ReleaseSwapChain: idle the device, then the destroy calls. */
  function ReleaseSwapChain(c: Chain): seq<Event> {
    [DeviceWaitIdle] + ChainDestroys(c)
  }

  const ChainKinds: set<ObjectKind> :=
    {FramebufferObject, CommandBufferObject, PipelineObject, PipelineLayoutObject,
     RenderPassObject, ImageViewObject, SwapchainObject}

  /** A release of generation `c`: it idles the device first, then only
      destroys, dependents first, each handle of the generation exactly once
      and nothing else. */
  predicate TeardownOf(events: seq<Event>, c: Chain) {
    && |events| > 0
    && events[0] == DeviceWaitIdle
    && Dismantled(events[1..], ChainKinds, ChainHandles(c))
  }

  /** Framebuffers, command buffers, pipeline. */
  lemma ChainDestroysFront(c: Chain)
    ensures Dismantled(DestroyAll(FramebufferObject, c.framebuffers)
                       + DestroyAll(CommandBufferObject, c.commandBuffers)
                       + [Destroyed(PipelineObject, c.pipeline)],
                       {FramebufferObject} + {CommandBufferObject} + {PipelineObject},
                       multiset(c.framebuffers) + multiset(c.commandBuffers) + multiset{c.pipeline})
  {
    var e1 := DestroyAll(FramebufferObject, c.framebuffers);
    var e2 := DestroyAll(CommandBufferObject, c.commandBuffers);
    DestroyAllDismantles(FramebufferObject, c.framebuffers);
    DestroyAllDismantles(CommandBufferObject, c.commandBuffers);
    ExtendTeardown(e1, {FramebufferObject}, multiset(c.framebuffers),
                   e2, {CommandBufferObject}, multiset(c.commandBuffers));
    DestroyOneDismantles(PipelineObject, c.pipeline);
    ExtendTeardown(e1 + e2, {FramebufferObject} + {CommandBufferObject},
                   multiset(c.framebuffers) + multiset(c.commandBuffers),
                   [Destroyed(PipelineObject, c.pipeline)], {PipelineObject}, multiset{c.pipeline});
  }

  /** Pipeline layout, render pass, image views, swapchain. */
  lemma ChainDestroysBack(c: Chain)
    ensures Dismantled([Destroyed(PipelineLayoutObject, c.pipelineLayout)]
                       + [Destroyed(RenderPassObject, c.renderPass)]
                       + DestroyAll(ImageViewObject, c.views)
                       + [Destroyed(SwapchainObject, c.swapchain)],
                       {PipelineLayoutObject} + {RenderPassObject} + {ImageViewObject} + {SwapchainObject},
                       multiset{c.pipelineLayout} + multiset{c.renderPass} + multiset(c.views)
                       + multiset{c.swapchain})
  {
    var e1 := [Destroyed(PipelineLayoutObject, c.pipelineLayout)];
    var e2 := [Destroyed(RenderPassObject, c.renderPass)];
    var e3 := DestroyAll(ImageViewObject, c.views);
    DestroyOneDismantles(PipelineLayoutObject, c.pipelineLayout);
    DestroyOneDismantles(RenderPassObject, c.renderPass);
    ExtendTeardown(e1, {PipelineLayoutObject}, multiset{c.pipelineLayout},
                   e2, {RenderPassObject}, multiset{c.renderPass});
    DestroyAllDismantles(ImageViewObject, c.views);
    ExtendTeardown(e1 + e2, {PipelineLayoutObject} + {RenderPassObject},
                   multiset{c.pipelineLayout} + multiset{c.renderPass},
                   e3, {ImageViewObject}, multiset(c.views));
    DestroyOneDismantles(SwapchainObject, c.swapchain);
    ExtendTeardown(e1 + e2 + e3, {PipelineLayoutObject} + {RenderPassObject} + {ImageViewObject},
                   multiset{c.pipelineLayout} + multiset{c.renderPass} + multiset(c.views),
                   [Destroyed(SwapchainObject, c.swapchain)], {SwapchainObject}, multiset{c.swapchain});
  }

  lemma ChainDestroysDismantles(c: Chain)
    ensures Dismantled(ChainDestroys(c), ChainKinds, ChainHandles(c))
  {
    var front := DestroyAll(FramebufferObject, c.framebuffers)
                 + DestroyAll(CommandBufferObject, c.commandBuffers)
                 + [Destroyed(PipelineObject, c.pipeline)];
    var back := [Destroyed(PipelineLayoutObject, c.pipelineLayout)]
                + [Destroyed(RenderPassObject, c.renderPass)]
                + DestroyAll(ImageViewObject, c.views)
                + [Destroyed(SwapchainObject, c.swapchain)];
    ChainDestroysFront(c);
    ChainDestroysBack(c);
    ExtendTeardown(front, {FramebufferObject} + {CommandBufferObject} + {PipelineObject},
                   multiset(c.framebuffers) + multiset(c.commandBuffers) + multiset{c.pipeline},
                   back, {PipelineLayoutObject} + {RenderPassObject} + {ImageViewObject} + {SwapchainObject},
                   multiset{c.pipelineLayout} + multiset{c.renderPass} + multiset(c.views)
                   + multiset{c.swapchain});
    assert ChainDestroys(c) == front + back;
    ChainKindsInOrder();
    TeardownOrderIsCreationOrder(multiset(c.framebuffers), multiset(c.commandBuffers), multiset{c.pipeline},
                                 multiset{c.pipelineLayout}, multiset{c.renderPass}, multiset(c.views),
                                 multiset{c.swapchain});
  }

  lemma ReleaseSwapChainFacts(c: Chain)
    ensures TeardownOf(ReleaseSwapChain(c), c)
  {
    ChainDestroysDismantles(c);
    assert ReleaseSwapChain(c)[1..] == ChainDestroys(c);
  }

  /** A device idle followed by a teardown block creates nothing and
      destroys exactly the block's handles. */
  lemma IdleThenDismantled(events: seq<Event>, kinds: set<ObjectKind>, destroyed: multiset<Handle>)
    requires |events| > 0 && events[0] == DeviceWaitIdle
    requires Dismantled(events[1..], kinds, destroyed)
    ensures CreatedHandles(events) == multiset{}
    ensures DestroyedHandles(events) == destroyed
  {
    assert events == [events[0]] + events[1..];
    SingleEventHandles(events[0]);
    CreatedHandlesAppend([events[0]], events[1..]);
    DestroyedHandlesAppend([events[0]], events[1..]);
  }

  /** A Pending fence becomes Signalled once the device is idle. */
  function Drain(fences: seq<FenceState>): (drained: seq<FenceState>)
    ensures |drained| == |fences|
    ensures forall i :: 0 <= i < |fences| ==> drained[i] != Pending
    ensures forall i :: 0 <= i < |fences| ==> (drained[i] == Unsignalled <==> fences[i] == Unsignalled)
  {
    seq(|fences|, i requires 0 <= i < |fences| => if fences[i] == Pending then Signalled else fences[i])
  }

  // ---------------------------------------------------------------------------
  // Recreation

  /** RecreateSwapChain: vkDeviceWaitIdle, then ReleaseSwapChain (which idles
      the device again), then the rebuild. Everything created once by Open
      and the current frame index are untouched. */
  function RecreateSwapChain(s: Session, surface: SurfaceState): (s': Session)
    requires Valid(s)
    requires ExtentBoundsOrdered(surface.capabilities)
    ensures Valid(s')
    ensures s'.fixed == s.fixed
    ensures s'.frames.current == s.frames.current
    ensures |s'.frames.fences| == |s.frames.fences|
    ensures forall i :: 0 <= i < |s.frames.fences| ==> s'.frames.fences[i] == Signalled
    ensures s'.chain.imageCount == surface.grantedImages
    ensures s'.chain.viewport == s'.chain.info.extent
    ensures ExtentWithin(s'.chain.viewport, surface.capabilities)
    ensures ExtentWithin(surface.clientSize, surface.capabilities) ==> s'.chain.viewport == surface.clientSize
  {
    var b := BuildChain(s.fixed, surface, s.next);
    BuildChainFacts(s.fixed, surface, s.next);
    RebuiltValid(s, b);
    Rebuilt(s, b)
  }

  /** The session after tearing down its generation and adopting `b`. */
  function Rebuilt(s: Session, b: Build): Session {
    Session(s.fixed, Frames(s.frames.current, Drain(s.frames.fences)), b.chain, b.next,
            s.trace + [DeviceWaitIdle] + ReleaseSwapChain(s.chain) + b.events)
  }

  lemma RebuiltValid(s: Session, b: Build)
    requires Valid(s)
    requires ConstructionOf(b.events, b.chain, s.next, b.next)
    ensures Valid(Rebuilt(s, b))
    ensures forall i :: 0 <= i < |s.frames.fences| ==> Rebuilt(s, b).frames.fences[i] == Signalled
  {
    RecreationValid(s, Rebuilt(s, b), ReleaseSwapChain(s.chain), b.events);
  }

  /** The trace of a recreation: the old trace, an idle wait, the complete
      teardown of the old chain and then the construction of the new one,
      whose handles are all fresh. */
  lemma RecreationIsTeardownThenRebuild(s: Session, surface: SurfaceState)
    requires Valid(s)
    requires ExtentBoundsOrdered(surface.capabilities)
    ensures var s' := RecreateSwapChain(s, surface);
      && |s'.trace| > |s.trace| && s'.trace[..|s.trace|] == s.trace && s'.trace[|s.trace|] == DeviceWaitIdle
      && (exists k :: |s.trace| < k <= |s'.trace|
            && TeardownOf(s'.trace[|s.trace| + 1..k], s.chain)
            && ConstructionOf(s'.trace[k..], s'.chain, s.next, s'.next))
      && forall h :: h in ChainHandles(s'.chain) ==> h !in LiveHandles(s)
  {
    var b := BuildChain(s.fixed, surface, s.next);
    BuildChainFacts(s.fixed, surface, s.next);
    RecreationTrace(s, RecreateSwapChain(s, surface), ReleaseSwapChain(s.chain), b.events);
  }

  /** The rebuilt session keeps the invariant. */
  lemma RecreationValid(s: Session, s': Session, release: seq<Event>, build: seq<Event>)
    requires Valid(s)
    requires s'.fixed == s.fixed && s'.frames == Frames(s.frames.current, Drain(s.frames.fences))
    requires s'.trace == s.trace + [DeviceWaitIdle] + release + build
    requires release == ReleaseSwapChain(s.chain)
    requires ConstructionOf(build, s'.chain, s.next, s'.next)
    ensures Valid(s')
  {
    AccountsEachAgrees(s.trace, LiveHandles(s));
    RecreationHandles(s, s', release, build);
    RecreationShape(s, s');
    SessionValid(s');
  }

  lemma RecreationShape(s: Session, s': Session)
    requires Valid(s)
    requires s'.fixed == s.fixed && s'.frames == Frames(s.frames.current, Drain(s.frames.fences))
    requires WellSized(s'.chain)
    ensures SessionShaped(s')
  {
  }

  lemma RecreationHandles(s: Session, s': Session, release: seq<Event>, build: seq<Event>)
    requires HandlesBelow(LiveHandles(s), s.next) && Accounts(s.trace, LiveHandles(s))
    requires s'.fixed == s.fixed
    requires s'.trace == s.trace + [DeviceWaitIdle] + release + build
    requires release == ReleaseSwapChain(s.chain)
    requires ConstructionOf(build, s'.chain, s.next, s'.next)
    ensures HandlesBelow(LiveHandles(s'), s'.next) && Accounts(s'.trace, LiveHandles(s'))
  {
    ReleaseSwapChainFacts(s.chain);
    IdleThenDismantled(release, ChainKinds, ChainHandles(s.chain));
    RecreationAccounts(s, s', release, build);
    forall h | h in LiveHandles(s') ensures h < s'.next {
      if h in FixedHandles(s.fixed) {
        assert h in LiveHandles(s);
      }
    }
  }

  /** Where the release and the rebuild sit in the trace, and the freshness
      of the rebuilt handles. */
  lemma RecreationTrace(s: Session, s': Session, release: seq<Event>, build: seq<Event>)
    requires Valid(s)
    requires s'.trace == s.trace + [DeviceWaitIdle] + release + build
    requires release == ReleaseSwapChain(s.chain)
    requires ConstructionOf(build, s'.chain, s.next, s'.next)
    ensures |s'.trace| > |s.trace| && s'.trace[..|s.trace|] == s.trace && s'.trace[|s.trace|] == DeviceWaitIdle
    ensures exists k :: |s.trace| < k <= |s'.trace|
              && TeardownOf(s'.trace[|s.trace| + 1..k], s.chain)
              && ConstructionOf(s'.trace[k..], s'.chain, s.next, s'.next)
    ensures forall h :: h in ChainHandles(s'.chain) ==> h !in LiveHandles(s)
  {
    ReleaseSwapChainFacts(s.chain);
    var k := |s.trace| + 1 + |release|;
    assert s'.trace[|s.trace| + 1..k] == release;
    assert s'.trace[k..] == build;
    assert s'.trace[..|s.trace|] == s.trace;
    forall h | h in ChainHandles(s'.chain) ensures h !in LiveHandles(s) {
      assert s.next <= h;
    }
  }

  /** The handle bookkeeping of a recreation. */
  lemma RecreationAccounts(s: Session, s': Session, release: seq<Event>, build: seq<Event>)
    requires Accounts(s.trace, LiveHandles(s))
    requires s'.fixed == s.fixed
    requires s'.trace == s.trace + [DeviceWaitIdle] + release + build
    requires CreatedHandles(release) == multiset{} && DestroyedHandles(release) == ChainHandles(s.chain)
    requires Accounts(build, ChainHandles(s'.chain))
    ensures Accounts(s'.trace, LiveHandles(s'))
  {
    var released := s.trace + [DeviceWaitIdle] + release;
    ReleasedHandles(s.trace, release, ChainHandles(s.chain));
    CreatedHandlesAppend(released, build);
    DestroyedHandlesAppend(released, build);
  }

  lemma ReleasedHandles(trace: seq<Event>, release: seq<Event>, destroyed: multiset<Handle>)
    requires CreatedHandles(release) == multiset{} && DestroyedHandles(release) == destroyed
    ensures CreatedHandles(trace + [DeviceWaitIdle] + release) == CreatedHandles(trace)
    ensures DestroyedHandles(trace + [DeviceWaitIdle] + release) == DestroyedHandles(trace) + destroyed
  {
    SingleEventHandles(DeviceWaitIdle);
    CreatedHandlesAppend(trace, [DeviceWaitIdle]);
    DestroyedHandlesAppend(trace, [DeviceWaitIdle]);
    CreatedHandlesAppend(trace + [DeviceWaitIdle], release);
    DestroyedHandlesAppend(trace + [DeviceWaitIdle], release);
  }

  /** Recreating twice at an unchanged surface gives the same viewport and
      the same swapchain parameters both times. */
  lemma RecreationIsRepeatable(s: Session, surface: SurfaceState)
    requires Valid(s)
    requires ExtentBoundsOrdered(surface.capabilities)
    ensures var once := RecreateSwapChain(s, surface);
            var twice := RecreateSwapChain(once, surface);
            && twice.chain.viewport == once.chain.viewport
            && twice.chain.info == once.chain.info
            && twice.chain.imageCount == once.chain.imageCount
  {
    var once := RecreateSwapChain(s, surface);
    BuildChainFacts(s.fixed, surface, s.next);
    BuildChainFacts(once.fixed, surface, once.next);
  }

  // ---------------------------------------------------------------------------
  // Synchronisation objects

  const SyncKinds: set<ObjectKind> := {SemaphoreObject, FenceObject}

  /** CreateSynchronizationObjects from slot `slot` on: an image-available
      semaphore, a render-finished semaphore and a fence per slot. */
  function SyncCreateEvents(imageAvailable: seq<Handle>, renderFinished: seq<Handle>, inFlight: seq<Handle>,
                            slot: nat): seq<Event>
    requires |imageAvailable| == |renderFinished| == |inFlight|
    requires slot <= |imageAvailable|
    decreases |imageAvailable| - slot
  {
    if slot == |imageAvailable| then []
    else
      [Created(SemaphoreObject, imageAvailable[slot])]
      + [Created(SemaphoreObject, renderFinished[slot])]
      + [Created(FenceObject, inFlight[slot])]
      + SyncCreateEvents(imageAvailable, renderFinished, inFlight, slot + 1)
  }

  /** The per-slot loop of Release: render-finished semaphore, image-available
      semaphore, fence. */
  function SyncDestroyEvents(imageAvailable: seq<Handle>, renderFinished: seq<Handle>, inFlight: seq<Handle>,
                             slot: nat): seq<Event>
    requires |imageAvailable| == |renderFinished| == |inFlight|
    requires slot <= |imageAvailable|
    decreases |imageAvailable| - slot
  {
    if slot == |imageAvailable| then []
    else
      [Destroyed(SemaphoreObject, renderFinished[slot])]
      + [Destroyed(SemaphoreObject, imageAvailable[slot])]
      + [Destroyed(FenceObject, inFlight[slot])]
      + SyncDestroyEvents(imageAvailable, renderFinished, inFlight, slot + 1)
  }

  /** The handles of slots `slot` and later. */
  function SlotHandles(imageAvailable: seq<Handle>, renderFinished: seq<Handle>, inFlight: seq<Handle>,
                       slot: nat): multiset<Handle>
    requires slot <= |imageAvailable| && slot <= |renderFinished| && slot <= |inFlight|
  {
    multiset(imageAvailable[slot..]) + multiset(renderFinished[slot..]) + multiset(inFlight[slot..])
  }

  lemma SlotHandlesStep(imageAvailable: seq<Handle>, renderFinished: seq<Handle>, inFlight: seq<Handle>,
                        slot: nat)
    requires slot < |imageAvailable| && slot < |renderFinished| && slot < |inFlight|
    ensures SlotHandles(imageAvailable, renderFinished, inFlight, slot)
            == multiset{imageAvailable[slot]} + multiset{renderFinished[slot]} + multiset{inFlight[slot]}
               + SlotHandles(imageAvailable, renderFinished, inFlight, slot + 1)
    ensures SlotHandles(imageAvailable, renderFinished, inFlight, slot)
            == multiset{renderFinished[slot]} + multiset{imageAvailable[slot]} + multiset{inFlight[slot]}
               + SlotHandles(imageAvailable, renderFinished, inFlight, slot + 1)
  {
    assert imageAvailable[slot..] == [imageAvailable[slot]] + imageAvailable[slot + 1..];
    assert renderFinished[slot..] == [renderFinished[slot]] + renderFinished[slot + 1..];
    assert inFlight[slot..] == [inFlight[slot]] + inFlight[slot + 1..];
  }

  lemma SlotHandlesAll(imageAvailable: seq<Handle>, renderFinished: seq<Handle>, inFlight: seq<Handle>)
    ensures SlotHandles(imageAvailable, renderFinished, inFlight, 0)
            == multiset(imageAvailable) + multiset(renderFinished) + multiset(inFlight)
  {
    assert imageAvailable[0..] == imageAvailable;
    assert renderFinished[0..] == renderFinished;
    assert inFlight[0..] == inFlight;
  }

  lemma {:induction false} SyncCreateAccounts(imageAvailable: seq<Handle>, renderFinished: seq<Handle>,
                                              inFlight: seq<Handle>, slot: nat)
    requires |imageAvailable| == |renderFinished| == |inFlight|
    requires slot <= |imageAvailable|
    ensures Accounts(SyncCreateEvents(imageAvailable, renderFinished, inFlight, slot),
                     SlotHandles(imageAvailable, renderFinished, inFlight, slot))
    decreases |imageAvailable| - slot
  {
    if slot < |imageAvailable| {
      var a := [Created(SemaphoreObject, imageAvailable[slot])];
      var r := [Created(SemaphoreObject, renderFinished[slot])];
      var f := [Created(FenceObject, inFlight[slot])];
      SingleEventHandles(a[0]);
      SingleEventHandles(r[0]);
      SingleEventHandles(f[0]);
      SyncCreateAccounts(imageAvailable, renderFinished, inFlight, slot + 1);
      AccountsAppend(a, multiset{imageAvailable[slot]}, r, multiset{renderFinished[slot]});
      AccountsAppend(a + r, multiset{imageAvailable[slot]} + multiset{renderFinished[slot]},
                     f, multiset{inFlight[slot]});
      AccountsAppend(a + r + f,
                     multiset{imageAvailable[slot]} + multiset{renderFinished[slot]} + multiset{inFlight[slot]},
                     SyncCreateEvents(imageAvailable, renderFinished, inFlight, slot + 1),
                     SlotHandles(imageAvailable, renderFinished, inFlight, slot + 1));
      SlotHandlesStep(imageAvailable, renderFinished, inFlight, slot);
    } else {
      assert imageAvailable[slot..] == [] && renderFinished[slot..] == [] && inFlight[slot..] == [];
    }
  }

  lemma {:induction false} SyncCreateKinds(imageAvailable: seq<Handle>, renderFinished: seq<Handle>,
                                           inFlight: seq<Handle>, slot: nat)
    requires |imageAvailable| == |renderFinished| == |inFlight|
    requires slot <= |imageAvailable|
    ensures CreatedKinds(SyncCreateEvents(imageAvailable, renderFinished, inFlight, slot)) <= SyncKinds
    decreases |imageAvailable| - slot
  {
    var e := SyncCreateEvents(imageAvailable, renderFinished, inFlight, slot);
    if slot < |imageAvailable| {
      var rest := SyncCreateEvents(imageAvailable, renderFinished, inFlight, slot + 1);
      SyncCreateKinds(imageAvailable, renderFinished, inFlight, slot + 1);
      KindSummariesAgree(rest, SyncKinds);
      forall i | 0 <= i < |e| && e[i].Created? ensures e[i].kind in SyncKinds {
        if i >= 3 {
          assert e[i] == rest[i - 3];
        }
      }
    }
    KindSummariesAgree(e, SyncKinds);
  }

  /** Open's synchronisation objects for MAX_FRAMES_IN_FLIGHT slots, drawn
      from [first, first + 6). */
  lemma SyncCreateConstructs(imageAvailable: seq<Handle>, renderFinished: seq<Handle>, inFlight: seq<Handle>,
                             first: Handle)
    requires imageAvailable == [first, first + 3]
    requires renderFinished == [first + 1, first + 4]
    requires inFlight == [first + 2, first + 5]
    ensures Constructed(SyncCreateEvents(imageAvailable, renderFinished, inFlight, 0), SyncKinds,
                        multiset(imageAvailable) + multiset(renderFinished) + multiset(inFlight),
                        first, first + 6)
  {
    var e := SyncCreateEvents(imageAvailable, renderFinished, inFlight, 0);
    SyncCreateAccounts(imageAvailable, renderFinished, inFlight, 0);
    SyncCreateKinds(imageAvailable, renderFinished, inFlight, 0);
    IndependentCreatesOrdered(e, SyncKinds);
    SlotHandlesAll(imageAvailable, renderFinished, inFlight);
  }

  /** One slot's destroy calls. */
  lemma SlotDismantles(imageAvailable: Handle, renderFinished: Handle, inFlight: Handle)
    ensures Dismantled([Destroyed(SemaphoreObject, renderFinished)] + [Destroyed(SemaphoreObject, imageAvailable)]
                       + [Destroyed(FenceObject, inFlight)],
                       {SemaphoreObject} + {SemaphoreObject} + {FenceObject},
                       multiset{renderFinished} + multiset{imageAvailable} + multiset{inFlight})
  {
    var r := [Destroyed(SemaphoreObject, renderFinished)];
    var a := [Destroyed(SemaphoreObject, imageAvailable)];
    DestroyOneDismantles(SemaphoreObject, renderFinished);
    DestroyOneDismantles(SemaphoreObject, imageAvailable);
    ExtendTeardown(r, {SemaphoreObject}, multiset{renderFinished}, a, {SemaphoreObject}, multiset{imageAvailable});
    DestroyOneDismantles(FenceObject, inFlight);
    ExtendTeardown(r + a, {SemaphoreObject} + {SemaphoreObject}, multiset{renderFinished} + multiset{imageAvailable},
                   [Destroyed(FenceObject, inFlight)], {FenceObject}, multiset{inFlight});
  }

  lemma {:induction false} SyncDestroyDismantles(imageAvailable: seq<Handle>, renderFinished: seq<Handle>,
                                                 inFlight: seq<Handle>, slot: nat)
    requires |imageAvailable| == |renderFinished| == |inFlight|
    requires slot <= |imageAvailable|
    ensures Dismantled(SyncDestroyEvents(imageAvailable, renderFinished, inFlight, slot), SyncKinds,
                       SlotHandles(imageAvailable, renderFinished, inFlight, slot))
    decreases |imageAvailable| - slot
  {
    if slot < |imageAvailable| {
      var one := [Destroyed(SemaphoreObject, renderFinished[slot])]
                 + [Destroyed(SemaphoreObject, imageAvailable[slot])]
                 + [Destroyed(FenceObject, inFlight[slot])];
      SlotDismantles(imageAvailable[slot], renderFinished[slot], inFlight[slot]);
      SyncKindsInOrder();
      SyncDestroyDismantles(imageAvailable, renderFinished, inFlight, slot + 1);
      ExtendTeardown(one, SyncKinds,
                     multiset{renderFinished[slot]} + multiset{imageAvailable[slot]} + multiset{inFlight[slot]},
                     SyncDestroyEvents(imageAvailable, renderFinished, inFlight, slot + 1), SyncKinds,
                     SlotHandles(imageAvailable, renderFinished, inFlight, slot + 1));
      SlotHandlesStep(imageAvailable, renderFinished, inFlight, slot);
    } else {
      assert imageAvailable[slot..] == [] && renderFinished[slot..] == [] && inFlight[slot..] == [];
    }
  }

  // ---------------------------------------------------------------------------
  // Open

  const OpenKinds: set<ObjectKind> :=
    {InstanceObject, SurfaceObject, DeviceObject, SwapchainObject, ImageViewObject, RenderPassObject,
     ShaderModuleObject, PipelineLayoutObject, PipelineObject, FramebufferObject, CommandPoolObject,
     CommandBufferObject, SemaphoreObject, FenceObject}

  /** Open, after the window exists: the instance (created by the
      constructor), the surface, device selection, the logical device and its
      queues, the presentation chain, the command pool, the command buffers and
      the synchronisation objects, whose fences start signalled. The errors are
      those of device selection and queue-family resolution. */
  function Open(devices: seq<PhysicalDevice>, enumeration: VkResult, surface: SurfaceState): (r: Result<Session>)
    requires ExtentBoundsOrdered(surface.capabilities)
    ensures r.Err? ==> r.error in {NoDeviceDetected, NoSuitableDevice, NoSuitableQueueFamilies}
                       || r.error == EnumerationFailed(enumeration)
    ensures r.Ok? ==> Valid(r.value) && r.value.frames == Frames(0, [Signalled, Signalled])
  {
    match SelectPhysicalDevice(devices, enumeration, REQUIRED_DEVICE_EXTENSIONS)
    case Err(e) => Err(e)
    case Ok(k) =>
      var physical := devices[k];
      match ResolveQueueFamilies(physical.queueFamilies)
      case Err(e) => Err(e)
      case Ok(families) => Ok(OpenWith(physical, families, surface))
  }

  /** Open once the device and its queue families are known: the presentation
      chain is built right after the device, then the command pool, the command
      buffers and the synchronisation objects follow. */
  function OpenWith(physical: PhysicalDevice, families: QueueFamilyIndices, surface: SurfaceState): (s: Session)
    requires ExtentBoundsOrdered(surface.capabilities)
    ensures Valid(s)
    ensures s.fixed.physical == physical && s.fixed.families == families
    ensures s.frames == Frames(0, [Signalled, Signalled])
  {
    var p := BuildPresentation(physical, families, surface, 3);
    PresentationShape(physical, families, surface, 3);
    PresentationBuilt(physical, families, surface, 3);
    AssembledValid(physical, families, p);
    AssembledSession(physical, families, p)
  }

  /** Open fails exactly when device selection fails, with its error, or when
      the chosen device has no graphics or no presentation family; otherwise
      the session runs on the chosen device. */
  lemma OpenFailsAsSelectionAndResolution(devices: seq<PhysicalDevice>, enumeration: VkResult, surface: SurfaceState)
    requires ExtentBoundsOrdered(surface.capabilities)
    ensures var r := Open(devices, enumeration, surface);
      var selection := SelectPhysicalDevice(devices, enumeration, REQUIRED_DEVICE_EXTENSIONS);
      && (selection.Err? ==> r == Err(selection.error))
      && (selection.Ok? ==>
            && (r.Err? <==> ResolveQueueFamilies(devices[selection.value].queueFamilies).Err?)
            && (r.Err? ==> r.error == NoSuitableQueueFamilies)
            && (r.Ok? ==> r.value.fixed.physical == devices[selection.value]))
  {
  }

  /** Once a device is selected and its families resolve, Open succeeds,
      and the session holds an eligible device, resolved queue
      families whose queues were requested at device creation, one image per
      granted swapchain image, and a trace that created everything it owns in
      dependency order. */
  lemma OpenedSession(devices: seq<PhysicalDevice>, enumeration: VkResult, surface: SurfaceState)
    requires ExtentBoundsOrdered(surface.capabilities)
    requires SelectPhysicalDevice(devices, enumeration, REQUIRED_DEVICE_EXTENSIONS).Ok?
    requires ResolveQueueFamilies(
               devices[SelectPhysicalDevice(devices, enumeration, REQUIRED_DEVICE_EXTENSIONS).value].queueFamilies).Ok?
    ensures Open(devices, enumeration, surface).Ok?
    ensures var s := Open(devices, enumeration, surface).value;
      && Eligible(s.fixed.physical, REQUIRED_DEVICE_EXTENSIONS)
      && ResolvedAt(s.fixed.physical.queueFamilies, s.fixed.families)
      && Requested(s.fixed.queueRequests, s.fixed.graphicsQueue)
      && Requested(s.fixed.queueRequests, s.fixed.presentQueue)
      && s.chain.imageCount == surface.grantedImages
      && s.chain.viewport == s.chain.info.extent
      && Constructed(s.trace, OpenKinds, LiveHandles(s), 0, s.next)
  {
    var k := SelectPhysicalDevice(devices, enumeration, REQUIRED_DEVICE_EXTENSIONS).value;
    var families := ResolveQueueFamilies(devices[k].queueFamilies).value;
    PresentationShape(devices[k], families, surface, 3);
    PresentationBuilt(devices[k], families, surface, 3);
    AssembledConstructs(devices[k], families, BuildPresentation(devices[k], families, surface, 3));
    FetchedQueuesWereRequested(families);
  }

  /** Instance, surface and logical device, handles 0, 1 and 2. */
  function OpenPrefix(): seq<Event> {
    [Created(InstanceObject, 0)] + [Created(SurfaceObject, 1)] + [Created(DeviceObject, 2)]
  }

  lemma InstanceAndSurfaceConstruct()
    ensures Constructed([Created(InstanceObject, 0)] + [Created(SurfaceObject, 1)],
                        {InstanceObject} + {SurfaceObject}, multiset{0} + multiset{1}, 0, 2)
  {
    CreateOneConstructs(InstanceObject, 0);
    CreateOneConstructs(SurfaceObject, 1);
    ExtendConstruction([Created(InstanceObject, 0)], {InstanceObject}, multiset{0}, 0, 1,
                       [Created(SurfaceObject, 1)], {SurfaceObject}, multiset{1}, 2);
  }

  lemma OpenPrefixConstructs()
    ensures Constructed(OpenPrefix(), {InstanceObject} + {SurfaceObject} + {DeviceObject},
                        multiset{0} + multiset{1} + multiset{2}, 0, 3)
  {
    InstanceAndSurfaceConstruct();
    CreateOneConstructs(DeviceObject, 2);
    ExtendConstruction([Created(InstanceObject, 0)] + [Created(SurfaceObject, 1)],
                       {InstanceObject} + {SurfaceObject}, multiset{0} + multiset{1}, 0, 2,
                       [Created(DeviceObject, 2)], {DeviceObject}, multiset{2}, 3);
  }

  /** A presentation chain built right after the device, with one view and
      one framebuffer per image. */
  predicate PresentationReady(p: Build) {
    && Constructed(p.events, PresentationKinds, PresentationHandles(p.chain), 3, p.next)
    && |p.chain.views| == p.chain.imageCount
    && |p.chain.framebuffers| == |p.chain.views|
  }

  /** The session Open assembles keeps the invariant. */
  lemma AssembledValid(physical: PhysicalDevice, families: QueueFamilyIndices, p: Build)
    requires PresentationReady(p)
    ensures Valid(AssembledSession(physical, families, p))
  {
    AssembledConstructs(physical, families, p);
    AssembledShape(physical, families, p);
    ConstructedSessionHandles(AssembledSession(physical, families, p), OpenKinds);
    SessionValid(AssembledSession(physical, families, p));
  }

  lemma AssembledShape(physical: PhysicalDevice, families: QueueFamilyIndices, p: Build)
    requires |p.chain.views| == p.chain.imageCount && |p.chain.framebuffers| == |p.chain.views|
    ensures SessionShaped(AssembledSession(physical, families, p))
  {
    FreshFencesSignalled(AssembledSession(physical, families, p).frames.fences);
  }

  /** The sizes and states Valid asks for besides the handle bookkeeping. */
  predicate SessionShaped(s: Session) {
    && |s.fixed.imageAvailable| == MAX_FRAMES_IN_FLIGHT
    && |s.fixed.renderFinished| == MAX_FRAMES_IN_FLIGHT
    && |s.fixed.inFlight| == MAX_FRAMES_IN_FLIGHT
    && |s.frames.fences| == MAX_FRAMES_IN_FLIGHT
    && s.frames.current < MAX_FRAMES_IN_FLIGHT
    && (forall i :: 0 <= i < |s.frames.fences| ==> s.frames.fences[i] != Unsignalled)
    && WellSized(s.chain)
  }

  lemma ConstructedSessionHandles(s: Session, kinds: set<ObjectKind>)
    requires Constructed(s.trace, kinds, LiveHandles(s), 0, s.next)
    ensures HandlesBelow(LiveHandles(s), s.next) && Accounts(s.trace, LiveHandles(s))
  {
  }

  lemma SessionValid(s: Session)
    requires SessionShaped(s)
    requires HandlesBelow(LiveHandles(s), s.next) && Accounts(s.trace, LiveHandles(s))
    ensures Valid(s)
  {
    AccountsEachAgrees(s.trace, LiveHandles(s));
  }

  lemma FreshFencesSignalled(fences: seq<FenceState>)
    requires fences == [Signalled, Signalled]
    ensures forall i :: 0 <= i < |fences| ==> fences[i] == Signalled
  {
  }

  /** What Open creates once: instance 0, surface 1, device 2, the command
      pool, and the two slots' semaphores and fence numbered from `first`. */
  function OpenedFixed(physical: PhysicalDevice, families: QueueFamilyIndices, pool: Handle, first: Handle): Fixed {
    Fixed(0, 1, physical, families, QueueCreateInfos(families), 2,
          GraphicsQueue(families), PresentQueue(families), pool,
          [first, first + 3], [first + 1, first + 4], [first + 2, first + 5])
  }

  /** The session Open returns: handles 0, 1 and 2 for the instance, the
      surface and the device, the presentation chain after them, then the
      command pool, one command buffer per framebuffer and the two frame
      slots' semaphores and fence. */
  function AssembledSession(physical: PhysicalDevice, families: QueueFamilyIndices, p: Build): Session {
    var cbs := Range(p.next + 1, |p.chain.framebuffers|);
    var first := p.next + 1 + |cbs|;
    var fixed := OpenedFixed(physical, families, p.next, first);
    Session(fixed, Frames(0, [Signalled, Signalled]), p.chain.(commandBuffers := cbs), first + 6,
            OpenPrefix() + p.events + [Created(CommandPoolObject, p.next)]
            + CommandBufferEvents(cbs, p.chain.framebuffers, p.chain.pipeline)
            + SyncCreateEvents(fixed.imageAvailable, fixed.renderFinished, fixed.inFlight, 0))
  }

  lemma AssembledConstructs(physical: PhysicalDevice, families: QueueFamilyIndices, p: Build)
    requires PresentationReady(p)
    ensures Constructed(AssembledSession(physical, families, p).trace, OpenKinds,
                        LiveHandles(AssembledSession(physical, families, p)), 0,
                        AssembledSession(physical, families, p).next)
  {
    var s := AssembledSession(physical, families, p);
    var cbs := s.chain.commandBuffers;
    var first := p.next + 1 + |cbs|;
    assert s.fixed == OpenedFixed(physical, families, p.next, first);
    OpenThroughSync(p, cbs, physical, families, first);
    OpenKindsInOrder();
    assert PresentationHandles(s.chain) == PresentationHandles(p.chain);
    OpenOrderIsLive(multiset{0}, multiset{1}, multiset{2}, PresentationHandles(p.chain), multiset{p.next},
                    multiset(cbs), SyncHandles(s.fixed));
  }

  /** Instance, surface, device and presentation chain. */
  lemma OpenThroughPresentation(p: Build)
    requires Constructed(p.events, PresentationKinds, PresentationHandles(p.chain), 3, p.next)
    ensures Constructed(OpenPrefix() + p.events,
                        {InstanceObject} + {SurfaceObject} + {DeviceObject} + PresentationKinds,
                        multiset{0} + multiset{1} + multiset{2} + PresentationHandles(p.chain), 0, p.next)
  {
    OpenPrefixConstructs();
    ExtendConstruction(OpenPrefix(), {InstanceObject} + {SurfaceObject} + {DeviceObject},
                       multiset{0} + multiset{1} + multiset{2}, 0, 3,
                       p.events, PresentationKinds, PresentationHandles(p.chain), p.next);
  }

  /** ... then the command pool. */
  lemma OpenFrontConstructs(p: Build)
    requires Constructed(p.events, PresentationKinds, PresentationHandles(p.chain), 3, p.next)
    ensures Constructed(OpenPrefix() + p.events + [Created(CommandPoolObject, p.next)],
                        {InstanceObject} + {SurfaceObject} + {DeviceObject} + PresentationKinds + {CommandPoolObject},
                        multiset{0} + multiset{1} + multiset{2} + PresentationHandles(p.chain) + multiset{p.next},
                        0, p.next + 1)
  {
    OpenThroughPresentation(p);
    CreateOneConstructs(CommandPoolObject, p.next);
    CommandPoolFollowsPresentation();
    ExtendConstruction(OpenPrefix() + p.events, {InstanceObject} + {SurfaceObject} + {DeviceObject} + PresentationKinds,
                       multiset{0} + multiset{1} + multiset{2} + PresentationHandles(p.chain), 0, p.next,
                       [Created(CommandPoolObject, p.next)], {CommandPoolObject}, multiset{p.next}, p.next + 1);
  }

  /** ... then the command buffers, allocated from the pool and recorded. */
  lemma OpenThroughCommandBuffers(p: Build, cbs: seq<Handle>)
    requires Constructed(p.events, PresentationKinds, PresentationHandles(p.chain), 3, p.next)
    requires cbs == Range(p.next + 1, |p.chain.framebuffers|)
    ensures Constructed(OpenPrefix() + p.events + [Created(CommandPoolObject, p.next)]
                        + CommandBufferEvents(cbs, p.chain.framebuffers, p.chain.pipeline),
                        {InstanceObject} + {SurfaceObject} + {DeviceObject} + PresentationKinds + {CommandPoolObject}
                        + {CommandBufferObject},
                        multiset{0} + multiset{1} + multiset{2} + PresentationHandles(p.chain) + multiset{p.next}
                        + multiset(cbs),
                        0, p.next + 1 + |cbs|)
  {
    OpenFrontConstructs(p);
    AppendCommandBuffers(OpenPrefix() + p.events + [Created(CommandPoolObject, p.next)],
                         {InstanceObject} + {SurfaceObject} + {DeviceObject} + PresentationKinds + {CommandPoolObject},
                         multiset{0} + multiset{1} + multiset{2} + PresentationHandles(p.chain) + multiset{p.next},
                         p.next + 1, cbs, p.chain.framebuffers, p.chain.pipeline);
  }

  /** ... then the synchronisation objects. */
  lemma OpenThroughSync(p: Build, cbs: seq<Handle>, physical: PhysicalDevice, families: QueueFamilyIndices,
                        first: Handle)
    requires Constructed(p.events, PresentationKinds, PresentationHandles(p.chain), 3, p.next)
    requires cbs == Range(p.next + 1, |p.chain.framebuffers|)
    requires first == p.next + 1 + |cbs|
    ensures var f := OpenedFixed(physical, families, p.next, first);
            Constructed(OpenPrefix() + p.events + [Created(CommandPoolObject, p.next)]
                        + CommandBufferEvents(cbs, p.chain.framebuffers, p.chain.pipeline)
                        + SyncCreateEvents(f.imageAvailable, f.renderFinished, f.inFlight, 0),
                        {InstanceObject} + {SurfaceObject} + {DeviceObject} + PresentationKinds + {CommandPoolObject}
                        + {CommandBufferObject} + SyncKinds,
                        multiset{0} + multiset{1} + multiset{2} + PresentationHandles(p.chain) + multiset{p.next}
                        + multiset(cbs) + SyncHandles(f),
                        0, first + 6)
  {
    var f := OpenedFixed(physical, families, p.next, first);
    OpenThroughCommandBuffers(p, cbs);
    SyncCreateConstructs(f.imageAvailable, f.renderFinished, f.inFlight, first);
    NothingNeedsSync({InstanceObject} + {SurfaceObject} + {DeviceObject} + PresentationKinds + {CommandPoolObject}
                     + {CommandBufferObject});
    ExtendConstruction(OpenPrefix() + p.events + [Created(CommandPoolObject, p.next)]
                       + CommandBufferEvents(cbs, p.chain.framebuffers, p.chain.pipeline),
                       {InstanceObject} + {SurfaceObject} + {DeviceObject} + PresentationKinds + {CommandPoolObject}
                       + {CommandBufferObject},
                       multiset{0} + multiset{1} + multiset{2} + PresentationHandles(p.chain) + multiset{p.next}
                       + multiset(cbs), 0, first,
                       SyncCreateEvents(f.imageAvailable, f.renderFinished, f.inFlight, 0), SyncKinds,
                       SyncHandles(f), first + 6);
  }


  // ---------------------------------------------------------------------------
  // Release

  /** The last destroy calls of Release. */
  function FinalDestroys(f: Fixed): seq<Event> {
    [Destroyed(CommandPoolObject, f.commandPool)] + [Destroyed(DeviceObject, f.device)]
    + [Destroyed(SurfaceObject, f.surface)] + [Destroyed(InstanceObject, f.instance)]
  }

  const FinalKinds: set<ObjectKind> := {CommandPoolObject, DeviceObject, SurfaceObject, InstanceObject}

  const ReleaseKinds: set<ObjectKind> := ChainKinds + SyncKinds + FinalKinds

  lemma FinalDismantles(f: Fixed)
    ensures Dismantled(FinalDestroys(f), FinalKinds,
                       multiset{f.commandPool} + multiset{f.device} + multiset{f.surface} + multiset{f.instance})
  {
    var l1 := [Destroyed(CommandPoolObject, f.commandPool)];
    var l2 := [Destroyed(DeviceObject, f.device)];
    var l3 := [Destroyed(SurfaceObject, f.surface)];
    DestroyOneDismantles(CommandPoolObject, f.commandPool);
    DestroyOneDismantles(DeviceObject, f.device);
    ExtendTeardown(l1, {CommandPoolObject}, multiset{f.commandPool}, l2, {DeviceObject}, multiset{f.device});
    DestroyOneDismantles(SurfaceObject, f.surface);
    ExtendTeardown(l1 + l2, {CommandPoolObject} + {DeviceObject}, multiset{f.commandPool} + multiset{f.device},
                   l3, {SurfaceObject}, multiset{f.surface});
    DestroyOneDismantles(InstanceObject, f.instance);
    ExtendTeardown(l1 + l2 + l3, {CommandPoolObject} + {DeviceObject} + {SurfaceObject},
                   multiset{f.commandPool} + multiset{f.device} + multiset{f.surface},
                   [Destroyed(InstanceObject, f.instance)], {InstanceObject}, multiset{f.instance});
    FinalKindsInOrder();
  }

  /** Release: ReleaseSwapChain, the per-slot semaphores and fences, the
      command pool, the device, the surface and the instance. After the
      initial device idle the calls only destroy, dependents first, each
      owned handle exactly once. */
  function Release(s: Session): (events: seq<Event>)
    requires |s.fixed.imageAvailable| == |s.fixed.renderFinished| == |s.fixed.inFlight|
    ensures |events| > 0 && events[0] == DeviceWaitIdle
    ensures Dismantled(events[1..], ReleaseKinds, LiveHandles(s))
  {
    var f := s.fixed;
    ReleaseDismantles(s);
    ReleaseSwapChain(s.chain)
    + SyncDestroyEvents(f.imageAvailable, f.renderFinished, f.inFlight, 0)
    + FinalDestroys(f)
  }

  /** The chain's destroy calls, then the per-slot loop. */
  lemma ChainThenSyncDismantle(s: Session)
    requires |s.fixed.imageAvailable| == |s.fixed.renderFinished| == |s.fixed.inFlight|
    ensures Dismantled(ChainDestroys(s.chain)
                       + SyncDestroyEvents(s.fixed.imageAvailable, s.fixed.renderFinished, s.fixed.inFlight, 0),
                       ChainKinds + SyncKinds, ChainHandles(s.chain) + SyncHandles(s.fixed))
  {
    var f := s.fixed;
    ChainDestroysDismantles(s.chain);
    SyncDestroyDismantles(f.imageAvailable, f.renderFinished, f.inFlight, 0);
    SlotHandlesAll(f.imageAvailable, f.renderFinished, f.inFlight);
    TeardownThenSync(ChainDestroys(s.chain), ChainHandles(s.chain),
                     SyncDestroyEvents(f.imageAvailable, f.renderFinished, f.inFlight, 0), SyncHandles(f));
  }

  /** Fences and semaphores refer to nothing, so they may follow the chain. */
  lemma TeardownThenSync(chain: seq<Event>, destroyed: multiset<Handle>, sync: seq<Event>, syncDestroyed: multiset<Handle>)
    requires Dismantled(chain, ChainKinds, destroyed)
    requires Dismantled(sync, SyncKinds, syncDestroyed)
    ensures Dismantled(chain + sync, ChainKinds + SyncKinds, destroyed + syncDestroyed)
  {
    SyncNeedsNothing();
    ExtendTeardown(chain, ChainKinds, destroyed, sync, SyncKinds, syncDestroyed);
  }

  lemma SyncNeedsNothing()
    ensures forall x, y :: x in ChainKinds && y in SyncKinds ==> !DependsOn(y, x)
  {
  }

  lemma ReleaseDismantles(s: Session)
    requires |s.fixed.imageAvailable| == |s.fixed.renderFinished| == |s.fixed.inFlight|
    ensures var events := ReleaseSwapChain(s.chain)
              + SyncDestroyEvents(s.fixed.imageAvailable, s.fixed.renderFinished, s.fixed.inFlight, 0)
              + FinalDestroys(s.fixed);
            Dismantled(events[1..], ReleaseKinds, LiveHandles(s))
  {
    var f := s.fixed;
    var chain := ChainDestroys(s.chain);
    var sync := SyncDestroyEvents(f.imageAvailable, f.renderFinished, f.inFlight, 0);
    ChainThenSyncDismantle(s);
    TeardownThenFinal(chain + sync, ChainHandles(s.chain) + SyncHandles(f), f);
    AfterTheIdle(chain, sync, FinalDestroys(f));
    ReleaseOrderIsLive(ChainHandles(s.chain), SyncHandles(f), multiset{f.commandPool}, multiset{f.device},
                       multiset{f.surface}, multiset{f.instance});
  }

  lemma AfterTheIdle(a: seq<Event>, b: seq<Event>, c: seq<Event>)
    ensures ([DeviceWaitIdle] + a + b + c)[1..] == a + b + c
  {
  }

  /** The objects created once by Open go last: none of them depends on a
      generation or a synchronisation object. */
  lemma TeardownThenFinal(events: seq<Event>, destroyed: multiset<Handle>, f: Fixed)
    requires Dismantled(events, ChainKinds + SyncKinds, destroyed)
    ensures Dismantled(events + FinalDestroys(f), ReleaseKinds,
                       destroyed + (multiset{f.commandPool} + multiset{f.device} + multiset{f.surface} + multiset{f.instance}))
  {
    FinalDismantles(f);
    FinalNeedsNothingReleasedBefore();
    ExtendTeardown(events, ChainKinds + SyncKinds, destroyed,
                   FinalDestroys(f), FinalKinds,
                   multiset{f.commandPool} + multiset{f.device} + multiset{f.surface} + multiset{f.instance});
  }

  lemma FinalNeedsNothingReleasedBefore()
    ensures forall x, y :: x in ChainKinds + SyncKinds && y in FinalKinds ==> !DependsOn(y, x)
  {
  }

  /** Over a session's whole life — Open, any trace the invariant allows,
      then Release — every handle created is destroyed exactly once. */
  lemma NothingLeaks(s: Session)
    requires Valid(s)
    ensures CreatedHandles(s.trace + Release(s)) == DestroyedHandles(s.trace + Release(s))
  {
    var events := Release(s);
    AccountsEachAgrees(s.trace, LiveHandles(s));
    IdleThenDismantled(events, ReleaseKinds, LiveHandles(s));
    CreatedHandlesAppend(s.trace, events);
    DestroyedHandlesAppend(s.trace, events);
  }
}
