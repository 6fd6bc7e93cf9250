/** The frame loop (DrawFrame in src/vulkan_window.cpp): wait on and reset
    the current slot's in-flight fence, acquire an image, submit its command
    buffer, present it, then move to the next of the MAX_FRAMES_IN_FLIGHT
    slots. An out-of-date presentation rebuilds the swapchain generation and
    keeps the slot; every other failure is raised as an error. The driver's
    answers to the three calls are inputs. */
module FrameLoop {
  import opened VkTypes
  import opened Resources
  import opened SwapchainSettings
  import opened Lifecycle

  /** What the driver answers during one frame: the status of
      vkAcquireNextImageKHR and the index it hands back, the status of
      vkQueueSubmit and of vkQueuePresentKHR, and the surface the window
      reports should the swapchain have to be rebuilt. */
  datatype FrameResponse = FrameResponse(
    acquire: VkResult,
    imageIndex: nat,
    submit: VkResult,
    present: VkResult,
    surface: SurfaceState)

  /** The session after a frame, and the error raised, if any. An error ends
      the program, so the session it carries is the state at the throw. */
  datatype Outcome = Outcome(session: Session, error: Option<Error>)

  /** Create and destroy events are the only ones the handle bookkeeping sees. */
  predicate HandleFree(e: Event) {
    !e.Created? && !e.Destroyed?
  }

  /** The presentation results after which the frame counts as shown. */
  predicate Shown(status: VkResult) {
    status == Success || status == Suboptimal
  }

  /** The driver's promise: a successful acquire names an existing image. */
  predicate AcquireInRange(s: Session, r: FrameResponse) {
    r.acquire == Success ==> r.imageIndex < |s.chain.commandBuffers|
  }

  /** One call of DrawFrame. Whatever happens the slot index stays in range
      and the objects created once are kept. */
  function DrawFrame(s: Session, r: FrameResponse): (out: Outcome)
    requires Valid(s)
    requires AcquireInRange(s, r)
    requires ExtentBoundsOrdered(r.surface.capabilities)
    ensures out.session.fixed == s.fixed
    ensures out.session.frames.current < MAX_FRAMES_IN_FLIGHT
  {
    var f := s.frames.current;
    var waited := [FenceWaited(f, s.frames.fences[f]), FenceReset(f)];
    var reset := Frames(f, s.frames.fences[f := Unsignalled]);
    if r.acquire != Success then
      Outcome(s.(frames := reset, trace := s.trace + waited + [ImageAcquired(f, r.acquire)]),
              Some(AcquireFailed(r.acquire)))
    else if r.submit != Success then
      var submitted := [ImageAcquired(f, Success), Submitted(f, s.chain.commandBuffers[r.imageIndex], r.submit)];
      Outcome(s.(frames := reset, trace := s.trace + waited + submitted), Some(SubmitFailed(r.submit)))
    else
      var presented := PresentedSession(s, r.imageIndex, r.present);
      PresentedValid(s, r.imageIndex, r.present);
      if r.present == ErrorOutOfDate then
        Outcome(RecreateSwapChain(presented, r.surface), None)
      else if Shown(r.present) then
        Outcome(Advanced(presented), None)
      else
        Outcome(presented, Some(PresentFailed(r.present)))
  }

  /** The slot after `slot`, wrapping round after MAX_FRAMES_IN_FLIGHT. */
  function NextSlot(slot: nat): nat {
    (slot + 1) % MAX_FRAMES_IN_FLIGHT
  }

  /** With two frames in flight the slots alternate. */
  lemma SlotsAlternate()
    ensures NextSlot(0) == 1 && NextSlot(1) == 0
  {
  }

  /** The session with the next slot made current. */
  function Advanced(s: Session): (s': Session)
    requires Valid(s)
    ensures Valid(s')
    ensures s'.frames.current == NextSlot(s.frames.current)
    ensures s'.fixed == s.fixed && s'.chain == s.chain && s'.trace == s.trace
    ensures s'.frames.fences == s.frames.fences && s'.next == s.next
  {
    var s' := s.(frames := Frames(NextSlot(s.frames.current), s.frames.fences));
    AccountsEachAgrees(s.trace, LiveHandles(s));
    SessionValid(s');
    s'
  }

  /** The session once the frame's command buffer is submitted and the image
      handed to presentation: the slot's fence is armed by the submission. */
  function PresentedSession(s: Session, imageIndex: nat, present: VkResult): Session
    requires s.frames.current < |s.frames.fences|
    requires imageIndex < |s.chain.commandBuffers|
  {
    var f := s.frames.current;
    s.(frames := Frames(f, s.frames.fences[f := Pending]),
       trace := s.trace + FrameEvents(f, s.frames.fences[f], s.chain.commandBuffers[imageIndex], imageIndex, present))
  }

  /** The calls of a frame that gets as far as presenting: the acquire and
      the submission succeeded, the presentation returned `present`. */
  function FrameEvents(slot: nat, found: FenceState, commandBuffer: Handle, imageIndex: nat, present: VkResult): seq<Event> {
    [FenceWaited(slot, found), FenceReset(slot), ImageAcquired(slot, Success), Submitted(slot, commandBuffer, Success),
     Presented(slot, imageIndex, present)]
  }

  lemma FrameEventsHandleFree(slot: nat, found: FenceState, commandBuffer: Handle, imageIndex: nat, present: VkResult)
    ensures forall i :: 0 <= i < |FrameEvents(slot, found, commandBuffer, imageIndex, present)| ==>
              HandleFree(FrameEvents(slot, found, commandBuffer, imageIndex, present)[i])
  {
  }

  /** A trace without create or destroy calls creates and destroys nothing. */
  lemma {:induction false} HandleFreeEventsOwnNothing(events: seq<Event>)
    requires forall i :: 0 <= i < |events| ==> HandleFree(events[i])
    ensures CreatedHandles(events) == multiset{} && DestroyedHandles(events) == multiset{}
    decreases |events|
  {
    if |events| > 0 {
      assert forall i :: 0 <= i < |events[1..]| ==> HandleFree(events[1..][i]) by {
        forall i | 0 <= i < |events[1..]| ensures HandleFree(events[1..][i]) {
          assert events[1..][i] == events[i + 1];
        }
      }
      HandleFreeEventsOwnNothing(events[1..]);
      assert HandleFree(events[0]);
    }
  }

  /** Appending calls that neither create nor destroy, with the fences still
      never left reset, keeps the session invariant. */
  lemma HandleFreeStepKeepsValid(s: Session, frames: Frames, events: seq<Event>)
    requires Valid(s)
    requires forall i :: 0 <= i < |events| ==> HandleFree(events[i])
    requires |frames.fences| == MAX_FRAMES_IN_FLIGHT && frames.current < MAX_FRAMES_IN_FLIGHT
    requires forall i :: 0 <= i < |frames.fences| ==> frames.fences[i] != Unsignalled
    ensures Valid(s.(frames := frames, trace := s.trace + events))
  {
    var s' := s.(frames := frames, trace := s.trace + events);
    AccountsEachAgrees(s.trace, LiveHandles(s));
    HandleFreeEventsOwnNothing(events);
    CreatedHandlesAppend(s.trace, events);
    DestroyedHandlesAppend(s.trace, events);
    assert LiveHandles(s') == LiveHandles(s);
    SessionValid(s');
  }

  lemma ArmedFencesNeverReset(fences: seq<FenceState>, slot: nat, state: FenceState, armed: seq<FenceState>)
    requires forall i :: 0 <= i < |fences| ==> fences[i] != Unsignalled
    requires slot < |fences| && state != Unsignalled
    requires armed == fences[slot := state]
    ensures forall i :: 0 <= i < |armed| ==> armed[i] != Unsignalled
  {
  }

  lemma PresentedValid(s: Session, imageIndex: nat, present: VkResult)
    requires Valid(s)
    requires imageIndex < |s.chain.commandBuffers|
    ensures Valid(PresentedSession(s, imageIndex, present))
  {
    var f := s.frames.current;
    FrameEventsHandleFree(f, s.frames.fences[f], s.chain.commandBuffers[imageIndex], imageIndex, present);
    ArmedFencesNeverReset(s.frames.fences, f, Pending, s.frames.fences[f := Pending]);
    HandleFreeStepKeepsValid(s, Frames(f, s.frames.fences[f := Pending]),
                             FrameEvents(f, s.frames.fences[f], s.chain.commandBuffers[imageIndex], imageIndex, present));
  }

  /** After a frame that raised no error the session invariant holds again:
      no fence is left reset without a submission to signal it, every slot
      and image stays in range, and the trace still accounts for every owned
      handle. */
  lemma DrawFrameKeepsValid(s: Session, r: FrameResponse)
    requires Valid(s)
    requires AcquireInRange(s, r)
    requires ExtentBoundsOrdered(r.surface.capabilities)
    ensures DrawFrame(s, r).error.None? ==> Valid(DrawFrame(s, r).session)
  {
    if r.acquire == Success && r.submit == Success {
      var p := PresentedSession(s, r.imageIndex, r.present);
      PresentedValid(s, r.imageIndex, r.present);
      if r.present == ErrorOutOfDate {
        assert DrawFrame(s, r).session == RecreateSwapChain(p, r.surface);
      } else if Shown(r.present) {
        assert DrawFrame(s, r).session == Advanced(p);
      }
    }
  }

  /** Which result raises which error: any acquire status but SUCCESS, any
      submit status but SUCCESS, and any presentation status other than
      SUCCESS, SUBOPTIMAL and OUT_OF_DATE. */
  lemma DrawFrameErrors(s: Session, r: FrameResponse)
    requires Valid(s)
    requires AcquireInRange(s, r)
    requires ExtentBoundsOrdered(r.surface.capabilities)
    ensures DrawFrame(s, r).error == Some(AcquireFailed(r.acquire)) <==> r.acquire != Success
    ensures DrawFrame(s, r).error == Some(SubmitFailed(r.submit)) <==> r.acquire == Success && r.submit != Success
    ensures DrawFrame(s, r).error == Some(PresentFailed(r.present)) <==>
              r.acquire == Success && r.submit == Success && r.present != ErrorOutOfDate && !Shown(r.present)
    ensures DrawFrame(s, r).error.None? <==>
              r.acquire == Success && r.submit == Success && (r.present == ErrorOutOfDate || Shown(r.present))
  {
  }

  /** A shown frame moves on to the next slot, modulo MAX_FRAMES_IN_FLIGHT. */
  lemma ShownFrameAdvances(s: Session, r: FrameResponse)
    requires Valid(s)
    requires r.acquire == Success && r.submit == Success && Shown(r.present)
    requires r.imageIndex < |s.chain.commandBuffers|
    requires ExtentBoundsOrdered(r.surface.capabilities)
    ensures DrawFrame(s, r).error.None?
    ensures DrawFrame(s, r).session.frames.current == NextSlot(s.frames.current)
    ensures DrawFrame(s, r).session.chain == s.chain
  {
    PresentedValid(s, r.imageIndex, r.present);
  }

  /** An out-of-date presentation keeps the slot and rebuilds the swapchain
      generation with as many images as the surface grants. */
  lemma OutOfDateFrameRebuilds(s: Session, r: FrameResponse)
    requires Valid(s)
    requires r.acquire == Success && r.submit == Success && r.present == ErrorOutOfDate
    requires r.imageIndex < |s.chain.commandBuffers|
    requires ExtentBoundsOrdered(r.surface.capabilities)
    ensures DrawFrame(s, r).error.None?
    ensures DrawFrame(s, r).session.frames.current == s.frames.current
    ensures DrawFrame(s, r).session.chain.imageCount == r.surface.grantedImages
  {
    PresentedValid(s, r.imageIndex, r.present);
  }

  /** A frame that raises an error stays on its slot. */
  lemma FailedFrameStays(s: Session, r: FrameResponse)
    requires Valid(s)
    requires AcquireInRange(s, r)
    requires ExtentBoundsOrdered(r.surface.capabilities)
    ensures DrawFrame(s, r).error.Some? ==> DrawFrame(s, r).session.frames.current == s.frames.current
  {
    if r.acquire == Success && r.submit == Success {
      PresentedValid(s, r.imageIndex, r.present);
      if r.present != ErrorOutOfDate && !Shown(r.present) {
        assert DrawFrame(s, r).session == PresentedSession(s, r.imageIndex, r.present);
      }
    }
  }

  /** A failed acquire: the frame waited on its slot's fence, reset it and
      called acquire, which returned the failure; nothing was submitted or
      presented. */
  lemma FailedAcquireCalls(s: Session, r: FrameResponse)
    requires Valid(s)
    requires ExtentBoundsOrdered(r.surface.capabilities)
    requires r.acquire != Success
    ensures var f := s.frames.current;
            DrawFrame(s, r).session.trace
            == s.trace + [FenceWaited(f, s.frames.fences[f]), FenceReset(f), ImageAcquired(f, r.acquire)]
  {
  }

  /** A failed submission: after the wait, the reset and a successful
      acquire, the submission of the acquired image's command buffer returned
      the failure; nothing was presented. */
  lemma FailedSubmitCalls(s: Session, r: FrameResponse)
    requires Valid(s)
    requires AcquireInRange(s, r)
    requires ExtentBoundsOrdered(r.surface.capabilities)
    requires r.acquire == Success && r.submit != Success
    ensures var f := s.frames.current;
            DrawFrame(s, r).session.trace
            == s.trace + [FenceWaited(f, s.frames.fences[f]), FenceReset(f), ImageAcquired(f, Success),
                          Submitted(f, s.chain.commandBuffers[r.imageIndex], r.submit)]
  {
  }

  /** A submitted frame: wait, reset, acquire, the submission of the acquired
      image's command buffer against the slot's fence, and the presentation
      of that image, in this order and nothing else, unless the presentation
      reports the swapchain out of date. */
  lemma SubmittedFrameCalls(s: Session, r: FrameResponse)
    requires Valid(s)
    requires ExtentBoundsOrdered(r.surface.capabilities)
    requires r.acquire == Success && r.submit == Success && r.present != ErrorOutOfDate
    requires r.imageIndex < |s.chain.commandBuffers|
    ensures var f := s.frames.current;
            DrawFrame(s, r).session.trace
            == s.trace + FrameEvents(f, s.frames.fences[f], s.chain.commandBuffers[r.imageIndex], r.imageIndex, r.present)
  {
    PresentedValid(s, r.imageIndex, r.present);
    if Shown(r.present) {
      assert DrawFrame(s, r).session == Advanced(PresentedSession(s, r.imageIndex, r.present));
    }
  }

  /** An out-of-date frame makes the same calls as a presented one, then
      idles the device and tears the swapchain generation down before
      rebuilding it. */
  lemma OutOfDateFrameCalls(s: Session, r: FrameResponse)
    requires Valid(s)
    requires ExtentBoundsOrdered(r.surface.capabilities)
    requires r.acquire == Success && r.submit == Success && r.present == ErrorOutOfDate
    requires r.imageIndex < |s.chain.commandBuffers|
    ensures var t := DrawFrame(s, r).session.trace;
            var f := s.frames.current;
            var calls := FrameEvents(f, s.frames.fences[f], s.chain.commandBuffers[r.imageIndex], r.imageIndex, r.present);
            && |s.trace| + |calls| < |t|
            && t[..|s.trace| + |calls|] == s.trace + calls
            && t[|s.trace| + |calls|] == DeviceWaitIdle
  {
    var p := PresentedSession(s, r.imageIndex, r.present);
    PresentedValid(s, r.imageIndex, r.present);
    RecreationIsTeardownThenRebuild(p, r.surface);
    assert DrawFrame(s, r).session == RecreateSwapChain(p, r.surface);
  }

  /** A frame that fails at acquire or submit leaves the slot's fence reset
      with nothing submitted to signal it, so the session invariant no longer
      holds; the thrown error ends the program. */
  lemma FailedFrameLeavesFenceReset(s: Session, r: FrameResponse)
    requires Valid(s)
    requires AcquireInRange(s, r)
    requires ExtentBoundsOrdered(r.surface.capabilities)
    requires r.acquire != Success || r.submit != Success
    ensures DrawFrame(s, r).session.frames.fences[s.frames.current] == Unsignalled
    ensures !Valid(DrawFrame(s, r).session)
  {
  }

  /** A frame in which every call succeeds or the image is merely suboptimal,
      with the image index the driver may hand back. */
  predicate SteadyFrame(r: FrameResponse, imageCount: nat) {
    && r.acquire == Success
    && r.submit == Success
    && Shown(r.present)
    && r.imageIndex < imageCount
    && ExtentBoundsOrdered(r.surface.capabilities)
  }

  predicate AllSteady(responses: seq<FrameResponse>, imageCount: nat) {
    forall i :: 0 <= i < |responses| ==> SteadyFrame(responses[i], imageCount)
  }

  /** One steady frame (one pass of the loop body) keeps the session
      invariant, the objects created once and the swapchain generation, and
      moves on to the next slot. */
  method DrawSteadyFrame(s: Session, r: FrameResponse) returns (s': Session)
    requires Valid(s)
    requires SteadyFrame(r, |s.chain.commandBuffers|)
    ensures Valid(s')
    ensures s'.fixed == s.fixed && s'.chain == s.chain
    ensures s'.frames.current == NextSlot(s.frames.current)
  {
    ShownFrameAdvances(s, r);
    DrawFrameKeepsValid(s, r);
    s' := DrawFrame(s, r).session;
  }

  /** The window's loop (Window::Loop calling Draw): frames drawn one after
      the other while none raises an error. */
  method DrawFrames(s: Session, responses: seq<FrameResponse>) returns (s': Session)
    requires Valid(s)
    requires AllSteady(responses, |s.chain.commandBuffers|)
    ensures Valid(s')
    ensures s'.fixed == s.fixed && s'.chain == s.chain
    ensures s'.frames.current == SlotAfter(s.frames.current, |responses|)
  {
    s' := s;
    var i := 0;
    while i < |responses|
      invariant i <= |responses|
      invariant Valid(s')
      invariant s'.fixed == s.fixed && s'.chain == s.chain
      invariant s'.frames.current == SlotAfter(s.frames.current, i)
    {
      s' := DrawSteadyFrame(s', responses[i]);
      assert s'.frames.current == SlotAfter(s.frames.current, i + 1) by {
        SlotAfterStep(s.frames.current, i);
      }
      i := i + 1;
    }
  }

  /** The slot reached from `current` after `n` shown frames, one step at a
      time. */
  function SlotAfter(current: nat, n: nat): nat
    decreases n
  {
    if n == 0 then current else SlotAfter(NextSlot(current), n - 1)
  }

  /** One more shown frame moves on from where the first n left off. */
  lemma {:induction false} SlotAfterStep(current: nat, n: nat)
    ensures SlotAfter(current, n + 1) == NextSlot(SlotAfter(current, n))
    decreases n
  {
    if n > 0 {
      SlotAfterStep(NextSlot(current), n - 1);
    }
  }

  /** n shown frames move the slot index on by n, modulo MAX_FRAMES_IN_FLIGHT. */
  lemma {:induction false} SlotAfterIsModulo(current: nat, n: nat)
    requires current < MAX_FRAMES_IN_FLIGHT
    ensures SlotAfter(current, n) == (current + n) % MAX_FRAMES_IN_FLIGHT
    decreases n
  {
    if n > 0 {
      SlotAfterIsModulo(NextSlot(current), n - 1);
    }
  }

  /** Three frames from slot 0: a shown frame moves to slot 1, an out-of-date
      presentation rebuilds the swapchain and stays on slot 1, and the next
      shown frame returns to slot 0. */
  lemma ThreeFrames(s: Session, shown: FrameResponse, outdated: FrameResponse, again: FrameResponse)
    requires Valid(s) && s.frames.current == 0
    requires SteadyFrame(shown, |s.chain.commandBuffers|)
    requires outdated.acquire == Success && outdated.submit == Success && outdated.present == ErrorOutOfDate
    requires outdated.imageIndex < |s.chain.commandBuffers| && ExtentBoundsOrdered(outdated.surface.capabilities)
    requires SteadyFrame(again, outdated.surface.grantedImages)
    ensures var s1 := DrawFrame(s, shown).session;
            && s1.frames.current == 1
            && AcquireInRange(s1, outdated)
            && var s2 := DrawFrame(s1, outdated).session;
               && s2.frames.current == 1
               && AcquireInRange(s2, again)
               && DrawFrame(s2, again).error.None?
               && DrawFrame(s2, again).session.frames.current == 0
  {
    SlotsAlternate();
    ShownFrameAdvances(s, shown);
    DrawFrameKeepsValid(s, shown);
    var s1 := DrawFrame(s, shown).session;
    assert s1.frames.current == 1 && Valid(s1);
    OutOfDateFrameRebuilds(s1, outdated);
    DrawFrameKeepsValid(s1, outdated);
    var s2 := DrawFrame(s1, outdated).session;
    assert s2.frames.current == 1 && Valid(s2);
    assert |s2.chain.commandBuffers| == outdated.surface.grantedImages;
    ShownFrameAdvances(s2, again);
  }

  /** A shown frame first waits on its slot's fence as it finds it, arms
      that fence with its submission, keeps the other slot's fence, and moves
      on to the next slot. */
  lemma ShownFrameArmsFence(s: Session, r: FrameResponse)
    requires Valid(s)
    requires SteadyFrame(r, |s.chain.commandBuffers|)
    ensures var s' := DrawFrame(s, r).session;
            var f := s.frames.current;
            && Valid(s') && s'.chain == s.chain
            && s'.frames.current == NextSlot(f)
            && s'.frames.fences == s.frames.fences[f := Pending]
            && |s.trace| < |s'.trace| && s'.trace[|s.trace|] == FenceWaited(f, s.frames.fences[f])
  {
    PresentedValid(s, r.imageIndex, r.present);
    ShownFrameAdvances(s, r);
    DrawFrameKeepsValid(s, r);
    SubmittedFrameCalls(s, r);
    assert DrawFrame(s, r).session == Advanced(PresentedSession(s, r.imageIndex, r.present));
  }

  /** A frame that presents its image, written out on its own: the five calls
      of the frame are appended, the slot's fence is left armed, and the next
      slot becomes current. */
  function ShownFrame(s: Session, r: FrameResponse): (s': Session)
    requires Valid(s)
    requires SteadyFrame(r, |s.chain.commandBuffers|)
    ensures Valid(s') && s'.chain == s.chain
    ensures s'.frames.current == NextSlot(s.frames.current)
    ensures s'.frames.fences == s.frames.fences[s.frames.current := Pending]
    ensures |s.trace| < |s'.trace| && s'.trace[|s.trace|] == FenceWaited(s.frames.current, s.frames.fences[s.frames.current])
  {
    var f := s.frames.current;
    var calls := FrameEvents(f, s.frames.fences[f], s.chain.commandBuffers[r.imageIndex], r.imageIndex, r.present);
    var frames := Frames(NextSlot(f), s.frames.fences[f := Pending]);
    FrameEventsHandleFree(f, s.frames.fences[f], s.chain.commandBuffers[r.imageIndex], r.imageIndex, r.present);
    ArmedFencesNeverReset(s.frames.fences, f, Pending, frames.fences);
    HandleFreeStepKeepsValid(s, frames, calls);
    s.(frames := frames, trace := s.trace + calls)
  }

  /** DrawFrame, run on a steady frame, raises no error and yields exactly the
      session ShownFrame writes out. */
  lemma ShownFrameIsDrawFrame(s: Session, r: FrameResponse)
    requires Valid(s)
    requires SteadyFrame(r, |s.chain.commandBuffers|)
    ensures DrawFrame(s, r).error.None?
    ensures ShownFrame(s, r) == DrawFrame(s, r).session
  {
    PresentedValid(s, r.imageIndex, r.present);
    assert DrawFrame(s, r).session == Advanced(PresentedSession(s, r.imageIndex, r.present));
  }

  /** The guard on frames in flight: of three shown frames in a row, the first
      two wait on the fences of the two slots as they found them, and the third
      waits again on the first frame's fence, which that frame's submission
      still holds. */
  lemma ThirdFrameWaitsOnFirst(s: Session, r1: FrameResponse, r2: FrameResponse, r3: FrameResponse)
    requires Valid(s)
    requires SteadyFrame(r1, |s.chain.commandBuffers|)
    requires SteadyFrame(r2, |s.chain.commandBuffers|)
    requires SteadyFrame(r3, |s.chain.commandBuffers|)
    ensures var f := s.frames.current;
            var g := NextSlot(f);
            var s1 := ShownFrame(s, r1);
            var s2 := ShownFrame(s1, r2);
            var s3 := ShownFrame(s2, r3);
            && g != f
            && s1.trace[|s.trace|] == FenceWaited(f, s.frames.fences[f])
            && s2.trace[|s1.trace|] == FenceWaited(g, s.frames.fences[g])
            && s3.trace[|s2.trace|] == FenceWaited(f, Pending)
  {
    OtherSlot(s.frames.current);
  }

  /** With two frames in flight the next slot is the other one, and the one
      after it is the slot itself again. */
  lemma OtherSlot(f: nat)
    requires f < MAX_FRAMES_IN_FLIGHT
    ensures NextSlot(f) != f && NextSlot(NextSlot(f)) == f
  {
    SlotsAlternate();
  }

  /** Right after Open both fences are signalled: the first two frames pass
      their waits, and the third is the first that has to wait for the GPU. */
  lemma FreshSessionWaitsOnThirdFrame(s: Session, r1: FrameResponse, r2: FrameResponse, r3: FrameResponse)
    requires Valid(s) && s.frames == Frames(0, [Signalled, Signalled])
    requires SteadyFrame(r1, |s.chain.commandBuffers|)
    requires SteadyFrame(r2, |s.chain.commandBuffers|)
    requires SteadyFrame(r3, |s.chain.commandBuffers|)
    ensures var s1 := ShownFrame(s, r1);
            var s2 := ShownFrame(s1, r2);
            var s3 := ShownFrame(s2, r3);
            && s1.trace[|s.trace|] == FenceWaited(0, Signalled)
            && s2.trace[|s1.trace|] == FenceWaited(1, Signalled)
            && s3.trace[|s2.trace|] == FenceWaited(0, Pending)
  {
    ThirdFrameWaitsOnFirst(s, r1, r2, r3);
    SlotsAlternate();
  }
}
