/** Vulkan objects as opaque handles, and the calls the bootstrap code makes
    as events of a trace: every vkCreate or vkAllocate call that yields a handle
    is a `Created` event, every vkDestroy or vkFree of a handle a `Destroyed`
    event. The frame loop's acquire, submit and present calls are recorded
    with the result the driver returned, whether it succeeded or not. This module also states the two ordering disciplines a trace can
    keep and the bookkeeping of which handles a trace destroys. */
module Resources {
  import opened VkTypes

  datatype ObjectKind =
    | InstanceObject
    | SurfaceObject
    | DeviceObject
    | SwapchainObject
    | ImageViewObject
    | RenderPassObject
    | ShaderModuleObject
    | PipelineLayoutObject
    | PipelineObject
    | FramebufferObject
    | CommandPoolObject
    | CommandBufferObject
    | SemaphoreObject
    | FenceObject

  /** A fence as the frame loop sees it: signalled, reset and not yet
      submitted, or armed by a submission the GPU has not finished. */
  datatype FenceState = Signalled | Unsignalled | Pending

  datatype Event =
    | Created(kind: ObjectKind, handle: Handle)
    | Destroyed(kind: ObjectKind, handle: Handle)
    | DeviceWaitIdle
    | Recorded(commandBuffer: Handle, framebuffer: Handle, pipeline: Handle)
    | FenceWaited(slot: nat, found: FenceState)
    | FenceReset(slot: nat)
    | ImageAcquired(slot: nat, status: VkResult)
    | Submitted(slot: nat, commandBuffer: Handle, status: VkResult)
    | Presented(slot: nat, imageIndex: nat, status: VkResult)

  /** Creation dependency: the create call for an object of kind `a` names an
      object of kind `b` (a parent handle or an entry of its create info). */
  predicate DependsOn(a: ObjectKind, b: ObjectKind) {
    match a
    case InstanceObject => false
    case SurfaceObject => b == InstanceObject
    case DeviceObject => b == InstanceObject
    case SwapchainObject => b == DeviceObject || b == SurfaceObject
    case ImageViewObject => b == DeviceObject || b == SwapchainObject
    case RenderPassObject => b == DeviceObject
    case ShaderModuleObject => b == DeviceObject
    case PipelineLayoutObject => b == DeviceObject
    case PipelineObject =>
      b == DeviceObject || b == RenderPassObject || b == PipelineLayoutObject || b == ShaderModuleObject
    case FramebufferObject => b == DeviceObject || b == RenderPassObject || b == ImageViewObject
    case CommandPoolObject => b == DeviceObject
    case CommandBufferObject => b == DeviceObject || b == CommandPoolObject
    case SemaphoreObject => b == DeviceObject
    case FenceObject => b == DeviceObject
  }

  /** Teardown discipline: nothing destroyed later depends on something
      destroyed earlier (dependents go first). */
  predicate DependentsDestroyedFirst(events: seq<Event>) {
    forall i, j :: 0 <= i < j < |events| && events[i].Destroyed? && events[j].Destroyed? ==>
      !DependsOn(events[j].kind, events[i].kind)
  }

  /** Construction discipline: nothing created earlier depends on something
      created later (dependencies go first). */
  predicate DependenciesCreatedFirst(events: seq<Event>) {
    forall i, j :: 0 <= i < j < |events| && events[i].Created? && events[j].Created? ==>
      !DependsOn(events[i].kind, events[j].kind)
  }

  predicate DestroysOnly(events: seq<Event>, kinds: set<ObjectKind>) {
    forall i :: 0 <= i < |events| && events[i].Destroyed? ==> events[i].kind in kinds
  }

  predicate CreatesOnly(events: seq<Event>, kinds: set<ObjectKind>) {
    forall i :: 0 <= i < |events| && events[i].Created? ==> events[i].kind in kinds
  }

  /** No kind of the set depends on another kind of the set. */
  predicate Independent(kinds: set<ObjectKind>) {
    forall a, b :: a in kinds && b in kinds ==> !DependsOn(a, b)
  }

  /** `count` fresh handles, drawn consecutively from `first`. */
  function Range(first: nat, count: nat): (handles: seq<Handle>)
    ensures |handles| == count
    ensures forall i :: 0 <= i < count ==> handles[i] == first + i
  {
    seq(count, i => first + i)
  }

  function CreateAll(kind: ObjectKind, handles: seq<Handle>): (events: seq<Event>)
    ensures |events| == |handles|
    ensures forall i :: 0 <= i < |handles| ==> events[i] == Created(kind, handles[i])
  {
    seq(|handles|, i requires 0 <= i < |handles| => Created(kind, handles[i]))
  }

  function DestroyAll(kind: ObjectKind, handles: seq<Handle>): (events: seq<Event>)
    ensures |events| == |handles|
    ensures forall i :: 0 <= i < |handles| ==> events[i] == Destroyed(kind, handles[i])
  {
    seq(|handles|, i requires 0 <= i < |handles| => Destroyed(kind, handles[i]))
  }

  /** The handles a trace destroys, with multiplicity. */
  function DestroyedHandles(events: seq<Event>): multiset<Handle>
    decreases |events|
  {
    if |events| == 0 then multiset{}
    else
      (if events[0].Destroyed? then multiset{events[0].handle} else multiset{})
      + DestroyedHandles(events[1..])
  }

  /** The handles a trace creates, with multiplicity. */
  function CreatedHandles(events: seq<Event>): multiset<Handle>
    decreases |events|
  {
    if |events| == 0 then multiset{}
    else
      (if events[0].Created? then multiset{events[0].handle} else multiset{})
      + CreatedHandles(events[1..])
  }

  lemma {:induction false} DestroyedHandlesAppend(a: seq<Event>, b: seq<Event>)
    ensures DestroyedHandles(a + b) == DestroyedHandles(a) + DestroyedHandles(b)
    decreases |a|
  {
    if |a| > 0 {
      assert (a + b)[0] == a[0];
      assert (a + b)[1..] == a[1..] + b;
      DestroyedHandlesAppend(a[1..], b);
    } else {
      assert a + b == b;
    }
  }

  lemma {:induction false} CreatedHandlesAppend(a: seq<Event>, b: seq<Event>)
    ensures CreatedHandles(a + b) == CreatedHandles(a) + CreatedHandles(b)
    decreases |a|
  {
    if |a| > 0 {
      assert (a + b)[0] == a[0];
      assert (a + b)[1..] == a[1..] + b;
      CreatedHandlesAppend(a[1..], b);
    } else {
      assert a + b == b;
    }
  }

  lemma SingleEventHandles(e: Event)
    ensures CreatedHandles([e]) == if e.Created? then multiset{e.handle} else multiset{}
    ensures DestroyedHandles([e]) == if e.Destroyed? then multiset{e.handle} else multiset{}
  {
    assert [e][1..] == [];
  }

  /** The kinds a trace creates. */
  function CreatedKinds(events: seq<Event>): set<ObjectKind>
    decreases |events|
  {
    if |events| == 0 then {}
    else (if events[0].Created? then {events[0].kind} else {}) + CreatedKinds(events[1..])
  }

  /** The kinds a trace destroys. */
  function DestroyedKinds(events: seq<Event>): set<ObjectKind>
    decreases |events|
  {
    if |events| == 0 then {}
    else (if events[0].Destroyed? then {events[0].kind} else {}) + DestroyedKinds(events[1..])
  }

  /** The construction discipline, one event at a time: a created object
      depends on nothing created after it. */
  predicate CreationOrdered(events: seq<Event>)
    decreases |events|
  {
    |events| == 0 ||
    (&& CreationOrdered(events[1..])
     && (events[0].Created? ==>
           forall k :: k in CreatedKinds(events[1..]) ==> !DependsOn(events[0].kind, k)))
  }

  /** The teardown discipline, one event at a time: nothing destroyed after
      an object depends on it. */
  predicate DestructionOrdered(events: seq<Event>)
    decreases |events|
  {
    |events| == 0 ||
    (&& DestructionOrdered(events[1..])
     && (events[0].Destroyed? ==>
           forall k :: k in DestroyedKinds(events[1..]) ==> !DependsOn(k, events[0].kind)))
  }

  /** Every event of the trace is a destroy call. */
  predicate OnlyDestroys(events: seq<Event>)
    decreases |events|
  {
    |events| == 0 || (events[0].Destroyed? && OnlyDestroys(events[1..]))
  }

  lemma {:induction false} CreatedKindsAppend(a: seq<Event>, b: seq<Event>)
    ensures CreatedKinds(a + b) == CreatedKinds(a) + CreatedKinds(b)
    decreases |a|
  {
    if |a| > 0 {
      assert (a + b)[0] == a[0];
      assert (a + b)[1..] == a[1..] + b;
      CreatedKindsAppend(a[1..], b);
    } else {
      assert a + b == b;
    }
  }

  lemma {:induction false} DestroyedKindsAppend(a: seq<Event>, b: seq<Event>)
    ensures DestroyedKinds(a + b) == DestroyedKinds(a) + DestroyedKinds(b)
    decreases |a|
  {
    if |a| > 0 {
      assert (a + b)[0] == a[0];
      assert (a + b)[1..] == a[1..] + b;
      DestroyedKindsAppend(a[1..], b);
    } else {
      assert a + b == b;
    }
  }

  /** CreatedKinds holds exactly the kinds of the trace's create calls. */
  lemma {:induction false} CreatedKindsMembers(events: seq<Event>)
    ensures forall i :: 0 <= i < |events| && events[i].Created? ==> events[i].kind in CreatedKinds(events)
    ensures forall k :: k in CreatedKinds(events) ==>
              exists i :: 0 <= i < |events| && events[i].Created? && events[i].kind == k
    decreases |events|
  {
    if |events| > 0 {
      var rest := events[1..];
      CreatedKindsMembers(rest);
      forall i | 1 <= i < |events| ensures events[i] == rest[i - 1] { }
      forall k | k in CreatedKinds(events)
        ensures exists i :: 0 <= i < |events| && events[i].Created? && events[i].kind == k
      {
        if !(events[0].Created? && events[0].kind == k) {
          assert k in CreatedKinds(rest);
          var i :| 0 <= i < |rest| && rest[i].Created? && rest[i].kind == k;
          assert events[i + 1] == rest[i];
        }
      }
    }
  }

  /** DestroyedKinds holds exactly the kinds of the trace's destroy calls. */
  lemma {:induction false} DestroyedKindsMembers(events: seq<Event>)
    ensures forall i :: 0 <= i < |events| && events[i].Destroyed? ==> events[i].kind in DestroyedKinds(events)
    ensures forall k :: k in DestroyedKinds(events) ==>
              exists i :: 0 <= i < |events| && events[i].Destroyed? && events[i].kind == k
    decreases |events|
  {
    if |events| > 0 {
      var rest := events[1..];
      DestroyedKindsMembers(rest);
      forall i | 1 <= i < |events| ensures events[i] == rest[i - 1] { }
      forall k | k in DestroyedKinds(events)
        ensures exists i :: 0 <= i < |events| && events[i].Destroyed? && events[i].kind == k
      {
        if !(events[0].Destroyed? && events[0].kind == k) {
          assert k in DestroyedKinds(rest);
          var i :| 0 <= i < |rest| && rest[i].Destroyed? && rest[i].kind == k;
          assert events[i + 1] == rest[i];
        }
      }
    }
  }

  /** The kind summaries agree with the per-event definitions. */
  lemma KindSummariesAgree(events: seq<Event>, kinds: set<ObjectKind>)
    ensures CreatedKinds(events) <= kinds <==> CreatesOnly(events, kinds)
    ensures DestroyedKinds(events) <= kinds <==> DestroysOnly(events, kinds)
  {
    CreatedKindsMembers(events);
    DestroyedKindsMembers(events);
  }

  /** The event-at-a-time construction discipline is the pairwise one. */
  lemma {:induction false} CreationOrderedAgrees(events: seq<Event>)
    ensures CreationOrdered(events) <==> DependenciesCreatedFirst(events)
    decreases |events|
  {
    if |events| > 0 {
      var rest := events[1..];
      CreationOrderedAgrees(rest);
      CreatedKindsMembers(rest);
      forall i | 1 <= i < |events| ensures events[i] == rest[i - 1] { }
      if CreationOrdered(events) {
        forall i, j | 0 <= i < j < |events| && events[i].Created? && events[j].Created?
          ensures !DependsOn(events[i].kind, events[j].kind)
        {
          if i == 0 {
            assert rest[j - 1].kind in CreatedKinds(rest);
          } else {
            assert rest[i - 1] == events[i] && rest[j - 1] == events[j];
          }
        }
      }
      if DependenciesCreatedFirst(events) {
        assert DependenciesCreatedFirst(rest) by {
          forall i, j | 0 <= i < j < |rest| && rest[i].Created? && rest[j].Created?
            ensures !DependsOn(rest[i].kind, rest[j].kind)
          {
            assert events[i + 1] == rest[i] && events[j + 1] == rest[j];
          }
        }
        if events[0].Created? {
          forall k | k in CreatedKinds(rest) ensures !DependsOn(events[0].kind, k) {
            var j :| 0 <= j < |rest| && rest[j].Created? && rest[j].kind == k;
            assert events[j + 1] == rest[j];
          }
        }
      }
    }
  }

  /** The event-at-a-time teardown discipline is the pairwise one. */
  lemma {:induction false} DestructionOrderedAgrees(events: seq<Event>)
    ensures DestructionOrdered(events) <==> DependentsDestroyedFirst(events)
    decreases |events|
  {
    if |events| > 0 {
      var rest := events[1..];
      DestructionOrderedAgrees(rest);
      DestroyedKindsMembers(rest);
      forall i | 1 <= i < |events| ensures events[i] == rest[i - 1] { }
      if DestructionOrdered(events) {
        forall i, j | 0 <= i < j < |events| && events[i].Destroyed? && events[j].Destroyed?
          ensures !DependsOn(events[j].kind, events[i].kind)
        {
          if i == 0 {
            assert rest[j - 1].kind in DestroyedKinds(rest);
          } else {
            assert rest[i - 1] == events[i] && rest[j - 1] == events[j];
          }
        }
      }
      if DependentsDestroyedFirst(events) {
        assert DependentsDestroyedFirst(rest) by {
          forall i, j | 0 <= i < j < |rest| && rest[i].Destroyed? && rest[j].Destroyed?
            ensures !DependsOn(rest[j].kind, rest[i].kind)
          {
            assert events[i + 1] == rest[i] && events[j + 1] == rest[j];
          }
        }
        if events[0].Destroyed? {
          forall k | k in DestroyedKinds(rest) ensures !DependsOn(k, events[0].kind) {
            var j :| 0 <= j < |rest| && rest[j].Destroyed? && rest[j].kind == k;
            assert events[j + 1] == rest[j];
          }
        }
      }
    }
  }

  lemma {:induction false} OnlyDestroysAgrees(events: seq<Event>)
    ensures OnlyDestroys(events) <==> forall i :: 0 <= i < |events| ==> events[i].Destroyed?
    decreases |events|
  {
    if |events| > 0 {
      OnlyDestroysAgrees(events[1..]);
      forall i | 1 <= i < |events| ensures events[i] == events[1..][i - 1] { }
    }
  }

  lemma {:induction false} CreationOrderedAppend(a: seq<Event>, b: seq<Event>)
    requires CreationOrdered(a) && CreationOrdered(b)
    requires forall x, y :: x in CreatedKinds(a) && y in CreatedKinds(b) ==> !DependsOn(x, y)
    ensures CreationOrdered(a + b)
    decreases |a|
  {
    if |a| > 0 {
      assert (a + b)[0] == a[0];
      assert (a + b)[1..] == a[1..] + b;
      CreatedKindsAppend([a[0]], a[1..]);
      assert [a[0]] + a[1..] == a;
      CreationOrderedAppend(a[1..], b);
      CreatedKindsAppend(a[1..], b);
    } else {
      assert a + b == b;
    }
  }

  lemma {:induction false} DestructionOrderedAppend(a: seq<Event>, b: seq<Event>)
    requires DestructionOrdered(a) && DestructionOrdered(b)
    requires forall x, y :: x in DestroyedKinds(a) && y in DestroyedKinds(b) ==> !DependsOn(y, x)
    ensures DestructionOrdered(a + b)
    decreases |a|
  {
    if |a| > 0 {
      assert (a + b)[0] == a[0];
      assert (a + b)[1..] == a[1..] + b;
      DestroyedKindsAppend([a[0]], a[1..]);
      assert [a[0]] + a[1..] == a;
      DestructionOrderedAppend(a[1..], b);
      DestroyedKindsAppend(a[1..], b);
    } else {
      assert a + b == b;
    }
  }

  lemma {:induction false} OnlyDestroysAppend(a: seq<Event>, b: seq<Event>)
    requires OnlyDestroys(a) && OnlyDestroys(b)
    ensures OnlyDestroys(a + b)
    decreases |a|
  {
    if |a| > 0 {
      assert (a + b)[0] == a[0];
      assert (a + b)[1..] == a[1..] + b;
      OnlyDestroysAppend(a[1..], b);
    } else {
      assert a + b == b;
    }
  }

  /** A trace whose created kinds are pairwise independent is ordered. */
  lemma {:induction false} IndependentCreatesOrdered(events: seq<Event>, kinds: set<ObjectKind>)
    requires CreatedKinds(events) <= kinds && Independent(kinds)
    ensures CreationOrdered(events)
    decreases |events|
  {
    if |events| > 0 {
      assert events == [events[0]] + events[1..];
      CreatedKindsAppend([events[0]], events[1..]);
      IndependentCreatesOrdered(events[1..], kinds);
    }
  }

  lemma {:induction false} IndependentDestroysOrdered(events: seq<Event>, kinds: set<ObjectKind>)
    requires DestroyedKinds(events) <= kinds && Independent(kinds)
    ensures DestructionOrdered(events)
    decreases |events|
  {
    if |events| > 0 {
      assert events == [events[0]] + events[1..];
      DestroyedKindsAppend([events[0]], events[1..]);
      IndependentDestroysOrdered(events[1..], kinds);
    }
  }

  /** A trace accounts for `owned` when what it created is exactly `owned`
      plus what it destroyed again. */
  predicate Accounts(events: seq<Event>, owned: multiset<Handle>) {
    CreatedHandles(events) == owned + DestroyedHandles(events)
  }

  /** Accounts stated handle by handle: each handle is created as often as
      it is owned plus destroyed. */
  ghost predicate AccountsEach(events: seq<Event>, owned: multiset<Handle>) {
    forall h :: CreatedHandles(events)[h] == owned[h] + DestroyedHandles(events)[h]
  }

  lemma AccountsEachAgrees(events: seq<Event>, owned: multiset<Handle>)
    ensures AccountsEach(events, owned) <==> Accounts(events, owned)
  {
  }

  lemma AccountsAppend(a: seq<Event>, ownedA: multiset<Handle>, b: seq<Event>, ownedB: multiset<Handle>)
    requires Accounts(a, ownedA) && Accounts(b, ownedB)
    ensures Accounts(a + b, ownedA + ownedB)
  {
    CreatedHandlesAppend(a, b);
    DestroyedHandlesAppend(a, b);
  }

  /** Destroying a list of handles destroys exactly those handles. */
  lemma {:induction false} DestroyAllDestroysEach(kind: ObjectKind, handles: seq<Handle>)
    ensures DestroyedHandles(DestroyAll(kind, handles)) == multiset(handles)
    ensures CreatedHandles(DestroyAll(kind, handles)) == multiset{}
    ensures DestroyedKinds(DestroyAll(kind, handles)) <= {kind}
    ensures CreatedKinds(DestroyAll(kind, handles)) == {}
    ensures OnlyDestroys(DestroyAll(kind, handles)) && CreationOrdered(DestroyAll(kind, handles))
    decreases |handles|
  {
    if |handles| > 0 {
      assert DestroyAll(kind, handles)[1..] == DestroyAll(kind, handles[1..]);
      assert handles == [handles[0]] + handles[1..];
      DestroyAllDestroysEach(kind, handles[1..]);
    }
  }

  /** Creating a list of handles creates exactly those handles. */
  lemma {:induction false} CreateAllCreatesEach(kind: ObjectKind, handles: seq<Handle>)
    ensures CreatedHandles(CreateAll(kind, handles)) == multiset(handles)
    ensures DestroyedHandles(CreateAll(kind, handles)) == multiset{}
    ensures CreatedKinds(CreateAll(kind, handles)) <= {kind}
    decreases |handles|
  {
    if |handles| > 0 {
      assert CreateAll(kind, handles)[1..] == CreateAll(kind, handles[1..]);
      assert handles == [handles[0]] + handles[1..];
      CreateAllCreatesEach(kind, handles[1..]);
    }
  }

  /** A construction block: created dependencies first, only the given kinds
      created, and every created handle in `owned` or destroyed again; the
      owned handles were drawn from [start, next). */
  predicate Constructed(events: seq<Event>, kinds: set<ObjectKind>, owned: multiset<Handle>,
                        start: Handle, next: Handle) {
    && CreationOrdered(events)
    && CreatedKinds(events) <= kinds
    && Accounts(events, owned)
    && start <= next
    && (forall h :: h in owned ==> start <= h < next)
  }

  /** What a construction block promises, in per-event terms. */
  lemma ConstructedMeans(events: seq<Event>, kinds: set<ObjectKind>, owned: multiset<Handle>,
                         start: Handle, next: Handle)
    requires Constructed(events, kinds, owned, start, next)
    ensures DependenciesCreatedFirst(events)
    ensures CreatesOnly(events, kinds)
    ensures CreatedHandles(events) == owned + DestroyedHandles(events)
  {
    CreationOrderedAgrees(events);
    KindSummariesAgree(events, kinds);
  }

  /** Appending a block built after `events` from handles at or above `next`,
      none of whose kinds an earlier kind depends on. */
  lemma ExtendConstruction(events: seq<Event>, kinds: set<ObjectKind>, owned: multiset<Handle>,
                           start: Handle, next: Handle,
                           block: seq<Event>, blockKinds: set<ObjectKind>, blockOwned: multiset<Handle>,
                           next': Handle)
    requires Constructed(events, kinds, owned, start, next)
    requires Constructed(block, blockKinds, blockOwned, next, next')
    requires forall x, y :: x in kinds && y in blockKinds ==> !DependsOn(x, y)
    ensures Constructed(events + block, kinds + blockKinds, owned + blockOwned, start, next')
  {
    CreationOrderedAppend(events, block);
    CreatedKindsAppend(events, block);
    AccountsAppend(events, owned, block, blockOwned);
  }

  /** A teardown block: only destroy calls, of the given kinds, dependents
      first, destroying exactly `destroyed`. */
  predicate Dismantled(events: seq<Event>, kinds: set<ObjectKind>, destroyed: multiset<Handle>) {
    && OnlyDestroys(events)
    && DestructionOrdered(events)
    && DestroyedKinds(events) <= kinds
    && DestroyedHandles(events) == destroyed
    && CreatedHandles(events) == multiset{}
  }

  /** What a teardown block promises, in per-event terms. */
  lemma DismantledMeans(events: seq<Event>, kinds: set<ObjectKind>, destroyed: multiset<Handle>)
    requires Dismantled(events, kinds, destroyed)
    ensures forall i :: 0 <= i < |events| ==> events[i].Destroyed?
    ensures DependentsDestroyedFirst(events)
    ensures DestroysOnly(events, kinds)
  {
    OnlyDestroysAgrees(events);
    DestructionOrderedAgrees(events);
    KindSummariesAgree(events, kinds);
  }

  lemma ExtendTeardown(events: seq<Event>, kinds: set<ObjectKind>, destroyed: multiset<Handle>,
                       block: seq<Event>, blockKinds: set<ObjectKind>, blockDestroyed: multiset<Handle>)
    requires Dismantled(events, kinds, destroyed)
    requires Dismantled(block, blockKinds, blockDestroyed)
    requires forall x, y :: x in kinds && y in blockKinds ==> !DependsOn(y, x)
    ensures Dismantled(events + block, kinds + blockKinds, destroyed + blockDestroyed)
  {
    OnlyDestroysAppend(events, block);
    DestructionOrderedAppend(events, block);
    DestroyedKindsAppend(events, block);
    DestroyedHandlesAppend(events, block);
    CreatedHandlesAppend(events, block);
  }

  lemma DestroyAllDismantles(kind: ObjectKind, handles: seq<Handle>)
    ensures Dismantled(DestroyAll(kind, handles), {kind}, multiset(handles))
  {
    DestroyAllDestroysEach(kind, handles);
    IndependentDestroysOrdered(DestroyAll(kind, handles), {kind});
  }

  lemma DestroyOneDismantles(kind: ObjectKind, h: Handle)
    ensures Dismantled([Destroyed(kind, h)], {kind}, multiset{h})
  {
    SingleEventHandles(Destroyed(kind, h));
    assert [Destroyed(kind, h)][1..] == [];
    assert DestructionOrdered([Destroyed(kind, h)][1..]);
    assert DestroyedKinds([Destroyed(kind, h)][1..]) == {};
  }

  /** Creating fresh handles [first, first + |handles|) of one kind. */
  lemma CreateAllConstructs(kind: ObjectKind, first: Handle, count: nat)
    ensures Constructed(CreateAll(kind, Range(first, count)), {kind}, multiset(Range(first, count)),
                        first, first + count)
  {
    CreateAllCreatesEach(kind, Range(first, count));
    IndependentCreatesOrdered(CreateAll(kind, Range(first, count)), {kind});
    forall h | h in multiset(Range(first, count)) ensures first <= h < first + count {
      assert h in Range(first, count);
    }
  }

  lemma CreateOneConstructs(kind: ObjectKind, h: Handle)
    ensures Constructed([Created(kind, h)], {kind}, multiset{h}, h, h + 1)
  {
    SingleEventHandles(Created(kind, h));
    var rest := [Created(kind, h)][1..];
    assert rest == [];
    assert CreationOrdered(rest) && CreatedKinds(rest) == {};
  }

  /** Destroying, inside a construction block, handles the block created
      earlier: they leave the owned handles. */
  lemma ExtendWithDestroys(events: seq<Event>, kinds: set<ObjectKind>, owned: multiset<Handle>,
                           start: Handle, next: Handle, kind: ObjectKind, handles: seq<Handle>)
    requires Constructed(events, kinds, multiset(handles) + owned, start, next)
    ensures Constructed(events + DestroyAll(kind, handles), kinds, owned, start, next)
  {
    var unload := DestroyAll(kind, handles);
    DestroyAllDestroysEach(kind, handles);
    CreationOrderedAppend(events, unload);
    CreatedKindsAppend(events, unload);
    CreatedHandlesAppend(events, unload);
    DestroyedHandlesAppend(events, unload);
    assert Accounts(events + unload, owned);
    forall h | h in owned ensures start <= h < next {
      assert h in multiset(handles) + owned;
    }
  }
}
