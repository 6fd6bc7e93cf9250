/** Queue-family resolution and the queue requests of CreateLogicalDevice
    (src/vulkan_window.cpp). The family table is walked once; a family with at
    least one queue that has the graphics bit becomes the graphics family, and
    one whose surface-support query answers true becomes the presentation
    family — later hits overwrite earlier ones. The walk stops at the first
    index at which both have been seen (not necessarily in the same family).
    One queue is then requested per distinct family index. */
module QueueFamilies {
  import opened VkTypes

  datatype QueueFamilyIndices = QueueFamilyIndices(graphics: nat, present: nat)

  /** One VkDeviceQueueCreateInfo: the family and the number of queues asked for. */
  datatype QueueCreateInfo = QueueCreateInfo(familyIndex: nat, queueCount: nat)

  /** A queue fetched with vkGetDeviceQueue(family, index). */
  datatype QueueRef = QueueRef(familyIndex: nat, queueIndex: nat)

  predicate GraphicsCapable(family: QueueFamily) {
    family.queueCount > 0 && family.graphics
  }

  predicate PresentCapable(family: QueueFamily) {
    family.queueCount > 0 && family.presentSupport
  }

  /** No family of families[..n] is graphics-capable. */
  predicate NoGraphicsBefore(families: seq<QueueFamily>, n: nat) {
    forall j :: 0 <= j < n && j < |families| ==> !GraphicsCapable(families[j])
  }

  /** No family of families[..n] is presentation-capable. */
  predicate NoPresentBefore(families: seq<QueueFamily>, n: nat) {
    forall j :: 0 <= j < n && j < |families| ==> !PresentCapable(families[j])
  }

  /** `found` is the last graphics-capable index below `n`. */
  predicate LastGraphicsBefore(families: seq<QueueFamily>, n: nat, found: nat) {
    && found < n <= |families|
    && GraphicsCapable(families[found])
    && forall j :: found < j < n ==> !GraphicsCapable(families[j])
  }

  /** `found` is the last presentation-capable index below `n`. */
  predicate LastPresentBefore(families: seq<QueueFamily>, n: nat, found: nat) {
    && found < n <= |families|
    && PresentCapable(families[found])
    && forall j :: found < j < n ==> !PresentCapable(families[j])
  }

  /** What the loop variables hold after families[..i] have been inspected. */
  predicate Accumulated(families: seq<QueueFamily>, i: nat, graphics: Option<nat>, present: Option<nat>) {
    && i <= |families|
    && (graphics.None? ==> NoGraphicsBefore(families, i))
    && (graphics.Some? ==> LastGraphicsBefore(families, i, graphics.value))
    && (present.None? ==> NoPresentBefore(families, i))
    && (present.Some? ==> LastPresentBefore(families, i, present.value))
    && !(graphics.Some? && present.Some?)
  }

  /** The characterisation of a successful resolution: with k the larger of the
      two indices, both are the last capable family at or below k, and k is the
      first index by which both kinds have been seen. */
  predicate ResolvedAt(families: seq<QueueFamily>, ix: QueueFamilyIndices) {
    var k := Max(ix.graphics, ix.present);
    && k < |families|
    && LastGraphicsBefore(families, k + 1, ix.graphics)
    && LastPresentBefore(families, k + 1, ix.present)
    && (NoGraphicsBefore(families, k) || NoPresentBefore(families, k))
  }

  /** The loop variables after inspecting families[i]. */
  function NextGraphics(families: seq<QueueFamily>, i: nat, graphics: Option<nat>): Option<nat>
    requires i < |families|
  {
    if GraphicsCapable(families[i]) then Some(i) else graphics
  }

  function NextPresent(families: seq<QueueFamily>, i: nat, present: Option<nat>): Option<nat>
    requires i < |families|
  {
    if PresentCapable(families[i]) then Some(i) else present
  }

  /** One iteration keeps the loop's knowledge when it does not stop. */
  lemma AccumulatedStep(families: seq<QueueFamily>, i: nat, graphics: Option<nat>, present: Option<nat>)
    requires Accumulated(families, i, graphics, present) && i < |families|
    requires !(NextGraphics(families, i, graphics).Some? && NextPresent(families, i, present).Some?)
    ensures Accumulated(families, i + 1, NextGraphics(families, i, graphics), NextPresent(families, i, present))
  {
  }

  /** The family loop from index `i` on, with the two std::optional loop variables. */
  function ScanFamilies(families: seq<QueueFamily>, i: nat,
                        graphics: Option<nat>, present: Option<nat>): (r: Result<QueueFamilyIndices>)
    requires Accumulated(families, i, graphics, present)
    ensures r.Ok? ==> ResolvedAt(families, r.value) && i <= Max(r.value.graphics, r.value.present)
    ensures r.Err? ==> r.error == NoSuitableQueueFamilies
    ensures r.Err? ==> NoGraphicsBefore(families, |families|) || NoPresentBefore(families, |families|)
    decreases |families| - i
  {
    if i == |families| then Err(NoSuitableQueueFamilies)
    else
      var graphics' := NextGraphics(families, i, graphics);
      var present' := NextPresent(families, i, present);
      if graphics'.Some? && present'.Some? then
        Ok(QueueFamilyIndices(graphics'.value, present'.value))
      else
        AccumulatedStep(families, i, graphics, present);
        ScanFamilies(families, i + 1, graphics', present')
  }

  /** Queue-family resolution of CreateLogicalDevice. */
  function ResolveQueueFamilies(families: seq<QueueFamily>): (r: Result<QueueFamilyIndices>)
    ensures r.Ok? ==> ResolvedAt(families, r.value)
    ensures r.Ok? ==> GraphicsCapable(families[r.value.graphics]) && PresentCapable(families[r.value.present])
    ensures r.Err? <==> NoGraphicsBefore(families, |families|) || NoPresentBefore(families, |families|)
    ensures r.Err? ==> r.error == NoSuitableQueueFamilies
  {
    ScanFamilies(families, 0, None, None)
  }

  /** ResolvedAt pins the result down: at most one index pair satisfies it.
      Two stopping points cannot differ, since by the larger one both kinds
      were already seen at or below the smaller one; at the common stopping
      point both indices are the last capable ones. */
  lemma ResolvedAtUnique(families: seq<QueueFamily>, x: QueueFamilyIndices, y: QueueFamilyIndices)
    requires ResolvedAt(families, x) && ResolvedAt(families, y)
    ensures x == y
  {
    var kx := Max(x.graphics, x.present);
    var ky := Max(y.graphics, y.present);
    assert kx == ky;
  }

  /** Two tables with the same capability vectors. */
  predicate SameCapabilities(a: seq<QueueFamily>, b: seq<QueueFamily>) {
    && |a| == |b|
    && (forall j :: 0 <= j < |a| ==> GraphicsCapable(a[j]) == GraphicsCapable(b[j]))
    && (forall j :: 0 <= j < |a| ==> PresentCapable(a[j]) == PresentCapable(b[j]))
  }

  lemma ResolvedAtTransfers(a: seq<QueueFamily>, b: seq<QueueFamily>, ix: QueueFamilyIndices)
    requires SameCapabilities(a, b)
    requires ResolvedAt(a, ix)
    ensures ResolvedAt(b, ix)
  {
  }

  /** Only whether each family is graphics- and presentation-capable matters:
      in particular a family with no queues contributes nothing, whatever its
      flags say. */
  lemma ResolutionDependsOnlyOnCapabilities(a: seq<QueueFamily>, b: seq<QueueFamily>)
    requires SameCapabilities(a, b)
    ensures ResolveQueueFamilies(a) == ResolveQueueFamilies(b)
  {
    var ra := ResolveQueueFamilies(a);
    var rb := ResolveQueueFamilies(b);
    assert NoGraphicsBefore(a, |a|) == NoGraphicsBefore(b, |b|);
    assert NoPresentBefore(a, |a|) == NoPresentBefore(b, |b|);
    if ra.Ok? {
      ResolvedAtTransfers(b, a, rb.value);
      ResolvedAtUnique(a, ra.value, rb.value);
    }
  }

  /** A family without queues may carry any flags without changing the result. */
  lemma EmptyFamilyIgnored(families: seq<QueueFamily>, i: nat, replacement: QueueFamily)
    requires i < |families|
    requires families[i].queueCount == 0 && replacement.queueCount == 0
    ensures ResolveQueueFamilies(families[i := replacement]) == ResolveQueueFamilies(families)
  {
    ResolutionDependsOnlyOnCapabilities(families[i := replacement], families);
  }

  /** A resolution only looks at the families up to its stopping index. */
  lemma ResolvedAtPrefix(a: seq<QueueFamily>, b: seq<QueueFamily>, ix: QueueFamilyIndices)
    requires ResolvedAt(a, ix)
    requires Max(ix.graphics, ix.present) < |b|
    requires forall j :: 0 <= j <= Max(ix.graphics, ix.present) ==> a[j] == b[j]
    ensures ResolvedAt(b, ix)
  {
  }

  /** The walk stops early: families after the stopping index are never inspected. */
  lemma LaterFamiliesNeverInspected(families: seq<QueueFamily>, rest: seq<QueueFamily>)
    requires ResolveQueueFamilies(families).Ok?
    ensures var ix := ResolveQueueFamilies(families).value;
            ResolveQueueFamilies(families[..Max(ix.graphics, ix.present) + 1] + rest) == ResolveQueueFamilies(families)
  {
    var ix := ResolveQueueFamilies(families).value;
    var n := Max(ix.graphics, ix.present) + 1;
    var b := families[..n] + rest;
    assert forall j :: 0 <= j < n ==> families[j] == b[j];
    ResolvedAtPrefix(families, b, ix);
    assert GraphicsCapable(b[ix.graphics]) && PresentCapable(b[ix.present]);
    ResolvedAtUnique(b, ix, ResolveQueueFamilies(b).value);
  }

  /** The distinct family indices (the std::set of CreateLogicalDevice). */
  function UniqueFamilies(ix: QueueFamilyIndices): set<nat> {
    {ix.graphics, ix.present}
  }

  /** One queue request per element of the std::set, in its ascending
      iteration order, each asking for one queue. */
  function QueueCreateInfos(ix: QueueFamilyIndices): (infos: seq<QueueCreateInfo>)
    ensures |infos| == |UniqueFamilies(ix)|
    ensures forall i :: 0 <= i < |infos| ==> infos[i].queueCount == 1
    ensures forall i, j :: 0 <= i < j < |infos| ==> infos[i].familyIndex < infos[j].familyIndex
    ensures (set i | 0 <= i < |infos| :: infos[i].familyIndex) == UniqueFamilies(ix)
  {
    if ix.graphics == ix.present then
      var infos := [QueueCreateInfo(ix.graphics, 1)];
      assert (set i | 0 <= i < |infos| :: infos[i].familyIndex) == {ix.graphics} by {
        assert infos[0].familyIndex == ix.graphics;
      }
      infos
    else
      var low := if ix.graphics < ix.present then ix.graphics else ix.present;
      var high := if ix.graphics < ix.present then ix.present else ix.graphics;
      var infos := [QueueCreateInfo(low, 1), QueueCreateInfo(high, 1)];
      assert (set i | 0 <= i < |infos| :: infos[i].familyIndex) == {low, high} by {
        assert infos[0].familyIndex == low && infos[1].familyIndex == high;
      }
      infos
  }

  /** The queues fetched after device creation: queue 0 of each resolved family. */
  function GraphicsQueue(ix: QueueFamilyIndices): QueueRef {
    QueueRef(ix.graphics, 0)
  }

  function PresentQueue(ix: QueueFamilyIndices): QueueRef {
    QueueRef(ix.present, 0)
  }

  /** A queue exists on the logical device when some request covers it. */
  predicate Requested(infos: seq<QueueCreateInfo>, q: QueueRef) {
    exists i :: 0 <= i < |infos| && infos[i].familyIndex == q.familyIndex && q.queueIndex < infos[i].queueCount
  }

  /** Both fetched queues were requested at device creation, and the request
      list has one entry exactly when the two families coincide. */
  lemma FetchedQueuesWereRequested(ix: QueueFamilyIndices)
    ensures Requested(QueueCreateInfos(ix), GraphicsQueue(ix))
    ensures Requested(QueueCreateInfos(ix), PresentQueue(ix))
    ensures |QueueCreateInfos(ix)| == 1 <==> ix.graphics == ix.present
  {
    var infos := QueueCreateInfos(ix);
    assert ix.graphics in UniqueFamilies(ix);
    assert ix.present in UniqueFamilies(ix);
    if ix.graphics != ix.present {
      assert |UniqueFamilies(ix)| == 2;
    }
  }

  /** Family 0 supporting both resolves to {0, 0}; when no family supports
      both, the indices are distinct. */
  lemma ResolutionExamples(both: QueueFamily, gfx: QueueFamily, pres: QueueFamily, rest: seq<QueueFamily>)
    requires GraphicsCapable(both) && PresentCapable(both)
    requires GraphicsCapable(gfx) && !PresentCapable(gfx)
    requires PresentCapable(pres) && !GraphicsCapable(pres)
    ensures ResolveQueueFamilies([both] + rest) == Ok(QueueFamilyIndices(0, 0))
    ensures ResolveQueueFamilies([gfx, pres] + rest) == Ok(QueueFamilyIndices(0, 1))
  {
    assert ([both] + rest)[0] == both;
    assert ([gfx, pres] + rest)[0] == gfx;
    assert ([gfx, pres] + rest)[1] == pres;
  }

  /** Whenever both resolved families differ, no single family of the table
      up to the stopping index serves both purposes at that index. */
  lemma DistinctFamiliesMeanNoSharedFamily(families: seq<QueueFamily>)
    requires ResolveQueueFamilies(families).Ok?
    requires ResolveQueueFamilies(families).value.graphics != ResolveQueueFamilies(families).value.present
    ensures var ix := ResolveQueueFamilies(families).value;
            forall j :: 0 <= j < Max(ix.graphics, ix.present) ==>
              !(GraphicsCapable(families[j]) && PresentCapable(families[j]))
  {
  }
}
