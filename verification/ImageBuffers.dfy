/** The shared, counted buffers of `katla::Image`. */
module ImageBuffers {
  import opened Primitives
  import opened Sequences
  import opened ImageViews

  /** `*m_ref`, and how often the buffer and the counter were deleted. */
  datatype Counter = Counter(count: int, frees: nat)

  function Retained(c: Counter): Counter { c.(count := c.count + 1) }

  function Released(c: Counter): Counter {
    Counter(c.count - 1, if c.count - 1 == 0 then c.frees + 1 else c.frees)
  }

  class SharedBuffer {
    const bytes: array<byte>
    var counter: Counter

    constructor (size: nat)
      ensures fresh(bytes) && bytes.Length == size && counter == Counter(1, 0)
    {
      bytes := new byte[size];
      counter := Counter(1, 0);
    }
  }

  class Image {
    /** `m_buffer` and `m_ref`, which are set and cleared together. */
    var buffer: SharedBuffer?
    /** `m_pixels` relative to `m_buffer`, the size, the type and the stride. */
    var view: View

    /** `Image(size, type, lineStride)`. */
    constructor Allocate(width: int, height: int, t: ImageType, stride: int)
      requires 0 <= height * stride
      ensures buffer != null && fresh(buffer) && fresh(buffer.bytes) && buffer.counter == Counter(1, 0)
      ensures buffer.bytes.Length == height * stride && view == Whole(width, height, t, stride)
    {
      buffer := new SharedBuffer(height * stride);
      view := Whole(width, height, t, stride);
    }

    /** Over the caller's pixels: nothing is counted. */
    constructor External(width: int, height: int, t: ImageType, stride: int)
      ensures buffer == null && view == Whole(width, height, t, stride)
    {
      buffer := null;
      view := Whole(width, height, t, stride);
    }

    constructor CopyOf(image: Image)
      modifies image.buffer
      ensures buffer == image.buffer == old(image.buffer) && view == image.view
      ensures buffer != null ==> buffer.counter == Retained(old(image.buffer.counter))
    {
      buffer := image.buffer;
      view := image.view;
      new;
      if buffer != null {
        buffer.counter := Retained(buffer.counter);
      }
    }

    constructor RoiOf(image: Image, roi: Rect)
      modifies image.buffer
      ensures buffer == image.buffer == old(image.buffer) && view == ImageViews.RoiOf(image.view, roi)
      ensures buffer != null ==> buffer.counter == Retained(old(image.buffer.counter))
    {
      buffer := image.buffer;
      view := View(image.view.offset + roi.top * image.view.stride + roi.left * BytesPerPixel(image.view.kind),
                   roi.right - roi.left, roi.bottom - roi.top, image.view.kind, image.view.stride);
      new;
      if buffer != null {
        buffer.counter := Retained(buffer.counter);
      }
    }

    /** The destructor, and what `clear` and `operator=` do first. */
    method Release()
      modifies buffer
      ensures buffer != null ==> buffer.counter == Released(old(buffer.counter))
    {
      if buffer != null {
        var count := buffer.counter.count - 1;
        buffer.counter := Counter(count, buffer.counter.frees);
        if count == 0 {
          buffer.counter := Counter(count, buffer.counter.frees + 1);
        }
      }
    }

    method Clear()
      modifies this, buffer
      ensures buffer == null && view == old(view).(offset := 0)
      ensures old(buffer) != null ==> old(buffer).counter == Released(old(buffer.counter))
    {
      Release();
      buffer := null;
      view := view.(offset := 0);
    }

    /** `operator=`: an assignment to itself only counts up. */
    method Assign(image: Image)
      modifies this, buffer, image.buffer
      ensures buffer == old(image.buffer) && view == old(image.view)
      ensures image == this && buffer != null ==> buffer.counter == Retained(old(buffer.counter))
      ensures image != this ==>
                && image.buffer == old(image.buffer)
                && (old(buffer) != null && old(buffer) != buffer ==>
                      old(buffer).counter == Released(old(buffer.counter)))
                && (buffer != null && old(buffer) != buffer ==> buffer.counter == Retained(old(image.buffer.counter)))
                && (buffer != null && old(buffer) == buffer ==>
                      buffer.counter == Retained(Released(old(buffer.counter))))
    {
      if image != this {
        Release();
      }
      view := image.view;
      buffer := image.buffer;
      if buffer != null {
        buffer.counter := Retained(buffer.counter);
      }
    }

    /** A new image over a copy of the first height * stride bytes of this one's buffer; null when there is
        no buffer, as `memcpy` then reads through a null pointer. */
    method Copy() returns (image: Image?)
      requires 0 <= view.height * view.stride
      requires buffer != null ==> view.height * view.stride <= buffer.bytes.Length
      ensures image == null <==> buffer == null
      ensures Copied(view, Bytes()) == if image == null then None else image.Bytes()
      ensures image != null ==>
                && fresh(image) && image.buffer != null && fresh(image.buffer)
                && image.buffer.counter == Counter(1, 0) && image.view == view.(offset := 0)
      ensures view == old(view) && buffer == old(buffer) && Bytes() == old(Bytes())
    {
      var total := view.height * view.stride;
      var target := new Image.Allocate(view.width, view.height, view.kind, view.stride);
      if buffer == null {
        return null;
      }
      var to := target.buffer.bytes;
      forall i | 0 <= i < total {
        to[i] := buffer.bytes[i];
      }
      assert to[..] == buffer.bytes[..][..total];
      image := target;
    }

    function Bytes(): Option<seq<byte>>
      reads this, buffer, if buffer == null then {} else {buffer.bytes}
    {
      if buffer == null then None else Some(buffer.bytes[..])
    }
  }

  // ----- any run over many images

  /** A handle by what its `m_buffer` and `m_ref` point to. */
  datatype Handle = Handle(buffer: Option<nat>, ref: Option<nat>)

  /** `selfAssigns` counts the self-assignments made while holding a buffer. */
  datatype State = State(images: map<nat, Handle>, buffers: map<nat, Counter>, selfAssigns: map<nat, nat>)

  datatype Step =
    | Empty(image: nat)
    | Allocate(image: nat, buffer: nat)
    | External(image: nat)
    | CopyOrRoi(image: nat, from: nat)
    | Assign(image: nat, from: nat)
    | Clear(image: nat)
    | Destroy(image: nat)

  predicate Enabled(s: State, step: Step) {
    match step
    case Empty(i) => i !in s.images
    case Allocate(i, b) => i !in s.images && b !in s.buffers
    case External(i) => i !in s.images
    case CopyOrRoi(i, j) => i !in s.images && j in s.images
    case Assign(i, j) => i in s.images && j in s.images
    case Clear(i) => i in s.images
    case Destroy(i) => i in s.images
  }

  /** `if (m_buffer && !m_ref->operator--()) delete`. */
  function Drop(s: State, h: Handle): State {
    if h.buffer.Some? && h.ref.Some? && h.ref.value in s.buffers
    then s.(buffers := s.buffers[h.ref.value := Released(s.buffers[h.ref.value])]) else s
  }

  /** `if (m_ref) m_ref->operator++()`. */
  function Retain(s: State, h: Handle): State {
    if h.ref.Some? && h.ref.value in s.buffers
    then s.(buffers := s.buffers[h.ref.value := Retained(s.buffers[h.ref.value])]) else s
  }

  const NOTHING: Handle := Handle(None, None)

  function Apply(s: State, step: Step): State
    requires Enabled(s, step)
  {
    match step
    case Empty(i) => s.(images := s.images[i := NOTHING])
    case Allocate(i, b) =>
      State(s.images[i := Handle(Some(b), Some(b))], s.buffers[b := Counter(1, 0)], s.selfAssigns[b := 0])
    case External(i) => s.(images := s.images[i := NOTHING])
    case CopyOrRoi(i, j) => Retain(s, s.images[j]).(images := s.images[i := s.images[j]])
    case Assign(i, j) =>
      if i == j then
        var h := s.images[i];
        var s' := Retain(s, h);
        if h.ref.Some? && h.ref.value in s.selfAssigns
        then s'.(selfAssigns := s.selfAssigns[h.ref.value := s.selfAssigns[h.ref.value] + 1]) else s'
      else Retain(Drop(s, s.images[i]), s.images[j]).(images := s.images[i := s.images[j]])
    case Clear(i) => Drop(s, s.images[i]).(images := s.images[i := NOTHING])
    case Destroy(i) =>
      (if s.images[i].ref.None? then s else Drop(s, s.images[i])).(images := s.images - {i})
  }

  function Initial(): State { State(map[], map[], map[]) }

  ghost predicate Reaches(steps: seq<Step>, s: State) {
    if steps == [] then s == Initial()
    else
      var k := |steps| - 1;
      exists s0 :: Reaches(steps[..k], s0) && Enabled(s0, steps[k]) && s == Apply(s0, steps[k])
  }

  function HoldersOf(images: map<nat, Handle>, b: nat): set<nat> {
    set i | i in images && images[i].buffer == Some(b)
  }

  ghost predicate BufferInv(s: State, b: nat)
    requires b in s.buffers && b in s.selfAssigns
  {
    && s.buffers[b].count == |HoldersOf(s.images, b)| + s.selfAssigns[b]
    && s.buffers[b].frees == (if s.buffers[b].count == 0 then 1 else 0)
  }

  ghost predicate HandleInv(s: State, h: Handle) {
    h.buffer == h.ref && (h.buffer.Some? ==> h.buffer.value in s.buffers)
  }

  ghost predicate Inv(s: State) {
    && s.selfAssigns.Keys == s.buffers.Keys
    && (forall i | i in s.images :: HandleInv(s, s.images[i]))
    && (forall b | b in s.buffers :: BufferInv(s, b))
  }

  /** How many handles hold b after the handle of i becomes h. */
  lemma HoldersAfterSet(images: map<nat, Handle>, i: nat, h: Handle, b: nat)
    ensures |HoldersOf(images[i := h], b)| ==
            |HoldersOf(images, b)|
            - (if i in images && images[i].buffer == Some(b) then 1 else 0)
            + (if h.buffer == Some(b) then 1 else 0)
  {
    var before := HoldersOf(images, b);
    var after := HoldersOf(images[i := h], b);
    if h.buffer == Some(b) {
      assert after == before + {i};
    } else {
      assert after == before - {i};
    }
  }

  lemma HoldersAfterRemoval(images: map<nat, Handle>, i: nat, b: nat)
    requires i in images
    ensures |HoldersOf(images - {i}, b)| ==
            |HoldersOf(images, b)| - (if images[i].buffer == Some(b) then 1 else 0)
  {
    assert HoldersOf(images - {i}, b) == HoldersOf(images, b) - {i};
  }

  /** A handle that holds b is one of its holders. */
  lemma HolderCounts(images: map<nat, Handle>, i: nat, b: nat)
    requires i in images && images[i].buffer == Some(b)
    ensures |HoldersOf(images, b)| >= 1
    ensures forall j | j in images && j != i && images[j].buffer == Some(b) :: |HoldersOf(images, b)| >= 2
  {
    assert i in HoldersOf(images, b);
    forall j | j in images && j != i && images[j].buffer == Some(b)
      ensures |HoldersOf(images, b)| >= 2
    {
      assert {i, j} <= HoldersOf(images, b);
      assert HoldersOf(images, b) == {i, j} + (HoldersOf(images, b) - {i, j});
    }
  }

  lemma NewHandlesKeepInv(s: State, step: Step)
    requires Inv(s) && Enabled(s, step) && (step.Empty? || step.External? || step.Allocate? || step.CopyOrRoi?)
    ensures Inv(Apply(s, step))
  {
    var s' := Apply(s, step);
    forall b | b in s'.buffers
      ensures BufferInv(s', b)
    {
      HoldersAfterSet(s.images, step.image, s'.images[step.image], b);
      if b in s.buffers {
        assert BufferInv(s, b);
      } else {
        assert HoldersOf(s.images, b) == {};
      }
      if step.CopyOrRoi? && s.images[step.from].buffer == Some(b) {
        HolderCounts(s.images, step.from, b);
      }
    }
  }

  lemma DroppedHandlesKeepInv(s: State, step: Step)
    requires Inv(s) && Enabled(s, step) && (step.Clear? || step.Destroy?)
    ensures Inv(Apply(s, step))
  {
    var s' := Apply(s, step);
    var i := step.image;
    assert HandleInv(s, s.images[i]);
    forall b | b in s'.buffers
      ensures BufferInv(s', b)
    {
      assert BufferInv(s, b);
      HoldersAfterSet(s.images, i, NOTHING, b);
      HoldersAfterRemoval(s.images, i, b);
      if s.images[i].buffer == Some(b) {
        HolderCounts(s.images, i, b);
      }
    }
  }

  lemma AssignKeepsBuffer(s: State, i: nat, j: nat, b: nat)
    requires Inv(s) && Enabled(s, Assign(i, j)) && b in s.buffers
    ensures var s' := Apply(s, Assign(i, j));
            b in s'.buffers && b in s'.selfAssigns && BufferInv(s', b)
  {
    assert HandleInv(s, s.images[i]) && HandleInv(s, s.images[j]);
    assert BufferInv(s, b);
    HoldersAfterSet(s.images, i, s.images[j], b);
    if s.images[i].buffer == Some(b) {
      HolderCounts(s.images, i, b);
    }
    if s.images[j].buffer == Some(b) {
      HolderCounts(s.images, j, b);
    }
  }

  lemma AssignKeepsInv(s: State, i: nat, j: nat)
    requires Inv(s) && Enabled(s, Assign(i, j))
    ensures Inv(Apply(s, Assign(i, j)))
  {
    var s' := Apply(s, Assign(i, j));
    assert HandleInv(s, s.images[i]) && HandleInv(s, s.images[j]);
    forall b | b in s'.buffers
      ensures BufferInv(s', b)
    {
      AssignKeepsBuffer(s, i, j, b);
    }
  }

  lemma {:induction false} ReachableStatesSatisfyInv(steps: seq<Step>, s: State)
    requires Reaches(steps, s)
    ensures Inv(s)
    decreases |steps|
  {
    if steps != [] {
      var k := |steps| - 1;
      var s0 :| Reaches(steps[..k], s0) && Enabled(s0, steps[k]) && s == Apply(s0, steps[k]);
      ReachableStatesSatisfyInv(steps[..k], s0);
      match steps[k] {
        case Assign(i, j) => AssignKeepsInv(s0, i, j);
        case Clear(i) => DroppedHandlesKeepInv(s0, steps[k]);
        case Destroy(i) => DroppedHandlesKeepInv(s0, steps[k]);
        case _ => NewHandlesKeepInv(s0, steps[k]);
      }
    }
  }

  // ----- main results

  /** In every run a buffer's count is its number of handles plus its self-assignments; it is freed at
      most once, and never while a handle refers to it. */
  lemma BuffersAreCounted(steps: seq<Step>, s: State, b: nat)
    requires Reaches(steps, s) && b in s.buffers && b in s.selfAssigns
    ensures s.buffers[b].count == |HoldersOf(s.images, b)| + s.selfAssigns[b]
    ensures s.buffers[b].frees <= 1
    ensures HoldersOf(s.images, b) != {} ==> s.buffers[b].frees == 0
  {
    ReachableStatesSatisfyInv(steps, s);
    assert BufferInv(s, b);
    if HoldersOf(s.images, b) != {} {
      assert |HoldersOf(s.images, b)| > 0;
    }
  }

  /** No handle dangles: what it points to exists and has not been freed. */
  lemma HandlesNeverDangle(steps: seq<Step>, s: State, i: nat)
    requires Reaches(steps, s) && i in s.images && s.images[i].buffer.Some?
    ensures var b := s.images[i].buffer.value;
            s.images[i].ref == Some(b) && b in s.buffers && s.buffers[b].frees == 0
  {
    ReachableStatesSatisfyInv(steps, s);
    assert HandleInv(s, s.images[i]);
    var b := s.images[i].buffer.value;
    assert BufferInv(s, b);
    HolderCounts(s.images, i, b);
  }

  /** A buffer without handles has been freed exactly when no handle was ever assigned to itself while
      holding it; otherwise it leaks. */
  lemma FreedIffNeverSelfAssigned(steps: seq<Step>, s: State, b: nat)
    requires Reaches(steps, s) && b in s.buffers && b in s.selfAssigns && HoldersOf(s.images, b) == {}
    ensures s.buffers[b].frees == 1 <==> s.selfAssigns[b] == 0
  {
    ReachableStatesSatisfyInv(steps, s);
    assert BufferInv(s, b);
  }

  /** Whose buffer a handle holds after each step; the other handles stay as they are. */
  lemma StepOnHandles(s: State, step: Step)
    requires Enabled(s, step)
    ensures var after := Apply(s, step).images;
            match step
            case Empty(i) => after == s.images[i := Handle(None, None)]
            case Allocate(i, b) => after == s.images[i := Handle(Some(b), Some(b))]
            case External(i) => after == s.images[i := Handle(None, None)]
            case CopyOrRoi(i, j) => after == s.images[i := s.images[j]]
            case Assign(i, j) => after == s.images[i := s.images[j]]
            case Clear(i) => after == s.images[i := Handle(None, None)]
            case Destroy(i) => after == s.images - {i}
  {
    if step.Assign? && step.image == step.from {
      assert s.images[step.image := s.images[step.image]] == s.images;
    }
  }

  lemma ReachesSnoc(steps: seq<Step>, s: State, step: Step)
    requires Reaches(steps, s) && Enabled(s, step)
    ensures Reaches(steps + [step], Apply(s, step))
  {
    assert (steps + [step])[..|steps|] == steps;
  }

  /** One self-assignment leaks the buffer. */
  lemma SelfAssignLeaks() returns (steps: seq<Step>, s: State)
    ensures steps == [Allocate(0, 0), Assign(0, 0), Destroy(0)] && Reaches(steps, s)
    ensures s.images == map[] && 0 in s.buffers && s.buffers[0] == Counter(1, 0)
  {
    s, steps := Initial(), [];
    ReachesSnoc(steps, s, Allocate(0, 0));
    s, steps := Apply(s, Allocate(0, 0)), steps + [Allocate(0, 0)];
    ReachesSnoc(steps, s, Assign(0, 0));
    s, steps := Apply(s, Assign(0, 0)), steps + [Assign(0, 0)];
    ReachesSnoc(steps, s, Destroy(0));
    s, steps := Apply(s, Destroy(0)), steps + [Destroy(0)];
    assert s.images == map[];
  }

  predicate IsSelfAssign(step: Step) { step.Assign? && step.image == step.from }

  ghost predicate NoneSelfAssigned(s: State) {
    && s.selfAssigns.Keys == s.buffers.Keys
    && forall b | b in s.selfAssigns :: s.selfAssigns[b] == 0
  }

  lemma OtherStepsSelfAssignNothing(s: State, step: Step)
    requires NoneSelfAssigned(s) && Enabled(s, step) && !IsSelfAssign(step)
    ensures NoneSelfAssigned(Apply(s, step))
  {
  }

  lemma {:induction false} RunSelfAssignsNothing(steps: seq<Step>, s: State)
    requires Reaches(steps, s) && forall k | 0 <= k < |steps| :: !IsSelfAssign(steps[k])
    ensures NoneSelfAssigned(s)
    decreases |steps|
  {
    if steps != [] {
      var k := |steps| - 1;
      var s0 :| Reaches(steps[..k], s0) && Enabled(s0, steps[k]) && s == Apply(s0, steps[k]);
      RunSelfAssignsNothing(steps[..k], s0);
      OtherStepsSelfAssignNothing(s0, steps[k]);
    }
  }

  /** In a run without self-assignment every count is exact, and buffers without handles are freed. */
  lemma NoSelfAssignNoLeak(steps: seq<Step>, s: State, b: nat)
    requires Reaches(steps, s) && b in s.buffers
    requires forall k | 0 <= k < |steps| :: !IsSelfAssign(steps[k])
    ensures s.buffers[b].count == |HoldersOf(s.images, b)|
    ensures s.buffers[b].frees == 1 <==> HoldersOf(s.images, b) == {}
  {
    RunSelfAssignsNothing(steps, s);
    ReachableStatesSatisfyInv(steps, s);
    assert BufferInv(s, b);
  }
}
