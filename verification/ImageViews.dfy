/** Pixel addresses of `katla::Image`: views over a strided buffer. */
module ImageViews {
  import opened Primitives
  import opened Sequences

  datatype ImageType = Gray8 | Rgb8 | Rgba8 | Gray16 | Rgb16 | Rgba16

  function Channels(t: ImageType): int {
    match t
    case Gray8 => 1 case Rgb8 => 3 case Rgba8 => 4
    case Gray16 => 1 case Rgb16 => 3 case Rgba16 => 4
  }

  function BytesPerPixel(t: ImageType): int {
    match t
    case Gray8 => 1 case Rgb8 => 3 case Rgba8 => 4
    case Gray16 => 2 case Rgb16 => 6 case Rgba16 => 8
  }

  /** `offset` is `m_pixels - m_buffer`. */
  datatype View = View(offset: int, width: int, height: int, kind: ImageType, stride: int)

  datatype Rect = Rect(left: int, top: int, right: int, bottom: int)

  /** The stride the two-argument constructor chooses. */
  function DefaultStride(width: int, t: ImageType): int { width * Channels(t) * BytesPerPixel(t) }

  function Whole(width: int, height: int, t: ImageType, stride: int): View { View(0, width, height, t, stride) }

  function RoiOf(v: View, r: Rect): View {
    View(v.offset + r.top * v.stride + r.left * BytesPerPixel(v.kind),
         r.right - r.left, r.bottom - r.top, v.kind, v.stride)
  }

  predicate Inside(v: View, r: Rect) {
    0 <= r.left <= r.right <= v.width && 0 <= r.top <= r.bottom <= v.height
  }

  function Address(v: View, x: int, y: int): int { v.offset + y * v.stride + x * BytesPerPixel(v.kind) }

  predicate HasPixel(v: View, x: int, y: int) { 0 <= x < v.width && 0 <= y < v.height }

  function Nested(v: View, rois: seq<Rect>): View {
    if rois == [] then v else RoiOf(Nested(v, rois[..|rois| - 1]), rois[|rois| - 1])
  }

  predicate ValidChain(v: View, rois: seq<Rect>) {
    rois == [] || (ValidChain(v, rois[..|rois| - 1]) && Inside(Nested(v, rois[..|rois| - 1]), rois[|rois| - 1]))
  }

  function SumLeft(rois: seq<Rect>): int {
    if rois == [] then 0 else SumLeft(rois[..|rois| - 1]) + rois[|rois| - 1].left
  }

  function SumTop(rois: seq<Rect>): int {
    if rois == [] then 0 else SumTop(rois[..|rois| - 1]) + rois[|rois| - 1].top
  }

  /** A pixel has one or two bytes for each channel. */
  lemma PixelSizes(t: ImageType)
    ensures BytesPerPixel(t) == Channels(t) * if t in {Gray8, Rgb8, Rgba8} then 1 else 2
    ensures Channels(t) == if t in {Gray8, Gray16} then 1 else if t in {Rgb8, Rgb16} then 3 else 4
  {
  }

  /** A view has exactly the pixels of its rectangle. */
  lemma RoiPixels(v: View, r: Rect, x: int, y: int)
    ensures HasPixel(RoiOf(v, r), x, y) <==>
            r.left <= r.left + x < r.right && r.top <= r.top + y < r.bottom
  {
  }

  /** Pixel (x, y) of a view into a view is pixel (x + left, y + top) of the latter. */
  lemma RoiAddress(v: View, r: Rect, x: int, y: int)
    ensures Address(RoiOf(v, r), x, y) == Address(v, x + r.left, y + r.top)
  {
    assert (y + r.top) * v.stride == y * v.stride + r.top * v.stride;
    var b := BytesPerPixel(v.kind);
    assert (x + r.left) * b == x * b + r.left * b;
  }

  lemma {:induction false} ChainAddress(v: View, rois: seq<Rect>, x: int, y: int)
    requires ValidChain(v, rois) && HasPixel(Nested(v, rois), x, y)
    ensures Address(Nested(v, rois), x, y) == Address(v, x + SumLeft(rois), y + SumTop(rois))
    ensures HasPixel(v, x + SumLeft(rois), y + SumTop(rois))
    decreases |rois|
  {
    if rois != [] {
      var k := |rois| - 1;
      RoiAddress(Nested(v, rois[..k]), rois[k], x, y);
      ChainAddress(v, rois[..k], x + rois[k].left, y + rois[k].top);
    }
  }

  /** Every byte of every pixel of the whole image lies in the allocation. */
  lemma WholeIsInBounds(v: View, x: int, y: int)
    requires v.offset == 0 && HasPixel(v, x, y) && v.stride >= v.width * BytesPerPixel(v.kind)
    ensures 0 <= Address(v, x, y) && Address(v, x, y) + BytesPerPixel(v.kind) <= v.height * v.stride
  {
    var b := BytesPerPixel(v.kind);
    Scale(x + 1, v.width, b);
    Scale(0, x, b);
    Scale(0, v.width, b);
    Scale(y + 1, v.height, v.stride);
    Scale(0, y, v.stride);
    assert (y + 1) * v.stride == y * v.stride + v.stride;
    assert (x + 1) * b == x * b + b;
  }

  lemma Scale(a: int, b: int, k: int)
    requires a <= b && k >= 0
    ensures a * k <= b * k
  {
  }

  /** For any chain of nested views: each addressed byte is inside the root's allocation, and the pixel
      is the root's pixel at the summed offsets. */
  lemma NestedViewsStayInBounds(width: int, height: int, t: ImageType, stride: int, rois: seq<Rect>, x: int, y: int)
    requires stride >= width * BytesPerPixel(t)
    requires ValidChain(Whole(width, height, t, stride), rois)
    requires HasPixel(Nested(Whole(width, height, t, stride), rois), x, y)
    ensures var root := Whole(width, height, t, stride);
            var a := Address(Nested(root, rois), x, y);
            && a == Address(root, x + SumLeft(rois), y + SumTop(rois))
            && 0 <= a && a + BytesPerPixel(t) <= height * stride
  {
    var root := Whole(width, height, t, stride);
    ChainAddress(root, rois, x, y);
    WholeIsInBounds(root, x + SumLeft(rois), y + SumTop(rois));
  }

  /** The int products that the view constructor computes for a rectangle. */
  predicate ProductsFitInt(v: View, r: Rect) {
    0 <= r.top * v.stride <= MAX_INT && 0 <= r.left * BytesPerPixel(v.kind) <= MAX_INT
  }

  /** An image whose rows fit its stride and whose size in bytes fits an int. */
  predicate FitsInt(v: View) {
    v.stride >= v.width * BytesPerPixel(v.kind) && v.height * v.stride <= MAX_INT && v.stride <= MAX_INT
  }

  lemma RoiFitsInt(v: View, r: Rect)
    requires Inside(v, r) && FitsInt(v)
    ensures ProductsFitInt(v, r) && FitsInt(RoiOf(v, r))
  {
    var bpp := BytesPerPixel(v.kind);
    Scale(0, r.left, bpp);
    Scale(r.left, v.width, bpp);
    Scale(r.right - r.left, v.width, bpp);
    Scale(0, r.top, v.stride);
    Scale(r.top, v.height, v.stride);
    Scale(r.bottom - r.top, v.height, v.stride);
  }

  /** No product overflows in any chain of nested views of such an image. */
  lemma {:induction false} ChainFitsInt(v: View, rois: seq<Rect>)
    requires ValidChain(v, rois) && FitsInt(v)
    ensures FitsInt(Nested(v, rois))
    ensures rois != [] ==> ProductsFitInt(Nested(v, rois[..|rois| - 1]), rois[|rois| - 1])
    decreases |rois|
  {
    if rois != [] {
      var k := |rois| - 1;
      ChainFitsInt(v, rois[..k]);
      RoiFitsInt(Nested(v, rois[..k]), rois[k]);
    }
  }

  /** Two pixels of the whole image never share a byte. */
  lemma PixelsAreDisjoint(v: View, x: int, y: int, x': int, y': int)
    requires HasPixel(v, x, y) && HasPixel(v, x', y') && (y < y' || (y == y' && x < x'))
    requires v.stride >= v.width * BytesPerPixel(v.kind)
    ensures Address(v, x, y) + BytesPerPixel(v.kind) <= Address(v, x', y')
  {
    var b := BytesPerPixel(v.kind);
    assert (x + 1) * b == x * b + b;
    Scale(0, x', b);
    Scale(0, v.width, b);
    if y < y' {
      Scale(x + 1, v.width, b);
      Scale(y + 1, y', v.stride);
      assert (y + 1) * v.stride == y * v.stride + v.stride;
    } else {
      Scale(x + 1, x', b);
    }
  }

  /** The default stride is as many times the row size as there are channels. */
  lemma DefaultStrideSuffices(width: int, t: ImageType)
    requires width >= 0
    ensures DefaultStride(width, t) == Channels(t) * (width * BytesPerPixel(t))
    ensures DefaultStride(width, t) >= width * BytesPerPixel(t)
  {
    Scale(0, width, BytesPerPixel(t));
    Scale(1, Channels(t), width * BytesPerPixel(t));
    assert width * Channels(t) == Channels(t) * width;
    assert Channels(t) * width * BytesPerPixel(t) == Channels(t) * (width * BytesPerPixel(t));
  }

  // ----- copy()

  /** `copy` takes the first height * stride bytes of what `m_buffer` points to, wherever the view starts.
      An image over external pixels has no `m_buffer`, and the copy reads through a null pointer. */
  function Copied(v: View, buffer: Option<seq<byte>>): Option<seq<byte>>
    requires buffer.Some? ==> 0 <= v.height * v.stride <= |buffer.value|
  {
    if buffer.None? then None else Some(buffer.value[..v.height * v.stride])
  }

  /** Byte k of pixel (x, y) is the same in the copy and in the memory under the view. */
  predicate SameByte(v: View, memory: seq<byte>, copy: seq<byte>, x: int, y: int, k: int) {
    var at := Address(v.(offset := 0), x, y) + k;
    && 0 <= at < |copy| && 0 <= Address(v, x, y) + k < |memory|
    && copy[at] == memory[Address(v, x, y) + k]
  }

  ghost predicate SamePixels(v: View, memory: seq<byte>, copy: seq<byte>) {
    forall x, y, k | HasPixel(v, x, y) && 0 <= k < BytesPerPixel(v.kind) :: SameByte(v, memory, copy, x, y, k)
  }

  /** A view that lies in memory of the given size and has a pixel. */
  ghost predicate LiesIn(v: View, size: int) {
    && v.width > 0 && v.height > 0 && v.offset >= 0
    && v.stride >= v.width * BytesPerPixel(v.kind)
    && 0 <= v.height * v.stride <= size
    && Address(v, v.width - 1, v.height - 1) + BytesPerPixel(v.kind) <= size
  }

  /** `copy` succeeds, and the result has the pixels of the view. The memory is the image's own or not. */
  ghost predicate CopyDuplicates(v: View, owned: bool, memory: seq<byte>)
    requires 0 <= v.height * v.stride <= |memory|
  {
    var copy := Copied(v, if owned then Some(memory) else None);
    copy.Some? && SamePixels(v, memory, copy.value)
  }

  lemma UnshiftedCopyIsDeep(v: View, memory: seq<byte>)
    requires v.offset == 0 && LiesIn(v, |memory|)
    ensures CopyDuplicates(v, true, memory)
  {
    var copy := memory[..v.height * v.stride];
    forall x, y, k | HasPixel(v, x, y) && 0 <= k < BytesPerPixel(v.kind)
      ensures SameByte(v, memory, copy, x, y, k)
    {
      WholeIsInBounds(v, x, y);
    }
  }

  /** A shifted view's copy differs from it in its first byte, for memory that is 1 there and 0 elsewhere. */
  lemma ShiftedCopyDiffers(v: View, memory: seq<byte>)
    requires LiesIn(v, |memory|) && v.offset > 0
    requires forall i :: 0 <= i < |memory| ==> memory[i] == if i == v.offset then 1 else 0
    ensures !CopyDuplicates(v, true, memory)
  {
    assert HasPixel(v, 0, 0);
    assert Address(v.(offset := 0), 0, 0) == 0 && Address(v, 0, 0) == v.offset;
    assert !SameByte(v, memory, memory[..v.height * v.stride], 0, 0, 0);
  }

  /** `copy` duplicates the view, whatever the memory holds, exactly when the image owns its memory and the
      view is not shifted. Over external pixels it never does. */
  lemma CopyIsDeepIffOwnedAndUnshifted(v: View, owned: bool, size: nat)
    requires LiesIn(v, size)
    ensures (forall memory: seq<byte> | |memory| == size :: CopyDuplicates(v, owned, memory)) <==>
            owned && v.offset == 0
    ensures !owned ==> forall memory: seq<byte> | |memory| == size :: !CopyDuplicates(v, owned, memory)
  {
    if owned && v.offset == 0 {
      forall memory: seq<byte> | |memory| == size
        ensures CopyDuplicates(v, owned, memory)
      {
        UnshiftedCopyIsDeep(v, memory);
      }
    } else {
      var memory: seq<byte> := seq(size, i => if i == v.offset then 1 else 0);
      if owned {
        ShiftedCopyDiffers(v, memory);
      }
      assert !CopyDuplicates(v, owned, memory);
    }
  }
}
