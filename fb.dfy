/**
  The frame buffer (src/fb.rs): `width * height` packed pixels in one flat
  array, row 0 of the image stored last, so that the image appears upright on
  a screen whose first row is at the top.
 */
module FrameBuffers {
  import opened Colors

  /**
    The cell that pixel (x, y) occupies: image row y is buffer row
    `height - y - 1`. The source computes this in `usize`, so `y < height` is
    needed to avoid an underflow; `x` is not checked.
   */
  function FlippedIndex(width: nat, height: nat, x: nat, y: nat): nat
    requires y < height
  {
    (height - y - 1) * width + x
  }

  lemma MulMonotonic(a: nat, b: nat, w: nat)
    requires a <= b
    ensures a * w <= b * w
  {
    assert b * w == a * w + (b - a) * w;
  }

  /** The quotient and remainder of `row * width + x` by `width` are `row` and `x`. */
  lemma DivModOfRow(row: nat, width: nat, x: nat)
    requires x < width
    ensures (row * width + x) / width == row
    ensures (row * width + x) % width == x
  {
    var n := row * width + x;
    var q, m := n / width, n % width;
    assert n == q * width + m;
    assert (q + 1) * width == q * width + width;
    assert (row + 1) * width == row * width + width;
    if q < row {
      MulMonotonic(q + 1, row, width);
      assert false;
    } else if q > row {
      MulMonotonic(row + 1, q, width);
      assert false;
    }
  }

  /** For an in-range pixel the index lies inside the `width * height` buffer. */
  lemma FlippedIndexInBounds(width: nat, height: nat, x: nat, y: nat)
    requires x < width && y < height
    ensures FlippedIndex(width, height, x, y) < width * height
  {
    MulMonotonic(height - y - 1, height - 1, width);
    assert (height - 1) * width + width == height * width;
  }

  /**
    The index can be read back: its remainder by `width` is x and its quotient
    is the flipped row, so row y = 0 is the buffer's last row.
   */
  lemma FlippedIndexDecode(width: nat, height: nat, x: nat, y: nat)
    requires x < width && y < height
    ensures FlippedIndex(width, height, x, y) % width == x
    ensures FlippedIndex(width, height, x, y) / width == height - 1 - y
  {
    DivModOfRow(height - y - 1, width, x);
  }

  /** Distinct in-range pixels occupy distinct cells. */
  lemma FlippedIndexInjective(width: nat, height: nat, x: nat, y: nat, x': nat, y': nat)
    requires x < width && y < height && x' < width && y' < height
    requires (x, y) != (x', y')
    ensures FlippedIndex(width, height, x, y) != FlippedIndex(width, height, x', y')
  {
    FlippedIndexDecode(width, height, x, y);
    FlippedIndexDecode(width, height, x', y');
  }

  /** Because x is not checked, an x one row too far lands on the next image row down. */
  lemma FlippedIndexOverrun(width: nat, height: nat, x: nat, y: nat)
    requires 0 < y < height
    ensures FlippedIndex(width, height, x + width, y) == FlippedIndex(width, height, x, y - 1)
  {
    assert (height - (y - 1) - 1) * width == (height - y - 1) * width + width;
  }

  class FrameBuffer {
    var buffer: array<U32>
    var width: nat
    var height: nat

    ghost predicate Valid()
      reads this
    {
      buffer.Length == width * height
    }

    /** `FrameBuffer::new`: `width * height` cells, all zero. */
    constructor (width: nat, height: nat)
      ensures Valid() && fresh(buffer)
      ensures Width() == width && Height() == height
      ensures buffer[..] == seq(width * height, _ => 0)
    {
      this.width := width;
      this.height := height;
      buffer := new U32[width * height](_ => 0);
    }

    function Width(): nat
      reads this
    {
      width
    }

    function Height(): nat
      reads this
    {
      height
    }

    /** The pixel value stored for image position (x, y). */
    function At(x: nat, y: nat): U32
      reads this, buffer
      requires Valid() && x < width && y < height
    {
      FlippedIndexInBounds(width, height, x, y);
      buffer[FlippedIndex(width, height, x, y)]
    }

    /**
      `FrameBuffer::set`: stores the packed colour in the flipped cell of (x, y)
      and nothing else; dimensions and buffer length stay as they were.
     */
    method Set(x: nat, y: nat, color: Color)
      requires Valid() && x < width && y < height && color.Valid()
      modifies buffer
      ensures Valid() && Width() == old(Width()) && Height() == old(Height())
      ensures buffer[..] == old(buffer[..])[FlippedIndex(width, height, x, y) := ToPixel(color)]
      ensures At(x, y) == ToPixel(color)
      ensures forall x': nat, y': nat :: x' < width && y' < height && (x', y') != (x, y) ==> At(x', y') == old(At(x', y'))
    {
      FlippedIndexInBounds(width, height, x, y);
      buffer[FlippedIndex(width, height, x, y)] := ToPixel(color);
      forall x': nat, y': nat | x' < width && y' < height && (x', y') != (x, y)
        ensures At(x', y') == old(At(x', y'))
      {
        FlippedIndexInjective(width, height, x, y, x', y');
        FlippedIndexInBounds(width, height, x', y');
      }
    }
  }
}
