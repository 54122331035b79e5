/** The parts of FLTK's graphics driver interface (FL/Fl_Graphics_Driver.H)
    that have bodies: the rounding of scaled coordinates, the scale factor,
    the image-size setter and the capacities of the matrix and clip-region
    stacks. Floating-point values are modelled as exact reals. */
module GraphicsDriver {
  const FL_REGION_STACK_SIZE: nat := 10
  const FL_MATRIX_STACK_SIZE: nat := 32
  /** `matrix_stack_size`. */
  const MATRIX_STACK_SIZE: nat := FL_MATRIX_STACK_SIZE
  /** `region_stack_max`: the largest index the region stack pointer may take. */
  const REGION_STACK_MAX: int := FL_REGION_STACK_SIZE - 1

  /** `struct matrix`: a 2D transformation. */
  datatype Matrix = Matrix(a: real, b: real, c: real, d: real, x: real, y: real)

  /** A clipping region handle (`Fl_Region`). */
  type Region = nat

  /** C's conversion of a floating value to `int`: truncation toward zero. */
  function Trunc(r: real): (n: int)
    ensures r >= 0.0 ==> n >= 0 && n as real <= r < n as real + 1.0
    ensures r < 0.0 ==> n <= 0 && n as real - 1.0 < r <= n as real
  {
    if r >= 0.0 then r.Floor else -((-r).Floor)
  }

  /** `Fl_Scalable_Graphics_Driver::floor(x, s)`: `int(x * s + 0.001f)`. */
  function Floor(x: int, s: real): (n: int)
    ensures x as real * s + 0.001 >= 0.0 ==> n as real <= x as real * s + 0.001 < n as real + 1.0
    ensures x as real * s + 0.001 < 0.0 ==> n as real - 1.0 < x as real * s + 0.001 <= n as real
  {
    Trunc(x as real * s + 0.001)
  }

  /** Truncation never goes down when its argument goes up. */
  lemma {:induction false} TruncMonotone(a: real, b: real)
    requires a <= b
    ensures Trunc(a) <= Trunc(b)
  {
    if a < 0.0 && b >= 0.0 {
    } else if a >= 0.0 {
      assert a.Floor <= b.Floor;
    } else {
      assert (-b).Floor <= (-a).Floor;
    }
  }

  /** An illustration of `FloorNegativeIntegral`: `floor` truncates toward
      zero, so `floor(-3, 1)` is -2 and not the mathematical floor -3. */
  lemma {:induction false} FloorOfNegative()
    ensures Floor(-3, 1.0) == -2
  {
    FloorNegativeIntegral(-3, 1.0, -3);
  }

  /** A negative integral product `n` is rounded up to `n + 1`. */
  lemma {:induction false} FloorNegativeIntegral(x: int, s: real, n: int)
    requires x as real * s == n as real && n < 0
    ensures Floor(x, s) == n + 1
  {
    var r := x as real * s + 0.001;
    assert -r == (-n - 1) as real + 0.999;
    assert (-r).Floor == -n - 1;
  }

  /** For non-negative coordinates and scale `floor` is the largest integer
      not above `x * s + 0.001`. */
  lemma {:induction false} FloorNonNegative(x: int, s: real)
    requires x >= 0 && s > 0.0
    ensures Floor(x, s) >= 0
    ensures Floor(x, s) as real <= x as real * s + 0.001 < Floor(x, s) as real + 1.0
    ensures Floor(x, s) == (x as real * s + 0.001).Floor
  {
    assert x as real * s >= 0.0;
  }

  /** A larger coordinate never gets a smaller scaled coordinate. */
  lemma {:induction false} FloorMonotone(x: int, y: int, s: real)
    requires x <= y && s >= 0.0
    ensures Floor(x, s) <= Floor(y, s)
  {
    assert x as real * s <= y as real * s by {
      assert (y - x) as real * s >= 0.0;
      assert (y - x) as real * s == y as real * s - x as real * s;
    }
    TruncMonotone(x as real * s + 0.001, y as real * s + 0.001);
  }

  /** A non-negative integral product lands exactly on itself. */
  lemma {:induction false} FloorIntegral(x: int, s: real, n: int)
    requires x as real * s == n as real && n >= 0
    ensures Floor(x, s) == n
  {
  }

  /** Scale 1 leaves non-negative coordinates alone; `floor(2, 1.5)` is 3
      (an illustration of `FloorIntegral`). */
  lemma {:induction false} FloorExamples(x: int)
    requires x >= 0
    ensures Floor(x, 1.0) == x
    ensures Floor(2, 1.5) == 3
  {
    FloorIntegral(x, 1.0, x);
    FloorIntegral(2, 1.5, 3);
  }

  /** `Fl_Image`'s size fields, and the other fields the setter must leave alone. */
  class Image {
    var w: int
    var h: int
    var d: int
    var ld: int

    constructor (w: int, h: int, d: int, ld: int)
      ensures this.w == w && this.h == h && this.d == d && this.ld == ld
    {
      this.w, this.h, this.d, this.ld := w, h, d, ld;
    }
  }

  /** `change_image_size(img, W, H)`: set the width and height, nothing else. */
  method ChangeImageSize(img: Image, W: int, H: int)
    modifies img`w, img`h
    ensures img.w == W && img.h == H
    ensures img.d == old(img.d) && img.ld == old(img.ld)
  {
    img.w := W;
    img.h := H;
  }

  /** A scalable graphics driver: its scale factor and its two fixed stacks. */
  class Driver {
    /** `scale_`: drawing coordinates are FLTK coordinates times this. */
    var scale_: real
    const stack: array<Matrix>
    const rstack: array<Region>

    /** The stacks have their declared capacities. */
    predicate Valid()
      reads this
    {
      stack.Length == MATRIX_STACK_SIZE && rstack.Length == FL_REGION_STACK_SIZE
    }

    constructor (scale: real)
      ensures Valid() && scale_ == scale && fresh(stack) && fresh(rstack)
      ensures REGION_STACK_MAX + 1 == rstack.Length
    {
      scale_ := scale;
      stack := new Matrix[MATRIX_STACK_SIZE](_ => Matrix(1.0, 0.0, 0.0, 1.0, 0.0, 0.0));
      rstack := new Region[FL_REGION_STACK_SIZE](_ => 0);
    }

    /** `scale()`. */
    function Scale(): (f: real)
      reads this
      ensures f == scale_
    {
      scale_
    }

    /** The one-argument `floor(x)`: `floor(x, scale())`. */
    function FloorAt(x: int): (n: int)
      reads this
      ensures n == Floor(x, Scale())
    {
      Floor(x, Scale())
    }
  }

  /** With a positive scale, the one-argument `floor` maps coordinates from 0
      on in order, and keeps them when the scale is 1. */
  lemma {:induction false} FloorAtProperties(dr: Driver, x: int, y: int)
    requires 0 <= x <= y && dr.scale_ > 0.0
    ensures 0 <= dr.FloorAt(x) <= dr.FloorAt(y)
    ensures dr.scale_ == 1.0 ==> dr.FloorAt(x) == x
  {
    FloorNonNegative(x, dr.scale_);
    FloorMonotone(x, y, dr.scale_);
    if dr.scale_ == 1.0 {
      FloorExamples(x);
    }
  }
}
