/** `crop_and_downsample_image` of tetra3 (tetra3/tetra3.py:1159-1271) on
    integer images, and the centroid-window clamp of `get_centroids_from_image`
    (tetra3/tetra3.py:1117-1132).

    An image is a two-dimensional integer array; its contents are specified as
    a sequence of rows (`Grid`). The crop is normalised to
    `[height, width, offset_down, offset_right]`, the size is rounded up to a
    multiple of the divisor and clamped to the image, the window is centred
    with Python's `round` (halves to even) and clamped inside the image, and
    downsampling sums `d x d` blocks and clips the sums to the integer type's
    range. */
module ImageOps {
  import opened Arith

  /** The `crop` argument: absent, a scalar fraction, or an iterable of integers. */
  datatype Crop = NoCrop | Fraction(k: int) | Region(values: seq<int>)

  datatype CropError =
    | BadCropLength(length: nat)  // ValueError: an iterable crop whose length is not 2 or 4
    | FractionNotPositive         // AssertionError: a scalar crop that is not > 0
    | FractionNotDivisor          // AssertionError: a scalar crop that does not divide both sides
    | BadFactor                   // a downsample factor <= 0
    | NotDivisible                // AssertionError: the cropped size is not divisible by the factor
    | NegativeSize                // the window has a negative side when downsampling

  datatype Result<T> = Success(value: T) | Failure(error: CropError)

  /** A NumPy integer dtype: `int8` is `IntType(8, true)`, `uint16` is `IntType(16, false)`. */
  datatype IntType = IntType(bits: nat, signed: bool)

  predicate ValidIntType(t: IntType) {
    t.bits == 8 || t.bits == 16 || t.bits == 32 || t.bits == 64
  }

  function Pow2(k: nat): (r: nat)
    ensures r >= 1
  {
    if k == 0 then 1 else 2 * Pow2(k - 1)
  }

  /** `np.iinfo(t).min` */
  function MinOf(t: IntType): int
    requires ValidIntType(t)
  {
    if t.signed then -(Pow2(t.bits - 1) as int) else 0
  }

  /** `np.iinfo(t).max` */
  function MaxOf(t: IntType): int
    requires ValidIntType(t)
  {
    if t.signed then Pow2(t.bits - 1) - 1 else Pow2(t.bits) - 1
  }

  /** `np.clip(x, iinfo.min, iinfo.max)` */
  function Clip(x: int, t: IntType): (r: int)
    requires ValidIntType(t)
    ensures MinOf(t) <= r <= MaxOf(t)
    ensures MinOf(t) <= x <= MaxOf(t) ==> r == x
    ensures x < MinOf(t) ==> r == MinOf(t)
    ensures x > MaxOf(t) ==> r == MaxOf(t)
  {
    if x < MinOf(t) then MinOf(t) else if x > MaxOf(t) then MaxOf(t) else x
  }

  // ---------------------------------------------------------------------------
  // Integer helpers

  /** `int(np.ceil(c / d) * d)`: the least multiple of `d` that is at least `c`. */
  function RoundUp(c: int, d: int): (r: int)
    requires d > 0
    ensures r % d == 0 && c <= r < c + d
  {
    var q := (-c) / d;
    MultipleMod(-q, d);
    -q * d
  }

  /** `round(num / 2)` with Python's rounding of halves to the even neighbour:
      the integer nearest `num / 2`, and the even one of the two on a tie. */
  function RoundHalfEven(num: int): (r: int)
    ensures num - 1 <= 2 * r <= num + 1
    ensures 2 * r != num ==> r % 2 == 0
  {
    var k := num / 2;
    if num % 2 == 0 then k else if k % 2 == 0 then k else k + 1
  }

  /** The two successive `if` clamps of an offset: below to 0, above to `full - size`. */
  function ClampOffset(o: int, full: int, size: int): (r: int)
    requires size <= full
    ensures 0 <= r <= full - size
    ensures 0 <= o <= full - size ==> r == o
  {
    var low := if o < 0 then 0 else o;
    if low > full - size then full - size else low
  }

  // ---------------------------------------------------------------------------
  // The crop window

  /** The crop as `[height, width, offset_down, offset_right]`, or the error the
      normalisation raises. */
  function CropList(crop: Crop, fh: nat, fw: nat): (r: Result<seq<int>>)
    requires !crop.NoCrop?
    ensures r.Success? ==> |r.value| == 4
  {
    match crop
    case Region(v) =>
      if |v| == 2 then Success(v + [0, 0])
      else if |v| == 4 then Success(v)
      else Failure(BadCropLength(|v|))
    case Fraction(k) =>
      if k <= 0 then Failure(FractionNotPositive)
      else if fh % k != 0 || fw % k != 0 then Failure(FractionNotDivisor)
      else Success([fh / k, fw / k, 0, 0])
  }

  /** The rows `[top, top + height)` and columns `[left, left + width)` kept. */
  datatype Window = Window(top: int, left: int, height: int, width: int)

  /** The window the crop selects from a `fh x fw` image, once the crop list is
      known and the divisor (the downsample factor, 2 by default) is positive. */
  function WindowOf(c: seq<int>, d: int, fh: nat, fw: nat): Window
    requires |c| == 4 && d > 0
  {
    var height := Min(RoundUp(c[0], d), fh);
    var width := Min(RoundUp(c[1], d), fw);
    Window(ClampOffset(RoundHalfEven(2 * c[2] + fh - height), fh, height),
           ClampOffset(RoundHalfEven(2 * c[3] + fw - width), fw, width),
           height, width)
  }

  /** The crop step of `crop_and_downsample_image`: the window kept from a
      `fh x fw` image, or the error raised on the way. */
  function CropWindow(fh: nat, fw: nat, crop: Crop, ds: Option<int>): Result<Window> {
    if crop.NoCrop? then Success(Window(0, 0, fh, fw))
    else match CropList(crop, fh, fw)
      case Failure(e) => Failure(e)
      case Success(c) =>
        var d := if ds.Some? then ds.value else 2;
        if d <= 0 then Failure(BadFactor) else Success(WindowOf(c, d, fh, fw))
  }

  // ---------------------------------------------------------------------------
  // Images as rows

  predicate IsGrid(g: seq<seq<int>>, h: int, w: int) {
    |g| == h && forall r :: 0 <= r < |g| ==> |g[r]| == w
  }

  /** The contents of an image array, row by row. */
  function Grid(a: array2<int>): (g: seq<seq<int>>)
    reads a
    ensures IsGrid(g, a.Length0, a.Length1)
    ensures forall i, j :: 0 <= i < a.Length0 && 0 <= j < a.Length1 ==> g[i][j] == a[i, j]
  {
    seq(a.Length0, i requires 0 <= i < a.Length0 reads a =>
      seq(a.Length1, j requires 0 <= j < a.Length1 reads a => a[i, j]))
  }

  lemma GridEqual(a: array2<int>, g: seq<seq<int>>)
    requires IsGrid(g, a.Length0, a.Length1)
    requires forall i, j :: 0 <= i < a.Length0 && 0 <= j < a.Length1 ==> a[i, j] == g[i][j]
    ensures Grid(a) == g
  {
    var ga := Grid(a);
    forall i | 0 <= i < a.Length0
      ensures ga[i] == g[i]
    {
    }
  }

  /** A Python slice index `i` on a sequence of length `n`: negative counts from
      the end, then clamped into `[0, n]`. */
  function SliceIndex(i: int, n: nat): (r: nat)
    ensures r <= n
    ensures 0 <= i <= n ==> r == i
  {
    if i < 0 then (if i + n < 0 then 0 else i + n) else if i > n then n else i
  }

  /** The range `[lo, hi)` that `s[start:stop]` selects from a sequence of length `n`. */
  function SliceBounds(start: int, stop: int, n: nat): (b: (nat, nat))
    ensures b.0 <= b.1 <= n
    ensures 0 <= start <= stop <= n ==> b == (start, stop)
  {
    var lo := SliceIndex(start, n);
    var hi := SliceIndex(stop, n);
    (lo, if hi < lo then lo else hi)
  }

  /** `image[top:top + height, left:left + width]` with NumPy's slicing rules. */
  function Cut(g: seq<seq<int>>, fh: nat, fw: nat, w: Window): (r: seq<seq<int>>)
    requires IsGrid(g, fh, fw)
    ensures var rows, cols := SliceBounds(w.top, w.top + w.height, fh), SliceBounds(w.left, w.left + w.width, fw);
      IsGrid(r, rows.1 - rows.0, cols.1 - cols.0) &&
      forall i, j :: 0 <= i < |r| && 0 <= j < cols.1 - cols.0 ==> r[i][j] == g[rows.0 + i][cols.0 + j]
  {
    var rows, cols := SliceBounds(w.top, w.top + w.height, fh), SliceBounds(w.left, w.left + w.width, fw);
    seq(rows.1 - rows.0, i requires 0 <= i < rows.1 - rows.0 => g[rows.0 + i][cols.0..cols.1])
  }

  function Sum(s: seq<int>): int {
    if |s| == 0 then 0 else Sum(s[..|s| - 1]) + s[|s| - 1]
  }

  /** The sum of the first `rows` rows of the `d`-wide block at (`top`, `left`). */
  function BlockSum(g: seq<seq<int>>, h: nat, w: nat, top: nat, left: nat, d: nat, rows: nat): int
    requires IsGrid(g, h, w) && top + rows <= h && left + d <= w
  {
    if rows == 0 then 0
    else BlockSum(g, h, w, top, left, d, rows - 1) + Sum(g[top + rows - 1][left..left + d])
  }

  /** Pixel (`i`, `j`) of the downsampled image: its block's sum, clipped to `t`. */
  function BlockPixel(g: seq<seq<int>>, h: nat, w: nat, d: nat, t: IntType, i: nat, j: nat): int
    requires IsGrid(g, h, w) && d > 0 && ValidIntType(t) && i < h / d && j < w / d
  {
    BlockFits(h, d, i);
    BlockFits(w, d, j);
    Clip(BlockSum(g, h, w, i * d, j * d, d, d), t)
  }

  /** `image.reshape((h // d, d, w // d, d)).sum(axis=-1).sum(axis=1)`, clipped to `t`. */
  function Downsampled(g: seq<seq<int>>, h: nat, w: nat, d: nat, t: IntType): (r: seq<seq<int>>)
    requires IsGrid(g, h, w) && d > 0 && ValidIntType(t)
    ensures IsGrid(r, h / d, w / d)
  {
    seq(h / d, i requires 0 <= i < h / d =>
      seq(w / d, j requires 0 <= j < w / d => BlockPixel(g, h, w, d, t, i, j)))
  }

  lemma BlockFits(h: nat, d: nat, i: nat)
    requires d > 0 && i < h / d
    ensures i * d + d <= h
  {
    MulMonotone(d, i + 1, h / d);
  }

  /** What `crop_and_downsample_image` returns with `return_offsets=True`. */
  datatype Output = Output(pixels: seq<seq<int>>, top: int, left: int)

  /** `crop_and_downsample_image(image, crop, downsample, sum_when_downsample=True,
      return_offsets=True)` on a `fh x fw` image of integer type `t`. */
  function CropAndDownsampleSpec(g: seq<seq<int>>, fh: nat, fw: nat, crop: Crop, ds: Option<int>, t: IntType): Result<Output>
    requires IsGrid(g, fh, fw) && ValidIntType(t)
  {
    if crop.NoCrop? && ds.None? then Success(Output(g, 0, 0))
    else match CropWindow(fh, fw, crop, ds)
      case Failure(e) => Failure(e)
      case Success(w) =>
        match ds
        case None => Success(Output(Cut(g, fh, fw, w), w.top, w.left))
        case Some(d) =>
          if d <= 0 then Failure(BadFactor)
          else if w.height % d != 0 || w.width % d != 0 then Failure(NotDivisible)
          else if w.height < 0 || w.width < 0 then Failure(NegativeSize)
          else
            WindowInside(fh, fw, crop, ds);
            Success(Output(Downsampled(Cut(g, fh, fw, w), w.height, w.width, d, t), w.top, w.left))
  }

  // ---------------------------------------------------------------------------
  // Properties of the crop window

  /** The window never reaches outside the image, and a window of non-negative
      size is cut out exactly. */
  lemma WindowInside(fh: nat, fw: nat, crop: Crop, ds: Option<int>)
    requires CropWindow(fh, fw, crop, ds).Success?
    ensures var w := CropWindow(fh, fw, crop, ds).value;
      w.height <= fh && w.width <= fw &&
      0 <= w.top <= fh - w.height && 0 <= w.left <= fw - w.width &&
      (w.height >= 0 ==> SliceBounds(w.top, w.top + w.height, fh) == (w.top, w.top + w.height)) &&
      (w.width >= 0 ==> SliceBounds(w.left, w.left + w.width, fw) == (w.left, w.left + w.width))
  {
  }

  /** The crop size is the requested size rounded up to a multiple of the
      divisor, unless that exceeds the image, when it is the full size. */
  lemma WindowSize(c: seq<int>, d: int, fh: nat, fw: nat)
    requires |c| == 4 && d > 0
    ensures var w := WindowOf(c, d, fh, fw);
      (RoundUp(c[0], d) <= fh ==> w.height % d == 0 && c[0] <= w.height < c[0] + d) &&
      (RoundUp(c[0], d) > fh ==> w.height == fh) &&
      (RoundUp(c[1], d) <= fw ==> w.width % d == 0 && c[1] <= w.width < c[1] + d) &&
      (RoundUp(c[1], d) > fw ==> w.width == fw)
  {
  }

  /** When the centred window fits, its offset is the requested offset plus
      half the margin, rounded half to even; otherwise it is pushed back to the
      nearer edge. */
  lemma WindowCentred(c: seq<int>, d: int, fh: nat, fw: nat)
    requires |c| == 4 && d > 0
    ensures var w := WindowOf(c, d, fh, fw);
      var want := RoundHalfEven(2 * c[2] + fh - w.height);
      (0 <= want <= fh - w.height ==> w.top == want) &&
      (want < 0 ==> w.top == 0) &&
      (want > fh - w.height ==> w.top == fh - w.height)
  {
  }

  /** The errors of the crop step, each with the input that raises it. */
  lemma CropErrors(fh: nat, fw: nat, crop: Crop, ds: Option<int>)
    ensures CropWindow(fh, fw, crop, ds).Failure? <==>
      (crop.Region? && |crop.values| != 2 && |crop.values| != 4) ||
      (crop.Fraction? && (crop.k <= 0 || fh % crop.k != 0 || fw % crop.k != 0)) ||
      (!crop.NoCrop? && ds.Some? && ds.value <= 0)
    ensures crop.Region? && |crop.values| != 2 && |crop.values| != 4 ==>
      CropWindow(fh, fw, crop, ds) == Failure(BadCropLength(|crop.values|))
    ensures crop.Fraction? && crop.k <= 0 ==> CropWindow(fh, fw, crop, ds) == Failure(FractionNotPositive)
  {
  }

  /** A scalar crop `k` keeps a centred `fh / k x fw / k` window (rounded up to
      the divisor). */
  lemma FractionWindow(fh: nat, fw: nat, k: int, ds: Option<int>)
    requires k > 0 && fh % k == 0 && fw % k == 0 && (ds.Some? ==> ds.value > 0)
    ensures CropWindow(fh, fw, Fraction(k), ds) ==
      Success(WindowOf([fh / k, fw / k, 0, 0], if ds.Some? then ds.value else 2, fh, fw))
  {
  }

  // ---------------------------------------------------------------------------
  // Properties of the whole operation

  /** Every pixel of a downsampled image lies in the integer type's range. */
  lemma DownsampledInRange(g: seq<seq<int>>, fh: nat, fw: nat, crop: Crop, d: int, t: IntType)
    requires IsGrid(g, fh, fw) && ValidIntType(t)
    requires CropAndDownsampleSpec(g, fh, fw, crop, Some(d), t).Success?
    ensures var out := CropAndDownsampleSpec(g, fh, fw, crop, Some(d), t).value.pixels;
      forall i, j :: 0 <= i < |out| && 0 <= j < |out[i]| ==> MinOf(t) <= out[i][j] <= MaxOf(t)
  {
  }

  /** The shape of the result: the window itself when only cropping, and the
      window divided by the factor when downsampling. */
  lemma OutputShape(g: seq<seq<int>>, fh: nat, fw: nat, crop: Crop, ds: Option<int>, t: IntType)
    requires IsGrid(g, fh, fw) && ValidIntType(t)
    requires CropAndDownsampleSpec(g, fh, fw, crop, ds, t).Success?
    ensures var w := CropWindow(fh, fw, crop, ds).value;
      var out := CropAndDownsampleSpec(g, fh, fw, crop, ds, t).value;
      out.top == w.top && out.left == w.left &&
      (ds.Some? ==> ds.value > 0 && w.height % ds.value == 0 && w.width % ds.value == 0 &&
                    IsGrid(out.pixels, w.height / ds.value, w.width / ds.value)) &&
      (ds.None? && w.height >= 0 && w.width >= 0 ==> IsGrid(out.pixels, w.height, w.width))
  {
    WindowInside(fh, fw, crop, ds);
  }

  lemma CutWhole(g: seq<seq<int>>, fh: nat, fw: nat)
    requires IsGrid(g, fh, fw)
    ensures Cut(g, fh, fw, Window(0, 0, fh, fw)) == g
  {
    var cut := Cut(g, fh, fw, Window(0, 0, fh, fw));
    forall i | 0 <= i < fh
      ensures cut[i] == g[i]
    {
      assert cut[i] == g[i][0..fw];
    }
  }

  lemma PixelByOne(g: seq<seq<int>>, fh: nat, fw: nat, t: IntType, i: nat, j: nat)
    requires IsGrid(g, fh, fw) && ValidIntType(t) && i < fh && j < fw
    requires MinOf(t) <= g[i][j] <= MaxOf(t)
    ensures BlockPixel(g, fh, fw, 1, t, i, j) == g[i][j]
  {
    var row := g[i][j..j + 1];
    assert row[..0] == [];
    assert BlockSum(g, fh, fw, i, j, 1, 1) == Sum(row) == g[i][j];
    assert i * 1 == i && j * 1 == j;
  }

  /** Downsampling by one without cropping returns the image itself when its
      pixels are within the type's range. */
  lemma DownsampleByOne(g: seq<seq<int>>, fh: nat, fw: nat, t: IntType)
    requires IsGrid(g, fh, fw) && ValidIntType(t)
    requires forall i, j :: 0 <= i < fh && 0 <= j < fw ==> MinOf(t) <= g[i][j] <= MaxOf(t)
    ensures CropAndDownsampleSpec(g, fh, fw, NoCrop, Some(1), t) == Success(Output(g, 0, 0))
  {
    CutWhole(g, fh, fw);
    var out := Downsampled(g, fh, fw, 1, t);
    forall i | 0 <= i < fh
      ensures out[i] == g[i]
    {
      forall j | 0 <= j < fw
        ensures out[i][j] == g[i][j]
      {
        PixelByOne(g, fh, fw, t, i, j);
      }
    }
    assert out == g;
  }

  // ---------------------------------------------------------------------------
  // The operation on arrays

  /** The result with `return_offsets=True`: the image and the offsets (top, left). */
  datatype Cropped = Cropped(pixels: array2<int>, top: int, left: int)

  /** Sum of the `d x d` block of `image` whose top-left corner is (`top`, `left`). */
  method BlockSumAt(image: array2<int>, ghost g: seq<seq<int>>, top: nat, left: nat, d: nat) returns (s: int)
    requires g == Grid(image) && top + d <= image.Length0 && left + d <= image.Length1
    ensures s == BlockSum(g, image.Length0, image.Length1, top, left, d, d)
  {
    s := 0;
    var a := 0;
    while a < d
      invariant 0 <= a <= d
      invariant s == BlockSum(g, image.Length0, image.Length1, top, left, d, a)
    {
      var row := RowSumAt(image, g, top + a, left, d);
      s := s + row;
      a := a + 1;
    }
  }

  /** The sum of the `d` pixels of image row `r` from column `left` on. */
  method RowSumAt(image: array2<int>, ghost g: seq<seq<int>>, r: nat, left: nat, d: nat) returns (s: int)
    requires g == Grid(image) && r < image.Length0 && left + d <= image.Length1
    ensures s == Sum(g[r][left..left + d])
  {
    s := 0;
    var b := 0;
    while b < d
      invariant 0 <= b <= d
      invariant s == Sum(g[r][left..left + b])
    {
      assert g[r][left..left + b + 1][..b] == g[r][left..left + b];
      s := s + image[r, left + b];
      b := b + 1;
    }
  }

  /** `image[r0:r0 + h, c0:c0 + w]` of a window inside the image, copied into a new array. */
  method CutOut(image: array2<int>, r0: nat, c0: nat, h: nat, w: nat) returns (out: array2<int>)
    requires r0 + h <= image.Length0 && c0 + w <= image.Length1
    ensures out.Length0 == h && out.Length1 == w
    ensures forall r, c :: 0 <= r < h && 0 <= c < w ==> out[r, c] == image[r0 + r, c0 + c]
  {
    out := new int[h, w];
    var i := 0;
    while i < h
      invariant 0 <= i <= h
      invariant forall r, c :: 0 <= r < i && 0 <= c < w ==> out[r, c] == image[r0 + r, c0 + c]
    {
      CopyRow(image, r0 + i, c0, out, i);
      i := i + 1;
    }
  }

  /** Row `i` of `out` set to the `out.Length1` pixels of image row `r`
      from column `c0` on; the other rows stay. */
  method CopyRow(image: array2<int>, r: nat, c0: nat, out: array2<int>, i: nat)
    requires out != image && i < out.Length0 && r < image.Length0 && c0 + out.Length1 <= image.Length1
    modifies out
    ensures forall r', c :: 0 <= r' < out.Length0 && r' != i && 0 <= c < out.Length1 ==> out[r', c] == old(out[r', c])
    ensures forall c :: 0 <= c < out.Length1 ==> out[i, c] == image[r, c0 + c]
  {
    var j := 0;
    while j < out.Length1
      invariant 0 <= j <= out.Length1
      invariant forall r', c :: 0 <= r' < out.Length0 && r' != i && 0 <= c < out.Length1 ==> out[r', c] == old(out[r', c])
      invariant forall c :: 0 <= c < j ==> out[i, c] == image[r, c0 + c]
    {
      out[i, j] := image[r, c0 + j];
      j := j + 1;
    }
  }

  /** An array holding the window's pixels holds what NumPy's slice selects. */
  lemma CutGrid(a: array2<int>, out: array2<int>, w: Window)
    requires var rows, cols := SliceBounds(w.top, w.top + w.height, a.Length0), SliceBounds(w.left, w.left + w.width, a.Length1);
      out.Length0 == rows.1 - rows.0 && out.Length1 == cols.1 - cols.0 &&
      forall r, c :: 0 <= r < out.Length0 && 0 <= c < out.Length1 ==> out[r, c] == a[rows.0 + r, cols.0 + c]
    ensures Grid(out) == Cut(Grid(a), a.Length0, a.Length1, w)
  {
    GridEqual(out, Cut(Grid(a), a.Length0, a.Length1, w));
  }

  /** `image[top:top + height, left:left + width]` as a new array. */
  method CutWindow(image: array2<int>, w: Window) returns (out: array2<int>)
    ensures Grid(out) == Cut(Grid(image), image.Length0, image.Length1, w)
  {
    var rows, cols := SliceBounds(w.top, w.top + w.height, image.Length0), SliceBounds(w.left, w.left + w.width, image.Length1);
    out := CutOut(image, rows.0, cols.0, rows.1 - rows.0, cols.1 - cols.0);
    CutGrid(image, out, w);
  }

  /** The summing `reshape` of the window `w` of `image` by `d`, clipped to `t`. */
  method DownsampleWindow(image: array2<int>, ghost g: seq<seq<int>>, w: Window, d: nat, t: IntType) returns (out: array2<int>)
    requires g == Grid(image) && ValidIntType(t) && d > 0 && w.height >= 0 && w.width >= 0
    requires 0 <= w.top && w.top + w.height <= image.Length0 && 0 <= w.left && w.left + w.width <= image.Length1
    ensures out.Length0 == w.height / d && out.Length1 == w.width / d
    ensures forall r, c :: 0 <= r < out.Length0 && 0 <= c < out.Length1 ==>
      BlockInWindow(image.Length0, image.Length1, w, d, r, c) &&
      out[r, c] == WindowPixel(g, image.Length0, image.Length1, w, d, t, r, c)
  {
    out := new int[w.height / d, w.width / d];
    var i := 0;
    while i < out.Length0
      invariant 0 <= i <= out.Length0
      invariant forall r, c :: 0 <= r < i && 0 <= c < out.Length1 ==>
        BlockInWindow(image.Length0, image.Length1, w, d, r, c) &&
        out[r, c] == WindowPixel(g, image.Length0, image.Length1, w, d, t, r, c)
    {
      DownsampleRow(image, g, w, d, t, out, i);
      i := i + 1;
    }
  }

  /** Row `i` of the downsampled window, written into `out`; the other rows stay. */
  method DownsampleRow(image: array2<int>, ghost g: seq<seq<int>>, w: Window, d: nat, t: IntType, out: array2<int>, i: nat)
    requires g == Grid(image) && ValidIntType(t) && d > 0 && w.height >= 0 && w.width >= 0
    requires 0 <= w.top && w.top + w.height <= image.Length0 && 0 <= w.left && w.left + w.width <= image.Length1
    requires out != image && out.Length0 == w.height / d && out.Length1 == w.width / d && i < out.Length0
    modifies out
    ensures forall r, c :: 0 <= r < out.Length0 && r != i && 0 <= c < out.Length1 ==> out[r, c] == old(out[r, c])
    ensures forall c :: 0 <= c < out.Length1 ==>
      BlockInWindow(image.Length0, image.Length1, w, d, i, c) &&
      out[i, c] == WindowPixel(g, image.Length0, image.Length1, w, d, t, i, c)
  {
    var j := 0;
    while j < out.Length1
      invariant 0 <= j <= out.Length1
      invariant forall r, c :: 0 <= r < out.Length0 && r != i && 0 <= c < out.Length1 ==> out[r, c] == old(out[r, c])
      invariant forall c :: 0 <= c < j ==>
        BlockInWindow(image.Length0, image.Length1, w, d, i, c) &&
        out[i, c] == WindowPixel(g, image.Length0, image.Length1, w, d, t, i, c)
    {
      var top, left := PixelCorner(w, d, i, j);
      var s := BlockSumAt(image, g, top, left, d);
      assert WindowPixel(g, image.Length0, image.Length1, w, d, t, i, j) == Clip(s, t);
      out[i, j] := Clip(s, t);
      j := j + 1;
    }
  }

  /** An array holding every block's clipped sum holds the downsampled window. */
  lemma DownsampledGrid(out: array2<int>, g: seq<seq<int>>, fh: nat, fw: nat, w: Window, d: nat, t: IntType)
    requires IsGrid(g, fh, fw) && ValidIntType(t) && d > 0 && w.height >= 0 && w.width >= 0
    requires 0 <= w.top && w.top + w.height <= fh && 0 <= w.left && w.left + w.width <= fw
    requires out.Length0 == w.height / d && out.Length1 == w.width / d
    requires forall r, c :: 0 <= r < out.Length0 && 0 <= c < out.Length1 ==>
      BlockInWindow(fh, fw, w, d, r, c) && out[r, c] == WindowPixel(g, fh, fw, w, d, t, r, c)
    ensures Grid(out) == Downsampled(Cut(g, fh, fw, w), w.height, w.width, d, t)
  {
    var spec := Downsampled(Cut(g, fh, fw, w), w.height, w.width, d, t);
    forall r, c | 0 <= r < out.Length0 && 0 <= c < out.Length1
      ensures out[r, c] == spec[r][c]
    {
      PixelOfWindow(g, fh, fw, w, d, t, r, c);
    }
    GridEqual(out, spec);
  }

  /** The image coordinates of the top-left pixel of block (`i`, `j`) of the window. */
  method PixelCorner(w: Window, d: nat, i: nat, j: nat) returns (top: nat, left: nat)
    requires d > 0 && w.top >= 0 && w.left >= 0 && w.height >= 0 && w.width >= 0
    requires i < w.height / d && j < w.width / d
    ensures top == w.top + i * d && left == w.left + j * d
    ensures top + d <= w.top + w.height && left + d <= w.left + w.width
  {
    BlockFits(w.height, d, i);
    BlockFits(w.width, d, j);
    top, left := w.top + i * d, w.left + j * d;
  }

  /** Whether block (`i`, `j`) of window `w`, downsampled by `d`, exists in a
      `fh x fw` image. */
  predicate BlockInWindow(fh: nat, fw: nat, w: Window, d: nat, i: nat, j: nat) {
    d > 0 && w.height >= 0 && w.width >= 0 &&
    0 <= w.top && w.top + w.height <= fh && 0 <= w.left && w.left + w.width <= fw &&
    i < w.height / d && j < w.width / d
  }

  /** The clipped sum of the image's block at the window's offset plus
      `(i * d, j * d)`. */
  function WindowPixel(g: seq<seq<int>>, fh: nat, fw: nat, w: Window, d: nat, t: IntType, i: nat, j: nat): int
    requires IsGrid(g, fh, fw) && ValidIntType(t) && BlockInWindow(fh, fw, w, d, i, j)
  {
    BlockFits(w.height, d, i);
    BlockFits(w.width, d, j);
    Clip(BlockSum(g, fh, fw, w.top + i * d, w.left + j * d, d, d), t)
  }

  /** Pixel (`i`, `j`) of the downsampled window is the clipped sum of the
      image's block at the window's offset plus `(i * d, j * d)`. */
  lemma PixelOfWindow(g: seq<seq<int>>, fh: nat, fw: nat, w: Window, d: nat, t: IntType, i: nat, j: nat)
    requires IsGrid(g, fh, fw) && ValidIntType(t) && BlockInWindow(fh, fw, w, d, i, j)
    ensures Downsampled(Cut(g, fh, fw, w), w.height, w.width, d, t)[i][j] == WindowPixel(g, fh, fw, w, d, t, i, j)
  {
    BlockFits(w.height, d, i);
    BlockFits(w.width, d, j);
    BlockSumOfCut(g, fh, fw, w, i * d, j * d, d, d);
  }

  /** `crop_and_downsample_image(image, crop, downsample, return_offsets=True)`
      on an integer image of type `t`, summing blocks when downsampling. */
  method CropAndDownsample(image: array2<int>, crop: Crop, ds: Option<int>, t: IntType) returns (res: Result<Cropped>)
    requires ValidIntType(t)
    ensures crop.NoCrop? && ds.None? ==> res == Success(Cropped(image, 0, 0))
    ensures var spec := CropAndDownsampleSpec(Grid(image), image.Length0, image.Length1, crop, ds, t);
      (res.Failure? <==> spec.Failure?) &&
      (res.Failure? ==> res.error == spec.error) &&
      (res.Success? ==> Grid(res.value.pixels) == spec.value.pixels &&
                        res.value.top == spec.value.top && res.value.left == spec.value.left)
  {
    if crop.NoCrop? && ds.None? {
      return Success(Cropped(image, 0, 0));
    }
    var cw := CropWindow(image.Length0, image.Length1, crop, ds);
    if cw.Failure? {
      return Failure(cw.error);
    }
    var w := cw.value;
    WindowInside(image.Length0, image.Length1, crop, ds);
    match ds
    case None =>
      var out := CutWindow(image, w);
      return Success(Cropped(out, w.top, w.left));
    case Some(d) =>
      if d <= 0 {
        return Failure(BadFactor);
      }
      if w.height % d != 0 || w.width % d != 0 {
        return Failure(NotDivisible);
      }
      if w.height < 0 || w.width < 0 {
        return Failure(NegativeSize);
      }
      ghost var g := Grid(image);
      var out := DownsampleWindow(image, g, w, d, t);
      DownsampledGrid(out, g, image.Length0, image.Length1, w, d, t);
      return Success(Cropped(out, w.top, w.left));
  }

  /** A block of the cut-out window is the block of the image shifted by the
      window's offsets. */
  lemma {:induction false} BlockSumOfCut(g: seq<seq<int>>, fh: nat, fw: nat, w: Window, top: nat, left: nat, d: nat, rows: nat)
    requires IsGrid(g, fh, fw) && w.height >= 0 && w.width >= 0
    requires 0 <= w.top && w.top + w.height <= fh && 0 <= w.left && w.left + w.width <= fw
    requires top + rows <= w.height && left + d <= w.width
    ensures BlockSum(Cut(g, fh, fw, w), w.height, w.width, top, left, d, rows) ==
            BlockSum(g, fh, fw, w.top + top, w.left + left, d, rows)
    decreases rows
  {
    if rows > 0 {
      BlockSumOfCut(g, fh, fw, w, top, left, d, rows - 1);
      CutBlockRow(g, fh, fw, w, top + rows - 1, left, d);
    }
  }

  /** Within a window inside the image, `d` pixels of row `r` from column `left`
      are the matching pixels of image row `w.top + r`. */
  lemma CutBlockRow(g: seq<seq<int>>, fh: nat, fw: nat, w: Window, r: nat, left: nat, d: nat)
    requires IsGrid(g, fh, fw) && w.height >= 0 && w.width >= 0
    requires 0 <= w.top && w.top + w.height <= fh && 0 <= w.left && w.left + w.width <= fw
    requires r < w.height && left + d <= w.width
    ensures Cut(g, fh, fw, w)[r][left..left + d] == g[w.top + r][w.left + left..w.left + left + d]
  {
    var cut := Cut(g, fh, fw, w);
    var block, source := cut[r][left..left + d], g[w.top + r][w.left + left..w.left + left + d];
    forall j | 0 <= j < d
      ensures block[j] == source[j]
    {
      assert cut[r][left + j] == g[w.top + r][w.left + left + j];
    }
  }

  // ---------------------------------------------------------------------------
  // The centroid window (tetra3/tetra3.py:1117-1132)

  /** Offsets `(offs_y, offs_x)` and side of the square window re-centred on the
      centroid at integer pixel (`cy`, `cx`) of a `height x width` image. */
  function CentroidWindow(height: nat, width: nat, window: int, cy: int, cx: int): (r: (int, int, int))
    ensures r.2 <= height && r.2 <= width
    ensures r.2 >= 0 ==> 0 <= r.0 <= height - r.2 && 0 <= r.1 <= width - r.2
  {
    var win := if window > Min(height, width) then Min(height, width) else window;
    var offsY := cy - win / 2;
    var offsX := cx - win / 2;
    var y := if offsY < 0 then 0 else offsY;
    var y' := if y > height - win then height - win else y;
    var x := if offsX < 0 then 0 else offsX;
    var x' := if x > width - win then width - win else x;
    (y', x', win)
  }

  /** A window of positive side contains the centroid it was centred on, and it
      is centred on it when it does not touch an edge. */
  lemma CentroidInWindow(height: nat, width: nat, window: int, cy: int, cx: int)
    requires window > 0 && 0 <= cy < height && 0 <= cx < width
    ensures var (y, x, win) := CentroidWindow(height, width, window, cy, cx);
      y <= cy < y + win && x <= cx < x + win &&
      (0 <= cy - win / 2 <= height - win ==> y == cy - win / 2) &&
      (0 <= cx - win / 2 <= width - win ==> x == cx - win / 2)
  {
  }
}
