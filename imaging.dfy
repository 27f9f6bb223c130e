/** Pixel buffers and the image kernels the enhancement pipeline calls. The
    floating-point OpenCV kernels are uninterpreted: each is a field of
    `Kernels`, and `None` stands for the `cv2.error` a kernel may raise.
    Adaptive thresholding is given its concrete integer semantics. */
module Imaging {
  import opened Common

  /** A single-channel image: rows of samples. */
  type Grid = seq<seq<int>>

  /** One colour sample with its three channels in array order. */
  datatype Rgb = Rgb(c0: int, c1: int, c2: int)

  /** The array a page is rasterised to: two-dimensional (one channel) or
      three-dimensional (a channel axis after the row and column axes). */
  datatype Raster = Plane(gray: Grid) | Channels(pixels: seq<seq<Rgb>>)

  datatype Kernels = Kernels(
    bgrToGray: seq<seq<Rgb>> -> Option<Grid>,             // cv2.cvtColor(_, COLOR_BGR2GRAY)
    nlMeansDenoising: (Grid, int, int, int) -> Option<Grid>, // h, template window, search window
    clahe: (Grid, real, int, int) -> Option<Grid>,          // clip limit, tile grid x, tile grid y
    convertScaleAbs: (Grid, real, real) -> Option<Grid>,    // alpha, beta
    gaussianBlur: (Grid, real) -> Option<Grid>,             // ksize (0, 0), sigma
    addWeighted: (Grid, real, Grid, real) -> Option<Grid>,  // src1, alpha, src2, beta, gamma 0
    gaussianMean: (Grid, int, int, int) -> int)            // local Gaussian-weighted mean at (row, column) over a block

  predicate SameShape(a: Grid, b: Grid) {
    |a| == |b| && forall y :: 0 <= y < |a| ==> |a[y]| == |b[y]|
  }

  /** Every sample is 0 or 255. */
  predicate TwoValued(g: Grid) {
    forall y, x :: 0 <= y < |g| && 0 <= x < |g[y]| ==> g[y][x] == 0 || g[y][x] == 255
  }

  /** `cv2.adaptiveThreshold(src, 255, ADAPTIVE_THRESH_GAUSSIAN_C, THRESH_BINARY,
      blockSize, c)`: OpenCV rejects a block size that is not odd and greater
      than 1; otherwise a sample becomes 255 exactly when it exceeds its local
      Gaussian mean minus `c`, and 0 otherwise. */
  function AdaptiveThresholdBinary(k: Kernels, src: Grid, blockSize: int, c: int): (r: Option<Grid>)
    ensures r.Some? <==> blockSize > 1 && blockSize % 2 == 1
    ensures r.Some? ==> SameShape(r.value, src) && TwoValued(r.value)
    ensures r.Some? ==> forall y, x :: 0 <= y < |src| && 0 <= x < |src[y]| ==>
      (r.value[y][x] == 255 <==> src[y][x] > k.gaussianMean(src, blockSize, y, x) - c)
  {
    if blockSize > 1 && blockSize % 2 == 1 then
      Some(seq(|src|, y requires 0 <= y < |src| =>
        seq(|src[y]|, x requires 0 <= x < |src[y]| =>
          if src[y][x] > k.gaussianMean(src, blockSize, y, x) - c then 255 else 0)))
    else None
  }
}
