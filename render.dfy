/** The image driver (`main`, src/main.rs:49-116): for every pixel, rows
    from the top (`j = ny - 1`) down and columns left to right, average `ns`
    jittered samples of `color`, apply a square root per channel, convert to
    bytes and write the pixel. */
module Render {
  import opened Arith
  import opened Vec
  import opened Rays
  import opened Rnd
  import opened Hit
  import opened Mat
  import opened Sph
  import opened Cam
  import opened Color
  import opened Ppm

  const NX: nat := 200
  const NY: nat := 100
  const NS: nat := 100

  /** The camera `main` builds. */
  const MainCamera: Camera := Camera(Vec3(0.0, 0.0, 0.0), Vec3(-2.0, -1.0, -1.0), Vec3(4.0, 0.0, 0.0), Vec3(0.0, 2.0, 0.0))

  /** Every ray of `main`'s camera points one unit down the negative z
      axis, so its direction is never the zero vector. */
  lemma MainCameraDirection(u: real, v: real)
    ensures GetRay(MainCamera, u, v).direction == Vec3(-2.0 + 4.0 * u, -1.0 + 2.0 * v, -1.0)
    ensures GetRay(MainCamera, u, v).direction != Zero
  {
  }

  /** The centre of the image looks straight down the negative z axis. */
  lemma MainCameraCentre()
    ensures GetRay(MainCamera, 0.5, 0.5) == Ray(Zero, Vec3(0.0, 0.0, -1.0))
  {
    MainCameraDirection(0.5, 0.5);
  }

  // ---------------------------------------------------------------------
  // One pixel

  /** `(i + sample) / n`, the jittered coordinate of column or row `i`. */
  function SampleCoord(i: nat, u: Unit01, n: nat): real
    requires n > 0
  {
    (i as real + u) / n as real
  }

  /** The jittered coordinate stays inside its pixel: it lies in
      `[i / n, (i + 1) / n)`. */
  lemma SampleCoordInPixel(i: nat, u: Unit01, n: nat)
    requires n > 0
    ensures (i as real) / (n as real) <= SampleCoord(i, u, n) < (i as real + 1.0) / (n as real)
  {
    QuotientBetween(i as real, i as real + u, i as real + 1.0, n as real);
  }

  lemma QuotientBetween(lo: real, x: real, hi: real, d: real)
    requires d > 0.0 && lo <= x < hi
    ensures lo / d <= x / d < hi / d
  {
    var ql, qx, qh := lo / d, x / d, hi / d;
    assert ql * d == lo && qx * d == x && qh * d == hi;
    if ql > qx {
      MulPositive(ql - qx, d, lo - x);
    }
    if qx >= qh {
      MulNonNegative(qx - qh, d, x - hi);
    }
  }

  /** One sample of pixel `(i, j)`: two samples place the ray inside the
      pixel, and `color` follows it from depth 0. */
  function OneSample(i: nat, j: nat, world: seq<Sphere>, s: seq<Unit01>, sqrt: SqrtFn): Sampled<Vec3> {
    if |s| < 2 then
      Exhausted
    else
      var u := SampleCoord(i, s[0], NX);
      var v := SampleCoord(j, s[1], NY);
      Color.Color(GetRay(MainCamera, u, v), world, 0, s[2..], sqrt)
  }

  /** The sampler of pixel `(i, j)`. */
  function PixelSampler(i: nat, j: nat, world: seq<Sphere>, sqrt: SqrtFn): seq<Unit01> -> Sampled<Vec3> {
    t => OneSample(i, j, world, t, sqrt)
  }

  /** The sum of `k` successive samples drawn by `sample`. */
  function SampleSum(sample: seq<Unit01> -> Sampled<Vec3>, k: nat, s: seq<Unit01>): Sampled<Vec3>
    decreases k
  {
    if k == 0 then
      Drawn(Zero, s)
    else
      match SampleSum(sample, k - 1, s)
      case Exhausted => Exhausted
      case Drawn(acc, rest) =>
        match sample(rest)
        case Exhausted => Exhausted
        case Drawn(c, rest') => Drawn(Add(acc, c), rest')
  }

  /** Once the samples run out, longer sums run out as well. */
  lemma {:induction false} SampleSumExhausted(sample: seq<Unit01> -> Sampled<Vec3>, k: nat, k': nat, s: seq<Unit01>)
    requires k <= k'
    requires SampleSum(sample, k, s).Exhausted?
    ensures SampleSum(sample, k', s).Exhausted?
    decreases k'
  {
    if k < k' {
      SampleSumExhausted(sample, k, k' - 1, s);
    }
  }

  /** A sum of `k` samples that each lie in the unit cube has every
      component in `[0, k]`. */
  lemma {:induction false} SampleSumInRange(sample: seq<Unit01> -> Sampled<Vec3>, k: nat, s: seq<Unit01>)
    requires forall t :: sample(t).Drawn? ==> InUnitCube(sample(t).value)
    ensures var p := SampleSum(sample, k, s);
            p.Drawn? ==> 0.0 <= p.value.x <= k as real && 0.0 <= p.value.y <= k as real && 0.0 <= p.value.z <= k as real
    decreases k
  {
    if k > 0 {
      SampleSumInRange(sample, k - 1, s);
    }
  }

  /** The sampling loop of one pixel: `col += color(...)`, `ns` times. */
  method SamplePixel(i: nat, j: nat, world: seq<Sphere>, s: seq<Unit01>, sqrt: SqrtFn) returns (res: Sampled<Vec3>)
    ensures res == SampleSum(PixelSampler(i, j, world, sqrt), NS, s)
  {
    res := SumSamples(PixelSampler(i, j, world, sqrt), NS, s);
  }

  /** The loop of `SamplePixel` for any number `k` of samples. */
  method SumSamples(sample: seq<Unit01> -> Sampled<Vec3>, k: nat, s: seq<Unit01>) returns (res: Sampled<Vec3>)
    ensures res == SampleSum(sample, k, s)
  {
    var col := Zero;
    var rest := s;
    var n := 0;
    while n < k
      invariant 0 <= n <= k
      invariant SampleSum(sample, n, s) == Drawn(col, rest)
    {
      var c := sample(rest);
      if c.Exhausted? {
        SampleSumExhausted(sample, n + 1, k, s);
        return Exhausted;
      }
      col := Add(col, c.value);
      rest := c.rest;
      n := n + 1;
    }
    return Drawn(col, rest);
  }

  /** `(255.99 * c) as u8`: truncation towards zero, saturating at 0 and 255. */
  function ToByte(x: real): Byte {
    if x <= 0.0 then 0 else if x >= 255.0 then 255 else x.Floor as Byte
  }

  /** The pixel line for a sample sum: average, square root per channel,
      bytes. */
  function PixelLine(sum: Vec3, sqrt: SqrtFn): Line {
    var c := DivScalar(sum, NS as real);
    Pixel(ToByte(255.99 * sqrt(c.x)), ToByte(255.99 * sqrt(c.y)), ToByte(255.99 * sqrt(c.z)))
  }

  /** The line `main` writes for pixel `(i, j)`. */
  function PixelAt(i: nat, j: nat, world: seq<Sphere>, s: seq<Unit01>, sqrt: SqrtFn): (p: Sampled<Line>)
    ensures p.Drawn? ==> p.value.Pixel?
  {
    match SampleSum(PixelSampler(i, j, world, sqrt), NS, s)
    case Exhausted => Exhausted
    case Drawn(sum, rest) => Drawn(PixelLine(sum, sqrt), rest)
  }

  /** The body of the pixel loop of `main` up to the write: sampling and
      conversion to bytes. */
  method ComputePixel(i: nat, j: nat, world: seq<Sphere>, s: seq<Unit01>, sqrt: SqrtFn) returns (p: Sampled<Line>)
    ensures p == PixelAt(i, j, world, s, sqrt)
  {
    var sum := SamplePixel(i, j, world, s, sqrt);
    if sum.Exhausted? {
      return Exhausted;
    }
    return Drawn(PixelLine(sum.value, sqrt), sum.rest);
  }

  /** With every albedo in [0, 1], every sample of a pixel lies in the unit
      cube. */
  lemma SampleInUnitCube(i: nat, j: nat, world: seq<Sphere>, t: seq<Unit01>, sqrt: SqrtFn)
    requires IsSqrt(sqrt)
    requires AlbedosInUnitCube(world)
    ensures OneSample(i, j, world, t, sqrt).Drawn? ==> InUnitCube(OneSample(i, j, world, t, sqrt).value)
  {
    if |t| >= 2 {
      var u := SampleCoord(i, t[0], NX);
      var v := SampleCoord(j, t[1], NY);
      ColorInUnitCube(GetRay(MainCamera, u, v), world, 0, t[2..], sqrt);
    }
  }

  /** A channel value in [0, 1] is converted without saturation: its byte is
      `floor(255.99 * g)` for its square root `g`. */
  lemma GammaByte(c: real, g: real)
    requires 0.0 <= c <= 1.0
    requires g >= 0.0 && g * g == c
    ensures ToByte(255.99 * g) as int == (255.99 * g).Floor
  {
    SquareAtMostOne(g, c);
  }

  lemma GammaChannel(c: real, sqrt: SqrtFn)
    requires IsSqrt(sqrt)
    requires 0.0 <= c <= 1.0
    ensures ToByte(255.99 * sqrt(c)) as int == (255.99 * sqrt(c)).Floor
  {
    SqrtAt(sqrt, c);
    GammaByte(c, sqrt(c));
  }

  /** The average of `NS` samples in the unit cube lies in the unit cube. */
  lemma AverageInUnitCube(sum: Vec3)
    requires 0.0 <= sum.x <= NS as real && 0.0 <= sum.y <= NS as real && 0.0 <= sum.z <= NS as real
    ensures InUnitCube(DivScalar(sum, NS as real))
  {
  }

  /** With every albedo in [0, 1] and an exact square root, every channel of
      a pixel is `floor(255.99 * sqrt(average))`, never clipped. */
  lemma PixelNeverClipped(i: nat, j: nat, world: seq<Sphere>, s: seq<Unit01>, sqrt: SqrtFn)
    requires IsSqrt(sqrt)
    requires AlbedosInUnitCube(world)
    requires SampleSum(PixelSampler(i, j, world, sqrt), NS, s).Drawn?
    ensures var c := DivScalar(SampleSum(PixelSampler(i, j, world, sqrt), NS, s).value, NS as real);
            var l := PixelAt(i, j, world, s, sqrt).value;
            l.r as int == (255.99 * sqrt(c.x)).Floor &&
            l.g as int == (255.99 * sqrt(c.y)).Floor &&
            l.b as int == (255.99 * sqrt(c.z)).Floor
  {
    var sample := PixelSampler(i, j, world, sqrt);
    forall t
      ensures sample(t).Drawn? ==> InUnitCube(sample(t).value)
    {
      SampleInUnitCube(i, j, world, t, sqrt);
    }
    SampleSumInRange(sample, NS, s);
    var sum := SampleSum(sample, NS, s).value;
    AverageInUnitCube(sum);
    var c := DivScalar(sum, NS as real);
    GammaChannel(c.x, sqrt);
    GammaChannel(c.y, sqrt);
    GammaChannel(c.z, sqrt);
  }

  // ---------------------------------------------------------------------
  // The whole image

  /** The lines of pixels `(0, j) .. (n - 1, j)`, left to right, each drawn
      by `pixel` from what the previous pixels left of the samples. */
  function RowLines(j: nat, n: nat, pixel: (nat, nat, seq<Unit01>) -> Sampled<Line>, s: seq<Unit01>): Sampled<seq<Line>>
    decreases n
  {
    if n == 0 then
      Drawn([], s)
    else
      match RowLines(j, n - 1, pixel, s)
      case Exhausted => Exhausted
      case Drawn(ls, rest) =>
        match pixel(n - 1, j, rest)
        case Exhausted => Exhausted
        case Drawn(l, rest') => Drawn(ls + [l], rest')
  }

  /** The lines of the top `m` rows of `w` pixels each, row `NY - 1` first. */
  function Rows(m: nat, w: nat, pixel: (nat, nat, seq<Unit01>) -> Sampled<Line>, s: seq<Unit01>): Sampled<seq<Line>>
    requires m <= NY
  {
    if m == 0 then
      Drawn([], s)
    else
      match Rows(m - 1, w, pixel, s)
      case Exhausted => Exhausted
      case Drawn(ls, rest) =>
        match RowLines(NY - m, w, pixel, rest)
        case Exhausted => Exhausted
        case Drawn(row, rest') => Drawn(ls + row, rest')
  }

  /** A row of `n` pixels has `n` lines, and line `i` is what `pixel` draws
      for `(i, j)` from the samples the pixels to its left left over. */
  lemma {:induction false} RowLinesShape(j: nat, n: nat, pixel: (nat, nat, seq<Unit01>) -> Sampled<Line>, s: seq<Unit01>)
    requires RowLines(j, n, pixel, s).Drawn?
    ensures |RowLines(j, n, pixel, s).value| == n
    ensures forall i :: 0 <= i < n ==>
              RowLines(j, i, pixel, s).Drawn? && pixel(i, j, RowLines(j, i, pixel, s).rest).Drawn? &&
              RowLines(j, n, pixel, s).value[i] == pixel(i, j, RowLines(j, i, pixel, s).rest).value
    decreases n
  {
    if n > 0 {
      RowLinesShape(j, n - 1, pixel, s);
    }
  }

  /** A drawn row of `n` pixels has `n` lines. */
  lemma {:induction false} RowLinesLength(j: nat, n: nat, pixel: (nat, nat, seq<Unit01>) -> Sampled<Line>, s: seq<Unit01>)
    requires RowLines(j, n, pixel, s).Drawn?
    ensures |RowLines(j, n, pixel, s).value| == n
    decreases n
  {
    if n > 0 {
      RowLinesLength(j, n - 1, pixel, s);
    }
  }

  /** Line `i` of a drawn row is what `pixel` draws for `(i, j)` from the
      samples the first `i` pixels leave over. */
  lemma RowLinesPixel(j: nat, n: nat, pixel: (nat, nat, seq<Unit01>) -> Sampled<Line>, s: seq<Unit01>, i: nat)
    requires i < n
    requires RowLines(j, n, pixel, s).Drawn?
    ensures RowLines(j, i, pixel, s).Drawn? && pixel(i, j, RowLines(j, i, pixel, s).rest).Drawn?
    ensures |RowLines(j, n, pixel, s).value| == n &&
            RowLines(j, n, pixel, s).value[i] == pixel(i, j, RowLines(j, i, pixel, s).rest).value
  {
    RowLinesShape(j, n, pixel, s);
  }

  /** The top `m` rows have `Pixels(m, w)` lines, `w` per row. */
  lemma {:induction false} RowsShape(m: nat, w: nat, pixel: (nat, nat, seq<Unit01>) -> Sampled<Line>, s: seq<Unit01>)
    requires m <= NY
    requires Rows(m, w, pixel, s).Drawn?
    ensures |Rows(m, w, pixel, s).value| == Pixels(m, w)
    decreases m
  {
    if m > 0 {
      RowsShape(m - 1, w, pixel, s);
      RowLinesLength(NY - m, w, pixel, Rows(m - 1, w, pixel, s).rest);
    }
  }

  /** The top `k` rows are a prefix of the top `m` rows drawn from the
      same samples, for every `k` up to `m`. */
  lemma {:induction false} RowsPrefix(k: nat, m: nat, w: nat, pixel: (nat, nat, seq<Unit01>) -> Sampled<Line>, s: seq<Unit01>)
    requires k <= m <= NY
    requires Rows(m, w, pixel, s).Drawn?
    ensures Rows(k, w, pixel, s).Drawn?
    ensures |Rows(k, w, pixel, s).value| <= |Rows(m, w, pixel, s).value|
    ensures Rows(m, w, pixel, s).value[..|Rows(k, w, pixel, s).value|] == Rows(k, w, pixel, s).value
    decreases m
  {
    if k < m {
      RowsAppend(m, w, pixel, s);
      RowsPrefix(k, m - 1, w, pixel, s);
      var prev := Rows(m - 1, w, pixel, s);
      PrefixOfAppend(Rows(k, w, pixel, s).value, prev.value, RowLines(NY - m, w, pixel, prev.rest).value);
    }
  }

  /** Line `i` of the row below the top `k` rows sits at `Pixels(k, w) + i` in
      the top `m` rows, for every `m` beyond `k`. */
  lemma RowsLine(m: nat, w: nat, pixel: (nat, nat, seq<Unit01>) -> Sampled<Line>, s: seq<Unit01>, k: nat, i: nat)
    requires k < m <= NY && i < w
    requires Rows(m, w, pixel, s).Drawn?
    ensures Rows(k, w, pixel, s).Drawn?
    ensures var row := RowLines(NY - 1 - k, w, pixel, Rows(k, w, pixel, s).rest);
            row.Drawn? && |row.value| == w &&
            Pixels(k, w) + i < |Rows(m, w, pixel, s).value| &&
            Rows(m, w, pixel, s).value[Pixels(k, w) + i] == row.value[i]
  {
    RowsIndexPrefix(k + 1, m, w, pixel, s, Pixels(k, w) + i);
    RowsNextLine(k, w, pixel, s, i);
  }

  /** Line `i` of row `NY - 1 - k` sits at `Pixels(k, w) + i` in the top
      `k + 1` rows. */
  lemma RowsNextLine(k: nat, w: nat, pixel: (nat, nat, seq<Unit01>) -> Sampled<Line>, s: seq<Unit01>, i: nat)
    requires k < NY && i < w
    requires Rows(k + 1, w, pixel, s).Drawn?
    ensures Rows(k, w, pixel, s).Drawn?
    ensures var row := RowLines(NY - 1 - k, w, pixel, Rows(k, w, pixel, s).rest);
            row.Drawn? && |row.value| == w &&
            Pixels(k, w) + i < |Rows(k + 1, w, pixel, s).value| &&
            Rows(k + 1, w, pixel, s).value[Pixels(k, w) + i] == row.value[i]
  {
    RowsAppend(k + 1, w, pixel, s);
    var prev := Rows(k, w, pixel, s);
    RowsShape(k, w, pixel, s);
    RowsStep(k, w, pixel, s, prev.value, prev.rest);
    var row := RowLines(NY - 1 - k, w, pixel, prev.rest);
    RowLinesLength(NY - 1 - k, w, pixel, prev.rest);
    assert Rows(k + 1, w, pixel, s).value[|prev.value| + i] == row.value[i];
  }

  /** A line of the top `k` rows is the same line of the top `m` rows, for
      `k <= m`. */
  lemma RowsIndexPrefix(k: nat, m: nat, w: nat, pixel: (nat, nat, seq<Unit01>) -> Sampled<Line>, s: seq<Unit01>, n: nat)
    requires k <= m <= NY
    requires Rows(m, w, pixel, s).Drawn?
    ensures Rows(k, w, pixel, s).Drawn?
    ensures n < |Rows(k, w, pixel, s).value| ==>
              n < |Rows(m, w, pixel, s).value| && Rows(m, w, pixel, s).value[n] == Rows(k, w, pixel, s).value[n]
  {
    RowsPrefix(k, m, w, pixel, s);
    var big := Rows(m, w, pixel, s).value;
    var small := Rows(k, w, pixel, s).value;
    if n < |small| {
      assert big[n] == big[..|small|][n];
    }
  }

  /** Drawn top rows are the drawn rows above them followed by the drawn
      row below those. */
  lemma RowsAppend(m: nat, w: nat, pixel: (nat, nat, seq<Unit01>) -> Sampled<Line>, s: seq<Unit01>)
    requires 0 < m <= NY
    requires Rows(m, w, pixel, s).Drawn?
    ensures Rows(m - 1, w, pixel, s).Drawn?
    ensures var row := RowLines(NY - m, w, pixel, Rows(m - 1, w, pixel, s).rest);
            row.Drawn? && Rows(m, w, pixel, s) == Drawn(Rows(m - 1, w, pixel, s).value + row.value, row.rest)
  {
  }

  lemma PrefixOfAppend(a: seq<Line>, b: seq<Line>, c: seq<Line>)
    requires |a| <= |b| && b[..|a|] == a
    ensures |a| <= |b + c| && (b + c)[..|a|] == a
  {
    assert (b + c)[..|a|] == b[..|a|];
  }

  /** One more row extends the top rows by its lines. */
  lemma RowsStep(m: nat, w: nat, pixel: (nat, nat, seq<Unit01>) -> Sampled<Line>, s: seq<Unit01>, done: seq<Line>, rest: seq<Unit01>)
    requires m < NY
    requires Rows(m, w, pixel, s) == Drawn(done, rest)
    ensures var r := RowLines(NY - 1 - m, w, pixel, rest);
            Rows(m + 1, w, pixel, s) == if r.Drawn? then Drawn(done + r.value, r.rest) else Exhausted
  {
  }

  /** Once the samples run out within a row, the rest of the row runs out. */
  lemma {:induction false} RowLinesExhausted(j: nat, k: nat, n: nat, pixel: (nat, nat, seq<Unit01>) -> Sampled<Line>, s: seq<Unit01>)
    requires k <= n
    requires RowLines(j, k, pixel, s).Exhausted?
    ensures RowLines(j, n, pixel, s).Exhausted?
    decreases n
  {
    if k < n {
      RowLinesExhausted(j, k, n - 1, pixel, s);
    }
  }

  /** Once the samples run out, the remaining rows run out. */
  lemma {:induction false} RowsExhausted(k: nat, m: nat, w: nat, pixel: (nat, nat, seq<Unit01>) -> Sampled<Line>, s: seq<Unit01>)
    requires k <= m <= NY
    requires Rows(k, w, pixel, s).Exhausted?
    ensures Rows(m, w, pixel, s).Exhausted?
    decreases m
  {
    if k < m {
      RowsExhausted(k, m - 1, w, pixel, s);
    }
  }

  /** The pixel function of the scene `world`. */
  function Picture(world: seq<Sphere>, sqrt: SqrtFn): (nat, nat, seq<Unit01>) -> Sampled<Line> {
    (i: nat, j: nat, t: seq<Unit01>) => PixelAt(i, j, world, t, sqrt)
  }

  /** `pixel` only ever draws pixel lines. */
  ghost predicate DrawsPixels(pixel: (nat, nat, seq<Unit01>) -> Sampled<Line>) {
    forall i, j, t :: pixel(i, j, t).Drawn? ==> pixel(i, j, t).value.Pixel?
  }

  lemma PictureDrawsPixels(world: seq<Sphere>, sqrt: SqrtFn)
    ensures DrawsPixels(Picture(world, sqrt))
  {
    forall i: nat, j: nat, t: seq<Unit01> | Picture(world, sqrt)(i, j, t).Drawn?
      ensures Picture(world, sqrt)(i, j, t).value.Pixel?
    {
      assert Picture(world, sqrt)(i, j, t) == PixelAt(i, j, world, t, sqrt);
    }
  }

  /** The `NX * NY` pixel lines of the scene, in the order `main` writes
      them. */
  function Frame(world: seq<Sphere>, s: seq<Unit01>, sqrt: SqrtFn): Sampled<seq<Line>> {
    Rows(NY, NX, Picture(world, sqrt), s)
  }

  /** The frame holds `NX * NY` lines, and line `(NY - 1 - j) * NX + i` is
      what pixel `(i, j)` draws from the samples that the rows above it and
      the pixels to its left leave over: rows top to bottom, each row left
      to right. */
  lemma FrameLayout(world: seq<Sphere>, s: seq<Unit01>, sqrt: SqrtFn, i: nat, j: nat)
    requires i < NX && j < NY
    requires Frame(world, s, sqrt).Drawn?
    ensures |Frame(world, s, sqrt).value| == NX * NY
    ensures var above := Rows(NY - 1 - j, NX, Picture(world, sqrt), s);
            above.Drawn? && RowLines(j, i, Picture(world, sqrt), above.rest).Drawn? &&
            var t := RowLines(j, i, Picture(world, sqrt), above.rest).rest;
            PixelAt(i, j, world, t, sqrt).Drawn? &&
            Frame(world, s, sqrt).value[(NY - 1 - j) * NX + i] == PixelAt(i, j, world, t, sqrt).value
  {
    PixelsTotal();
    RowsShape(NY, NX, Picture(world, sqrt), s);
    RowsPixelAt(NY, NX, Picture(world, sqrt), s, j, i);
    PixelsIsProduct(NY - 1 - j, NX);
    assert Pixels(NY - 1 - j, NX) + i == (NY - 1 - j) * NX + i;
    var t := RowLines(j, i, Picture(world, sqrt), Rows(NY - 1 - j, NX, Picture(world, sqrt), s).rest).rest;
    assert Picture(world, sqrt)(i, j, t) == PixelAt(i, j, world, t, sqrt);
  }

  /** `RowsPixel` for row `j` itself: its line `i` sits at
      `Pixels(NY - 1 - j, w) + i` in every drawn top part that contains it. */
  lemma RowsPixelAt(m: nat, w: nat, pixel: (nat, nat, seq<Unit01>) -> Sampled<Line>, s: seq<Unit01>, j: nat, i: nat)
    requires NY - m <= j < NY && m <= NY && i < w
    requires Rows(m, w, pixel, s).Drawn?
    ensures var above := Rows(NY - 1 - j, w, pixel, s);
            above.Drawn? && RowLines(j, i, pixel, above.rest).Drawn? &&
            var t := RowLines(j, i, pixel, above.rest).rest;
            pixel(i, j, t).Drawn? &&
            Pixels(NY - 1 - j, w) + i < |Rows(m, w, pixel, s).value| &&
            Rows(m, w, pixel, s).value[Pixels(NY - 1 - j, w) + i] == pixel(i, j, t).value
  {
    var k := NY - 1 - j;
    assert NY - 1 - k == j;
    RowsPixel(m, w, pixel, s, k, i);
  }

  /** Line `Pixels(k, w) + i` of the top `m` rows is what `pixel` draws for
      pixel `i` of the row below the top `k` rows, from the samples that
      those rows and the pixels to its left leave over. */
  lemma RowsPixel(m: nat, w: nat, pixel: (nat, nat, seq<Unit01>) -> Sampled<Line>, s: seq<Unit01>, k: nat, i: nat)
    requires k < m <= NY && i < w
    requires Rows(m, w, pixel, s).Drawn?
    ensures var above := Rows(k, w, pixel, s);
            above.Drawn? && RowLines(NY - 1 - k, i, pixel, above.rest).Drawn? &&
            var t := RowLines(NY - 1 - k, i, pixel, above.rest).rest;
            pixel(i, NY - 1 - k, t).Drawn? &&
            Pixels(k, w) + i < |Rows(m, w, pixel, s).value| &&
            Rows(m, w, pixel, s).value[Pixels(k, w) + i] == pixel(i, NY - 1 - k, t).value
  {
    RowsLine(m, w, pixel, s, k, i);
    var rest := Rows(k, w, pixel, s).rest;
    RowLinesPixel(NY - 1 - k, w, pixel, rest, i);
  }

  /** How `main` ends: normally, with the error of the header write, with a
      panic, or (in the model only) because the samples ran out. */
  datatype Exit = Ok | Err | Panic | OutOfSamples

  /** How the pixel loops end. */
  datatype LoopExit = Completed | WriteFailed | SamplesOut

  /** The pixel lines `main` writes before pixel `(n, NY - 1 - k)`: the top
      `k` rows followed by the first `n` pixels of the row below them. */
  function LinesBefore(k: nat, n: nat, w: nat, pixel: (nat, nat, seq<Unit01>) -> Sampled<Line>, s: seq<Unit01>): Sampled<seq<Line>>
    requires k < NY
  {
    match Rows(k, w, pixel, s)
    case Exhausted => Exhausted
    case Drawn(above, rest) =>
      match RowLines(NY - 1 - k, n, pixel, rest)
      case Exhausted => Exhausted
      case Drawn(row, rest') => Drawn(above + row, rest')
  }

  /** Rows above `m` followed by a prefix of row `NY - 1 - m` are the lines
      before the pixel that ends the prefix. */
  lemma LinesBeforeStop(m: nat, w: nat, pixel: (nat, nat, seq<Unit01>) -> Sampled<Line>, s: seq<Unit01>,
                        above: seq<Line>, rest0: seq<Unit01>, line: seq<Line>, rest: seq<Unit01>)
    requires m < NY
    requires Rows(m, w, pixel, s) == Drawn(above, rest0)
    requires RowLines(NY - 1 - m, |line|, pixel, rest0) == Drawn(line, rest)
    ensures LinesBefore(m, |line|, w, pixel, s) == Drawn(above + line, rest)
  {
  }

  /** `main`: the header, the pixel loops, then the writer's drop.  A failed
      header write returns the error, leaving the header lines that fitted.
      A failed pixel write returns the error too, but dropping the writer
      then finds fewer pixels than announced and panics; the device then
      holds the header and every pixel line drawn before the failed one.
      When the device has room for the whole file, the header and all
      `NX * NY` pixel lines are written in order and the writer's assertions
      never fire. */
  method RenderImage(sink: Sink, world: seq<Sphere>, s: seq<Unit01>, sqrt: SqrtFn) returns (exit: Exit)
    modifies sink
    ensures exit == Err <==> old(sink.room) < 3
    ensures exit == Err ==> sink.lines == old(sink.lines) + Header(NX, NY)[..old(sink.room)]
    ensures exit == OutOfSamples ==> Frame(world, s, sqrt).Exhausted?
    ensures exit == Panic ==> 3 <= old(sink.room) < 3 + NX * NY && sink.room == 0
    ensures exit == Panic || exit == OutOfSamples ==>
              exists k: nat, n: nat :: k < NY && n < NX && LinesBefore(k, n, NX, Picture(world, sqrt), s).Drawn? &&
                sink.lines == old(sink.lines) + Header(NX, NY) + LinesBefore(k, n, NX, Picture(world, sqrt), s).value
    ensures exit == Ok ==> old(sink.room) >= 3 + NX * NY
    ensures exit == Ok ==>
              Frame(world, s, sqrt).Drawn? &&
              sink.lines == old(sink.lines) + Header(NX, NY) + Frame(world, s, sqrt).value
    ensures old(sink.room) >= 3 + NX * NY && Frame(world, s, sqrt).Drawn? ==> exit == Ok
  {
    var w := Writer.New(sink, NX, NY);
    if w == null {
      return Err;
    }
    PictureDrawsPixels(world, sqrt);
    ghost var head := sink.lines;
    var loops;
    ghost var rows: nat, cols: nat;
    loops, rows, cols := WritePixels(w, NX, Picture(world, sqrt), s);
    if loops == SamplesOut {
      assert sink.lines == head + LinesBefore(rows, cols, NX, Picture(world, sqrt), s).value;
      return OutOfSamples;
    }
    var dropOk := w.Drop();
    if loops == WriteFailed {
      assert sink.lines == head + LinesBefore(rows, cols, NX, Picture(world, sqrt), s).value;
      return if dropOk then Err else Panic;
    }
    return if dropOk then Ok else Panic;
  }

  /** The two pixel loops of `main`: rows from `NY - 1` down to 0, each row
      of `nx` pixels left to right, writing what `pixel` draws.  They stop
      at the first failed write, or when the samples run out; `rows` and
      `cols` then say where: the sink has received `LinesBefore(rows, cols)`,
      and the pixel `(cols, NY - 1 - rows)` was not written. */
  method WritePixels(w: Writer, nx: nat, pixel: (nat, nat, seq<Unit01>) -> Sampled<Line>, s: seq<Unit01>)
    returns (exit: LoopExit, ghost rows: nat, ghost cols: nat)
    requires DrawsPixels(pixel)
    requires w.written == 0 && w.expected == nx * NY
    modifies w, w.sink
    ensures exit == Completed ==>
              Rows(NY, nx, pixel, s).Drawn? && w.written == w.expected &&
              w.sink.lines == old(w.sink.lines) + Rows(NY, nx, pixel, s).value
    ensures exit == Completed ==> old(w.sink.room) >= nx * NY
    ensures exit == WriteFailed ==> old(w.sink.room) < nx * NY && w.written < w.expected
    ensures exit == SamplesOut ==> Rows(NY, nx, pixel, s).Exhausted?
    ensures exit != Completed ==>
              rows < NY && cols < nx && LinesBefore(rows, cols, nx, pixel, s).Drawn? &&
              w.sink.lines == old(w.sink.lines) + LinesBefore(rows, cols, nx, pixel, s).value &&
              w.written == Pixels(rows, nx) + cols && w.sink.room == old(w.sink.room) - w.written
    ensures exit == WriteFailed ==> w.sink.room == 0
    ensures exit == SamplesOut ==>
              rows < NY && LinesBefore(rows, cols, nx, pixel, s).Drawn? &&
              pixel(cols, NY - 1 - rows, LinesBefore(rows, cols, nx, pixel, s).rest).Exhausted?
  {
    PixelsIsProduct(NY, nx);
    ghost var start := w.sink.lines;
    ghost var room := w.sink.room;
    ghost var done: seq<Line> := [];
    ghost var m := 0;
    var rest := s;
    var j := NY;
    while j > 0
      invariant m + j == NY
      invariant Rows(m, nx, pixel, s) == Drawn(done, rest)
      invariant w.written == Pixels(m, nx)
      invariant w.sink.lines == start + done
      invariant w.sink.room == room - Pixels(m, nx)
      invariant room >= Pixels(m, nx)
    {
      PixelsGrow(m, NY, nx);
      j := j - 1;
      var row;
      ghost var rest0, done0, line := rest, done, [];
      row, rest, done, line := NextRow(w, nx, j, pixel, s, rest, start, done, m);
      if row != Completed {
        rows, cols := m, |line|;
        LinesBeforeStop(m, nx, pixel, s, done0, rest0, line, rest);
      }
      if row == SamplesOut {
        RowsExhausted(m + 1, NY, nx, pixel, s);
        return SamplesOut, rows, cols;
      }
      if row == WriteFailed {
        return WriteFailed, rows, cols;
      }
      m := m + 1;
    }
    assert m == NY;
    return Completed, NY, 0;
  }

  /** One turn of the outer loop of `main`: row `j`, the row below the `m`
      rows already written.  It writes the first `|line|` pixels of the row:
      all `nx` of them, or those before the failed write or the pixel that
      ran out of samples. */
  method NextRow(w: Writer, nx: nat, j: nat, pixel: (nat, nat, seq<Unit01>) -> Sampled<Line>, ghost s: seq<Unit01>,
                 rest0: seq<Unit01>, ghost start: seq<Line>, ghost done0: seq<Line>, ghost m: nat)
    returns (exit: LoopExit, rest: seq<Unit01>, ghost done: seq<Line>, ghost line: seq<Line>)
    requires DrawsPixels(pixel)
    requires m < NY && j == NY - 1 - m
    requires Rows(m, nx, pixel, s) == Drawn(done0, rest0)
    requires w.written == Pixels(m, nx) && w.expected == Pixels(NY, nx)
    requires w.sink.lines == start + done0
    modifies w, w.sink
    ensures exit == Completed ==>
              Rows(m + 1, nx, pixel, s) == Drawn(done, rest) &&
              w.written == Pixels(m + 1, nx) &&
              w.sink.lines == start + done && w.sink.room == old(w.sink.room) - nx
    ensures exit == WriteFailed ==> old(w.sink.room) < nx && w.written < w.expected
    ensures exit == SamplesOut ==> Rows(m + 1, nx, pixel, s).Exhausted?
    ensures RowLines(j, |line|, pixel, rest0) == Drawn(line, rest) && done == done0 + line
    ensures w.sink.lines == start + done
    ensures w.written == Pixels(m, nx) + |line| && w.sink.room == old(w.sink.room) - |line|
    ensures exit != Completed ==> |line| < nx
    ensures exit == WriteFailed ==> |line| == old(w.sink.room) && w.sink.room == 0
    ensures exit == SamplesOut ==> pixel(|line|, j, rest).Exhausted?
  {
    PixelsGrow(m, NY, nx);
    RowsStep(m, nx, pixel, s, done0, rest0);
    exit, rest, line := WriteRow(w, nx, j, pixel, rest0, start + done0);
    AppendRow(start, done0, line);
    done := done0 + line;
  }

  /** The inner loop of `main` for row `j`: draw and write the pixels
      `(0, j) .. (nx - 1, j)`, which appends `line` to the sink.  It stops
      at the first failed write, when the device is full, or at the first
      pixel that runs out of samples; `line` holds the pixels before it. */
  method WriteRow(w: Writer, nx: nat, j: nat, pixel: (nat, nat, seq<Unit01>) -> Sampled<Line>, rest0: seq<Unit01>, ghost start: seq<Line>)
    returns (exit: LoopExit, rest: seq<Unit01>, ghost line: seq<Line>)
    requires DrawsPixels(pixel)
    requires w.written + nx <= w.expected
    requires w.sink.lines == start
    modifies w, w.sink
    ensures exit == Completed ==>
              RowLines(j, nx, pixel, rest0) == Drawn(line, rest) &&
              w.written == old(w.written) + nx &&
              w.sink.lines == start + line && w.sink.room == old(w.sink.room) - nx
    ensures exit == WriteFailed ==> old(w.sink.room) < nx && w.written < w.expected
    ensures exit == SamplesOut ==> RowLines(j, nx, pixel, rest0).Exhausted?
    ensures RowLines(j, |line|, pixel, rest0) == Drawn(line, rest)
    ensures w.sink.lines == start + line
    ensures w.written == old(w.written) + |line| && w.sink.room == old(w.sink.room) - |line|
    ensures exit != Completed ==> |line| < nx
    ensures exit == WriteFailed ==> |line| == old(w.sink.room) && w.sink.room == 0
    ensures exit == SamplesOut ==> pixel(|line|, j, rest).Exhausted?
  {
    ghost var room := w.sink.room;
    ghost var written := w.written;
    line := [];
    rest := rest0;
    var i := 0;
    while i < nx
      invariant 0 <= i <= nx && |line| == i
      invariant RowLines(j, i, pixel, rest0) == Drawn(line, rest)
      invariant w.written == written + i
      invariant w.sink.lines == start + line
      invariant w.sink.room == room - i
    {
      var p := pixel(i, j, rest);
      if p.Exhausted? {
        RowLinesExhausted(j, i + 1, nx, pixel, rest0);
        return SamplesOut, rest, line;
      }
      var l := p.value;
      var res := w.WritePixel(l.r, l.g, l.b);
      // The count stays within `expected`, so the writer's assertion holds.
      assert res != TooManyPixels;
      if res == IoFailed {
        return WriteFailed, rest, line;
      }
      AppendLine(start, line, l);
      line := line + [l];
      rest := p.rest;
      i := i + 1;
    }
    return Completed, rest, line;
  }

  lemma AppendLine(start: seq<Line>, done: seq<Line>, l: Line)
    ensures start + done + [l] == start + (done + [l])
  {
  }

  lemma AppendRow(start: seq<Line>, done: seq<Line>, line: seq<Line>)
    ensures start + done + line == start + (done + line)
  {
  }

  /** The number of pixels in the top `m` rows of width `w`. */
  function Pixels(m: nat, w: nat): nat {
    if m == 0 then 0 else Pixels(m - 1, w) + w
  }

  /** Each further row adds `w` pixels. */
  lemma {:induction false} PixelsGrow(k: nat, m: nat, w: nat)
    requires k < m
    ensures Pixels(k, w) + w <= Pixels(m, w)
    decreases m
  {
    if k + 1 < m {
      PixelsGrow(k, m - 1, w);
    }
  }

  lemma PixelsTotal()
    ensures Pixels(NY, NX) == NX * NY
  {
    PixelsIsProduct(NY, NX);
  }

  lemma {:induction false} PixelsIsProduct(m: nat, w: nat)
    ensures Pixels(m, w) == m * w
  {
    if m > 0 {
      PixelsIsProduct(m - 1, w);
    }
  }
}
