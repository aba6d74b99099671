/** Colour conversion to planar YUV and the copy into the encoder's strided image. */
module Vpx {
  import opened Common

  // ---------------------------------------------------------------- one pixel

  /** Shifts of negative sums round down; the conversion to a byte keeps the low eight bits. */
  function LumaOf(r: byte, g: byte, b: byte): byte {
    ((66 * r + 129 * g + 25 * b) / 256 + 16) % 256
  }

  function BlueOf(r: byte, g: byte, b: byte): byte {
    ((-38 * r + -74 * g + 112 * b) / 256 + 128) % 256
  }

  function RedOf(r: byte, g: byte, b: byte): byte {
    ((112 * r + -94 * g + -18 * b) / 256 + 128) % 256
  }

  /** No conversion wraps: luma keeps to 16..235 and chroma to 16..239. */
  lemma NoSampleWraps(r: byte, g: byte, b: byte)
    ensures LumaOf(r, g, b) == (66 * r + 129 * g + 25 * b) / 256 + 16 && 16 <= LumaOf(r, g, b) <= 235
    ensures BlueOf(r, g, b) == (-38 * r + -74 * g + 112 * b) / 256 + 128 && 16 <= BlueOf(r, g, b) <= 239
    ensures RedOf(r, g, b) == (112 * r + -94 * g + -18 * b) / 256 + 128 && 16 <= RedOf(r, g, b) <= 239
    ensures r == g == b ==> BlueOf(r, g, b) == 128 && RedOf(r, g, b) == 128
  {
    ShiftedSum(66 * r + 129 * g + 25 * b, 0, 219, 16);
    ShiftedSum(-38 * r + -74 * g + 112 * b, -112, 111, 128);
    ShiftedSum(112 * r + -94 * g + -18 * b, -112, 111, 128);
  }

  lemma ShiftedSum(sum: int, low: int, high: int, offset: nat)
    requires 256 * low <= sum < 256 * (high + 1) && low + offset >= 0 && high + offset < 256
    ensures low <= sum / 256 <= high && (sum / 256 + offset) % 256 == sum / 256 + offset
  {
  }

  /** The ranges are used to their ends. */
  lemma SampleRangesAreTight()
    ensures LumaOf(0, 0, 0) == 16 && LumaOf(255, 255, 255) == 235
    ensures BlueOf(0, 0, 255) == 239 && BlueOf(255, 255, 0) == 16
    ensures RedOf(255, 0, 0) == 239 && RedOf(0, 255, 255) == 16
  {
  }

  // ---------------------------------------------------------------- the buffer size

  /** The distance between neighbouring 32-bit floats at a whole number n. */
  function Spacing(n: nat): (u: nat)
    ensures u > 0
    decreases n
  {
    if n < 0x100_0000 then 1 else 2 * Spacing(n / 2)
  }

  /** A whole number as a 32-bit float: to the nearest, ties to even. */
  function Float32(n: nat): nat {
    var u := Spacing(n);
    var q, r := n / u, n % u;
    if 2 * r < u then q * u
    else if 2 * r > u then (q + 1) * u
    else (q + q % 2) * u
  }

  function Pow2(k: nat): (p: nat)
    ensures p > 0
  {
    if k == 0 then 1 else 2 * Pow2(k - 1)
  }

  lemma {:induction false} SpacingIsAPower(n: nat) returns (k: nat)
    ensures Spacing(n) == Pow2(k) && n < Pow2(k) * 0x100_0000 && (k > 0 ==> Pow2(k) * 0x80_0000 <= n)
    decreases n
  {
    k := 0;
    if n >= 0x100_0000 {
      k := SpacingIsAPower(n / 2);
      k := k + 1;
    }
  }

  lemma {:induction false} PowersDivide(k: nat, j: nat) returns (q: nat)
    requires k <= j
    ensures Pow2(j) == q * Pow2(k) && (k < j ==> q % 2 == 0)
    decreases j
  {
    q := 1;
    if k < j {
      q := PowersDivide(k, j - 1);
      assert (2 * q) * Pow2(k) == 2 * (q * Pow2(k));
      q := 2 * q;
    }
  }

  lemma {:induction false} PowersGrow(j: nat, k: nat)
    requires j < k
    ensures Pow2(k) >= 2 * Pow2(j)
    decreases k
  {
    if j + 1 < k {
      PowersGrow(j, k - 1);
    }
  }

  lemma Scaled(a: nat, b: nat, c: nat)
    requires a <= b
    ensures a * c <= b * c
  {
  }

  lemma Regrouped(a: nat, b: nat, c: nat)
    ensures a * (b * c) == (a * b) * c
  {
  }

  /** A float at n or nearby is a multiple of n's spacing; others are smaller than the power of two below n. */
  lemma FloatsNear(n: nat, m: nat, j: nat) returns (multiple: bool, q: nat)
    requires m < 0x100_0000
    ensures if multiple then m * Pow2(j) == q * Spacing(n) else m * Pow2(j) < 0x80_0000 * Spacing(n) <= n
  {
    hide Spacing, Pow2;
    var k := SpacingIsAPower(n);
    multiple, q := k <= j, 0;
    if multiple {
      q := PowersDivide(k, j);
      Regrouped(m, q, Pow2(k));
      q := m * q;
    } else {
      PowersGrow(j, k);
      Scaled(m, 0xFF_FFFF, Pow2(j));
    }
  }

  function Distance(a: int, b: int): nat {
    if a < b then b - a else a - b
  }

  /** n between two neighbouring multiples of its spacing, and which of them it is taken to. */
  lemma RoundedTo(n: nat) returns (f: nat, r: nat)
    ensures var u := Spacing(n);
            && n == f * u + r && r < u
            && Float32(n) == if 2 * r < u || (2 * r == u && f % 2 == 0) then f * u else f * u + u
  {
    var u := Spacing(n);
    hide Spacing;
    f, r := n / u, n % u;
    assert (f + 1) * u == f * u + u && (f + 0) * u == f * u;
  }

  lemma MultiplesApart(f: nat, q: nat, u: nat)
    ensures q * u <= f * u || q * u >= f * u + u
  {
    if q <= f {
      Scaled(q, f, u);
    } else {
      Scaled(f + 1, q, u);
      assert (f + 1) * u == f * u + u;
    }
  }

  /** No number of 24 bits times a power of two is nearer than the one taken. */
  lemma Float32IsNearest(n: nat, m: nat, j: nat)
    requires m < 0x100_0000
    ensures Distance(Float32(n), n) <= Distance(m * Pow2(j), n)
  {
    hide Spacing, Float32, Pow2;
    var multiple, q := FloatsNear(n, m, j);
    var f, r := RoundedTo(n);
    MultiplesApart(f, if multiple then q else 0x80_0000, Spacing(n));
  }

  /** What is taken is such a number itself; halfway between two, it is the one with the even factor. */
  lemma Float32IsAFloat(n: nat) returns (q: nat, k: nat)
    ensures Float32(n) == q * Pow2(k) && q <= 0x100_0000
    ensures 2 * Distance(Float32(n), n) == Pow2(k) ==> q % 2 == 0
    ensures 2 * Distance(Float32(n), n) <= Pow2(k)
  {
    hide Spacing, Float32, Pow2;
    k := SpacingIsAPower(n);
    var f, r := RoundedTo(n);
    var u := Spacing(n);
    if f >= 0x100_0000 {
      Scaled(0x100_0000, f, u);
      assert false;
    }
    assert (f + 1) * u == f * u + u;
    q := if 2 * r < u || (2 * r == u && f % 2 == 0) then f else f + 1;
  }

  /** int(float32(w*h) * 1.5); the product is rounded once more, here in units of one half. */
  function BufferSize(w: uint32, h: uint32): nat {
    Float32(3 * Float32((w * h) % TWO_32)) / 2
  }

  function Half(n: nat): nat {
    (n + 1) / 2
  }

  /** How many samples the three loops write. */
  function Samples(w: nat, h: nat): nat {
    w * h + 2 * (Half(w) * Half(h))
  }

  const MAX_PIXELS := 0x100_0000

  lemma SpacingValues(n: nat)
    requires n < 0x400_0000
    ensures Spacing(n) == if n < 0x100_0000 then 1 else if n < 0x200_0000 then 2 else 4
  {
    if n >= 0x200_0000 {
      assert Spacing(n / 2) == 2 * Spacing(n / 2 / 2);
    }
  }

  lemma MultiplesAreExact(n: nat)
    requires n % 4 == 0 && n < 0x400_0000
    ensures Float32(n) == n
  {
    SpacingValues(n);
    hide Spacing;
  }

  lemma SmallIsExact(n: nat)
    requires n <= MAX_PIXELS
    ensures Float32(n) == n
  {
    if n == MAX_PIXELS {
      MultiplesAreExact(n);
    }
  }

  lemma Products(a: int, b: int)
    ensures (2 * a) * (2 * b) == 4 * (a * b)
    ensures (2 * a) * (2 * b - 1) == 4 * (a * b) - 2 * a
    ensures (2 * a - 1) * (2 * b) == 4 * (a * b) - 2 * b
    ensures (2 * a - 1) * (2 * b - 1) == 4 * (a * b) - 2 * a - 2 * b + 1
  {
  }

  /** The pixels of a frame by its half dimensions. */
  lemma PixelsByHalves(w: nat, h: nat)
    ensures var a, b := Half(w), Half(h);
            w * h == 4 * (a * b) - (if w % 2 == 0 then 0 else 2 * b) - (if h % 2 == 0 then 0 else 2 * a)
                     + (if w % 2 == 0 || h % 2 == 0 then 0 else 1)
  {
    var a, b := Half(w), Half(h);
    Products(a, b);
    assert w == if w % 2 == 0 then 2 * a else 2 * a - 1;
    assert h == if h % 2 == 0 then 2 * b else 2 * b - 1;
  }

  /** Three halves of the pixels are the samples exactly when both dimensions are even. */
  lemma SamplesAddUpIff(w: nat, h: nat)
    requires w > 0 && h > 0
    ensures 2 * Samples(w, h) == 3 * (w * h) <==> w % 2 == 0 && h % 2 == 0
    ensures 2 * Samples(w, h) >= 3 * (w * h)
  {
    PixelsByHalves(w, h);
    var p, q := w * h, Half(w) * Half(h);
    assert 2 * Samples(w, h) == 2 * p + 4 * q;
  }

  /** The computed size is the right one for every even frame of up to 2^24 pixels. */
  lemma EvenFramesFit(w: uint32, h: uint32)
    requires w % 2 == 0 && h % 2 == 0 && w * h <= MAX_PIXELS
    ensures BufferSize(w, h) == Samples(w, h)
  {
    PixelsByHalves(w, h);
    EvenSize(w * h, Half(w) * Half(h));
  }

  lemma EvenSize(pixels: nat, quarter: nat)
    requires pixels == 4 * quarter && pixels <= MAX_PIXELS
    ensures Float32(3 * Float32(pixels % TWO_32)) / 2 == pixels + 2 * quarter
  {
    hide Float32;
    SmallIsExact(pixels);
    MultiplesAreExact(3 * pixels);
  }

  /** With an odd dimension the buffer is too short as long as the size is computed exactly. */
  lemma OddFramesDoNotFit(w: uint32, h: uint32)
    requires w > 0 && h > 0 && !(w % 2 == 0 && h % 2 == 0) && 3 * (w * h) < MAX_PIXELS
    ensures BufferSize(w, h) < Samples(w, h)
  {
    SamplesAddUpIff(w, h);
    ExactSize(w * h);
    hide Samples, Float32;
  }

  lemma ExactSize(pixels: nat)
    requires 3 * pixels < MAX_PIXELS
    ensures Float32(3 * Float32(pixels % TWO_32)) / 2 == 3 * pixels / 2
  {
    hide Float32;
    SmallIsExact(pixels);
    SmallIsExact(3 * pixels);
  }

  /** Rounding up can hide it: this odd frame happens to get exactly the bytes it needs. */
  lemma RoundingCanFitAnOddFrame()
    ensures 5592409 % 2 == 1 && 5592409 * 2 <= MAX_PIXELS
    ensures BufferSize(5592409, 2) == Samples(5592409, 2)
  {
    SmallIsExact(11184818);
    SpacingValues(33554454);
    assert Float32(33554454) == 33554456;
  }

  // ---------------------------------------------------------------- a whole frame

  /** Where byte k of pixel i is looked for: the index arithmetic is done in 32 bits. */
  function Where(i: nat, k: nat): nat {
    (3 * i + k) % TWO_32
  }

  predicate Reads(rgba: bytes, i: nat) {
    Where(i, 0) < |rgba| && Where(i, 1) < |rgba| && Where(i, 2) < |rgba|
  }

  /** How many bytes so many pixels need. */
  function Needed(pixels: nat): nat {
    if 3 * pixels <= TWO_32 then 3 * pixels else TWO_32
  }

  lemma ReadsIff(rgba: bytes, pixels: nat)
    ensures Needed(pixels) <= |rgba| <==> forall i: nat :: i < pixels ==> Reads(rgba, i)
  {
    if Needed(pixels) <= |rgba| {
      forall i: nat | i < pixels
        ensures Reads(rgba, i)
      {
      }
    } else if 3 * pixels <= TWO_32 {
      assert Where(pixels - 1, 2) == 3 * pixels - 1;
      assert !Reads(rgba, pixels - 1);
    } else {
      assert Where(1431655765, 0) == TWO_32 - 1;
      assert !Reads(rgba, 1431655765);
    }
  }

  /** Every pixel is read from its own bytes if and only if three bytes a pixel fit 32 bits. */
  lemma TruePixelsIff(pixels: nat)
    ensures (forall i: nat, k: nat :: i < pixels && k < 3 ==> Where(i, k) == 3 * i + k) <==> 3 * pixels <= TWO_32
  {
    if 3 * pixels > TWO_32 {
      assert Where(pixels - 1, 2) < TWO_32 <= 3 * (pixels - 1) + 2;
    }
  }

  /** The 32-bit steps of the code come to the same place. */
  lemma WhereIs(n: nat, k: nat)
    ensures (3 * (n % TWO_32) + k) % TWO_32 == Where(n, k)
  {
    var q := n / TWO_32;
    assert 3 * n + k == (3 * (n % TWO_32) + k) + (3 * q) * TWO_32;
    Multiples(3 * (n % TWO_32) + k, 3 * q);
  }

  lemma {:induction false} Multiples(a: nat, q: nat)
    ensures (a + q * TWO_32) % TWO_32 == a % TWO_32
    decreases q
  {
    if q > 0 {
      Multiples(a, q - 1);
      assert (a + (q - 1) * TWO_32 + TWO_32) % TWO_32 == (a + (q - 1) * TWO_32) % TWO_32;
    }
  }

  function Pixel(rgba: bytes, i: nat): (p: (byte, byte, byte))
    requires Reads(rgba, i)
  {
    (rgba[Where(i, 0)], rgba[Where(i, 1)], rgba[Where(i, 2)])
  }

  function LumaAt(rgba: bytes, i: nat): byte
    requires Reads(rgba, i)
  {
    var (r, g, b) := Pixel(rgba, i);
    LumaOf(r, g, b)
  }

  function ChromaAt(rgba: bytes, i: nat, red: bool): byte
    requires Reads(rgba, i)
  {
    var (r, g, b) := Pixel(rgba, i);
    if red then RedOf(r, g, b) else BlueOf(r, g, b)
  }

  /** Column `col` of row `row` in rows of `pitch`. */
  function Index(row: nat, pitch: nat, col: nat): nat {
    row * pitch + col
  }

  lemma {:induction false} RowsGrow(row: nat, later: nat, pitch: nat)
    requires row <= later
    ensures row * pitch <= later * pitch
    decreases later
  {
    if row < later {
      RowsGrow(row, later - 1, pitch);
      assert later * pitch == (later - 1) * pitch + pitch;
    }
  }

  lemma IndexFacts(row: nat, pitch: nat, col: nat)
    ensures Index(0, pitch, 0) == 0
    ensures Index(row, pitch, 0) == row * pitch
    ensures Index(row, pitch, col) == Index(row, pitch, 0) + col
    ensures Index(row + 1, pitch, 0) == Index(row, pitch, pitch)
  {
    assert (row + 1) * pitch == row * pitch + pitch;
  }

  lemma NextIndex(row: nat, pitch: nat, col: nat)
    ensures Index(row, pitch, col + 1) == Index(row, pitch, col) + 1
  {
  }

  lemma RowEnds(row: nat, pitch: nat)
    ensures Index(row + 1, pitch, 0) == Index(row, pitch, pitch)
  {
    IndexFacts(row, pitch, 0);
  }

  lemma RowsApart(row: nat, later: nat, pitch: nat, col: nat)
    requires row < later && col < pitch
    ensures Index(row, pitch, col) < Index(later, pitch, 0)
  {
    RowsGrow(row + 1, later, pitch);
    assert (row + 1) * pitch == row * pitch + pitch;
  }

  lemma InPlane(row: nat, col: nat, w: nat, h: nat)
    requires row < h && col < w
    ensures Index(row, w, col) < w * h
  {
    RowsApart(row, h, w, col);
    assert Index(h, w, 0) == w * h;
  }

  ghost predicate LumaFilled(yuv: bytes, rgba: bytes, count: nat) {
    && count <= |yuv|
    && forall i: nat :: i < count ==> Reads(rgba, i) && yuv[i] == LumaAt(rgba, i)
  }

  /** The sample of a chroma plane that starts at `at`, for chroma row `row` and column `col`. */
  ghost predicate ChromaSample(yuv: bytes, at: nat, rgba: bytes, w: nat, red: bool, row: nat, col: nat) {
    && at + Index(row, Half(w), col) < |yuv|
    && Reads(rgba, Index(2 * row, w, 2 * col))
    && yuv[at + Index(row, Half(w), col)] == ChromaAt(rgba, Index(2 * row, w, 2 * col), red)
  }

  /** A chroma plane filled up to row `rows`, and up to column `cols` in that row. */
  ghost predicate ChromaFilled(yuv: bytes, at: nat, rgba: bytes, w: nat, red: bool, rows: nat, cols: nat) {
    forall row: nat, col: nat :: col < Half(w) && (row < rows || (row == rows && col < cols)) ==>
      ChromaSample(yuv, at, rgba, w, red, row, col)
  }

  /** What a caller gets: the three planes behind each other, filling the buffer exactly. */
  ghost predicate Converted(yuv: bytes, rgba: bytes, w: nat, h: nat) {
    && LumaFilled(yuv, rgba, w * h)
    && ChromaFilled(yuv, w * h, rgba, w, false, Half(h), 0)
    && ChromaFilled(yuv, w * h + Half(w) * Half(h), rgba, w, true, Half(h), 0)
  }

  method Luma(r: int, g: int, b: int) returns (sample: byte)
    requires 0 <= r < 256 && 0 <= g < 256 && 0 <= b < 256
    ensures sample == LumaOf(r, g, b)
  {
    sample := ((66 * r + 129 * g + 25 * b) / 256 + 16) % 256;
  }

  method Chroma(r: int, g: int, b: int, red: bool) returns (sample: byte)
    requires 0 <= r < 256 && 0 <= g < 256 && 0 <= b < 256
    ensures sample == if red then RedOf(r, g, b) else BlueOf(r, g, b)
  {
    if red {
      sample := ((112 * r + -94 * g + -18 * b) / 256 + 128) % 256;
    } else {
      sample := ((-38 * r + -74 * g + 112 * b) / 256 + 128) % 256;
    }
  }

  lemma PixelFound(row: nat, pitch: nat, col: nat)
    ensures var i := (row * pitch + col) % TWO_32;
            && (3 * i) % TWO_32 == Where(Index(row, pitch, col), 0)
            && (3 * i + 1) % TWO_32 == Where(Index(row, pitch, col), 1)
            && (3 * i + 2) % TWO_32 == Where(Index(row, pitch, col), 2)
  {
    hide Where;
    var n := row * pitch + col;
    assert Index(row, pitch, col) == n;
    hide Index;
    WhereIs(n, 0);
    WhereIs(n, 1);
    WhereIs(n, 2);
  }

  /** The three bytes of one pixel, if its indices are in range. */
  method ReadPixel(rgba: bytes, w: uint32, y: nat, x: nat) returns (found: bool, r: byte, g: byte, b: byte)
    ensures found <==> Reads(rgba, Index(y, w, x))
    ensures found ==> (r, g, b) == Pixel(rgba, Index(y, w, x))
  {
    PixelFound(y, w, x);
    hide Index, Where;
    var i := (y * w + x) % TWO_32;
    var i0, i1, i2 := (3 * i) % TWO_32, (3 * i + 1) % TWO_32, (3 * i + 2) % TWO_32;
    found := i0 < |rgba| && i1 < |rgba| && i2 < |rgba|;
    if !found {
      return false, 0, 0, 0;
    }
    r, g, b := rgba[i0], rgba[i1], rgba[i2];
  }

  /** The luma loops. False when an index is out of range. */
  method FillLuma(yuv: array<byte>, rgba: bytes, w: uint32, h: uint32) returns (ok: bool, pos: nat)
    modifies yuv
    ensures ok <==> w * h <= yuv.Length && Needed(w * h) <= |rgba|
    ensures ok ==> pos == w * h && LumaFilled(yuv[..], rgba, w * h)
  {
    hide Index, LumaOf, Where, Reads, Needed;
    IndexFacts(h, w, 0);
    ReadsIff(rgba, w * h);
    pos := 0;
    var y := 0;
    while y < h
      invariant 0 <= y <= h
      invariant pos == Index(y, w, 0)
      invariant LumaFilled(yuv[..], rgba, pos)
    {
      var x := 0;
      while x < w
        invariant 0 <= x <= w
        invariant pos == Index(y, w, x)
        invariant LumaFilled(yuv[..], rgba, pos)
      {
        InPlane(y, x, w, h);
        NextIndex(y, w, x);
        var found, r, g, b := ReadPixel(rgba, w, y, x);
        if !found || pos >= yuv.Length {
          return false, pos;
        }
        ghost var before := yuv[..];
        yuv[pos] := Luma(r, g, b);
        assert yuv[..] == before[pos := LumaAt(rgba, pos)];
        pos := pos + 1;
        x := x + 1;
      }
      RowEnds(y, w);
      y := y + 1;
    }
    ok := true;
  }

  lemma OneMoreSample(before: bytes, after: bytes, at: nat, rgba: bytes, w: nat, red: bool, rows: nat, cols: nat)
    requires ChromaFilled(before, at, rgba, w, red, rows, cols) && cols < Half(w)
    requires |after| == |before| && forall k :: 0 <= k < |before| && k != at + Index(rows, Half(w), cols) ==> after[k] == before[k]
    requires ChromaSample(after, at, rgba, w, red, rows, cols)
    ensures ChromaFilled(after, at, rgba, w, red, rows, cols + 1)
  {
    forall row: nat, col: nat | col < Half(w) && (row < rows || (row == rows && col < cols + 1))
      ensures ChromaSample(after, at, rgba, w, red, row, col)
    {
      if row < rows {
        RowsApart(row, rows, Half(w), col);
      }
      if row < rows || col < cols {
        assert ChromaSample(before, at, rgba, w, red, row, col);
      }
    }
  }

  lemma BelowHalf(k: nat, n: nat)
    ensures 2 * k < n <==> k < Half(n)
  {
  }

  /** The last 32-bit number: no counter that goes in twos gets past it. */
  const MAX_COUNT := TWO_32 - 1

  /** A 32-bit counter that goes in twos: always even, it wraps behind 2^32 - 2. */
  function TwoOn(x: nat): nat {
    (x + 2) % TWO_32
  }

  predicate EvenCount(x: nat) {
    x % 2 == 0 && x < TWO_32
  }

  lemma CountsInTwos(x: nat)
    requires EvenCount(x)
    ensures x < MAX_COUNT && EvenCount(TwoOn(x))
    ensures x + 1 < MAX_COUNT ==> TwoOn(x) == x + 2
  {
  }

  lemma EvenHalf(x: nat) returns (half: nat)
    requires EvenCount(x)
    ensures x == 2 * half
  {
    half := x / 2;
  }

  lemma ZeroCounts()
    ensures EvenCount(0)
  {
  }

  /**
   The inner loop of one chroma plane: every second pixel of row `y`. With a width of 2^32 - 1 the column
   counter wraps, and only running out of the buffer ends the loop; `straight` says that nothing wrapped.
   */
  method FillChromaRow(yuv: array<byte>, rgba: bytes, w: uint32, h: uint32, red: bool, ghost start: nat, y: nat, cursor: nat,
                       ghost row: nat, ghost straight: bool)
    returns (ok: bool, pos: nat)
    requires y < h && y == 2 * row && Needed(w * h) <= |rgba|
    requires start <= cursor <= yuv.Length
    requires straight ==> w < MAX_COUNT && cursor == start + Index(row, Half(w), 0)
    requires straight ==> ChromaFilled(yuv[..], start, rgba, w, red, row, 0)
    modifies yuv
    ensures ok ==> w < MAX_COUNT && cursor <= pos <= yuv.Length && (w > 0 ==> cursor < pos)
    ensures ok && straight ==> pos == start + Index(row + 1, Half(w), 0)
    ensures ok && straight ==> ChromaFilled(yuv[..], start, rgba, w, red, row + 1, 0)
    ensures !ok && straight ==> start + Half(w) * Half(h) > yuv.Length
    ensures forall k :: 0 <= k < start ==> yuv[k] == old(yuv[k])
  {
    hide TwoOn, EvenCount, Half, ChromaFilled, ChromaSample, Index, RedOf, BlueOf, Where, Reads, Needed;
    ReadsIff(rgba, w * h);
    ZeroCounts();
    pos := cursor;
    ghost var col := 0;
    var x := 0;
    while x < w
      invariant 0 <= x && EvenCount(x) && cursor <= pos <= yuv.Length && (x > 0 ==> cursor < pos)
      invariant w < MAX_COUNT ==> x <= w + 1
      invariant straight ==> x == 2 * col && col <= Half(w)
      invariant straight ==> pos == start + Index(row, Half(w), col)
      invariant straight ==> ChromaFilled(yuv[..], start, rgba, w, red, row, col)
      invariant forall k :: 0 <= k < start ==> yuv[k] == old(yuv[k])
      decreases if w < MAX_COUNT then w + 1 - x else yuv.Length - pos
    {
      InPlane(y, x, w, h);
      var found, r, g, b := ReadPixel(rgba, w, y, x);
      assert found;
      if straight {
        BelowHalf(row, h);
        BelowHalf(col, w);
        InPlane(row, col, Half(w), Half(h));
        NextIndex(row, Half(w), col);
      }
      if pos >= yuv.Length {
        return false, pos;
      }
      ghost var before := yuv[..];
      yuv[pos] := Chroma(r, g, b, red);
      if straight {
        OneMoreByte(before, yuv[..], start, rgba, w, red, row, col);
      }
      pos := pos + 1;
      CountsInTwos(x);
      x, col := TwoOn(x), col + 1;
    }
    CountsInTwos(x);
    if straight {
      BelowHalf(col, w);
      RowEnds(row, Half(w));
      RowFilled(yuv[..], start, rgba, w, red, row);
    }
    ok := true;
  }

  lemma OneMoreByte(before: bytes, after: bytes, start: nat, rgba: bytes, w: nat, red: bool, row: nat, col: nat)
    requires ChromaFilled(before, start, rgba, w, red, row, col) && col < Half(w)
    requires var at, i := start + Index(row, Half(w), col), Index(2 * row, w, 2 * col);
             at < |before| && Reads(rgba, i) && after == before[at := ChromaAt(rgba, i, red)]
    ensures ChromaFilled(after, start, rgba, w, red, row, col + 1)
  {
    OneMoreSample(before, after, start, rgba, w, red, row, col);
  }

  lemma RowFilled(yuv: bytes, start: nat, rgba: bytes, w: nat, red: bool, row: nat)
    requires ChromaFilled(yuv, start, rgba, w, red, row, Half(w))
    ensures ChromaFilled(yuv, start, rgba, w, red, row + 1, 0)
  {
  }

  /**
   The loops of one chroma plane, from the shared cursor on. False when an index is out of range, as it
   is in the end where a counter wraps. With no columns and 2^32 - 1 rows the loop would never end.
   */
  method FillChroma(yuv: array<byte>, rgba: bytes, w: uint32, h: uint32, red: bool, start: nat) returns (ok: bool, pos: nat)
    requires Needed(w * h) <= |rgba| && start <= yuv.Length
    requires !(w == 0 && h == MAX_COUNT)
    modifies yuv
    ensures ok <==> (h == 0 || w < MAX_COUNT) && h < MAX_COUNT && start + Half(w) * Half(h) <= yuv.Length
    ensures ok ==> pos == start + Half(w) * Half(h) && ChromaFilled(yuv[..], start, rgba, w, red, Half(h), 0)
    ensures forall k :: 0 <= k < start ==> yuv[k] == old(yuv[k])
  {
    hide TwoOn, EvenCount, Half, Index, Needed, ChromaFilled;
    ZeroCounts();
    IndexFacts(Half(h), Half(w), 0);
    IndexFacts(0, Half(w), 0);
    NothingFilled(yuv[..], start, rgba, w, red);
    ghost var straight, row := w < MAX_COUNT && h < MAX_COUNT, 0;
    pos := start;
    ok := true;
    var y := 0;
    while y < h
      invariant 0 <= y && EvenCount(y) && start <= pos <= yuv.Length
      invariant h < MAX_COUNT ==> y == 2 * row && row <= Half(h)
      invariant y > 0 ==> w < MAX_COUNT
      invariant straight ==> pos == start + Index(row, Half(w), 0)
      invariant straight ==> ChromaFilled(yuv[..], start, rgba, w, red, row, 0)
      invariant h == 0 ==> pos == start && row == 0
      invariant forall k :: 0 <= k < start ==> yuv[k] == old(yuv[k])
      invariant ok
      decreases if h < MAX_COUNT then Half(h) - row else yuv.Length - pos
    {
      BelowHalf(row, h);
      CountsInTwos(y);
      ghost var at := EvenHalf(y);
      ok, pos := FillChromaRow(yuv, rgba, w, h, red, start, y, pos, at, straight);
      if !ok {
        return;
      }
      y, row := TwoOn(y), row + 1;
    }
    CountsInTwos(y);
    BelowHalf(row, h);
    if h == 0 {
      NoRows(yuv[..], start, rgba, w, red, h);
    }
  }

  lemma NothingFilled(yuv: bytes, start: nat, rgba: bytes, w: nat, red: bool)
    ensures ChromaFilled(yuv, start, rgba, w, red, 0, 0)
  {
  }

  lemma NoRows(yuv: bytes, start: nat, rgba: bytes, w: nat, red: bool, h: nat)
    requires h == 0
    ensures Half(w) * Half(h) == 0 && ChromaFilled(yuv, start, rgba, w, red, Half(h), 0)
  {
  }

  lemma LumaKept(before: bytes, after: bytes, rgba: bytes, count: nat)
    requires LumaFilled(before, rgba, count) && |after| == |before|
    requires forall k :: 0 <= k < count ==> after[k] == before[k]
    ensures LumaFilled(after, rgba, count)
  {
  }

  lemma ChromaKept(before: bytes, after: bytes, at: nat, rgba: bytes, w: nat, h: nat, red: bool)
    requires ChromaFilled(before, at, rgba, w, red, Half(h), 0) && |after| == |before|
    requires forall k :: 0 <= k < at + Half(w) * Half(h) && k < |before| ==> after[k] == before[k]
    ensures ChromaFilled(after, at, rgba, w, red, Half(h), 0)
  {
    forall row: nat, col: nat | col < Half(w) && row < Half(h)
      ensures ChromaSample(after, at, rgba, w, red, row, col)
    {
      assert ChromaSample(before, at, rgba, w, red, row, col);
      InPlane(row, col, Half(w), Half(h));
    }
  }

  lemma {:induction false} SpacingBound(n: nat)
    requires n >= 0x100_0000
    ensures Spacing(n) * 0x80_0000 <= n
  {
    if n / 2 >= 0x100_0000 {
      SpacingBound(n / 2);
    }
  }

  lemma FloatBound(n: nat, bound: nat)
    requires n <= bound && bound >= 0x100_0000
    ensures Float32(n) <= bound + bound / 0x80_0000
  {
    var u := Spacing(n);
    if n >= 0x100_0000 {
      SpacingBound(n);
    }
    assert u <= bound / 0x80_0000;
    hide Spacing;
    assert n == (n / u) * u + n % u;
    assert (n / u + 1) * u == (n / u) * u + u;
  }

  /** No buffer is longer than one and a half times 2^32, but for rounding. */
  lemma SizeBound(w: uint32, h: uint32)
    ensures BufferSize(w, h) <= 0x1_8000_1000
  {
    hide Float32;
    var pixels := (w * h) % TWO_32;
    FloatBound(pixels, TWO_32);
    FloatBound(3 * Float32(pixels), 3 * TWO_32 + 1536);
  }

  /** Where a counter of the chroma loops would wrap, the buffer is too short anyway. */
  lemma WrappingFramesDoNotFit(w: uint32, h: uint32)
    requires (w == MAX_COUNT && h > 0) || (h == MAX_COUNT && w > 0)
    ensures Samples(w, h) > BufferSize(w, h)
  {
    SizeBound(w, h);
    hide BufferSize;
    RowsGrow(1, w, h);
    RowsGrow(1, h, w);
    RowsGrow(1, Half(w), Half(h));
    RowsGrow(1, Half(h), Half(w));
    assert w * h == h * w && Half(w) * Half(h) == Half(h) * Half(w);
  }

  /**
   The whole conversion. It succeeds exactly when the samples fit the computed size and the input has the
   bytes the pixels are looked for in; an index is out of range otherwise.
   */
  method RgbToYuv(rgba: bytes, w: uint32, h: uint32) returns (ok: bool, yuv: array<byte>)
    requires !(w == 0 && h == MAX_COUNT)
    ensures fresh(yuv) && yuv.Length == BufferSize(w, h)
    ensures ok <==> Samples(w, h) <= BufferSize(w, h) && Needed(w * h) <= |rgba|
    ensures ok ==> Converted(yuv[..], rgba, w, h)
  {
    hide BufferSize, LumaFilled, ChromaFilled, Half, Needed;
    if (w == MAX_COUNT && h > 0) || (h == MAX_COUNT && w > 0) {
      WrappingFramesDoNotFit(w, h);
    }
    var size := BufferSize(w, h);
    yuv := new byte[size](_ => 0);
    var pos;
    ok, pos := FillLuma(yuv, rgba, w, h);
    if !ok {
      return;
    }
    ghost var luma := yuv[..];
    ok, pos := FillChroma(yuv, rgba, w, h, false, pos);
    LumaKept(luma, yuv[..], rgba, w * h);
    if !ok {
      return;
    }
    ghost var before := yuv[..];
    ghost var start := pos;
    ok, pos := FillChroma(yuv, rgba, w, h, true, pos);
    assert forall k :: 0 <= k < start ==> yuv[..][k] == before[k];
    ChromaKept(before, yuv[..], w * h, rgba, w, h, false);
    LumaKept(before, yuv[..], rgba, w * h);
  }

  // ---------------------------------------------------------------- the encoder's image

  /** n >> k */
  function Shifted(n: nat, k: nat): nat
    decreases k
  {
    if k == 0 then n else Shifted(n / 2, k - 1)
  }

  lemma ShiftedOnce(n: uint32)
    requires n < MAX_COUNT
    ensures Shifted((n + 1) % TWO_32, 1) == Half(n)
  {
  }

  /** An allocated image: three separate planes with rows wide enough and enough of them. */
  class Image {
    const width: uint32
    const height: uint32
    const xChromaShift: nat
    const yChromaShift: nat
    const highBitDepth: bool
    const planes: seq<array<byte>>
    const strides: seq<nat>

    function PlaneWidth(plane: nat): nat {
      if plane > 0 && xChromaShift > 0 then Shifted((width + 1) % TWO_32, xChromaShift) else width
    }

    function PlaneHeight(plane: nat): nat {
      if plane > 0 && yChromaShift > 0 then Shifted((height + 1) % TWO_32, yChromaShift) else height
    }

    function RowBytes(plane: nat): nat {
      PlaneWidth(plane) * if highBitDepth then 2 else 1
    }

    function PlaneBytes(plane: nat): nat {
      PlaneHeight(plane) * RowBytes(plane)
    }

    ghost predicate Valid() {
      && |planes| == 3 && |strides| == 3
      && planes[0] != planes[1] && planes[0] != planes[2] && planes[1] != planes[2]
      && forall p :: 0 <= p < 3 ==> RowBytes(p) <= strides[p] && PlaneHeight(p) * strides[p] <= planes[p].Length
    }

    /** Plane `p` holds, row by row, the bytes of the blob from `start` on. */
    ghost predicate Holds(p: nat, blob: bytes, start: nat)
      requires Valid() && p < 3
      reads planes[p]
    {
      RowsHold(planes[p][..], strides[p], RowBytes(p), blob, start, PlaneHeight(p))
    }

    constructor I420(w: uint32, h: uint32, buffers: seq<array<byte>>, pitches: seq<nat>)
      requires w < MAX_COUNT && h < MAX_COUNT && |buffers| == 3 && |pitches| == 3
      requires buffers[0] != buffers[1] && buffers[0] != buffers[2] && buffers[1] != buffers[2]
      requires w <= pitches[0] && Half(w) <= pitches[1] && Half(w) <= pitches[2]
      requires h * pitches[0] <= buffers[0].Length
      requires Half(h) * pitches[1] <= buffers[1].Length && Half(h) * pitches[2] <= buffers[2].Length
      ensures Valid() && planes == buffers && strides == pitches
      ensures RowBytes(0) == w && RowBytes(1) == RowBytes(2) == Half(w)
      ensures PlaneHeight(0) == h && PlaneHeight(1) == PlaneHeight(2) == Half(h)
    {
      hide Shifted, Half;
      ShiftedOnce(w);
      ShiftedOnce(h);
      width, height := w, h;
      xChromaShift, yChromaShift := 1, 1;
      highBitDepth := false;
      planes, strides := buffers, pitches;
      new;
    }

    /** Copies the planes out of one packed blob, and says how much of it was used. */
    method Read(blob: bytes) returns (used: nat)
      requires Valid() && PlaneBytes(0) + PlaneBytes(1) + PlaneBytes(2) <= |blob|
      modifies planes
      ensures used == PlaneBytes(0) + PlaneBytes(1) + PlaneBytes(2)
      ensures Holds(0, blob, 0) && Holds(1, blob, PlaneBytes(0)) && Holds(2, blob, PlaneBytes(0) + PlaneBytes(1))
    {
      used := CopyPlane(planes[0], strides[0], RowBytes(0), PlaneHeight(0), blob, 0);
      used := CopyPlane(planes[1], strides[1], RowBytes(1), PlaneHeight(1), blob, used);
      used := CopyPlane(planes[2], strides[2], RowBytes(2), PlaneHeight(2), blob, used);
    }
  }

  ghost predicate RowsHold(plane: bytes, stride: nat, w: nat, blob: bytes, start: nat, rows: nat) {
    forall y: nat, x: nat :: y < rows && x < w ==> ByteHolds(plane, stride, w, blob, start, y, x)
  }

  ghost predicate ByteHolds(plane: bytes, stride: nat, w: nat, blob: bytes, start: nat, y: nat, x: nat) {
    && Index(y, stride, x) < |plane| && start + Index(y, w, x) < |blob|
    && plane[Index(y, stride, x)] == blob[start + Index(y, w, x)]
  }

  /** The bytes behind each row, up to the stride, are those of `first`. */
  ghost predicate GapsKept(plane: bytes, first: bytes, stride: nat, w: nat, rows: nat) {
    |plane| == |first| &&
    forall y: nat, x: nat :: y < rows && w <= x < stride && Index(y, stride, x) < |plane| ==>
      plane[Index(y, stride, x)] == first[Index(y, stride, x)]
  }

  lemma NextRow(row: nat, rows: nat, pitch: nat)
    requires row < rows
    ensures Index(row + 1, pitch, 0) == Index(row, pitch, 0) + pitch <= rows * pitch
  {
    assert (row + 1) * pitch == row * pitch + pitch;
    RowsGrow(row + 1, rows, pitch);
  }

  /** Row by row, the destination advances by the stride and the blob by the row; bytes between the rows stay. */
  method CopyPlane(plane: array<byte>, stride: nat, w: nat, h: nat, blob: bytes, start: nat) returns (next: nat)
    requires w <= stride && h * stride <= plane.Length && start + h * w <= |blob|
    modifies plane
    ensures next == start + h * w
    ensures RowsHold(plane[..], stride, w, blob, start, h)
    ensures GapsKept(plane[..], old(plane[..]), stride, w, h)
  {
    ghost var first := plane[..];
    var buf := 0;
    next := start;
    for y := 0 to h
      invariant buf == Index(y, stride, 0) && next == start + Index(y, w, 0)
      invariant RowsHold(plane[..], stride, w, blob, start, y)
      invariant forall k :: buf <= k < plane.Length ==> plane[k] == first[k]
      invariant GapsKept(plane[..], first, stride, w, y)
    {
      NextRow(y, h, stride);
      NextRow(y, h, w);
      ghost var before := plane[..];
      CopyRow(plane, buf, blob[next..next + w]);
      RowCopied(before, plane[..], first, stride, w, blob, start, y);
      buf := buf + stride;
      next := next + w;
    }
    assert Index(h, w, 0) == h * w;
  }

  /** memcpy of one row. */
  method CopyRow(plane: array<byte>, at: nat, row: bytes)
    requires at + |row| <= plane.Length
    modifies plane
    ensures plane[..] == old(plane[..at]) + row + old(plane[at + |row|..])
  {
    forall x | 0 <= x < |row| {
      plane[at + x] := row[x];
    }
  }

  lemma RowCopied(before: bytes, after: bytes, first: bytes, stride: nat, w: nat, blob: bytes, start: nat, y: nat)
    requires w <= stride && Index(y, stride, 0) + stride <= |before| == |first|
    requires start + Index(y, w, 0) + w <= |blob|
    requires RowsHold(before, stride, w, blob, start, y) && GapsKept(before, first, stride, w, y)
    requires forall k :: Index(y, stride, 0) <= k < |before| ==> before[k] == first[k]
    requires var at, from := Index(y, stride, 0), start + Index(y, w, 0);
             after == before[..at] + blob[from..from + w] + before[at + w..]
    ensures RowsHold(after, stride, w, blob, start, y + 1) && GapsKept(after, first, stride, w, y + 1)
  {
    var at, from := Index(y, stride, 0), start + Index(y, w, 0);
    assert |after| == |before|;
    forall v: nat, x: nat | v < y + 1 && x < w
      ensures ByteHolds(after, stride, w, blob, start, v, x)
    {
      if v < y {
        RowsApart(v, y, stride, x);
        assert ByteHolds(before, stride, w, blob, start, v, x);
      } else {
        assert after[at + x] == blob[from..from + w][x];
      }
    }
    forall v: nat, x: nat | v < y + 1 && w <= x < stride && Index(v, stride, x) < |after|
      ensures after[Index(v, stride, x)] == first[Index(v, stride, x)]
    {
      if v < y {
        RowsApart(v, y, stride, x);
      }
    }
  }

  // ---------------------------------------------------------------- frame to image

  /** The samples of an image are the conversions of their source pixels, chroma at doubled coordinates. */
  ghost predicate Shows(img: Image, rgba: bytes, w: nat, h: nat)
    requires img.Valid()
    reads img.planes
  {
    && (forall y: nat, x: nat :: y < h && x < w ==> LumaShows(img.planes[0][..], img.strides[0], rgba, w, y, x))
    && (forall y: nat, x: nat :: y < Half(h) && x < Half(w) ==> ChromaShows(img.planes[1][..], img.strides[1], rgba, w, false, y, x))
    && (forall y: nat, x: nat :: y < Half(h) && x < Half(w) ==> ChromaShows(img.planes[2][..], img.strides[2], rgba, w, true, y, x))
  }

  ghost predicate LumaShows(plane: bytes, stride: nat, rgba: bytes, w: nat, y: nat, x: nat) {
    && Index(y, stride, x) < |plane| && Reads(rgba, Index(y, w, x))
    && plane[Index(y, stride, x)] == LumaAt(rgba, Index(y, w, x))
  }

  ghost predicate ChromaShows(plane: bytes, stride: nat, rgba: bytes, w: nat, red: bool, y: nat, x: nat) {
    && Index(y, stride, x) < |plane| && Reads(rgba, Index(2 * y, w, 2 * x))
    && plane[Index(y, stride, x)] == ChromaAt(rgba, Index(2 * y, w, 2 * x), red)
  }

  /** An image laid out for 4:2:0 frames of this size. */
  ghost predicate Fits(img: Image, w: nat, h: nat) {
    && img.Valid()
    && img.RowBytes(0) == w && img.RowBytes(1) == Half(w) && img.RowBytes(2) == Half(w)
    && img.PlaneHeight(0) == h && img.PlaneHeight(1) == Half(h) && img.PlaneHeight(2) == Half(h)
  }

  /** The image takes as many bytes as the loops write, which for an even frame is the whole blob. */
  lemma BlobIsUsedUp(img: Image, w: uint32, h: uint32)
    requires Fits(img, w, h)
    ensures img.PlaneBytes(0) + img.PlaneBytes(1) + img.PlaneBytes(2) == Samples(w, h)
    ensures w % 2 == 0 && h % 2 == 0 && w * h <= MAX_PIXELS ==> Samples(w, h) == BufferSize(w, h)
  {
    hide BufferSize, Half;
    if w % 2 == 0 && h % 2 == 0 && w * h <= MAX_PIXELS {
      EvenFramesFit(w, h);
    }
  }

  lemma PixelBytes(rgba: bytes, n: nat, pixels: nat)
    requires 3 * pixels <= TWO_32 && n < pixels && Reads(rgba, n)
    ensures 3 * n + 2 < |rgba| && Pixel(rgba, n) == (rgba[3 * n], rgba[3 * n + 1], rgba[3 * n + 2])
  {
  }

  /** A sample in terms of the bytes red, green and blue of pixel n. */
  lemma SampleBytes(rgba: bytes, n: nat, pixels: nat)
    requires 3 * pixels <= TWO_32 && n < pixels && Reads(rgba, n)
    ensures 3 * n + 2 < |rgba| &&
            var r: int, g: int, b: int := rgba[3 * n], rgba[3 * n + 1], rgba[3 * n + 2];
            && LumaAt(rgba, n) == (66 * r + 129 * g + 25 * b) / 256 + 16
            && ChromaAt(rgba, n, false) == (-38 * r + -74 * g + 112 * b) / 256 + 128
            && ChromaAt(rgba, n, true) == (112 * r + -94 * g + -18 * b) / 256 + 128
  {
    hide LumaOf, BlueOf, RedOf, Pixel, Reads, Where;
    PixelBytes(rgba, n, pixels);
    NoSampleWraps(rgba[3 * n], rgba[3 * n + 1], rgba[3 * n + 2]);
  }

  /** The luma of a shown frame, on the input bytes: row y, column x. */
  lemma ShownLuma(img: Image, rgba: bytes, w: nat, h: nat, y: nat, x: nat, i: nat, at: nat)
    requires img.Valid() && Shows(img, rgba, w, h) && 3 * (w * h) <= TWO_32 && y < h && x < w
    requires i == 3 * (y * w + x) && at == y * img.strides[0] + x
    ensures && i + 2 < |rgba| && at < img.planes[0].Length
            && var r: int, g: int, b: int := rgba[i], rgba[i + 1], rgba[i + 2];
               img.planes[0][at] == (66 * r + 129 * g + 25 * b) / 256 + 16
  {
    hide LumaAt, Reads;
    assert LumaShows(img.planes[0][..], img.strides[0], rgba, w, y, x);
    InPlane(y, x, w, h);
    SampleBytes(rgba, Index(y, w, x), w * h);
  }

  /** The chroma of a shown frame: row y and column x of both planes come from the pixel in row 2y and column 2x. */
  lemma ShownChroma(img: Image, rgba: bytes, w: nat, h: nat, y: nat, x: nat, i: nat, blue: nat, red: nat)
    requires img.Valid() && Shows(img, rgba, w, h) && 3 * (w * h) <= TWO_32 && 2 * y < h && 2 * x < w
    requires i == 3 * ((2 * y) * w + 2 * x) && blue == y * img.strides[1] + x && red == y * img.strides[2] + x
    ensures && i + 2 < |rgba| && blue < img.planes[1].Length && red < img.planes[2].Length
            && var r: int, g: int, b: int := rgba[i], rgba[i + 1], rgba[i + 2];
               && img.planes[1][blue] == (-38 * r + -74 * g + 112 * b) / 256 + 128
               && img.planes[2][red] == (112 * r + -94 * g + -18 * b) / 256 + 128
  {
    hide ChromaAt, Reads, Half;
    BelowHalf(y, h);
    BelowHalf(x, w);
    assert ChromaShows(img.planes[1][..], img.strides[1], rgba, w, false, y, x);
    assert ChromaShows(img.planes[2][..], img.strides[2], rgba, w, true, y, x);
    InPlane(2 * y, 2 * x, w, h);
    SampleBytes(rgba, Index(2 * y, w, 2 * x), w * h);
  }

  /** The packed blob itself: luma row by row, then the two quarter planes, each on the input bytes. */
  lemma ConvertedLuma(yuv: bytes, rgba: bytes, w: nat, h: nat, y: nat, x: nat)
    requires Converted(yuv, rgba, w, h) && 3 * (w * h) <= TWO_32 && y < h && x < w
    ensures var i := 3 * (y * w + x);
            && i + 2 < |rgba| && y * w + x < |yuv|
            && var r: int, g: int, b: int := rgba[i], rgba[i + 1], rgba[i + 2];
               yuv[y * w + x] == (66 * r + 129 * g + 25 * b) / 256 + 16
  {
    hide LumaAt, ChromaFilled, Reads;
    InPlane(y, x, w, h);
    SampleBytes(rgba, Index(y, w, x), w * h);
  }

  lemma ConvertedChroma(yuv: bytes, rgba: bytes, w: nat, h: nat, y: nat, x: nat, i: nat, blue: nat, red: nat)
    requires Converted(yuv, rgba, w, h) && 3 * (w * h) <= TWO_32 && 2 * y < h && 2 * x < w
    requires i == 3 * ((2 * y) * w + 2 * x)
    requires blue == w * h + (y * Half(w) + x) && red == blue + Half(w) * Half(h)
    ensures && i + 2 < |rgba| && blue < |yuv| && red < |yuv|
            && var r: int, g: int, b: int := rgba[i], rgba[i + 1], rgba[i + 2];
               && yuv[blue] == (-38 * r + -74 * g + 112 * b) / 256 + 128
               && yuv[red] == (112 * r + -94 * g + -18 * b) / 256 + 128
  {
    hide LumaFilled, ChromaAt, Reads, Half;
    BelowHalf(y, h);
    BelowHalf(x, w);
    InPlane(2 * y, 2 * x, w, h);
    assert ChromaSample(yuv, w * h, rgba, w, false, y, x);
    assert ChromaSample(yuv, w * h + Half(w) * Half(h), rgba, w, true, y, x);
    SampleBytes(rgba, Index(2 * y, w, 2 * x), w * h);
  }

  lemma PlanesShow(planes: seq<bytes>, strides: seq<nat>, yuv: bytes, rgba: bytes, w: nat, h: nat)
    requires |planes| == |strides| == 3 && Converted(yuv, rgba, w, h)
    requires RowsHold(planes[0], strides[0], w, yuv, 0, h)
    requires RowsHold(planes[1], strides[1], Half(w), yuv, w * h, Half(h))
    requires RowsHold(planes[2], strides[2], Half(w), yuv, w * h + Half(w) * Half(h), Half(h))
    ensures forall y: nat, x: nat :: y < h && x < w ==> LumaShows(planes[0], strides[0], rgba, w, y, x)
    ensures forall y: nat, x: nat :: y < Half(h) && x < Half(w) ==> ChromaShows(planes[1], strides[1], rgba, w, false, y, x)
    ensures forall y: nat, x: nat :: y < Half(h) && x < Half(w) ==> ChromaShows(planes[2], strides[2], rgba, w, true, y, x)
  {
    forall y: nat, x: nat | y < h && x < w ensures LumaShows(planes[0], strides[0], rgba, w, y, x) {
      InPlane(y, x, w, h);
      assert ByteHolds(planes[0], strides[0], w, yuv, 0, y, x);
    }
    forall y: nat, x: nat | y < Half(h) && x < Half(w) ensures ChromaShows(planes[1], strides[1], rgba, w, false, y, x) {
      assert ByteHolds(planes[1], strides[1], Half(w), yuv, w * h, y, x);
      assert ChromaSample(yuv, w * h, rgba, w, false, y, x);
    }
    forall y: nat, x: nat | y < Half(h) && x < Half(w) ensures ChromaShows(planes[2], strides[2], rgba, w, true, y, x) {
      assert ByteHolds(planes[2], strides[2], Half(w), yuv, w * h + Half(w) * Half(h), y, x);
      assert ChromaSample(yuv, w * h + Half(w) * Half(h), rgba, w, true, y, x);
    }
  }

  /**
   Converting a frame and reading it into the image: each sample shows its pixel. An empty frame fails:
   its blob has no first byte to point at.
   */
  method LoadFrame(img: Image, rgba: bytes, w: uint32, h: uint32) returns (ok: bool)
    requires Fits(img, w, h) && !(w == 0 && h == MAX_COUNT)
    modifies img.planes
    ensures ok <==> Loadable(w, h, |rgba|)
    ensures ok ==> Shows(img, rgba, w, h)
  {
    var yuv;
    ok, yuv := RgbToYuv(rgba, w, h);
    if ok && yuv.Length == 0 {
      ok := false;
      EmptyFrame(w, h);
      return;
    }
    if ok {
      assert img.PlaneBytes(0) == w * h && img.PlaneBytes(1) == img.PlaneBytes(2) == Half(w) * Half(h);
      var _ := img.Read(yuv[..]);
      PlanesShow([img.planes[0][..], img.planes[1][..], img.planes[2][..]], img.strides, yuv[..], rgba, w, h);
    }
    EmptyFrame(w, h);
  }

  /** When a frame can be converted and loaded. */
  predicate Loadable(w: uint32, h: uint32, size: nat) {
    w * h > 0 && Samples(w, h) <= BufferSize(w, h) && Needed(w * h) <= size
  }

  lemma EmptyFrame(w: uint32, h: uint32)
    ensures w * h == 0 ==> BufferSize(w, h) == 0
    ensures w * h > 0 ==> Samples(w, h) > 0
  {
    hide Float32;
    if w * h == 0 {
      EmptySize(w * h);
    }
  }

  lemma EmptySize(pixels: nat)
    requires pixels == 0
    ensures Float32(3 * Float32(pixels % TWO_32)) / 2 == 0
  {
    hide Float32;
    MultiplesAreExact(0);
  }
}
