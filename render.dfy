/** `render` and `get_pixels` (src/main.cpp): the canvas is enumerated column by
    column (i outer, j inner), cut into batches of BATCH_SIZE coordinates plus one
    trailing non-empty batch, each batch is raytraced pixel by pixel, and every
    result is drawn at its matrix position. The asynchronous dispatch is replaced by
    running the batches one after another in the order their futures are joined;
    the window's renderer is a map from matrix position to the colour drawn there. */
module Render {
  import opened Generic
  import opened Transforms
  import opened HitSelection

  const NUM_THREADS := 8
  const AREA := SCREEN_WIDTH * SCREEN_HEIGHT
  const BATCH_SIZE := AREA / NUM_THREADS

  /** The concatenation of a sequence of batches, in order. */
  function Flatten<T>(bs: seq<seq<T>>): seq<T> {
    if bs == [] then [] else Flatten(bs[..|bs| - 1]) + bs[|bs| - 1]
  }

  /** Coordinates (i, j) for j in [lo, hi), in increasing j. */
  function Column(i: int, lo: int, hi: int): seq<Coord> {
    seq(if lo <= hi then hi - lo else 0, k => (i, lo + k))
  }

  /** The columns i in [xlo, xhi), in increasing i, each one over [ylo, yhi). */
  function Columns(xlo: int, xhi: int, ylo: int, yhi: int): seq<seq<Coord>> {
    seq(if xlo <= xhi then xhi - xlo else 0, k => Column(xlo + k, ylo, yhi))
  }

  /** The coordinates of [xlo, xhi) x [ylo, yhi), column after column. */
  function Grid(xlo: int, xhi: int, ylo: int, yhi: int): seq<Coord> {
    Flatten(Columns(xlo, xhi, ylo, yhi))
  }

  /** One more row extends a column at its end. */
  lemma ColumnStep(i: int, lo: int, hi: int)
    requires lo < hi
    ensures Column(i, lo, hi) == Column(i, lo, hi - 1) + [(i, hi - 1)]
  {
    assert Column(i, lo, hi)[..hi - 1 - lo] == Column(i, lo, hi - 1);
  }

  /** One more column extends the grid at its end. */
  lemma GridStep(xlo: int, xhi: int, ylo: int, yhi: int)
    requires xlo < xhi
    ensures Grid(xlo, xhi, ylo, yhi) == Grid(xlo, xhi - 1, ylo, yhi) + Column(xhi - 1, ylo, yhi)
  {
    var init := Columns(xlo, xhi - 1, ylo, yhi);
    assert Columns(xlo, xhi, ylo, yhi) == init + [Column(xhi - 1, ylo, yhi)];
    FlattenAppend(init, Column(xhi - 1, ylo, yhi));
  }

  /** The loop bounds of render: i in [-width/2, width/2), j in [-height/2, height/2),
      with C++ truncating division. */
  function Enumeration(width: nat, height: nat): seq<Coord> {
    Grid(CDiv(-(width as int), 2), CDiv(width, 2), CDiv(-(height as int), 2), CDiv(height, 2))
  }

  /** The rectangle render enumerates: [-width/2, width/2) x [-height/2, height/2). */
  predicate InRectangle(c: Coord, width: nat, height: nat) {
    -(width / 2) <= c.0 < width / 2 && -(height / 2) <= c.1 < height / 2
  }

  /** a comes before b with i outer and j inner. */
  predicate Before(a: Coord, b: Coord) {
    a.0 < b.0 || (a.0 == b.0 && a.1 < b.1)
  }

  predicate ColumnMajor(s: seq<Coord>) {
    forall p, q :: 0 <= p < q < |s| ==> Before(s[p], s[q])
  }

  ghost predicate Distinct<T>(s: seq<T>) {
    forall p, q :: 0 <= p < q < |s| ==> s[p] != s[q]
  }

  lemma FlattenAppend<T>(bs: seq<seq<T>>, b: seq<T>)
    ensures Flatten(bs + [b]) == Flatten(bs) + b
  {
    assert (bs + [b])[..|bs|] == bs;
  }

  /** An element is in the concatenation exactly when it is in one of the batches. */
  lemma {:induction false} FlattenMember<T>(bs: seq<seq<T>>, x: T)
    ensures x in Flatten(bs) <==> exists p :: 0 <= p < |bs| && x in bs[p]
    decreases |bs|
  {
    if bs != [] {
      var init := bs[..|bs| - 1];
      FlattenMember(init, x);
      if x in Flatten(init) {
        var p :| 0 <= p < |init| && x in init[p];
        assert x in bs[p];
      }
      if exists p :: 0 <= p < |bs| && x in bs[p] {
        var p :| 0 <= p < |bs| && x in bs[p];
        if p < |bs| - 1 {
          assert x in init[p];
        }
      }
    }
  }

  /** Batches whose concatenation has no repeats share no element. */
  lemma {:induction false} DistinctBatchesDisjoint<T>(bs: seq<seq<T>>)
    requires Distinct(Flatten(bs))
    ensures forall p, q, x :: 0 <= p < q < |bs| && x in bs[p] ==> x !in bs[q]
    decreases |bs|
  {
    if bs != [] {
      var n := |bs|;
      var init := bs[..n - 1];
      var a, b := Flatten(init), bs[n - 1];
      assert Flatten(bs) == a + b;
      assert Distinct(a) by {
        forall p, q | 0 <= p < q < |a| ensures a[p] != a[q] {
          assert (a + b)[p] == a[p] && (a + b)[q] == a[q];
        }
      }
      DistinctBatchesDisjoint(init);
      forall p, q, x | 0 <= p < q < n && x in bs[p]
        ensures x !in bs[q]
      {
        if q == n - 1 {
          FlattenMember(init, x);
          assert init[p] == bs[p];
          assert x in a;
          forall u, v | 0 <= u < |a| && 0 <= v < |b| ensures a[u] != b[v] {
            assert (a + b)[u] == a[u] && (a + b)[|a| + v] == b[v];
          }
        } else {
          assert init[p] == bs[p] && init[q] == bs[q];
        }
      }
    }
  }

  /** The total size of batches that are all full except possibly the last. */
  lemma {:induction false} FlattenLength<T>(bs: seq<seq<T>>, size: nat)
    requires bs != []
    requires forall k :: 0 <= k < |bs| - 1 ==> |bs[k]| == size
    ensures |Flatten(bs)| == (|bs| - 1) * size + |bs[|bs| - 1]|
    decreases |bs|
  {
    var n := |bs|;
    var init := bs[..n - 1];
    assert |Flatten(bs)| == |Flatten(init)| + |bs[n - 1]|;
    if init != [] {
      FlattenLength(init, size);
      assert init[n - 2] == bs[n - 2];
      assert (n - 2) * size + size == (n - 1) * size;
    }
  }

  /** A column holds exactly (i, j) for j in [lo, hi), in increasing j. */
  lemma ColumnMembers(i: int, lo: int, hi: int)
    ensures forall c :: c in Column(i, lo, hi) <==> c.0 == i && lo <= c.1 < hi
    ensures ColumnMajor(Column(i, lo, hi))
    ensures lo <= hi ==> |Column(i, lo, hi)| == hi - lo
  {
    forall c: Coord | c.0 == i && lo <= c.1 < hi ensures c in Column(i, lo, hi) {
      assert Column(i, lo, hi)[c.1 - lo] == c;
    }
  }

  /** The grid holds exactly the rectangle [xlo, xhi) x [ylo, yhi). */
  lemma {:induction false} GridMembers(xlo: int, xhi: int, ylo: int, yhi: int)
    ensures forall c :: c in Grid(xlo, xhi, ylo, yhi) <==> xlo <= c.0 < xhi && ylo <= c.1 < yhi
    decreases xhi - xlo
  {
    if xlo < xhi {
      GridStep(xlo, xhi, ylo, yhi);
      GridMembers(xlo, xhi - 1, ylo, yhi);
      ColumnMembers(xhi - 1, ylo, yhi);
    }
  }

  /** The grid lists i outer and j inner, so no coordinate repeats. */
  lemma {:induction false} GridColumnMajor(xlo: int, xhi: int, ylo: int, yhi: int)
    ensures ColumnMajor(Grid(xlo, xhi, ylo, yhi))
    decreases xhi - xlo
  {
    if xlo < xhi {
      GridStep(xlo, xhi, ylo, yhi);
      GridColumnMajor(xlo, xhi - 1, ylo, yhi);
      GridMembers(xlo, xhi - 1, ylo, yhi);
      ColumnMembers(xhi - 1, ylo, yhi);
      var a, b := Grid(xlo, xhi - 1, ylo, yhi), Column(xhi - 1, ylo, yhi);
      forall p, q | 0 <= p < q < |a + b| ensures Before((a + b)[p], (a + b)[q]) {
        if q < |a| {
          assert (a + b)[p] == a[p] && (a + b)[q] == a[q];
        } else if p >= |a| {
          assert (a + b)[p] == b[p - |a|] && (a + b)[q] == b[q - |a|];
        } else {
          assert (a + b)[p] == a[p] && a[p] in a;
          assert (a + b)[q] == b[q - |a|] && b[q - |a|] in b;
        }
      }
    }
  }

  /** The grid has (xhi - xlo) * (yhi - ylo) coordinates. */
  lemma {:induction false} GridLength(xlo: int, xhi: int, ylo: int, yhi: int)
    requires xlo <= xhi && ylo <= yhi
    ensures |Grid(xlo, xhi, ylo, yhi)| == (xhi - xlo) * (yhi - ylo)
    decreases xhi - xlo
  {
    if xlo < xhi {
      GridStep(xlo, xhi, ylo, yhi);
      GridLength(xlo, xhi - 1, ylo, yhi);
      ColumnMembers(xhi - 1, ylo, yhi);
      assert (xhi - xlo) * (yhi - ylo) == (xhi - 1 - xlo) * (yhi - ylo) + (yhi - ylo);
    }
  }

  /** The coordinates render enumerates: [-width/2, width/2) x [-height/2, height/2). */
  lemma EnumerationMembers(width: nat, height: nat)
    ensures forall c :: c in Enumeration(width, height) <==>
              -(width / 2) <= c.0 < width / 2 && -(height / 2) <= c.1 < height / 2
  {
    GridMembers(CDiv(-(width as int), 2), CDiv(width, 2), CDiv(-(height as int), 2), CDiv(height, 2));
  }

  /** The number of coordinates render enumerates. */
  lemma EnumerationLength(width: nat, height: nat)
    ensures |Enumeration(width, height)| == (2 * (width / 2)) * (2 * (height / 2))
  {
    GridLength(CDiv(-(width as int), 2), CDiv(width, 2), CDiv(-(height as int), 2), CDiv(height, 2));
  }

  /** render enumerates each coordinate of [-width/2, width/2) x [-height/2,
      height/2) exactly once, i outer and j inner: (2 * (width/2)) * (2 * (height/2))
      coordinates, so an odd dimension loses its last column or row. */
  lemma EnumerationExact(width: nat, height: nat)
    ensures forall c :: c in Enumeration(width, height) <==>
              -(width / 2) <= c.0 < width / 2 && -(height / 2) <= c.1 < height / 2
    ensures ColumnMajor(Enumeration(width, height)) && Distinct(Enumeration(width, height))
    ensures |Enumeration(width, height)| == (2 * (width / 2)) * (2 * (height / 2))
  {
    EnumerationMembers(width, height);
    GridColumnMajor(CDiv(-(width as int), 2), CDiv(width, 2), CDiv(-(height as int), 2), CDiv(height, 2));
    GridLength(CDiv(-(width as int), 2), CDiv(width, 2), CDiv(-(height as int), 2), CDiv(height, 2));
  }

  /** The batch loop of render: every coordinate is pushed onto the current batch,
      which is handed off when it reaches `batchSize`; a non-empty remainder becomes
      the last batch. The batches concatenate to the enumeration, none is empty,
      all but the last hold exactly `batchSize` coordinates and none holds more. */
  method PartitionBatches(width: nat, height: nat, batchSize: nat) returns (batches: seq<seq<Coord>>)
    ensures Flatten(batches) == Enumeration(width, height)
    ensures forall k :: 0 <= k < |batches| ==> 0 < |batches[k]|
    ensures forall k :: 0 <= k < |batches| - 1 ==> |batches[k]| == batchSize
    ensures batchSize > 0 ==> forall k :: 0 <= k < |batches| ==> |batches[k]| <= batchSize
  {
    var xlo, xhi := CDiv(-(width as int), 2), CDiv(width, 2);
    var ylo, yhi := CDiv(-(height as int), 2), CDiv(height, 2);
    batches := [];
    var coords: seq<Coord> := [];
    var i := xlo;
    while i < xhi
      invariant xlo <= i <= xhi
      invariant Flatten(batches) + coords == Grid(xlo, i, ylo, yhi)
      invariant forall k :: 0 <= k < |batches| ==> 0 < |batches[k]| == batchSize
      invariant batchSize > 0 ==> |coords| < batchSize
    {
      var j := ylo;
      while j < yhi
        invariant ylo <= j <= yhi
        invariant Flatten(batches) + coords == Grid(xlo, i, ylo, yhi) + Column(i, ylo, j)
        invariant forall k :: 0 <= k < |batches| ==> 0 < |batches[k]| == batchSize
        invariant batchSize > 0 ==> |coords| < batchSize
      {
        ghost var done := Grid(xlo, i, ylo, yhi) + Column(i, ylo, j);
        ColumnStep(i, ylo, j + 1);
        assert Grid(xlo, i, ylo, yhi) + Column(i, ylo, j + 1) == done + [(i, j)];
        coords := coords + [(i, j)];
        assert Flatten(batches) + coords == done + [(i, j)];
        if |coords| == batchSize {
          FlattenAppend(batches, coords);
          batches := batches + [coords];
          coords := [];
        }
        j := j + 1;
      }
      GridStep(xlo, i + 1, ylo, yhi);
      i := i + 1;
    }
    if coords != [] {
      FlattenAppend(batches, coords);
      batches := batches + [coords];
    }
  }

  /** With all but the last batch full, the number of batches is the coordinate
      count divided by the batch size, rounded up. */
  lemma BatchCount<T>(bs: seq<seq<T>>, size: nat)
    requires size > 0
    requires forall k :: 0 <= k < |bs| ==> 0 < |bs[k]| <= size
    requires forall k :: 0 <= k < |bs| - 1 ==> |bs[k]| == size
    ensures |bs| == (|Flatten(bs)| + size - 1) / size
  {
    if bs != [] {
      FlattenLength(bs, size);
      var n, last := |bs|, |bs[|bs| - 1]|;
      assert |Flatten(bs)| + size - 1 == n * size + (last - 1);
      DivideExactly(|Flatten(bs)| + size - 1, size, n, last - 1);
    }
  }

  lemma DivideExactly(a: int, b: int, q: int, r: int)
    requires b > 0 && 0 <= r < b && a == q * b + r
    ensures a / b == q
  {
    var d := q - a / b;
    assert d * b == a % b - r;
  }

  /** The screen's constants: a million pixels, batches of 125000. */
  lemma ScreenConstants()
    ensures AREA == 1_000_000 && BATCH_SIZE == 125_000
  {
  }

  /** render enumerates AREA coordinates of the screen. */
  lemma ScreenArea()
    ensures |Enumeration(SCREEN_WIDTH, SCREEN_HEIGHT)| == AREA
  {
    var w, h := SCREEN_WIDTH, SCREEN_HEIGHT;
    assert w / 2 == 500 && h / 2 == 500;
    EnumerationLength(w, h);
    ScreenConstants();
  }

  /** A million coordinates in full batches of 125000 and one last non-empty batch of
      at most 125000 make eight full batches. */
  lemma EightFullBatches(n: int, size: int, last: int)
    requires size == 125_000 && 0 < last <= size
    requires 1_000_000 == (n - 1) * size + last
    ensures n == 8 && last == size
  {
    assert (n - 1) * size == (n - 1) * 125_000;
  }

  /** With the screen's constants render makes exactly NUM_THREADS batches of
      BATCH_SIZE coordinates each: AREA coordinates (ScreenArea) cut as the batch
      loop cuts them (PartitionBatches). */
  lemma ScreenBatches(bs: seq<seq<Coord>>)
    requires |Flatten(bs)| == AREA
    requires forall k :: 0 <= k < |bs| ==> 0 < |bs[k]| <= BATCH_SIZE
    requires forall k :: 0 <= k < |bs| - 1 ==> |bs[k]| == BATCH_SIZE
    ensures |bs| == NUM_THREADS
    ensures forall k :: 0 <= k < |bs| ==> |bs[k]| == BATCH_SIZE
  {
    ScreenConstants();
    assert bs != [];
    FlattenLength(bs, BATCH_SIZE);
    EightFullBatches(|bs|, BATCH_SIZE, |bs[|bs| - 1]|);
  }

  /** Every canvas coordinate lies in exactly one batch, and batches hold nothing
      else: the coverage and disjointness the final merge relies on. */
  lemma EachCoordinateInOneBatch(bs: seq<seq<Coord>>, width: nat, height: nat)
    requires Flatten(bs) == Enumeration(width, height)
    ensures forall c: Coord :: -(width / 2) <= c.0 < width / 2 && -(height / 2) <= c.1 < height / 2 ==>
              exists p :: 0 <= p < |bs| && c in bs[p]
    ensures forall p, c :: 0 <= p < |bs| && c in bs[p] ==>
              -(width / 2) <= c.0 < width / 2 && -(height / 2) <= c.1 < height / 2
    ensures forall p, q, c :: 0 <= p < q < |bs| && c in bs[p] ==> c !in bs[q]
  {
    EnumerationExact(width, height);
    forall c ensures c in Flatten(bs) <==> exists p :: 0 <= p < |bs| && c in bs[p] {
      FlattenMember(bs, c);
    }
    DistinctBatchesDisjoint(bs);
  }

  /** The view point's hits can be converted for every coordinate of a batch. */
  predicate Traceable(coords: seq<Coord>, traceAt: Point -> seq<Intercept>) {
    forall k :: 0 <= k < |coords| ==>
      ViewDefined(CanvasPoint(coords[k].0, coords[k].1, 0)) &&
      HitsConvertible(traceAt(ViewPoint(coords[k])))
  }

  /** get_pixels: raytraces each coordinate of the batch through its view point and
      returns one pixel per coordinate, in order, carrying the coordinate. */
  method GetPixels(coords: seq<Coord>, traceAt: Point -> seq<Intercept>, shade: (nat, Point) -> Color)
    returns (pixels: seq<Pixel>)
    requires Traceable(coords, traceAt)
    ensures |pixels| == |coords|
    ensures forall k :: 0 <= k < |coords| ==>
              pixels[k].0 == coords[k] && pixels[k].1 == RayColor(traceAt(ViewPoint(coords[k])), shade)
  {
    pixels := [];
    for i := 0 to |coords|
      invariant |pixels| == i
      invariant forall k :: 0 <= k < i ==>
                  pixels[k].0 == coords[k] && pixels[k].1 == RayColor(traceAt(ViewPoint(coords[k])), shade)
    {
      var coord := coords[i];
      var viewport := CanvasToView(CanvasPoint(coord.0, coord.1, 0));
      var color := Raytrace(traceAt(viewport), shade);
      pixels := pixels + [(coord, color)];
    }
  }

  /** The canvas coordinate drawn at matrix position m. */
  function CanvasOf(m: Coord): Coord {
    var c := MatrixToCanvas(CanvasPoint(m.0, m.1, 0));
    (c.x, c.y)
  }

  /** Every canvas pixel's hits can be converted. */
  ghost predicate CanvasTraceable(traceAt: Point -> seq<Intercept>) {
    forall c: Coord :: OnCanvas(c.0, c.1) ==> HitsConvertible(traceAt(ViewPoint(c)))
  }

  /** A batch of canvas pixels can be raytraced. */
  lemma BatchTraceable(batch: seq<Coord>, traceAt: Point -> seq<Intercept>)
    requires forall c :: c in batch ==> InRectangle(c, SCREEN_WIDTH, SCREEN_HEIGHT)
    requires CanvasTraceable(traceAt)
    ensures Traceable(batch, traceAt)
  {
    forall k | 0 <= k < |batch|
      ensures ViewDefined(CanvasPoint(batch[k].0, batch[k].1, 0))
      ensures HitsConvertible(traceAt(ViewPoint(batch[k])))
    {
      assert batch[k] in batch;
      RectangleIsCanvas(batch[k]);
      OnCanvasDefined(batch[k].0, batch[k].1, 0);
    }
  }

  /** The screen's rectangle is the canvas. */
  lemma RectangleIsCanvas(c: Coord)
    ensures InRectangle(c, SCREEN_WIDTH, SCREEN_HEIGHT) <==> OnCanvas(c.0, c.1)
  {
  }

  /** The batches of a partition of the enumeration hold coordinates of its
      rectangle only. */
  lemma BatchesInRectangle(batches: seq<seq<Coord>>, width: nat, height: nat)
    requires Flatten(batches) == Enumeration(width, height)
    ensures forall p, c :: 0 <= p < |batches| && c in batches[p] ==> InRectangle(c, width, height)
  {
    forall p, c | 0 <= p < |batches| && c in batches[p] ensures InRectangle(c, width, height) {
      FlattenMember(batches, c);
      EnumerationMember(c, width, height);
    }
  }

  /** Drawing canvas pixel c in colour `color` (SDL_Draw): the colour lands at the
      pixel's matrix position, which maps back to c. */
  function Draw(frame: map<Coord, Color>, color: Color, c: Coord): (f: map<Coord, Color>)
    requires MatrixDefined(CanvasPoint(c.0, c.1, 0))
    ensures forall m :: m in f <==> m in frame || CanvasOf(m) == c
    ensures forall m :: m in f ==> f[m] == if CanvasOf(m) == c then color else frame[m]
  {
    var m := ChangeToMatrixCoords(CanvasPoint(c.0, c.1, 0));
    frame[(m.x, m.y) := color]
  }

  /** One coordinate's membership in the enumeration. */
  lemma EnumerationMember(c: Coord, width: nat, height: nat)
    ensures c in Enumeration(width, height) <==>
              -(width / 2) <= c.0 < width / 2 && -(height / 2) <= c.1 < height / 2
  {
    EnumerationMembers(width, height);
  }

  /** Matrix position m is drawn by render exactly when it lies in columns
      [0, SCREEN_WIDTH) and rows (0, SCREEN_HEIGHT]. */
  lemma FramePosition(m: Coord)
    ensures CanvasOf(m) in Enumeration(SCREEN_WIDTH, SCREEN_HEIGHT) <==>
              0 <= m.0 < SCREEN_WIDTH && 0 < m.1 <= SCREEN_HEIGHT
  {
    var c := CanvasOf(m);
    var w, h := SCREEN_WIDTH, SCREEN_HEIGHT;
    assert w / 2 == 500 && h / 2 == 500;
    assert c == (m.0 - 500, 500 - m.1);
    EnumerationMember(c, w, h);
  }

  /** The join loop of render: each batch is raytraced (get_pixels) and its pixels
      are drawn in order. The frame holds a colour exactly at the matrix positions
      of the batches' coordinates, and each is the raytraced colour of the canvas
      pixel drawn there. */
  method DrawBatches(batches: seq<seq<Coord>>, traceAt: Point -> seq<Intercept>, shade: (nat, Point) -> Color)
    returns (frame: map<Coord, Color>)
    requires forall p, c :: 0 <= p < |batches| && c in batches[p] ==> InRectangle(c, SCREEN_WIDTH, SCREEN_HEIGHT)
    requires CanvasTraceable(traceAt)
    ensures forall m :: m in frame <==> CanvasOf(m) in Flatten(batches)
    ensures forall m :: m in frame ==> OnCanvas(CanvasOf(m).0, CanvasOf(m).1)
    ensures forall m :: m in frame ==> frame[m] == RayColor(traceAt(ViewPoint(CanvasOf(m))), shade)
  {
    frame := map[];
    for b := 0 to |batches|
      invariant forall m :: m in frame <==> CanvasOf(m) in Flatten(batches[..b])
      invariant forall m :: m in frame ==> OnCanvas(CanvasOf(m).0, CanvasOf(m).1)
      invariant forall m :: m in frame ==> frame[m] == RayColor(traceAt(ViewPoint(CanvasOf(m))), shade)
    {
      var batch := batches[b];
      BatchTraceable(batch, traceAt);
      var pixels := GetPixels(batch, traceAt, shade);
      for k := 0 to |pixels|
        invariant forall m :: m in frame <==> CanvasOf(m) in Flatten(batches[..b]) + batch[..k]
        invariant forall m :: m in frame ==> OnCanvas(CanvasOf(m).0, CanvasOf(m).1)
        invariant forall m :: m in frame ==> frame[m] == RayColor(traceAt(ViewPoint(CanvasOf(m))), shade)
      {
        var (coord, color) := pixels[k];
        assert coord == batch[k] && coord in batch;
        RectangleIsCanvas(coord);
        OnCanvasDefined(coord.0, coord.1, 0);
        assert batch[..k + 1] == batch[..k] + [coord];
        frame := Draw(frame, color, coord);
      }
      assert batch[..|pixels|] == batch;
      assert batches[..b + 1] == batches[..b] + [batch];
      FlattenAppend(batches[..b], batch);
    }
    assert batches[..|batches|] == batches;
  }

  /** The matrix positions of the screen's partition are exactly columns
      [0, SCREEN_WIDTH) and rows (0, SCREEN_HEIGHT]. */
  lemma ScreenFrame(batches: seq<seq<Coord>>)
    requires Flatten(batches) == Enumeration(SCREEN_WIDTH, SCREEN_HEIGHT)
    ensures forall m :: CanvasOf(m) in Flatten(batches) <==> 0 <= m.0 < SCREEN_WIDTH && 0 < m.1 <= SCREEN_HEIGHT
  {
    forall m ensures CanvasOf(m) in Flatten(batches) <==> 0 <= m.0 < SCREEN_WIDTH && 0 < m.1 <= SCREEN_HEIGHT {
      FramePosition(m);
    }
  }

  /** The batch loop of render with the screen's constants: NUM_THREADS batches of
      BATCH_SIZE canvas pixels, pairwise disjoint, whose matrix positions are exactly
      columns [0, SCREEN_WIDTH) and rows (0, SCREEN_HEIGHT]. */
  method ScreenPartition() returns (batches: seq<seq<Coord>>)
    ensures |batches| == NUM_THREADS
    ensures forall k :: 0 <= k < |batches| ==> |batches[k]| == BATCH_SIZE
    ensures forall p, c :: 0 <= p < |batches| && c in batches[p] ==> InRectangle(c, SCREEN_WIDTH, SCREEN_HEIGHT)
    ensures forall p, q, c :: 0 <= p < q < |batches| && c in batches[p] ==> c !in batches[q]
    ensures forall m :: CanvasOf(m) in Flatten(batches) <==> 0 <= m.0 < SCREEN_WIDTH && 0 < m.1 <= SCREEN_HEIGHT
  {
    batches := PartitionBatches(SCREEN_WIDTH, SCREEN_HEIGHT, BATCH_SIZE);
    ScreenArea();
    ScreenBatches(batches);
    BatchesInRectangle(batches, SCREEN_WIDTH, SCREEN_HEIGHT);
    EachCoordinateInOneBatch(batches, SCREEN_WIDTH, SCREEN_HEIGHT);
    ScreenFrame(batches);
  }

  /** render followed by the draws: the frame holds a colour exactly at the matrix
      positions of the canvas (columns [0, SCREEN_WIDTH), rows (0, SCREEN_HEIGHT]),
      and each is the raytraced colour of the canvas pixel drawn there, whatever the
      batching. */
  method Render(traceAt: Point -> seq<Intercept>, shade: (nat, Point) -> Color)
    returns (frame: map<Coord, Color>)
    requires CanvasTraceable(traceAt)
    ensures forall m :: m in frame <==> 0 <= m.0 < SCREEN_WIDTH && 0 < m.1 <= SCREEN_HEIGHT
    ensures forall m :: m in frame ==> frame[m] == RayColor(traceAt(ViewPoint(CanvasOf(m))), shade)
  {
    var batches := ScreenPartition();
    frame := DrawBatches(batches, traceAt, shade);
  }
}
