/**
 * The discrete bookkeeping of the particle intro (components/ParticleIntro.tsx):
 * sampling the rendered glyph mask into text particles, creating the two
 * agents, the bounded trail each agent keeps, and the rule that colours a
 * particle after the agents near it.
 *
 * Positions, the trigonometry that moves the agents and the distances between
 * points are floating point in the source; here a position is an opaque pair
 * of reals and "within range of an agent" is a given boolean.
 */
module ParticleIntro {
  import opened Sequences

  newtype byte = x: int | 0 <= x < 256

  /** Sampling stride of the glyph mask, in pixels (`PARTICLE_DENSITY`). */
  const Stride: int := 4
  /** A sampled pixel becomes a particle when its alpha byte exceeds this. */
  const AlphaThreshold: int := 128
  /** Capacity of an agent's trail (`historyLimit`). */
  const HistoryLimit: nat := 40
  /** `Math.PI` as a double. */
  const Pi: real := 3.141592653589793
  const AgentSpeed: real := 0.02
  /** Shadow blur of a particle drawn in an agent's colour. */
  const AgentGlow: nat := 10

  datatype Point = Point(x: real, y: real)

  datatype Color = Hex(code: string) | Rgb(r: int, g: int, b: int)

  /** A sampled pixel of the mask: column `x`, row `y`. */
  datatype Cell = Cell(x: int, y: int)

  datatype Particle = Particle(
    x: real, y: real,          // current position
    baseX: int, baseY: int,    // the mask pixel it was sampled from
    vx: real, vy: real,
    size: real,
    color: Color,
    active: bool)

  /** The six `Math.random()` values drawn for one particle, in the order the
      source draws them. */
  datatype RandomDraw = RandomDraw(r: real, g: real, b: real, x: real, y: real, size: real)

  predicate Unit(u: real) {
    0.0 <= u < 1.0
  }

  predicate IsRandomDraw(d: RandomDraw) {
    Unit(d.r) && Unit(d.g) && Unit(d.b) && Unit(d.x) && Unit(d.y) && Unit(d.size)
  }

  /** `Math.floor(Math.random() * 200 + 55)`. */
  function Channel(u: real): (c: int)
    ensures Unit(u) ==> 55 <= c <= 254
  {
    (u * 200.0 + 55.0).Floor
  }

  predicate IsBright(c: Color) {
    c.Rgb? && 55 <= c.r <= 254 && 55 <= c.g <= 254 && 55 <= c.b <= 254
  }

  /** `Math.random() * extent`: a start coordinate inside [0, extent]. */
  function StartCoord(u: real, extent: int): (r: real)
    ensures Unit(u) && extent >= 0 ==> 0.0 <= r <= extent as real
  {
    ScaledWithin(u, extent as real);
    u * extent as real
  }

  /** A random fraction of a non-negative extent stays within it. */
  lemma ScaledWithin(u: real, extent: real)
    ensures Unit(u) && extent >= 0.0 ==> 0.0 <= u * extent <= extent
  {
    if Unit(u) && extent >= 0.0 {
      assert 0.0 <= u * extent;
      assert extent - u * extent == (1.0 - u) * extent;
      assert 0.0 <= (1.0 - u) * extent;
    }
  }

  /** `Math.random() * 2 + 1`: a size in [1, 3). */
  function ParticleSize(u: real): (s: real)
    ensures Unit(u) ==> 1.0 <= s < 3.0
  {
    u * 2.0 + 1.0
  }

  /** The particle pushed for an opaque mask pixel: its target is that pixel,
      it starts anywhere in the viewport, at rest, with a size in [1, 3) and a
      bright colour. */
  function NewParticle(w: int, h: int, cell: Cell, d: RandomDraw): (p: Particle)
    ensures p.baseX == cell.x && p.baseY == cell.y && p.active
    ensures p.vx == 0.0 && p.vy == 0.0
    ensures IsRandomDraw(d) ==> IsBright(p.color) && 1.0 <= p.size < 3.0
    ensures IsRandomDraw(d) && w >= 0 && h >= 0 ==> 0.0 <= p.x <= w as real && 0.0 <= p.y <= h as real
  {
    Particle(StartCoord(d.x, w), StartCoord(d.y, h), cell.x, cell.y, 0.0, 0.0,
             ParticleSize(d.size), Rgb(Channel(d.r), Channel(d.g), Channel(d.b)), true)
  }

  // ---------------------------------------------------------------------------
  // The glyph mask and the cells sampled from it
  // ---------------------------------------------------------------------------

  /** How many of 0, 4, 8, ... lie below `n`. */
  function StrideCount(n: int): (k: nat)
    ensures n <= 0 ==> k == 0
    ensures n > 0 ==> Stride * (k - 1) < n <= Stride * k
  {
    if n <= 0 then 0 else (n + 3) / 4
  }

  /** Number of pixels before row `y` of a `w`-wide image, counted row by row
      (it equals y * w, by RowStartIsProduct). */
  function RowStart(w: int, y: int): int {
    if y <= 0 then 0 else RowStart(w, y - 1) + w
  }

  lemma {:induction false} RowStartIsProduct(w: int, y: int)
    requires y >= 0
    ensures RowStart(w, y) == y * w
  {
    if y > 0 {
      RowStartIsProduct(w, y - 1);
    }
  }

  lemma {:induction false} RowStartNonNegative(w: int, y: int)
    requires w >= 0
    ensures RowStart(w, y) >= 0
  {
    if y > 0 {
      RowStartNonNegative(w, y - 1);
    }
  }

  /** Row `y` ends no later than row `h` starts, for y < h. */
  lemma {:induction false} RowStartBelow(w: int, y: int, h: int)
    requires 0 <= y < h && w >= 0
    ensures RowStart(w, y) + w <= RowStart(w, h)
    decreases h
  {
    if y < h - 1 {
      RowStartBelow(w, y, h - 1);
    }
  }

  /** Index of the alpha byte of pixel (x, y) in a w-wide RGBA buffer. */
  function AlphaIndex(w: int, x: int, y: int): int {
    (RowStart(w, y) + x) * 4 + 3
  }

  /** The alpha byte read for pixel (x, y) sits at (y*w + x)*4 + 3, and that
      lies inside the 4*w*h bytes `getImageData(0, 0, w, h)` returns. */
  lemma AlphaIndexInBuffer(w: int, h: int, x: int, y: int)
    requires 0 <= x < w && 0 <= y < h
    ensures AlphaIndex(w, x, y) == (y * w + x) * 4 + 3
    ensures 0 <= AlphaIndex(w, x, y) < 4 * w * h
  {
    RowStartIsProduct(w, y);
    RowStartIsProduct(w, h);
    RowStartNonNegative(w, y);
    RowStartBelow(w, y, h);
    assert 4 * w * h == 4 * RowStart(w, h);
  }

  predicate IsMask(pixels: seq<byte>, w: int, h: int) {
    |pixels| == 4 * w * h
  }

  /** The alpha byte of pixel (x, y) exceeds the threshold. (The index is
      always inside the buffer, by AlphaIndexInBuffer; the bound is spelled
      out so the predicate stands on its own.) */
  predicate Opaque(pixels: seq<byte>, w: int, h: int, x: int, y: int)
    requires 0 <= x < w && 0 <= y < h
  {
    var i := AlphaIndex(w, x, y);
    0 <= i < |pixels| && pixels[i] as int > AlphaThreshold
  }

  /** On an RGBA buffer of the viewport's size, `Opaque` is exactly the test
      the intro makes: the byte at offset `(y * w + x) * 4 + 3` exceeds 128. */
  lemma OpaqueIsAlphaTest(pixels: seq<byte>, w: int, h: int, x: int, y: int)
    requires 0 <= x < w && 0 <= y < h && IsMask(pixels, w, h)
    ensures 0 <= (y * w + x) * 4 + 3 < |pixels|
    ensures Opaque(pixels, w, h, x, y) <==> pixels[(y * w + x) * 4 + 3] as int > 128
  {
    AlphaIndexInBuffer(w, h, x, y);
  }

  /** `cell` is one of the sampled pixels: inside the viewport, on the stride grid. */
  predicate OnGrid(cell: Cell, w: int, h: int) {
    0 <= cell.x < w && 0 <= cell.y < h && cell.x % Stride == 0 && cell.y % Stride == 0
  }

  /** The opaque cells among the first `cols` sampled columns of row `y`,
      left to right. */
  function RowHits(pixels: seq<byte>, w: int, h: int, y: int, cols: nat): seq<Cell>
    requires 0 <= y < h && cols <= StrideCount(w)
  {
    if cols == 0 then []
    else
      var x := Stride * (cols - 1);
      RowHits(pixels, w, h, y, cols - 1) + (if Opaque(pixels, w, h, x, y) then [Cell(x, y)] else [])
  }

  /** The opaque cells among the first `rows` sampled rows, row by row. */
  function GridHits(pixels: seq<byte>, w: int, h: int, rows: nat): seq<Cell>
    requires rows <= StrideCount(h)
  {
    if rows == 0 then []
    else GridHits(pixels, w, h, rows - 1) + RowHits(pixels, w, h, Stride * (rows - 1), StrideCount(w))
  }

  /** The cells that become particles, in the order they are pushed. */
  function MaskCells(pixels: seq<byte>, w: int, h: int): seq<Cell>
  {
    GridHits(pixels, w, h, StrideCount(h))
  }

  /** Row-major order: `a` is sampled before `b`. */
  predicate Before(a: Cell, b: Cell) {
    a.y < b.y || (a.y == b.y && a.x < b.x)
  }

  predicate RowMajor(cells: seq<Cell>) {
    forall i, j :: 0 <= i < j < |cells| ==> Before(cells[i], cells[j])
  }

  /** Cells in a later row, or later in the same row, come later. */
  lemma ConcatRowMajor(first: seq<Cell>, second: seq<Cell>)
    requires RowMajor(first) && RowMajor(second)
    requires forall a, b :: a in first && b in second ==> Before(a, b)
    ensures RowMajor(first + second)
  {
    var s := first + second;
    forall i, j | 0 <= i < j < |s|
      ensures Before(s[i], s[j])
    {
      if i < |first| && j >= |first| {
        assert s[i] == first[i] && s[j] == second[j - |first|];
      } else if i >= |first| {
        assert s[i] == second[i - |first|] && s[j] == second[j - |first|];
      }
    }
  }

  /** A stride column lies inside the viewport exactly when it is one of the
      first StrideCount(w) columns. */
  lemma ColumnInRange(w: int, x: int)
    requires x % Stride == 0 && 0 <= x
    ensures x < Stride * StrideCount(w) <==> x < w
  {
  }

  /** The only multiple of the stride in [Stride * k, Stride * (k + 1)) is Stride * k. */
  lemma StrideBand(v: int, k: int)
    requires v % Stride == 0 && Stride * k <= v < Stride * (k + 1)
    ensures v == Stride * k
  {
    assert v == Stride * (v / Stride);
  }

  /** Cell `c` is among the hits of the first `cols` columns of row `y`
      exactly when it is an opaque stride column of that row below Stride * cols. */
  lemma {:induction false} RowHitsMember(pixels: seq<byte>, w: int, h: int, y: int, cols: nat, c: Cell)
    requires 0 <= y < h && cols <= StrideCount(w)
    ensures c in RowHits(pixels, w, h, y, cols) <==>
      c.y == y && 0 <= c.x < Stride * cols && c.x % Stride == 0 && Opaque(pixels, w, h, c.x, c.y)
  {
    if cols > 0 {
      RowHitsMember(pixels, w, h, y, cols - 1, c);
      if c.x % Stride == 0 && Stride * (cols - 1) <= c.x < Stride * cols {
        StrideBand(c.x, cols - 1);
      }
    }
  }

  lemma {:induction false} RowHitsAre(pixels: seq<byte>, w: int, h: int, y: int, cols: nat)
    requires 0 <= y < h && cols <= StrideCount(w)
    ensures RowMajor(RowHits(pixels, w, h, y, cols))
    ensures forall c :: c in RowHits(pixels, w, h, y, cols) <==>
      c.y == y && 0 <= c.x < Stride * cols && c.x % Stride == 0 && Opaque(pixels, w, h, c.x, c.y)
  {
    forall c ensures c in RowHits(pixels, w, h, y, cols) <==>
      c.y == y && 0 <= c.x < Stride * cols && c.x % Stride == 0 && Opaque(pixels, w, h, c.x, c.y)
    {
      RowHitsMember(pixels, w, h, y, cols, c);
    }
    if cols > 0 {
      RowHitsAre(pixels, w, h, y, cols - 1);
      var x := Stride * (cols - 1);
      var tail := if Opaque(pixels, w, h, x, y) then [Cell(x, y)] else [];
      ConcatRowMajor(RowHits(pixels, w, h, y, cols - 1), tail);
    }
  }

  /** Pixel `c` is opaque, on the grid, and in one of the first `rows` sampled rows. */
  predicate HitInRows(pixels: seq<byte>, w: int, h: int, c: Cell, rows: nat)
  {
    OnGrid(c, w, h) && c.y < Stride * rows && Opaque(pixels, w, h, c.x, c.y)
  }

  /** The hits of sampled row number `rows - 1` are the cells that are hits
      of the first `rows` rows but not of the ones before. */
  lemma RowHitsAreNewHits(pixels: seq<byte>, w: int, h: int, rows: nat, c: Cell)
    requires 0 < rows <= StrideCount(h)
    ensures c in RowHits(pixels, w, h, Stride * (rows - 1), StrideCount(w)) <==>
      HitInRows(pixels, w, h, c, rows) && !HitInRows(pixels, w, h, c, rows - 1)
  {
    var y := Stride * (rows - 1);
    RowHitsMember(pixels, w, h, y, StrideCount(w), c);
    if c.x % Stride == 0 && 0 <= c.x {
      ColumnInRange(w, c.x);
    }
    if c.y % Stride == 0 && y <= c.y < Stride * rows {
      StrideBand(c.y, rows - 1);
    }
  }

  /** Cell `c` is among the hits of the first `rows` rows exactly when it is
      an opaque on-grid pixel in one of them. */
  lemma {:induction false} GridHitsMember(pixels: seq<byte>, w: int, h: int, rows: nat, c: Cell)
    requires rows <= StrideCount(h)
    ensures c in GridHits(pixels, w, h, rows) <==> HitInRows(pixels, w, h, c, rows)
  {
    if rows > 0 {
      var done := GridHits(pixels, w, h, rows - 1);
      var row := RowHits(pixels, w, h, Stride * (rows - 1), StrideCount(w));
      assert GridHits(pixels, w, h, rows) == done + row;
      GridHitsMember(pixels, w, h, rows - 1, c);
      RowHitsAreNewHits(pixels, w, h, rows, c);
      MemberOfConcat(c, done, row, HitInRows(pixels, w, h, c, rows - 1), HitInRows(pixels, w, h, c, rows));
    }
  }

  /** `c` is in `first + second` exactly when it is a hit so far, given that
      `first` holds the earlier hits and `second` the new ones. */
  lemma MemberOfConcat(c: Cell, first: seq<Cell>, second: seq<Cell>, earlier: bool, now: bool)
    requires c in first <==> earlier
    requires c in second <==> now && !earlier
    requires earlier ==> now
    ensures c in first + second <==> now
  {
  }

  lemma GridHitsMembers(pixels: seq<byte>, w: int, h: int, rows: nat)
    requires rows <= StrideCount(h)
    ensures forall c :: c in GridHits(pixels, w, h, rows) <==> HitInRows(pixels, w, h, c, rows)
  {
    forall c ensures c in GridHits(pixels, w, h, rows) <==> HitInRows(pixels, w, h, c, rows) {
      GridHitsMember(pixels, w, h, rows, c);
    }
  }

  lemma {:induction false} GridHitsOrdered(pixels: seq<byte>, w: int, h: int, rows: nat)
    requires rows <= StrideCount(h)
    ensures RowMajor(GridHits(pixels, w, h, rows))
  {
    if rows > 0 {
      var y := Stride * (rows - 1);
      GridHitsOrdered(pixels, w, h, rows - 1);
      GridHitsMembers(pixels, w, h, rows - 1);
      RowHitsAre(pixels, w, h, y, StrideCount(w));
      ConcatRowMajor(GridHits(pixels, w, h, rows - 1), RowHits(pixels, w, h, y, StrideCount(w)));
    }
  }

  /** The sampled cells are exactly the on-grid pixels whose alpha exceeds the
      threshold, each once, in row-major order. */
  lemma MaskCellsAre(pixels: seq<byte>, w: int, h: int)
    ensures RowMajor(MaskCells(pixels, w, h))
    ensures forall c :: c in MaskCells(pixels, w, h) <==> OnGrid(c, w, h) && Opaque(pixels, w, h, c.x, c.y)
  {
    GridHitsOrdered(pixels, w, h, StrideCount(h));
    GridHitsMembers(pixels, w, h, StrideCount(h));
    forall c ensures c in MaskCells(pixels, w, h) <==> OnGrid(c, w, h) && Opaque(pixels, w, h, c.x, c.y) {
      assert OnGrid(c, w, h) ==> c.y < Stride * StrideCount(h);
    }
  }

  /** The set of opaque on-grid pixels. */
  function OpaqueCells(pixels: seq<byte>, w: int, h: int): set<Cell>
  {
    set x, y | 0 <= x < w && 0 <= y < h && x % Stride == 0 && y % Stride == 0 && Opaque(pixels, w, h, x, y)
      :: Cell(x, y)
  }

  /** A row-major sequence holds no cell twice, so its length is the size of
      its set of elements. */
  lemma {:induction false} RowMajorCardinality(cells: seq<Cell>)
    requires RowMajor(cells)
    ensures |set c | c in cells| == |cells|
  {
    if cells != [] {
      var rest := cells[1..];
      assert RowMajor(rest) by {
        forall i, j | 0 <= i < j < |rest| ensures Before(rest[i], rest[j]) {
          assert rest[i] == cells[i + 1] && rest[j] == cells[j + 1];
        }
      }
      RowMajorCardinality(rest);
      assert cells[0] !in rest by {
        forall k | 0 <= k < |rest| ensures rest[k] != cells[0] {
          assert Before(cells[0], cells[k + 1]);
        }
      }
      assert (set c | c in cells) == {cells[0]} + (set c | c in rest);
    }
  }

  /** The number of particles equals the number of on-grid pixels whose alpha
      exceeds the threshold. */
  lemma MaskCellCount(pixels: seq<byte>, w: int, h: int)
    ensures |MaskCells(pixels, w, h)| == |OpaqueCells(pixels, w, h)|
  {
    var cells := MaskCells(pixels, w, h);
    MaskCellsAre(pixels, w, h);
    RowMajorCardinality(cells);
    assert (set c | c in cells) == OpaqueCells(pixels, w, h);
  }

  /** `ps` are the particles made from `cells`, the k-th with the k-th draw. */
  predicate SpawnedFrom(ps: seq<Particle>, w: int, h: int, cells: seq<Cell>, draw: nat -> RandomDraw) {
    |ps| == |cells| && forall k {:trigger ps[k]} :: 0 <= k < |ps| ==> ps[k] == NewParticle(w, h, cells[k], draw(k))
  }

  /** Sampling an opaque pixel, the next column of row `y`, pushes its particle. */
  lemma SpawnHit(ps: seq<Particle>, pixels: seq<byte>, w: int, h: int, y: int, cols: nat,
                 before: seq<Cell>, draw: nat -> RandomDraw)
    requires 0 <= y < h && cols < StrideCount(w)
    requires Opaque(pixels, w, h, Stride * cols, y)
    requires SpawnedFrom(ps, w, h, before + RowHits(pixels, w, h, y, cols), draw)
    ensures SpawnedFrom(ps + [NewParticle(w, h, Cell(Stride * cols, y), draw(|ps|))], w, h,
                        before + RowHits(pixels, w, h, y, cols + 1), draw)
  {
    assert before + RowHits(pixels, w, h, y, cols + 1)
        == before + RowHits(pixels, w, h, y, cols) + [Cell(Stride * cols, y)];
  }

  /** Sampling a transparent pixel, the next column of row `y`, pushes nothing. */
  lemma SpawnMiss(ps: seq<Particle>, pixels: seq<byte>, w: int, h: int, y: int, cols: nat,
                  before: seq<Cell>, draw: nat -> RandomDraw)
    requires 0 <= y < h && cols < StrideCount(w)
    requires !Opaque(pixels, w, h, Stride * cols, y)
    requires SpawnedFrom(ps, w, h, before + RowHits(pixels, w, h, y, cols), draw)
    ensures SpawnedFrom(ps, w, h, before + RowHits(pixels, w, h, y, cols + 1), draw)
  {
    assert RowHits(pixels, w, h, y, cols + 1) == RowHits(pixels, w, h, y, cols);
  }

  /** A finished row joins the rows before it. */
  lemma SpawnRowDone(ps: seq<Particle>, pixels: seq<byte>, w: int, h: int, rows: nat, draw: nat -> RandomDraw)
    requires rows < StrideCount(h)
    requires SpawnedFrom(ps, w, h, GridHits(pixels, w, h, rows) + RowHits(pixels, w, h, Stride * rows, StrideCount(w)), draw)
    ensures SpawnedFrom(ps, w, h, GridHits(pixels, w, h, rows + 1), draw)
  {
  }

  /** The mask pixel a particle returns to. */
  function Target(p: Particle): Cell {
    Cell(p.baseX, p.baseY)
  }

  /** What `initParticles` builds from a mask: one particle per on-grid pixel
      whose alpha exceeds the threshold, with that pixel as its target (so
      both coordinates are multiples of 4 inside the viewport), in row-major
      order, each bright and of size in [1, 3) when the draws are. */
  lemma SpawnedParticlesAre(ps: seq<Particle>, pixels: seq<byte>, w: int, h: int, draw: nat -> RandomDraw)
    requires SpawnedFrom(ps, w, h, MaskCells(pixels, w, h), draw)
    ensures |ps| == |OpaqueCells(pixels, w, h)|
    ensures forall k :: 0 <= k < |ps| ==>
      OnGrid(Target(ps[k]), w, h) && Opaque(pixels, w, h, ps[k].baseX, ps[k].baseY)
    ensures forall i, j :: 0 <= i < j < |ps| ==> Before(Target(ps[i]), Target(ps[j]))
    ensures forall k :: 0 <= k < |ps| && IsRandomDraw(draw(k)) ==>
      IsBright(ps[k].color) && 1.0 <= ps[k].size < 3.0
  {
    var cells := MaskCells(pixels, w, h);
    MaskCellCount(pixels, w, h);
    MaskCellsAre(pixels, w, h);
    forall k | 0 <= k < |ps|
      ensures OnGrid(Target(ps[k]), w, h) && Opaque(pixels, w, h, ps[k].baseX, ps[k].baseY)
    {
      assert Target(ps[k]) == cells[k];
      assert cells[k] in cells;
    }
    forall i, j | 0 <= i < j < |ps|
      ensures Before(Target(ps[i]), Target(ps[j]))
    {
      assert Target(ps[i]) == cells[i] && Target(ps[j]) == cells[j];
    }
  }

  /** What `getImageData` gave: the RGBA bytes, or an exception. */
  datatype ImageRead = ImageData(pixels: seq<byte>) | ReadFailed

  // ---------------------------------------------------------------------------
  // Trails
  // ---------------------------------------------------------------------------

  /** One frame's trail update: push the new position, then drop the oldest
      entry if the trail is now over its limit. */
  function PushBounded(history: seq<Point>, p: Point, limit: nat): (r: seq<Point>)
    ensures |r| == if |history| < limit then |history| + 1 else |history|
    ensures r == (history + [p])[|history| + 1 - |r|..]
  {
    var pushed := history + [p];
    if |pushed| > limit then pushed[1..] else pushed
  }

  /** A trail holding the last `limit` positions still does so after one more
      push-then-shift step. */
  lemma PushBoundedKeepsLastN(visited: seq<Point>, p: Point, limit: nat)
    ensures PushBounded(LastN(visited, limit), p, limit) == LastN(visited + [p], limit)
  {
    var t := visited + [p];
    var pushed := LastN(visited, limit) + [p];
    if |visited| >= limit {
      assert pushed[1..] == t[|t| - limit..];
    }
  }

  /** Starting within its limit, a trail stays within it. */
  lemma PushBoundedWithinLimit(history: seq<Point>, p: Point, limit: nat)
    requires |history| <= limit
    ensures |PushBounded(history, p, limit)| <= limit
    ensures limit > 0 ==> PushBounded(history, p, limit)[|PushBounded(history, p, limit)| - 1] == p
  {
  }

  /** The trail after pushing `ps` one frame at a time onto an empty one. */
  function Trail(ps: seq<Point>, limit: nat): seq<Point> {
    if ps == [] then [] else PushBounded(Trail(ps[..|ps| - 1], limit), ps[|ps| - 1], limit)
  }

  /** After k pushes the trail holds the last min(k, limit) positions, in the
      order they were pushed, the newest last. */
  lemma {:induction false} TrailIsLastN(ps: seq<Point>, limit: nat)
    ensures Trail(ps, limit) == LastN(ps, limit)
    ensures |Trail(ps, limit)| == Min(|ps|, limit)
  {
    if ps != [] {
      var prefix, last := ps[..|ps| - 1], ps[|ps| - 1];
      assert prefix + [last] == ps;
      TrailIsLastN(prefix, limit);
      PushBoundedKeepsLastN(prefix, last, limit);
    }
  }

  /** A moving point with a bounded trail of its recent positions. */
  class Agent {
    var position: Point
    const angle: real
    const speed: real
    const radiusX: real
    const radiusY: real
    const color: Color
    var history: seq<Point>
    const historyLimit: nat
    /** Every position the agent has been moved to, oldest first. */
    ghost var visited: seq<Point>

    /** The trail is the last `historyLimit` positions, oldest first. */
    ghost predicate Valid()
      reads this
    {
      historyLimit > 0 && history == LastN(visited, historyLimit)
    }

    constructor (angle: real, radiusX: real, radiusY: real, color: Color, start: Point)
      ensures Valid()
      ensures this.position == start && this.angle == angle && this.speed == AgentSpeed
      ensures this.radiusX == radiusX && this.radiusY == radiusY && this.color == color
      ensures history == [] && visited == [] && historyLimit == HistoryLimit
    {
      this.position := start;
      this.angle := angle;
      this.speed := AgentSpeed;
      this.radiusX := radiusX;
      this.radiusY := radiusY;
      this.color := color;
      this.history := [];
      this.historyLimit := HistoryLimit;
      this.visited := [];
      assert LastN<Point>([], HistoryLimit) == [];
    }

    /** Move to the position this frame's path gives and record it. */
    method MoveTo(p: Point)
      requires Valid()
      modifies this
      ensures Valid()
      ensures position == p && visited == old(visited) + [p]
      ensures history == PushBounded(old(history), p, historyLimit)
      ensures 0 < |history| <= historyLimit && history[|history| - 1] == p
    {
      position := p;
      PushBoundedKeepsLastN(visited, p, historyLimit);
      history := history + [p];
      if |history| > historyLimit {
        history := history[1..];
      }
      visited := visited + [p];
    }
  }

  // ---------------------------------------------------------------------------
  // The agent-colour rule
  // ---------------------------------------------------------------------------

  datatype Fill = Fill(color: Color, glow: nat)

  /** Agent `j` is in range and no agent after it in list order is. */
  predicate LastInRange(inRange: seq<bool>, j: int) {
    0 <= j < |inRange| && inRange[j] && forall k :: j < k < |inRange| ==> !inRange[k]
  }

  predicate AnyInRange(inRange: seq<bool>) {
    exists j :: 0 <= j < |inRange| && inRange[j]
  }

  /** The colour a particle is filled with: the colour of the last agent in
      range, with a glow; otherwise its own colour and no glow. */
  predicate FillRule(own: Color, agentColors: seq<Color>, inRange: seq<bool>, fill: Fill)
    requires |agentColors| == |inRange|
  {
    if AnyInRange(inRange) then
      fill.glow == AgentGlow && exists j :: 0 <= j < |inRange| && LastInRange(inRange, j) && fill.color == agentColors[j]
    else
      fill.color == own && fill.glow == 0
  }

  /** The rule leaves no choice: two fills that both follow it are equal. */
  lemma FillRuleDeterminesFill(own: Color, agentColors: seq<Color>, inRange: seq<bool>, f1: Fill, f2: Fill)
    requires |agentColors| == |inRange|
    requires FillRule(own, agentColors, inRange, f1) && FillRule(own, agentColors, inRange, f2)
    ensures f1 == f2
  {
    if AnyInRange(inRange) {
      var j1 :| 0 <= j1 < |inRange| && LastInRange(inRange, j1) && f1.color == agentColors[j1];
      var j2 :| 0 <= j2 < |inRange| && LastInRange(inRange, j2) && f2.color == agentColors[j2];
      assert j1 == j2;
    }
  }

  /** The animator of one viewport size: its text particles and two agents. */
  class ParticleField {
    const width: int
    const height: int
    var particles: seq<Particle>
    const agents: seq<Agent>

    ghost predicate Valid()
      reads this, agents
    {
      |agents| == 2 && agents[0] != agents[1] && agents[0].Valid() && agents[1].Valid()
    }

    function AgentColors(): (cs: seq<Color>)
      ensures |cs| == |agents|
      ensures forall i :: 0 <= i < |agents| ==> cs[i] == agents[i].color
    {
      seq(|agents|, i requires 0 <= i < |agents| => agents[i].color)
    }

    /** Set up for a `w` by `h` viewport: no particles yet, and the two agents
        on opposite sides of the same path with empty trails. */
    constructor (w: int, h: int)
      ensures width == w && height == h && particles == []
      ensures Valid() && fresh(agents[0]) && fresh(agents[1])
      ensures agents[0].angle == 0.0 && agents[1].angle == Pi
      ensures agents[0].color == Hex("#00C2FF") && agents[1].color == Hex("#FF8F00")
      ensures forall i :: 0 <= i < 2 ==>
        && agents[i].position == Point(0.0, h as real / 2.0)
        && agents[i].speed == AgentSpeed
        && agents[i].radiusX == w as real * 0.4
        && agents[i].radiusY == h as real * 0.25
        && agents[i].history == [] && agents[i].historyLimit == HistoryLimit
    {
      width := w;
      height := h;
      particles := [];
      var start := Point(0.0, h as real / 2.0);
      var blue := new Agent(0.0, w as real * 0.4, h as real * 0.25, Hex("#00C2FF"), start);
      var orange := new Agent(Pi, w as real * 0.4, h as real * 0.25, Hex("#FF8F00"), start);
      agents := [blue, orange];
    }

    /** `initParticles`: rebuild the text particles from the rendered mask.
        Nothing happens for an empty viewport; a failed pixel read leaves no
        particles; otherwise there is one particle per opaque sampled pixel,
        in row-major order, the k-th made with the k-th random draw. */
    method InitParticles(read: ImageRead, draw: nat -> RandomDraw)
      requires Valid()
      requires read.ImageData? && width > 0 && height > 0 ==> IsMask(read.pixels, width, height)
      modifies this`particles
      ensures Valid()
      ensures width <= 0 || height <= 0 ==> particles == old(particles)
      ensures width > 0 && height > 0 && read.ReadFailed? ==> particles == []
      ensures width > 0 && height > 0 && read.ImageData? ==>
        SpawnedFrom(particles, width, height, MaskCells(read.pixels, width, height), draw)
    {
      if width <= 0 || height <= 0 {
        return;
      }
      particles := [];
      if read.ReadFailed? {
        return;
      }
      var pixels := read.pixels;
      var spawned: seq<Particle> := [];
      var y := 0;
      ghost var row: nat := 0;
      while y < height
        invariant row <= StrideCount(height) && y == Stride * row
        invariant SpawnedFrom(spawned, width, height, GridHits(pixels, width, height, row), draw)
      {
        ghost var done := GridHits(pixels, width, height, row);
        assert done + RowHits(pixels, width, height, y, 0) == done;
        var x := 0;
        ghost var col: nat := 0;
        while x < width
          invariant col <= StrideCount(width) && x == Stride * col
          invariant SpawnedFrom(spawned, width, height, done + RowHits(pixels, width, height, y, col), draw)
        {
          AlphaIndexInBuffer(width, height, x, y);
          var index := (y * width + x) * 4;
          assert index + 3 == AlphaIndex(width, x, y);
          if pixels[index + 3] as int > AlphaThreshold {
            SpawnHit(spawned, pixels, width, height, y, col, done, draw);
            spawned := spawned + [NewParticle(width, height, Cell(x, y), draw(|spawned|))];
          } else {
            SpawnMiss(spawned, pixels, width, height, y, col, done, draw);
          }
          x, col := x + Stride, col + 1;
        }
        SpawnRowDone(spawned, pixels, width, height, row, draw);
        y, row := y + Stride, row + 1;
      }
      particles := spawned;
    }

    /** Advance every agent to this frame's position on its path, in list
        order, updating each trail. */
    method MoveAgents(positions: seq<Point>)
      requires Valid() && |positions| == |agents|
      modifies agents
      ensures Valid()
      ensures forall i :: 0 <= i < |agents| ==>
        && agents[i].position == positions[i]
        && agents[i].visited == old(agents[i].visited) + [positions[i]]
        && agents[i].history == PushBounded(old(agents[i].history), positions[i], agents[i].historyLimit)
    {
      agents[0].MoveTo(positions[0]);
      agents[1].MoveTo(positions[1]);
    }

    /** The fill of one particle, given which agents it is within range of. */
    method ParticleFill(p: Particle, inRange: seq<bool>) returns (fill: Fill)
      requires |inRange| == |agents|
      ensures FillRule(p.color, AgentColors(), inRange, fill)
    {
      var closeToAgent := false;
      var activeColor := Hex("#ffffff");
      var i := 0;
      while i < |agents|
        invariant 0 <= i <= |agents|
        invariant closeToAgent <==> exists j :: 0 <= j < i && inRange[j]
        invariant closeToAgent ==> exists j :: LastInRange(inRange[..i], j) && activeColor == agents[j].color
      {
        if inRange[i] {
          closeToAgent := true;
          activeColor := agents[i].color;
          assert LastInRange(inRange[..i + 1], i);
        } else if closeToAgent {
          var j :| LastInRange(inRange[..i], j) && activeColor == agents[j].color;
          assert LastInRange(inRange[..i + 1], j);
        }
        i := i + 1;
      }
      assert inRange[..i] == inRange;
      if closeToAgent {
        fill := Fill(activeColor, AgentGlow);
      } else {
        fill := Fill(p.color, 0);
      }
    }

    /** The fills of all particles in one frame, in particle order. */
    method PaintParticles(inRange: seq<seq<bool>>) returns (fills: seq<Fill>)
      requires |inRange| == |particles|
      requires forall k :: 0 <= k < |inRange| ==> |inRange[k]| == |agents|
      ensures |fills| == |particles|
      ensures forall k :: 0 <= k < |fills| ==> FillRule(particles[k].color, AgentColors(), inRange[k], fills[k])
    {
      fills := [];
      var k := 0;
      while k < |particles|
        invariant 0 <= k <= |particles| && |fills| == k
        invariant forall m :: 0 <= m < k ==> FillRule(particles[m].color, AgentColors(), inRange[m], fills[m])
      {
        var f := ParticleFill(particles[k], inRange[k]);
        fills := fills + [f];
        k := k + 1;
      }
    }
  }
}
