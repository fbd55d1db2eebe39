/** How the viewer turns a server record and its loaded image into a hopping
    rabbit (public/zoo.js: makeRabbitFromImage, spawnFrontRowFromServer,
    spawnRandomRowFromServer). The image itself is not modelled, only its
    size; every `random()` call is a unit draw in `SpawnDraws`. */
module ZooSpawn {
  import opened Numeric
  import opened Protocol
  import opened ZooRows
  import opened ZooHop

  const GLOBAL_SCALE_MULT: real := 0.5
  const HEAD_RATIO_BASE: real := 0.25
  const HEAD_RATIO_JITTER: real := 0.05
  const OVERLAP_RATIO: real := 0.04
  /** Probability that a rabbit spawned by a sync starts going forward. */
  const P_SYNC_FORWARD: real := 0.6

  /** Width and height in pixels of a loaded image. */
  datatype ImageSize = ImageSize(width: nat, height: nat)

  /** The unit draws a spawn consumes. `scaleJitter` is used by front-row
      spawns only, `row`, `x`, `state` and `idle` by sync spawns only. */
  datatype SpawnDraws = SpawnDraws(
    headJitter: real, period: real, phase: real, hops: real,
    scaleJitter: real, row: real, x: real, state: real, idle: real)
  {
    predicate Valid() {
      && Unit(headJitter) && Unit(period) && Unit(phase) && Unit(hops)
      && Unit(scaleJitter) && Unit(row) && Unit(x) && Unit(state) && Unit(idle)
    }
  }

  /** `constrain(HEAD_RATIO_BASE + random(-JITTER, JITTER), 0.25, 0.5)`. */
  function HeadRatio(u: real): (ratio: real)
    ensures 0.25 <= ratio <= 0.5
  {
    Constrain(HEAD_RATIO_BASE + Random(-HEAD_RATIO_JITTER, HEAD_RATIO_JITTER, u), 0.25, 0.5)
  }

  /** The head/body slicing of makeRabbitFromImage for an image `imgH`
      pixels high (zoo.js:213-222). */
  function MakeCut(imgH: nat, u: real): Cut
  {
    SliceAt(imgH, Floor(imgH as real * HeadRatio(u)), Round(imgH as real * OVERLAP_RATIO))
  }

  /** The slices for a raw head cut `rawCut` and a raw overlap `rawOverlap`,
      each raised to at least one pixel. */
  function SliceAt(imgH: nat, rawCut: int, rawOverlap: int): Cut
  {
    var headCut := IMax(1, rawCut);
    var overlap := IMax(1, rawOverlap);
    var bodyStart := IMax(0, headCut - overlap);
    Cut(headCut, overlap, bodyStart, IMin(imgH, headCut + overlap), imgH - bodyStart)
  }

  /** The two slices cover the whole image and overlap in a band of at
      least one row around the seam: the head slice is rows [0, headH), the
      body slice rows [bodyStart, imgH), and bodyStart < headH. The seam
      row headCutPx lies in both slices and in the top half of the image. */
  lemma CutCoversImage(imgH: nat, u: real)
    requires imgH >= 1
    ensures SlicesCover(imgH, MakeCut(imgH, u))
  {
    RawCutInTopHalf(imgH, u);
    SliceArithmetic(imgH, Floor(imgH as real * HeadRatio(u)), Round(imgH as real * OVERLAP_RATIO));
  }

  lemma RawCutInTopHalf(imgH: nat, u: real)
    ensures 0 <= Floor(imgH as real * HeadRatio(u))
    ensures 2 * Floor(imgH as real * HeadRatio(u)) <= imgH
  {
    var h := imgH as real;
    MulMono(h, HeadRatio(u), 0.5);
    FloorOfHalf(imgH, h * HeadRatio(u));
  }

  lemma FloorOfHalf(n: nat, p: real)
    requires 0.0 <= p <= n as real * 0.5
    ensures 0 <= Floor(p) && 2 * Floor(p) <= n
  {
  }

  predicate SlicesCover(imgH: nat, c: Cut) {
    && 1 <= c.headCutPx && (c.headCutPx == 1 || 2 * c.headCutPx <= imgH)
    && c.overlapPx >= 1
    && 0 <= c.bodyStart <= c.headCutPx <= c.headH <= imgH
    && c.bodyStart < c.headH
    && c.bodyStart + c.bodyH == imgH
  }

  lemma SliceArithmetic(imgH: nat, rawCut: int, rawOverlap: int)
    requires imgH >= 1 && 0 <= rawCut && 2 * rawCut <= imgH
    ensures SlicesCover(imgH, SliceAt(imgH, rawCut, rawOverlap))
  {
  }

  /** p5's `floor(random(10, 20))`: the length of a newcomer's first burst. */
  function EntryBurst(u: real): (n: int)
    requires Unit(u)
    ensures 10 <= n <= 19
  {
    Floor(Random(10.0, 20.0, u))
  }

  /** `random(0, period)`: a random phase within the first hop. */
  function Phase(period: real, u: real): (t: real)
    requires period > 0.0 && Unit(u)
    ensures 0.0 <= t < period
  {
    PhaseBounds(period, u);
    Random(0.0, period, u)
  }

  lemma PhaseBounds(period: real, u: real)
    requires period > 0.0 && Unit(u)
    ensures 0.0 <= Random(0.0, period, u) < period
  {
    MulMono(period, 0.0, u);
    MulStrict(period, u, 1.0);
  }

  /** The rabbit record of spawnFrontRowFromServer (zoo.js:142-170): row 0,
      entering from the far edge of the direction it walks, going forward
      for ten to nineteen hops at a random scale jitter. `stateUntil`, null
      in the source, is only read when idle and is 0 here. */
  function FrontSpawn(data: Rabbit, d: SpawnDraws): HopRec
    requires d.Valid()
  {
    var row := BuildRowDefs()[0];
    var dx := RowDx(0);
    var period := HopPeriod(d.period);
    var x := if row.dir == -1 then ENTER_RIGHT else ENTER_LEFT;
    HopRec(
      0, row.yNorm, row.dir, x,
      data.scale * GLOBAL_SCALE_MULT * row.scaleMul * Random(0.5, 1.0, d.scaleJitter),
      Forward, EntryBurst(d.hops), 0.0,
      Cycle(Phase(period, d.phase), period, row.hopH, x, x + row.dir as real * dx),
      dx)
  }

  /** A newcomer enters the front row from off-screen right (row 0 walks
      leftwards), going forward with its first hop from its entry point one
      stride along its direction, and keeps the record invariant. */
  lemma FrontSpawnPlacement(data: Rabbit, d: SpawnDraws)
    requires d.Valid()
    ensures var r := FrontSpawn(data, d);
      && HopInv(r)
      && r.rowIdx == 0 && r.dir == -1 && r.yNorm == FRONT_Y
      && r.xNorm == ENTER_RIGHT
      && r.state == Forward && 10 <= r.hopsLeft <= 19
      && r.hop.x0 == r.xNorm && r.hop.x1 == r.xNorm + r.dir as real * r.dxPerHop
      && r.dxPerHop == FRONT_DX_PER_HOP
      && 0.0 <= r.hop.t < r.hop.period
  {
    RowShape(0);
  }

  /** A newcomer's scale is between a quarter and a half of the server's
      scale: GLOBAL_SCALE_MULT times the front row's multiplier 1 times a
      jitter in [0.5, 1). */
  lemma FrontSpawnScale(data: Rabbit, d: SpawnDraws)
    requires d.Valid() && data.scale > 0.0
    ensures 0.25 * data.scale <= FrontSpawn(data, d).scale < 0.5 * data.scale
  {
    RowShape(0);
    var j := Random(0.5, 1.0, d.scaleJitter);
    assert 0.5 <= j < 1.0;
    assert FrontSpawn(data, d).scale == data.scale * 0.5 * j;
    MulMono(data.scale, 0.5, j);
    MulStrict(data.scale, j, 1.0);
  }

  /** The row a sync spawn lands in: `floor(random(0, ROW_COUNT))`. */
  function RandomRow(u: real): (i: nat)
    requires Unit(u)
    ensures i < ROW_COUNT
  {
    Floor(Random(0.0, ROW_COUNT as real, u))
  }

  /** The rabbit record of spawnRandomRowFromServer (zoo.js:180-207):
      a random row and position, the row's scale with no jitter, a burst of
      one or two hops, forward with probability 0.6. */
  function RandomSpawn(data: Rabbit, d: SpawnDraws, now: real): HopRec
    requires d.Valid()
  {
    var rowIdx := RandomRow(d.row);
    var row := BuildRowDefs()[rowIdx];
    var dx := RowDx(rowIdx);
    var period := HopPeriod(d.period);
    var x := Random(0.1, 0.9, d.x);
    var state := if d.state < P_SYNC_FORWARD then Forward else InPlace;
    HopRec(
      rowIdx, row.yNorm, row.dir, x,
      data.scale * GLOBAL_SCALE_MULT * row.scaleMul,
      state, BurstLength(d.hops), IdleDeadline(now, d.idle),
      Cycle(Phase(period, d.phase), period, row.hopH, x,
            if state == Forward then x + row.dir as real * dx else x),
      dx)
  }

  /** A rabbit restored by a sync sits on one of the rows, strictly inside
      the screen, keeps the record invariant, and goes forward exactly when
      the draw is below 0.6. */
  lemma RandomSpawnPlacement(data: Rabbit, d: SpawnDraws, now: real)
    requires d.Valid()
    ensures var r := RandomSpawn(data, d, now);
      && HopInv(r)
      && 0 <= r.rowIdx < ROW_COUNT
      && 0.1 <= r.xNorm < 0.9
      && (r.state == Forward <==> d.state < P_SYNC_FORWARD)
      && r.state != Idle
      && (r.hopsLeft == 1 || r.hopsLeft == 2)
      && r.hop.x0 == r.xNorm
      && 0.0 <= r.hop.t < r.hop.period
      && now + IDLE_MIN_MS <= r.stateUntil < now + IDLE_MAX_MS
      && r.scale == data.scale * GLOBAL_SCALE_MULT * Pow(ROW_SCALE_DECAY, r.rowIdx)
  {
  }
}
