/** The per-frame hop state machine of a viewer rabbit (public/zoo.js,
    `updateRabbitHopOnly`, without the cosmetic ear timers). Every `random()`
    the update draws and the `millis()` reading are parameters, so one tick
    is the deterministic function `HopStep`; the class `Hopper` is the
    mutable record the viewer keeps, and its `Update` method performs the
    tick field by field as the source does. */
module ZooHop {
  import opened Numeric
  import opened ZooRows

  const HOP_PERIOD_MIN: real := 0.4
  const HOP_PERIOD_MAX: real := 0.8
  const FRONT_DX_PER_HOP: real := 0.02
  const DX_DECAY_PER_ROW: real := 0.86
  const P_INPLACE_AFTER_HOP: real := 0.001
  const P_IDLE_AFTER_HOP: real := 0.95
  const IDLE_MIN_MS: real := 3000.0
  const IDLE_MAX_MS: real := 5000.0
  /** Probability that an idle rabbit wakes into a forward burst. */
  const P_WAKE_FORWARD: real := 0.55
  /** Probability that a promoted rabbit starts its new row going forward. */
  const P_PROMOTE_FORWARD: real := 0.7
  /** A rabbit past these horizontal positions has left its row. */
  const EXIT_LEFT: real := -0.12
  const EXIT_RIGHT: real := 1.12
  /** Entry positions just outside the right and left edges. */
  const ENTER_RIGHT: real := 1.08
  const ENTER_LEFT: real := -0.08

  datatype Motion = Forward | InPlace | Idle

  /** The record's `hop` object: time into the current hop, its length in
      seconds, its vertical height ratio and its start and target x. */
  datatype Cycle = Cycle(t: real, period: real, heightRatio: real, x0: real, x1: real)

  /** The fields of a viewer rabbit that the state machine reads or writes. */
  datatype HopRec = HopRec(
    rowIdx: int,
    yNorm: real,
    dir: int,
    xNorm: real,
    scale: real,
    state: Motion,
    hopsLeft: int,
    stateUntil: real,
    hop: Cycle,
    dxPerHop: real)

  /** The head/body slicing computed once per image by makeRabbitFromImage. */
  datatype Cut = Cut(headCutPx: int, overlapPx: int, bodyStart: int, headH: int, bodyH: int)

  /** The unit draws one tick may consume, one per `random()` call site. */
  datatype TickDraws = TickDraws(
    wakeState: real, wakeHops: real, wakePeriod: real,
    landChoice: real, landIdle: real, landHops: real, landPeriod: real,
    nextPeriod: real,
    promoteState: real, promoteHops: real, promotePeriod: real)
  {
    predicate Valid() {
      && Unit(wakeState) && Unit(wakeHops) && Unit(wakePeriod)
      && Unit(landChoice) && Unit(landIdle) && Unit(landHops) && Unit(landPeriod)
      && Unit(nextPeriod)
      && Unit(promoteState) && Unit(promoteHops) && Unit(promotePeriod)
    }
  }

  /** Horizontal advance of one forward hop in row `i`. */
  function RowDx(i: nat): (dx: real)
    ensures 0.0 < dx <= FRONT_DX_PER_HOP
  {
    PowAtMostOne(DX_DECAY_PER_ROW, i);
    FRONT_DX_PER_HOP * Pow(DX_DECAY_PER_ROW, i)
  }

  /** `random(HOP_PERIOD_RANGE[0], HOP_PERIOD_RANGE[1])`. */
  function HopPeriod(u: real): (p: real)
    requires Unit(u)
    ensures HOP_PERIOD_MIN <= p < HOP_PERIOD_MAX
  {
    Random(HOP_PERIOD_MIN, HOP_PERIOD_MAX, u)
  }

  /** `floor(random(1, 3))`: a burst of one or two hops. */
  function BurstLength(u: real): (n: int)
    requires Unit(u)
    ensures n == 1 || n == 2
  {
    Floor(Random(1.0, 3.0, u))
  }

  /** `now + random(IDLE_RANGE_S[0]*1000, IDLE_RANGE_S[1]*1000)`. */
  function IdleDeadline(now: real, u: real): (until: real)
    requires Unit(u)
    ensures now + IDLE_MIN_MS <= until < now + IDLE_MAX_MS
  {
    now + Random(IDLE_MIN_MS, IDLE_MAX_MS, u)
  }

  /** What every record the viewer keeps satisfies between frames: its row
      is one of the rows, its direction, height, hop height and stride are
      the row's, its hop period was drawn from the period range, a moving
      record has a hop left, and the hop target matches the motion. */
  ghost predicate HopInv(r: HopRec) {
    && 0 <= r.rowIdx < ROW_COUNT
    && r.dir == RowAt(r.rowIdx).dir
    && r.yNorm == RowAt(r.rowIdx).yNorm
    && r.hop.heightRatio == RowAt(r.rowIdx).hopH
    && r.dxPerHop == RowDx(r.rowIdx)
    && HOP_PERIOD_MIN <= r.hop.period < HOP_PERIOD_MAX
    && 0.0 <= r.hop.t
    && (r.state != Idle ==> r.hopsLeft >= 1)
    && (r.state == Forward ==> r.hop.x1 == r.hop.x0 + r.dir as real * r.dxPerHop)
    && (r.state == InPlace ==> r.hop.x1 == r.hop.x0)
  }

  /** Start a new hop of length `period` from the current position. */
  function Arm(r: HopRec, period: real): (a: HopRec)
    ensures a.hop.t == 0.0 && a.hop.period == period && a.hop.x0 == r.xNorm
    ensures a.hop.x1 == if r.state == Forward then r.xNorm + r.dir as real * r.dxPerHop else r.xNorm
    ensures a.hop.heightRatio == r.hop.heightRatio
    ensures a == r.(hop := a.hop)
  {
    r.(hop := r.hop.(
      period := period,
      t := 0.0,
      x0 := r.xNorm,
      x1 := if r.state == Forward then r.xNorm + r.dir as real * r.dxPerHop else r.xNorm))
  }

  /** An idle record whose deadline has passed starts a burst of one or two
      hops, forward with probability P_WAKE_FORWARD (zoo.js:262-269). */
  function WakeUp(r: HopRec, now: real, d: TickDraws): HopRec
    requires d.Valid()
  {
    if r.state == Idle && now >= r.stateUntil then
      Arm(r.(state := if d.wakeState < P_WAKE_FORWARD then Forward else InPlace,
             hopsLeft := BurstLength(d.wakeHops)),
          HopPeriod(d.wakePeriod))
    else
      r
  }

  /** `constrain(t / period, 0, 1)`: how far through its hop a record is. */
  function Progress(t: real, period: real): real
    requires period > 0.0
  {
    Constrain(t / period, 0.0, 1.0)
  }

  /** The smoothstep easing `p * p * (3 - 2 * p)`. */
  function Smoothstep(p: real): real
  {
    p * p * (3.0 - 2.0 * p)
  }

  /** The end of a hop (zoo.js:282-316): snap to the target, count the hop,
      and either go on with the burst or choose idle, in-place or forward. */
  function Land(r: HopRec, now: real, d: TickDraws): HopRec
    requires d.Valid()
  {
    var landed := r.(xNorm := r.hop.x1, hop := r.hop.(t := r.hop.t - r.hop.period), hopsLeft := r.hopsLeft - 1);
    if landed.hopsLeft <= 0 then
      if d.landChoice < P_IDLE_AFTER_HOP then
        landed.(state := Idle, stateUntil := IdleDeadline(now, d.landIdle))
      else if d.landChoice < P_IDLE_AFTER_HOP + P_INPLACE_AFTER_HOP then
        Arm(landed.(state := InPlace, hopsLeft := BurstLength(d.landHops)), HopPeriod(d.landPeriod))
      else
        Arm(landed.(state := Forward, hopsLeft := BurstLength(d.landHops)), HopPeriod(d.landPeriod))
    else
      Arm(landed, HopPeriod(d.nextPeriod))
  }

  /** Advance a moving record by `dt` seconds (zoo.js:272-317). */
  function Advance(r: HopRec, dt: real, now: real, d: TickDraws): (a: HopRec)
    requires r.hop.period > 0.0 && d.Valid()
    ensures a.rowIdx == r.rowIdx && a.dir == r.dir && a.scale == r.scale
  {
    if r.state == Idle then r
    else
      var t := r.hop.t + dt;
      var s := Smoothstep(Progress(t, r.hop.period));
      var moved := r.(
        xNorm := if r.state == Forward then Lerp(r.hop.x0, r.hop.x1, s) else r.hop.x0,
        hop := r.hop.(t := t));
      if t >= r.hop.period then Land(moved, now, d) else moved
  }

  /** The row-exit test of zoo.js:320-321. */
  predicate OffRow(r: HopRec) {
    (r.dir == -1 && r.xNorm < EXIT_LEFT) || (r.dir == 1 && r.xNorm > EXIT_RIGHT)
  }

  /** Move a record that left its row to the next row back (zoo.js:328-345). */
  function Promote(r: HopRec, d: TickDraws): HopRec
    requires 0 <= r.rowIdx && r.rowIdx + 1 < ROW_COUNT && d.Valid()
  {
    Arm(Relocate(r, d), HopPeriod(d.promotePeriod))
  }

  /** The record moved to the entry point of the next row back, before
      its hop cycle is re-armed. */
  function Relocate(r: HopRec, d: TickDraws): HopRec
    requires 0 <= r.rowIdx && r.rowIdx + 1 < ROW_COUNT && d.Valid()
  {
    var next := r.rowIdx + 1;
    var def := BuildRowDefs()[next];
    r.(
      rowIdx := next,
      yNorm := def.yNorm,
      dir := def.dir,
      hop := r.hop.(heightRatio := def.hopH),
      scale := r.scale * ROW_SCALE_DECAY,
      xNorm := if def.dir == -1 then ENTER_RIGHT else ENTER_LEFT,
      dxPerHop := RowDx(next),
      state := if d.promoteState < P_PROMOTE_FORWARD then Forward else InPlace,
      hopsLeft := BurstLength(d.promoteHops))
  }

  /** The result of one tick: the new record, and whether it left the last
      row (the viewer then asks the server to remove it and drops it). */
  datatype Outcome = Outcome(rec: HopRec, exited: bool)

  /** Wake, advance, then handle a row exit. */
  function Moved(r: HopRec, dt: real, now: real, d: TickDraws): HopRec
    requires r.hop.period > 0.0 && d.Valid()
  {
    WakeUpKeepsPeriod(r, now, d);
    Advance(WakeUp(r, now, d), dt, now, d)
  }

  /** One call of updateRabbitHopOnly. */
  function HopStep(r: HopRec, dt: real, now: real, d: TickDraws): Outcome
    requires 0 <= r.rowIdx && r.hop.period > 0.0 && d.Valid()
  {
    var m := Moved(r, dt, now, d);
    if !OffRow(m) then Outcome(m, false)
    else if m.rowIdx + 1 >= ROW_COUNT then Outcome(m, true)
    else Outcome(Promote(m, d), false)
  }

  lemma WakeUpKeepsPeriod(r: HopRec, now: real, d: TickDraws)
    requires r.hop.period > 0.0 && d.Valid()
    ensures WakeUp(r, now, d).hop.period > 0.0
    ensures WakeUp(r, now, d).rowIdx == r.rowIdx
  {
  }

  /** Waking up (zoo.js:262-269): a due idle record gets a burst of one or
      two hops that starts where it stands, forward exactly when the draw is
      below P_WAKE_FORWARD; any other record is left alone. */
  lemma WakeUpSpec(r: HopRec, now: real, d: TickDraws)
    requires d.Valid()
    ensures var w := WakeUp(r, now, d);
      if r.state == Idle && now >= r.stateUntil then
        && (w.state == Forward <==> d.wakeState < P_WAKE_FORWARD)
        && w.state != Idle
        && (w.hopsLeft == 1 || w.hopsLeft == 2)
        && w.hop.t == 0.0 && w.hop.x0 == r.xNorm
        && HOP_PERIOD_MIN <= w.hop.period < HOP_PERIOD_MAX
        && w.xNorm == r.xNorm && w.rowIdx == r.rowIdx
      else
        w == r
  {
  }

  /** smoothstep maps [0, 1] into [0, 1]. */
  lemma SmoothstepBounds(p: real)
    requires 0.0 <= p <= 1.0
    ensures 0.0 <= Smoothstep(p) <= 1.0
  {
    SquareAtMost(p);
    var q := p * p;
    MulMono(q, 3.0 - 2.0 * p, 3.0);
    assert Smoothstep(p) == q * (3.0 - 2.0 * p);
    // 1 - smoothstep(p) == (1 - p)^2 (1 + 2p)
    var e := 1.0 - p;
    SquareAtMost(e);
    var f := e * e;
    MulMono(f, 1.0 + 2.0 * p, 3.0);
    assert 1.0 - Smoothstep(p) == f * (1.0 + 2.0 * p);
  }

  lemma SquareAtMost(p: real)
    requires 0.0 <= p <= 1.0
    ensures 0.0 <= p * p <= p
  {
    MulMono(p, p, 1.0);
  }

  /** A hop in flight (zoo.js:272-279): the clock advances by `dt`, the
      progress is clamped to [0, 1], a forward record sits at the smoothstep
      interpolation between the hop's ends and an in-place record at its
      start; nothing else changes. */
  lemma InFlight(r: HopRec, dt: real, now: real, d: TickDraws)
    requires HopInv(r) && d.Valid() && dt >= 0.0
    requires r.state != Idle && r.hop.t + dt < r.hop.period
    ensures var a := Advance(r, dt, now, d);
      var p := Progress(r.hop.t + dt, r.hop.period);
      && 0.0 <= p <= 1.0 && 0.0 <= Smoothstep(p) <= 1.0
      && (r.state == Forward ==> a.xNorm == Lerp(r.hop.x0, r.hop.x1, Smoothstep(p)))
      && (r.state == InPlace ==> a.xNorm == r.hop.x0)
      && a == r.(xNorm := a.xNorm, hop := r.hop.(t := r.hop.t + dt))
  {
    SmoothstepBounds(Progress(r.hop.t + dt, r.hop.period));
  }

  /** Landing (zoo.js:282-316): the record snaps to the hop target exactly
      and counts the hop. With hops left it re-arms in the same motion;
      with none left a draw below 0.95 makes it idle for 3 to 5 seconds,
      keeping the leftover hop time, a draw below 0.951 starts an in-place
      burst and any other draw a forward burst, both of one or two hops. */
  lemma Landing(r: HopRec, dt: real, now: real, d: TickDraws)
    requires HopInv(r) && d.Valid() && dt >= 0.0
    requires r.state != Idle && r.hop.t + dt >= r.hop.period
    ensures var a := Advance(r, dt, now, d);
      && a.xNorm == r.hop.x1
      && a.rowIdx == r.rowIdx && a.yNorm == r.yNorm && a.dxPerHop == r.dxPerHop
      && (r.hopsLeft > 1 ==>
            a.state == r.state && a.hopsLeft == r.hopsLeft - 1 && a.hop.t == 0.0 && a.hop.x0 == r.hop.x1)
      && (r.hopsLeft <= 1 && d.landChoice < P_IDLE_AFTER_HOP ==>
            && a.state == Idle
            && a.hop.t == r.hop.t + dt - r.hop.period
            && now + IDLE_MIN_MS <= a.stateUntil < now + IDLE_MAX_MS)
      && (r.hopsLeft <= 1 && P_IDLE_AFTER_HOP <= d.landChoice < P_IDLE_AFTER_HOP + P_INPLACE_AFTER_HOP ==>
            a.state == InPlace && a.hop.x0 == r.hop.x1 && a.hop.x1 == r.hop.x1)
      && (r.hopsLeft <= 1 && d.landChoice >= P_IDLE_AFTER_HOP + P_INPLACE_AFTER_HOP ==>
            a.state == Forward && a.hop.x0 == r.hop.x1 && a.hop.x1 == r.hop.x1 + r.dir as real * r.dxPerHop)
      && (a.state != Idle ==> a.hop.t == 0.0 && 1 <= a.hopsLeft <= IMax(2, r.hopsLeft - 1))
  {
  }

  /** An idle record before its deadline does not move (zoo.js:262, 272). */
  lemma IdleWaits(r: HopRec, dt: real, now: real, d: TickDraws)
    requires HopInv(r) && d.Valid()
    requires r.state == Idle && now < r.stateUntil
    ensures Moved(r, dt, now, d) == r
    ensures !OffRow(r) ==> HopStep(r, dt, now, d) == Outcome(r, false)
  {
  }

  /** Row exit (zoo.js:320-346): a record leaves exactly when it moved past
      the edge it walks towards while in the last row; past the edge in any
      other row it is promoted one row back, taking the new row's direction,
      height and hop height, 0.78 of its scale, the entry position on the
      far side and the new row's stride; otherwise the tick ends there. */
  lemma RowExit(r: HopRec, dt: real, now: real, d: TickDraws)
    requires HopInv(r) && d.Valid() && dt >= 0.0
    ensures var m := Moved(r, dt, now, d);
      var o := HopStep(r, dt, now, d);
      && (o.exited <==> OffRow(m) && r.rowIdx == ROW_COUNT - 1)
      && (o.exited ==> o.rec == m)
      && (!OffRow(m) ==> o == Outcome(m, false))
      && (OffRow(m) && r.rowIdx + 1 < ROW_COUNT ==>
            var def := BuildRowDefs()[r.rowIdx + 1];
            && o.rec.rowIdx == r.rowIdx + 1
            && o.rec.dir == def.dir && o.rec.yNorm == def.yNorm && o.rec.hop.heightRatio == def.hopH
            && o.rec.scale == m.scale * ROW_SCALE_DECAY
            && o.rec.xNorm == (if def.dir == -1 then ENTER_RIGHT else ENTER_LEFT)
            && o.rec.dxPerHop == FRONT_DX_PER_HOP * Pow(DX_DECAY_PER_ROW, r.rowIdx + 1)
            && o.rec.state != Idle && o.rec.hop.t == 0.0 && o.rec.hop.x0 == o.rec.xNorm)
  {
    assert Moved(r, dt, now, d).rowIdx == r.rowIdx;
  }

  lemma ArmKeepsInv(r: HopRec, period: real)
    requires 0 <= r.rowIdx < ROW_COUNT
    requires r.dir == RowAt(r.rowIdx).dir && r.yNorm == RowAt(r.rowIdx).yNorm
    requires r.hop.heightRatio == RowAt(r.rowIdx).hopH && r.dxPerHop == RowDx(r.rowIdx)
    requires HOP_PERIOD_MIN <= period < HOP_PERIOD_MAX
    requires r.state != Idle ==> r.hopsLeft >= 1
    ensures HopInv(Arm(r, period))
  {
  }

  lemma AdvanceKeepsInv(r: HopRec, dt: real, now: real, d: TickDraws)
    requires HopInv(r) && d.Valid() && dt >= 0.0
    ensures HopInv(Advance(r, dt, now, d))
  {
    if r.state != Idle && r.hop.t + dt >= r.hop.period {
      var t := r.hop.t + dt;
      var s := Smoothstep(Progress(t, r.hop.period));
      var moved := r.(
        xNorm := if r.state == Forward then Lerp(r.hop.x0, r.hop.x1, s) else r.hop.x0,
        hop := r.hop.(t := t));
      var landed := moved.(xNorm := moved.hop.x1, hop := moved.hop.(t := moved.hop.t - moved.hop.period), hopsLeft := moved.hopsLeft - 1);
      if landed.hopsLeft <= 0 {
        if d.landChoice < P_IDLE_AFTER_HOP {
        } else if d.landChoice < P_IDLE_AFTER_HOP + P_INPLACE_AFTER_HOP {
          ArmKeepsInv(landed.(state := InPlace, hopsLeft := BurstLength(d.landHops)), HopPeriod(d.landPeriod));
        } else {
          ArmKeepsInv(landed.(state := Forward, hopsLeft := BurstLength(d.landHops)), HopPeriod(d.landPeriod));
        }
      } else {
        ArmKeepsInv(landed, HopPeriod(d.nextPeriod));
      }
    }
  }

  /** One tick keeps the record invariant; the row index stays or grows by
      exactly one, and only a record in the last row exits. */
  lemma HopStepKeepsInv(r: HopRec, dt: real, now: real, d: TickDraws)
    requires HopInv(r) && d.Valid() && dt >= 0.0
    ensures var o := HopStep(r, dt, now, d);
      && HopInv(o.rec)
      && (o.rec.rowIdx == r.rowIdx || o.rec.rowIdx == r.rowIdx + 1)
      && (o.exited ==> r.rowIdx == ROW_COUNT - 1 && o.rec.rowIdx == r.rowIdx)
  {
    var w := WakeUp(r, now, d);
    if r.state == Idle && now >= r.stateUntil {
      ArmKeepsInv(r.(state := if d.wakeState < P_WAKE_FORWARD then Forward else InPlace,
                     hopsLeft := BurstLength(d.wakeHops)),
                  HopPeriod(d.wakePeriod));
    }
    assert HopInv(w);
    AdvanceKeepsInv(w, dt, now, d);
    var m := Moved(r, dt, now, d);
    assert HopInv(m);
    if OffRow(m) && m.rowIdx + 1 < ROW_COUNT {
      var next := m.rowIdx + 1;
      var def := BuildRowDefs()[next];
      ArmKeepsInv(m.(
        rowIdx := next,
        yNorm := def.yNorm,
        dir := def.dir,
        hop := m.hop.(heightRatio := def.hopH),
        scale := m.scale * ROW_SCALE_DECAY,
        xNorm := if def.dir == -1 then ENTER_RIGHT else ENTER_LEFT,
        dxPerHop := RowDx(next),
        state := if d.promoteState < P_PROMOTE_FORWARD then Forward else InPlace,
        hopsLeft := BurstLength(d.promoteHops)), HopPeriod(d.promotePeriod));
    }
  }

  /** A rabbit the viewer displays: the image-derived constants and the
      mutable fields updateRabbitHopOnly writes. */
  class Hopper {
    const id: int
    const createdAt: int
    const imgW: nat
    const imgH: nat
    const cut: Cut

    var rowIdx: int
    var yNorm: real
    var dir: int
    var xNorm: real
    var scale: real
    var state: Motion
    var hopsLeft: int
    var stateUntil: real
    var hop: Cycle
    var dxPerHop: real

    /** The current values of the mutable fields. */
    function Snap(): HopRec
      reads this
    {
      HopRec(rowIdx, yNorm, dir, xNorm, scale, state, hopsLeft, stateUntil, hop, dxPerHop)
    }

    ghost predicate Valid()
      reads this
    {
      HopInv(Snap())
    }

    constructor (id: int, createdAt: int, imgW: nat, imgH: nat, cut: Cut, init: HopRec)
      ensures this.id == id && this.createdAt == createdAt
      ensures this.imgW == imgW && this.imgH == imgH && this.cut == cut
      ensures Snap() == init
    {
      this.id := id;
      this.createdAt := createdAt;
      this.imgW := imgW;
      this.imgH := imgH;
      this.cut := cut;
      rowIdx := init.rowIdx;
      yNorm := init.yNorm;
      dir := init.dir;
      xNorm := init.xNorm;
      scale := init.scale;
      state := init.state;
      hopsLeft := init.hopsLeft;
      stateUntil := init.stateUntil;
      hop := init.hop;
      dxPerHop := init.dxPerHop;
    }

    /** Re-arm the hop from the current position (the four assignments
        the source repeats after each state choice). */
    method Rearm(period: real)
      modifies this
      ensures Snap() == Arm(old(Snap()), period)
    {
      hop := hop.(period := period);
      hop := hop.(t := 0.0);
      hop := hop.(x0 := xNorm);
      hop := hop.(x1 := if state == Forward then xNorm + dir as real * dxPerHop else xNorm);
    }

    /** zoo.js:262-269. */
    method WakeIfDue(now: real, d: TickDraws)
      requires d.Valid()
      modifies this
      ensures Snap() == WakeUp(old(Snap()), now, d)
    {
      if state == Idle && now >= stateUntil {
        state := if d.wakeState < P_WAKE_FORWARD then Forward else InPlace;
        hopsLeft := BurstLength(d.wakeHops);
        Rearm(HopPeriod(d.wakePeriod));
      }
    }

    /** zoo.js:289-308: the next motion once a burst is used up. */
    method ChooseNext(now: real, d: TickDraws)
      requires d.Valid()
      modifies this
      ensures var r := old(Snap());
        Snap() ==
          if d.landChoice < P_IDLE_AFTER_HOP then
            r.(state := Idle, stateUntil := IdleDeadline(now, d.landIdle))
          else if d.landChoice < P_IDLE_AFTER_HOP + P_INPLACE_AFTER_HOP then
            Arm(r.(state := InPlace, hopsLeft := BurstLength(d.landHops)), HopPeriod(d.landPeriod))
          else
            Arm(r.(state := Forward, hopsLeft := BurstLength(d.landHops)), HopPeriod(d.landPeriod))
    {
      var prob := d.landChoice;
      if prob < P_IDLE_AFTER_HOP {
        state := Idle;
        stateUntil := IdleDeadline(now, d.landIdle);
      } else if prob < P_IDLE_AFTER_HOP + P_INPLACE_AFTER_HOP {
        state := InPlace;
        hopsLeft := BurstLength(d.landHops);
        Rearm(HopPeriod(d.landPeriod));
      } else {
        state := Forward;
        hopsLeft := BurstLength(d.landHops);
        Rearm(HopPeriod(d.landPeriod));
      }
    }

    /** zoo.js:272-317. */
    method AdvanceHop(dt: real, now: real, d: TickDraws)
      requires hop.period > 0.0 && d.Valid()
      modifies this
      ensures Snap() == Advance(old(Snap()), dt, now, d)
    {
      if state != Idle {
        hop := hop.(t := hop.t + dt);
        var p := Progress(hop.t, hop.period);
        var s := Smoothstep(p);
        if state == Forward {
          xNorm := Lerp(hop.x0, hop.x1, s);
        } else {
          xNorm := hop.x0;
        }
        if hop.t >= hop.period {
          xNorm := hop.x1;
          hop := hop.(t := hop.t - hop.period);
          hopsLeft := hopsLeft - 1;
          if hopsLeft <= 0 {
            ChooseNext(now, d);
          } else {
            Rearm(HopPeriod(d.nextPeriod));
          }
        }
      }
    }

    /** zoo.js:328-345. */
    method PromoteRow(d: TickDraws)
      requires 0 <= rowIdx && rowIdx + 1 < ROW_COUNT && d.Valid()
      modifies this
      ensures Snap() == Promote(old(Snap()), d)
    {
      ghost var want := Relocate(Snap(), d);
      var nextRow := rowIdx + 1;
      var def := BuildRowDefs()[nextRow];
      rowIdx := nextRow;
      yNorm := def.yNorm;
      dir := def.dir;
      hop := hop.(heightRatio := def.hopH);
      scale := scale * ROW_SCALE_DECAY;
      xNorm := if def.dir == -1 then ENTER_RIGHT else ENTER_LEFT;
      dxPerHop := RowDx(nextRow);
      state := if d.promoteState < P_PROMOTE_FORWARD then Forward else InPlace;
      hopsLeft := BurstLength(d.promoteHops);
      assert Snap() == want;
      Rearm(HopPeriod(d.promotePeriod));
    }

    /** updateRabbitHopOnly for one frame of `dt` seconds at clock `now`;
        `exited` reports a record that left the last row. */
    method Update(dt: real, now: real, d: TickDraws) returns (exited: bool)
      requires 0 <= rowIdx && hop.period > 0.0 && d.Valid()
      modifies this
      ensures Outcome(Snap(), exited) == HopStep(old(Snap()), dt, now, d)
    {
      WakeUpKeepsPeriod(Snap(), now, d);
      WakeIfDue(now, d);
      AdvanceHop(dt, now, d);
      assert Snap() == Moved(old(Snap()), dt, now, d);
      var offL := xNorm < EXIT_LEFT;
      var offR := xNorm > EXIT_RIGHT;
      if (dir == -1 && offL) || (dir == 1 && offR) {
        var nextRow := rowIdx + 1;
        if nextRow >= ROW_COUNT {
          return true;
        }
        PromoteRow(d);
      }
      exited := false;
    }
  }
}
