/** The viewer's depth rows (public/zoo.js, `buildRowDefs`): row 0 is the
    front of the meadow, row ROW_COUNT - 1 the back. */
module ZooRows {
  import opened Numeric

  const ROW_COUNT: nat := 6
  const FRONT_Y: real := 0.9
  const BACK_Y: real := 0.28
  const ROW_SCALE_DECAY: real := 0.78
  const HOP_HEIGHT_BASE: real := 0.22
  const HOP_HEIGHT_DECAY: real := 0.88

  /** Vertical position, walking direction (-1 leftwards, +1 rightwards),
      scale multiplier and hop height of one row. */
  datatype RowDef = RowDef(yNorm: real, dir: int, scaleMul: real, hopH: real)

  /** The body of the loop in buildRowDefs for index `i`. */
  function RowAt(i: nat): RowDef
  {
    var t := i as real / IMax(1, ROW_COUNT - 1) as real;
    RowDef(
      Lerp(FRONT_Y, BACK_Y, t),
      if i % 2 == 0 then -1 else 1,
      Pow(ROW_SCALE_DECAY, i),
      HOP_HEIGHT_BASE * Pow(HOP_HEIGHT_DECAY, i))
  }

  function BuildRowDefs(): (rows: seq<RowDef>)
    ensures |rows| == ROW_COUNT
    ensures forall i :: 0 <= i < ROW_COUNT ==> rows[i] == RowAt(i)
  {
    seq(ROW_COUNT, i requires 0 <= i => RowAt(i))
  }

  /** What one row looks like: even rows walk leftwards and odd rows
      rightwards, the front row sits at FRONT_Y with full scale and the
      base hop height, the back row sits at BACK_Y, and every row lies
      between the two. */
  lemma RowShape(i: nat)
    requires i < ROW_COUNT
    ensures var r := BuildRowDefs()[i];
      && (r.dir == -1 <==> i % 2 == 0)
      && (r.dir == 1 <==> i % 2 == 1)
      && BACK_Y <= r.yNorm <= FRONT_Y
      && (i == 0 ==> r.yNorm == FRONT_Y && r.scaleMul == 1.0 && r.hopH == HOP_HEIGHT_BASE)
      && (i == ROW_COUNT - 1 ==> r.yNorm == BACK_Y)
      && 0.0 < r.scaleMul <= 1.0
      && 0.0 < r.hopH <= HOP_HEIGHT_BASE
  {
    PowAtMostOne(ROW_SCALE_DECAY, i);
    PowAtMostOne(HOP_HEIGHT_DECAY, i);
  }

  /** Going one row back flips the direction and multiplies the scale
      multiplier by ROW_SCALE_DECAY and the hop height by HOP_HEIGHT_DECAY. */
  lemma RowStep(i: nat)
    requires i + 1 < ROW_COUNT
    ensures var rows := BuildRowDefs();
      && rows[i + 1].dir == -rows[i].dir
      && rows[i + 1].scaleMul == ROW_SCALE_DECAY * rows[i].scaleMul
      && rows[i + 1].hopH == HOP_HEIGHT_DECAY * rows[i].hopH
  {
  }

  /** Rows further back are higher on screen, smaller and hop lower. */
  lemma RowsRecede(i: nat, j: nat)
    requires i < j < ROW_COUNT
    ensures var rows := BuildRowDefs();
      && rows[j].yNorm < rows[i].yNorm
      && rows[j].scaleMul < rows[i].scaleMul
      && rows[j].hopH < rows[i].hopH
  {
    PowShrinks(ROW_SCALE_DECAY, i, j);
    PowShrinks(HOP_HEIGHT_DECAY, i, j);
  }
}
