/** The row-placement loop of render_pdf: two columns per page, the first page
    starting below the board diagram and the legend. */
module Layout {

  /** The positions the loop works with: where the rows start on the first page and on
      later pages, the line height, the bottom margin and the two column offsets. */
  datatype Geometry = Geometry(
    startYFirst: real,
    startYRegular: real,
    lineH: real,
    marginBottom: real,
    colLeft: real,
    colRight: real)

  /** Where one row is drawn. */
  datatype Placement = Placement(text: string, page: nat, col: nat, x: real, y: real)

  function ColumnX(g: Geometry, col: nat): real
  {
    if col == 0 then g.colLeft else g.colRight
  }

  /** Where column 1 of a page starts: level with column 0, so below the header on
      the first page. */
  function SecondColumnTop(g: Geometry, page: nat): real
  {
    if page == 1 then g.startYFirst else g.startYRegular
  }

  /** The first row: the cursor starts at column 0 of page 1, and the bottom check
      runs before the row is drawn. */
  predicate Starts(g: Geometry, first: Placement): (b: bool)
    ensures b ==> first.page == 1 && first.col <= 1 && first.y == g.startYFirst
  {
    if g.startYFirst >= g.marginBottom then first.page == 1 && first.col == 0 && first.y == g.startYFirst
    else first.page == 1 && first.col == 1 && first.y == g.startYFirst
  }

  /** The row after prev: two line heights lower in the same column; if that falls
      below the bottom margin, to the top of column 1 of the same page when prev is in
      column 0, and otherwise to the top of column 0 of the next page. */
  predicate Follows(g: Geometry, prev: Placement, next: Placement): (b: bool)
    ensures b ==> next.page == prev.page || next.page == prev.page + 1
    ensures b && next.page == prev.page + 1 ==> prev.col != 0 && next.col == 0 && next.y == g.startYRegular
    ensures b && next.page == prev.page && next.col == prev.col ==> next.y == prev.y - 2.0 * g.lineH
    ensures b && next.page == prev.page && next.col != prev.col ==>
      prev.col == 0 && next.col == 1 && next.y == SecondColumnTop(g, prev.page)
    ensures b && prev.y - 2.0 * g.lineH >= g.marginBottom ==> next.page == prev.page && next.col == prev.col
  {
    var y := prev.y - 2.0 * g.lineH;
    if y >= g.marginBottom then
      next.page == prev.page && next.col == prev.col && next.y == y
    else if prev.col == 0 then
      next.page == prev.page && next.col == 1 && next.y == SecondColumnTop(g, prev.page)
    else
      next.page == prev.page + 1 && next.col == 0 && next.y == g.startYRegular
  }

  /** The loop of render_pdf: the row texts in drawing order, each with the page, column
      and position it is drawn at. With both start offsets at or above the bottom
      margin, no row is drawn below it. */
  method PlaceRows(rows: seq<string>, g: Geometry) returns (placed: seq<Placement>)
    ensures |placed| == |rows|
    ensures forall i :: 0 <= i < |placed| ==>
      placed[i].text == rows[i] && placed[i].page >= 1 && placed[i].col <= 1 &&
      placed[i].x == ColumnX(g, placed[i].col)
    ensures |placed| > 0 ==> Starts(g, placed[0])
    ensures forall i :: 0 < i < |placed| ==> Follows(g, placed[i - 1], placed[i])
    ensures g.startYFirst >= g.marginBottom && g.startYRegular >= g.marginBottom ==>
      forall i :: 0 <= i < |placed| ==> placed[i].y >= g.marginBottom
  {
    placed := [];
    var x, y := g.colLeft, g.startYFirst;
    var colIdx: nat := 0;
    var page: nat := 1;
    for i := 0 to |rows|
      invariant |placed| == i
      invariant colIdx <= 1 && page >= 1 && x == ColumnX(g, colIdx)
      invariant i == 0 ==> colIdx == 0 && page == 1 && y == g.startYFirst
      invariant i > 0 ==> colIdx == placed[i - 1].col && page == placed[i - 1].page
      invariant i > 0 ==> y == placed[i - 1].y - 2.0 * g.lineH
      invariant forall j :: 0 <= j < i ==>
        placed[j].text == rows[j] && placed[j].page >= 1 && placed[j].col <= 1 &&
        placed[j].x == ColumnX(g, placed[j].col)
      invariant i > 0 ==> Starts(g, placed[0])
      invariant forall j :: 0 < j < i ==> Follows(g, placed[j - 1], placed[j])
      invariant g.startYFirst >= g.marginBottom && g.startYRegular >= g.marginBottom ==>
        forall j :: 0 <= j < i ==> placed[j].y >= g.marginBottom
    {
      if y < g.marginBottom {
        if colIdx == 0 {
          colIdx := 1;
          x := g.colRight;
          y := if page == 1 then g.startYFirst else g.startYRegular;
        } else {
          page := page + 1;
          x := g.colLeft;
          y := g.startYRegular;
          colIdx := 0;
        }
      }
      placed := placed + [Placement(rows[i], page, colIdx, x, y)];
      y := y - g.lineH * 2.0;
    }
  }

  /** The order of the (page, column) slots a sheet fills. */
  function Slot(p: Placement): int
  {
    2 * p.page + p.col
  }

  /** A sheet never goes back: the slots rows are drawn in never decrease, each step
      staying in its column or moving to the next one. */
  lemma {:induction false} NoBackwardTransitions(g: Geometry, placed: seq<Placement>)
    requires forall i :: 0 <= i < |placed| ==> placed[i].col <= 1
    requires forall i :: 0 < i < |placed| ==> Follows(g, placed[i - 1], placed[i])
    ensures forall i, j :: 0 <= i <= j < |placed| ==> Slot(placed[i]) <= Slot(placed[j])
    ensures forall i :: 0 < i < |placed| ==>
      Slot(placed[i]) == Slot(placed[i - 1]) || Slot(placed[i]) == Slot(placed[i - 1]) + 1
    decreases |placed|
  {
    if |placed| > 1 {
      var front := placed[..|placed| - 1];
      NoBackwardTransitions(g, front);
      var n := |placed| - 1;
      assert Slot(placed[n - 1]) <= Slot(placed[n]);
      forall i, j | 0 <= i <= j < |placed|
        ensures Slot(placed[i]) <= Slot(placed[j])
      {
        if j < n {
          assert placed[i] == front[i] && placed[j] == front[j];
        } else if i < n {
          assert placed[i] == front[i] && placed[n - 1] == front[n - 1];
        }
      }
    }
  }

  /** Rows drawn in the same column of the same page are evenly spaced:
      2 * line_h apart for every row between them. */
  lemma {:induction false} ColumnSpacing(g: Geometry, placed: seq<Placement>, i: nat, j: nat)
    requires forall k :: 0 <= k < |placed| ==> placed[k].col <= 1
    requires forall k :: 0 < k < |placed| ==> Follows(g, placed[k - 1], placed[k])
    requires i <= j < |placed| && Slot(placed[i]) == Slot(placed[j])
    ensures placed[j].y == placed[i].y - 2.0 * g.lineH * (j - i) as real
    decreases j - i
  {
    if i < j {
      NoBackwardTransitions(g, placed);
      assert Slot(placed[i]) <= Slot(placed[j - 1]) <= Slot(placed[j]);
      ColumnSpacing(g, placed, i, j - 1);
    }
  }

  /** A column takes rows while they fit: from a row at y0, the next m rows stay in its
      column at y0 - 2 * line_h * k as long as y0 - 2 * line_h * m is not below the
      bottom margin. */
  lemma {:induction false} ColumnFill(g: Geometry, placed: seq<Placement>, i: nat, m: nat)
    requires g.lineH >= 0.0
    requires forall k :: 0 < k < |placed| ==> Follows(g, placed[k - 1], placed[k])
    requires i + m < |placed|
    requires placed[i].y - 2.0 * g.lineH * m as real >= g.marginBottom
    ensures placed[i + m].page == placed[i].page && placed[i + m].col == placed[i].col
    ensures placed[i + m].y == placed[i].y - 2.0 * g.lineH * m as real
    decreases m
  {
    if m > 0 {
      ColumnFill(g, placed, i, m - 1);
      assert Follows(g, placed[i + m - 1], placed[i + m]);
    }
  }

  /** One millimetre in points, the unit of the page geometry. */
  const Mm: real := 72.0 / 25.4
  const PageW: real := 210.0 * Mm
  const PageH: real := 297.0 * Mm
  const MargL: real := 20.0 * Mm
  const MargT: real := 20.0 * Mm
  const MargB: real := 15.0 * Mm
  const ColGutter: real := 6.0 * Mm
  const LegendPt: real := 7.0
  const BoardPt: real := 8.0
  /** best_body_pt: the body font size, which is also the line height. */
  const BodyPt: real := 9.0

  /** The height of the board diagram: 8 ranks of 1.2 board font sizes. */
  function DiagramHeight(): real
  {
    8.0 * BoardPt * 1.2
  }

  /** The geometry render_pdf computes for an A4 page: the first page's rows start below
      the diagram and the 4 legend rows, later pages one body line below the top margin. */
  function SheetGeometry(): (g: Geometry)
    ensures g.lineH == BodyPt && g.marginBottom == MargB
    ensures g.colLeft == MargL && PageW / 2.0 < g.colRight < PageW
    ensures MargB <= g.startYFirst < g.startYRegular < PageH - MargT
    ensures PageH - MargT - g.startYFirst == DiagramHeight() + LegendPt * 4.0 * 1.2 + BodyPt
  {
    var startFirst := PageH - MargT - DiagramHeight() - (LegendPt * 4.0 * 1.2 + BodyPt);
    Geometry(startFirst, PageH - MargT - BodyPt, BodyPt, MargB, MargL, PageW / 2.0 + ColGutter)
  }

  /** On the A4 sheet both start offsets lie above the bottom margin, so every row
      render_pdf places is drawn at or above it. */
  lemma SheetGeometryIsSafe()
    ensures SheetGeometry().startYFirst >= SheetGeometry().marginBottom
    ensures SheetGeometry().startYRegular >= SheetGeometry().marginBottom
    ensures SheetGeometry().lineH > 0.0
  {
  }

  /** On the A4 sheet the columns of the first page hold 35 rows each and the columns
      of later pages 41: row 35 opens column 1 of page 1, row 70 opens page 2 at the
      regular top, and row 111 opens column 1 of page 2. */
  lemma SheetCapacity(placed: seq<Placement>)
    requires |placed| > 111
    requires forall k :: 0 <= k < |placed| ==> placed[k].col <= 1
    requires Starts(SheetGeometry(), placed[0])
    requires forall k :: 0 < k < |placed| ==> Follows(SheetGeometry(), placed[k - 1], placed[k])
    ensures forall k :: 0 <= k < 35 ==> placed[k].page == 1 && placed[k].col == 0
    ensures placed[35].page == 1 && placed[35].col == 1 && placed[35].y == SheetGeometry().startYFirst
    ensures placed[70].page == 2 && placed[70].col == 0 && placed[70].y == SheetGeometry().startYRegular
    ensures placed[111].page == 2 && placed[111].col == 1 && placed[111].y == SheetGeometry().startYRegular
  {
    var g := SheetGeometry();
    forall k | 0 <= k < 35
      ensures placed[k].page == 1 && placed[k].col == 0
    {
      ColumnFill(g, placed, 0, k);
    }
    ColumnFill(g, placed, 0, 34);
    assert Follows(g, placed[34], placed[35]);
    ColumnFill(g, placed, 35, 34);
    assert Follows(g, placed[69], placed[70]);
    ColumnFill(g, placed, 70, 40);
    assert Follows(g, placed[110], placed[111]);
  }
}
