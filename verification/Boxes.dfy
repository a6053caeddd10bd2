/** Axis-aligned boxes and intersection over union, in exact arithmetic. */
module Boxes {
  import opened Reals

  datatype BBox = BBox(x1: real, y1: real, x2: real, y2: real) {
    function Width(): real {
      x2 - x1
    }

    function Height(): real {
      y2 - y1
    }

    function Area(): real {
      Width() * Height()
    }
  }

  /** The area two boxes share. */
  function Shared(a: BBox, b: BBox): real {
    Max(Min(a.x2, b.x2) - Max(a.x1, b.x1), 0.0) * Max(Min(a.y2, b.y2) - Max(a.y1, b.y1), 0.0)
  }

  function Iou(a: BBox, b: BBox): real {
    var union := a.Area() + b.Area() - Shared(a, b);
    if union <= 0.0 then 0.0 else Shared(a, b) / union
  }

  /** Corners in order. */
  predicate Proper(b: BBox) {
    b.x1 <= b.x2 && b.y1 <= b.y2
  }

  lemma SharedIsSymmetric(a: BBox, b: BBox)
    ensures Shared(a, b) == Shared(b, a)
  {
  }

  lemma IouIsSymmetric(a: BBox, b: BBox)
    ensures Iou(a, b) == Iou(b, a)
  {
    hide Shared;
    SharedIsSymmetric(a, b);
  }

  lemma SharedWithItself(b: BBox)
    requires Proper(b)
    ensures Shared(b, b) == b.Area()
  {
  }

  lemma ProductsGrow(a: real, b: real, c: real, d: real)
    requires 0.0 <= a <= c && 0.0 <= b <= d
    ensures 0.0 <= a * b <= c * d
  {
    assert a * b <= c * b;
    assert c * b <= c * d;
  }

  lemma SharedIsPart(a: BBox, b: BBox)
    requires Proper(a) && Proper(b)
    ensures 0.0 <= Shared(a, b) <= a.Area()
  {
    ProductsGrow(Max(Min(a.x2, b.x2) - Max(a.x1, b.x1), 0.0), Max(Min(a.y2, b.y2) - Max(a.y1, b.y1), 0.0),
                 a.Width(), a.Height());
  }

  lemma SmallerProduct(a: real, b: real, c: real, d: real)
    requires 0.0 <= a <= c && 0.0 <= b <= d && c * d > 0.0 && (a < c || b < d)
    ensures a * b < c * d
  {
    assert c > 0.0 && d > 0.0;
    if a < c {
      ProductsGrow(a, b, a, d);
      assert a * d < c * d;
    } else {
      ProductsGrow(a, b, c, b);
      assert c * b < c * d;
    }
  }

  /** A box that shares all its area with another lies inside it. */
  lemma SharedWhole(a: BBox, b: BBox)
    requires Proper(a) && Proper(b) && Shared(a, b) == a.Area() > 0.0
    ensures b.x1 <= a.x1 && a.x2 <= b.x2 && b.y1 <= a.y1 && a.y2 <= b.y2
  {
    var w := Max(Min(a.x2, b.x2) - Max(a.x1, b.x1), 0.0);
    var h := Max(Min(a.y2, b.y2) - Max(a.y1, b.y1), 0.0);
    if w < a.Width() || h < a.Height() {
      SmallerProduct(w, h, a.Width(), a.Height());
      assert false;
    }
  }

  lemma Quotient(n: real, d: real)
    requires d > 0.0 && 0.0 <= n <= d
    ensures 0.0 <= n / d <= 1.0
    ensures n / d == 1.0 <==> n == d
  {
  }

  /** Between proper boxes it is from 0 to 1, and for boxes of some area it is 1 exactly when they are the same box. */
  lemma IouRange(a: BBox, b: BBox)
    requires Proper(a) && Proper(b)
    ensures 0.0 <= Iou(a, b) <= 1.0
    ensures a.Area() > 0.0 && b.Area() > 0.0 ==> (Iou(a, b) == 1.0 <==> a == b)
  {
    hide Shared;
    SharedIsPart(a, b);
    SharedIsPart(b, a);
    SharedIsSymmetric(a, b);
    if a == b {
      SharedWithItself(a);
    } else if a.Area() > 0.0 && b.Area() > 0.0 && Shared(a, b) == a.Area() {
      SharedWhole(a, b);
      assert Shared(a, b) != b.Area() by {
        if Shared(b, a) == b.Area() {
          SharedWhole(b, a);
        }
      }
    }
    var union := a.Area() + b.Area() - Shared(a, b);
    if union > 0.0 {
      Quotient(Shared(a, b), union);
    }
  }

  // ----- Boxes made of cells -----

  /** A box of whole cells of a grid. */
  datatype Block = Block(x1: int, y1: int, x2: int, y2: int)

  /** A grid line. */
  function Line(n: int, w: real): real {
    n as real * w
  }

  function OnGrid(b: Block, w: real, h: real): BBox {
    BBox(Line(b.x1, w), Line(b.y1, h), Line(b.x2, w), Line(b.y2, h))
  }

  function Cells(b: Block): set<(int, int)> {
    set i, j | b.x1 <= i < b.x2 && b.y1 <= j < b.y2 :: (i, j)
  }

  function Size(b: Block): int {
    (if b.x1 < b.x2 then b.x2 - b.x1 else 0) * (if b.y1 < b.y2 then b.y2 - b.y1 else 0)
  }

  lemma {:induction false} ColumnSize(x: int, y1: int, y2: int)
    requires y1 <= y2
    ensures |Cells(Block(x, y1, x + 1, y2))| == y2 - y1
    decreases y2 - y1
  {
    var column := Cells(Block(x, y1, x + 1, y2));
    if y1 == y2 {
      assert column == {};
    } else {
      ColumnSize(x, y1, y2 - 1);
      assert column == Cells(Block(x, y1, x + 1, y2 - 1)) + {(x, y2 - 1)};
    }
  }

  /** A block has as many cells as its sides say. */
  lemma {:induction false} BlockSize(b: Block)
    ensures |Cells(b)| == Size(b)
    decreases b.x2 - b.x1
  {
    if b.x1 >= b.x2 || b.y1 >= b.y2 {
      assert Cells(b) == {};
    } else {
      var rest := b.(x2 := b.x2 - 1);
      var column := Block(b.x2 - 1, b.y1, b.x2, b.y2);
      BlockSize(rest);
      ColumnSize(b.x2 - 1, b.y1, b.y2);
      assert Cells(b) == Cells(rest) + Cells(column) && Cells(rest) !! Cells(column);
      OneColumnMore(b.x2 - 1 - b.x1, b.y2 - b.y1);
    }
  }

  lemma OneColumnMore(n: int, m: int)
    ensures (n + 1) * m == n * m + m
  {
  }

  function Common(a: Block, b: Block): Block {
    Block(Later(a.x1, b.x1), Later(a.y1, b.y1), Sooner(a.x2, b.x2), Sooner(a.y2, b.y2))
  }

  lemma CellsCounted(a: Block, b: Block)
    ensures |Cells(a) * Cells(b)| == Size(Common(a, b))
    ensures |Cells(a) + Cells(b)| == Size(a) + Size(b) - Size(Common(a, b))
  {
    BlockSize(a);
    BlockSize(b);
    BlockSize(Common(a, b));
    assert Cells(a) * Cells(b) == Cells(Common(a, b));
  }

  lemma Lines(n: int, m: int, w: real)
    requires w > 0.0
    ensures Line(n, w) - Line(m, w) == Line(n - m, w)
    ensures n <= m <==> Line(n, w) <= Line(m, w)
    ensures Line(0, w) == 0.0
  {
    if n < m {
      assert (m - n) as real * w > 0.0;
    } else if m < n {
      assert (n - m) as real * w > 0.0;
    }
  }

  lemma LineProduct(n: int, m: int, w: real, h: real)
    ensures Line(n, w) * Line(m, h) == (n * m) as real * (w * h)
  {
  }

  function Later(n: int, m: int): int {
    if n >= m then n else m
  }

  function Sooner(n: int, m: int): int {
    if n <= m then n else m
  }

  /** One side of what two boxes share, in cells. */
  lemma SharedSide(a1: int, a2: int, b1: int, b2: int, w: real)
    requires w > 0.0
    ensures Max(Min(Line(a2, w), Line(b2, w)) - Max(Line(a1, w), Line(b1, w)), 0.0)
         == Line(Later(Sooner(a2, b2) - Later(a1, b1), 0), w)
  {
    hide Line;
    Lines(a2, b2, w);
    Lines(b1, a1, w);
    var d := Sooner(a2, b2) - Later(a1, b1);
    Lines(Sooner(a2, b2), Later(a1, b1), w);
    Lines(0, d, w);
  }

  lemma SharedIsCommon(a: Block, b: Block, w: real, h: real)
    requires w > 0.0 && h > 0.0
    ensures Shared(OnGrid(a, w, h), OnGrid(b, w, h)) == Size(Common(a, b)) as real * (w * h)
  {
    hide Max, Min, Line;
    var n := Later(Sooner(a.x2, b.x2) - Later(a.x1, b.x1), 0);
    var m := Later(Sooner(a.y2, b.y2) - Later(a.y1, b.y1), 0);
    SharedSide(a.x1, a.x2, b.x1, b.x2, w);
    SharedSide(a.y1, a.y2, b.y1, b.y2, h);
    LineProduct(n, m, w, h);
    CommonSize(a, b, n, m);
  }

  lemma CommonSize(a: Block, b: Block, n: int, m: int)
    requires n == Later(Sooner(a.x2, b.x2) - Later(a.x1, b.x1), 0)
    requires m == Later(Sooner(a.y2, b.y2) - Later(a.y1, b.y1), 0)
    ensures Size(Common(a, b)) == n * m
  {
  }

  lemma AreaIsSize(b: Block, w: real, h: real)
    requires b.x1 <= b.x2 && b.y1 <= b.y2 && w > 0.0 && h > 0.0
    ensures OnGrid(b, w, h).Area() == Size(b) as real * (w * h)
  {
    hide Line;
    Lines(b.x2, b.x1, w);
    Lines(b.y2, b.y1, h);
    LineProduct(b.x2 - b.x1, b.y2 - b.y1, w, h);
  }

  lemma Cancels(n: real, d: real, k: real)
    requires k > 0.0
    ensures d > 0.0 ==> d * k > 0.0 && (n * k) / (d * k) == n / d
    ensures d == 0.0 ==> d * k == 0.0
  {
    if d > 0.0 {
      assert d * k > 0.0;
      assert (n / d) * (d * k) == n * k;
    }
  }

  /** For boxes of whole cells, whatever the size of a cell, the overlap is shared cells over all cells. */
  lemma IouCountsCells(a: Block, b: Block, w: real, h: real)
    requires a.x1 <= a.x2 && a.y1 <= a.y2 && b.x1 <= b.x2 && b.y1 <= b.y2 && w > 0.0 && h > 0.0
    ensures Iou(OnGrid(a, w, h), OnGrid(b, w, h)) ==
            if Cells(a) + Cells(b) == {} then 0.0
            else |Cells(a) * Cells(b)| as real / |Cells(a) + Cells(b)| as real
  {
    hide Shared, Size, OnGrid, Cells;
    SharedIsCommon(a, b, w, h);
    AreaIsSize(a, w, h);
    AreaIsSize(b, w, h);
    CellsCounted(a, b);
    var shared, all := |Cells(a) * Cells(b)|, |Cells(a) + Cells(b)|;
    AddsUp(Size(a) as real, Size(b) as real, shared as real, w * h);
    CellHasArea(w, h);
    Cancels(shared as real, all as real, w * h);
    IouIs(OnGrid(a, w, h), OnGrid(b, w, h), shared as real * (w * h), all as real * (w * h));
  }

  lemma CellHasArea(w: real, h: real)
    requires w > 0.0 && h > 0.0
    ensures w * h > 0.0
  {
  }

  lemma IouIs(a: BBox, b: BBox, shared: real, all: real)
    requires Shared(a, b) == shared && a.Area() + b.Area() - shared == all
    ensures Iou(a, b) == if all <= 0.0 then 0.0 else shared / all
  {
    hide Shared;
  }

  lemma AddsUp(a: real, b: real, c: real, k: real)
    ensures a * k + b * k - c * k == (a + b - c) * k
  {
  }
}
