// Row-major indexing of a rectangle in a flat buffer. Area(y, width) is the
// product, by recursion, so that the proofs stay linear.
module Grid {
  function Area(rows: nat, width: nat): nat {
    if rows == 0 then 0 else Area(rows - 1, width) + width
  }

  function Row(width: nat, k: nat): nat
    requires width > 0
  {
    if k < width then 0 else 1 + Row(width, k - width)
  }

  function Column(width: nat, k: nat): (x: nat)
    requires width > 0
    ensures x < width
  {
    if k < width then k else Column(width, k - width)
  }

  lemma {:induction false} AreaIsProduct(rows: nat, width: nat)
    ensures Area(rows, width) == rows * width
  {
    if rows > 0 {
      AreaIsProduct(rows - 1, width);
      assert rows * width == (rows - 1) * width + width;
    }
  }

  // The flat index as C computes it.
  method FlatIndex(width: nat, y: nat, x: nat) returns (k: nat)
    ensures k == Area(y, width) + x
  {
    AreaIsProduct(y, width);
    k := y * width + x;
  }

  // Row and column recover the place of a cell.
  lemma {:induction false} RowAndColumn(width: nat, y: nat, x: nat)
    requires x < width
    ensures Row(width, Area(y, width) + x) == y && Column(width, Area(y, width) + x) == x
  {
    if y > 0 {
      RowAndColumn(width, y - 1, x);
    }
  }

  lemma {:induction false} CellIsInside(rows: nat, width: nat, y: nat, x: nat)
    requires y < rows && x < width
    ensures Area(y, width) + x < Area(rows, width)
  {
    if y < rows - 1 { CellIsInside(rows - 1, width, y, x); }
  }

  // Every flat index of the rectangle is a cell of it.
  lemma {:induction false} IndexIsCell(rows: nat, width: nat, k: nat)
    requires width > 0 && k < Area(rows, width)
    ensures Row(width, k) < rows && k == Area(Row(width, k), width) + Column(width, k)
  {
    if k >= width {
      FirstRow(rows, width);
      IndexIsCell(rows - 1, width, k - width);
      FirstRow(Row(width, k), width);
    }
  }

  lemma {:induction false} FirstRow(rows: nat, width: nat)
    requires rows > 0
    ensures Area(rows, width) == width + Area(rows - 1, width)
  {
  }
}
