/** Row-by-row numbering of the places of a rectangle. */
module RowOrder {
  /** The number of the first place of row `y`, with `width` places in a row. */
  function RowStart(width: nat, y: nat): nat {
    if y == 0 then 0 else RowStart(width, y - 1) + width
  }

  lemma {:induction false} RowStartIsProduct(width: nat, y: nat)
    ensures RowStart(width, y) == y * width
  {
    if y > 0 {
      RowStartIsProduct(width, y - 1);
    }
  }

  lemma {:induction false} RowsAscend(width: nat, y: nat, y': nat)
    requires y < y'
    ensures RowStart(width, y) + width <= RowStart(width, y')
  {
    if y + 1 < y' {
      RowsAscend(width, y, y' - 1);
    }
  }
}
