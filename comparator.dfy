/** The active sort specification, the rule a header click applies to it, and the
    three-way comparator the snapshot handler sorts with. */
module Comparator {
  import opened Products

  datatype Direction = Asc | Desc

  datatype SortOrder = SortOrder(column: Column, direction: Direction)

  /** The sort order the table starts with: by price, ascending. */
  const InitialSortOrder := SortOrder(Price, Asc)

  /** A click on `column`: the active ascending column turns descending, and any other
      click makes `column` the active column, ascending. */
  function NextSortOrder(prev: SortOrder, column: Column): (r: SortOrder)
    ensures r.column == column
    ensures r.direction == Desc <==> prev == SortOrder(column, Asc)
  {
    SortOrder(column, if prev.column == column && prev.direction == Asc then Desc else Asc)
  }

  /** Clicks on a column that is not active: ascending, then descending, then ascending. */
  lemma ClicksOnNewColumn(prev: SortOrder, column: Column)
    requires prev.column != column
    ensures NextSortOrder(prev, column) == SortOrder(column, Asc)
    ensures NextSortOrder(NextSortOrder(prev, column), column) == SortOrder(column, Desc)
    ensures NextSortOrder(NextSortOrder(NextSortOrder(prev, column), column), column) == SortOrder(column, Asc)
  {
  }

  /** The multiplier `direction` of the source: 1 ascending, -1 descending. */
  function Sign(d: Direction): (r: int)
    ensures r == 1 || r == -1
    ensures r == 1 <==> d == Asc
  {
    if d == Asc then 1 else -1
  }

  /** The comparator: negative when `a` belongs before `b` in `order`, positive when after,
      zero exactly when the two have the same value in the sort column. */
  function Compare(a: Product, b: Product, order: SortOrder): (r: int)
    ensures -1 <= r <= 1
    ensures r == 0 <==> KeyOf(a, order.column) == KeyOf(b, order.column)
    ensures r < 0 <==> if order.direction == Asc then KeyLess(KeyOf(a, order.column), KeyOf(b, order.column))
                                                 else KeyLess(KeyOf(b, order.column), KeyOf(a, order.column))
  {
    var x, y := KeyOf(a, order.column), KeyOf(b, order.column);
    var d := Sign(order.direction);
    KeyLessTrichotomy(x, y);
    if KeyLess(x, y) then -d else if KeyLess(y, x) then d else 0
  }

  /** Descending comparison is ascending comparison negated. */
  lemma CompareDescNegatesAsc(a: Product, b: Product, column: Column)
    ensures Compare(a, b, SortOrder(column, Desc)) == -Compare(a, b, SortOrder(column, Asc))
  {
  }

  /** Swapping the operands negates the comparison. */
  lemma CompareAntisymmetric(a: Product, b: Product, order: SortOrder)
    ensures Compare(b, a, order) == -Compare(a, b, order)
  {
    KeyLessTrichotomy(KeyOf(a, order.column), KeyOf(b, order.column));
  }

  /** "Not after" is transitive, so the comparator is a consistent total preorder. */
  lemma CompareTransitive(a: Product, b: Product, c: Product, order: SortOrder)
    requires Compare(a, b, order) <= 0 && Compare(b, c, order) <= 0
    ensures Compare(a, c, order) <= 0
  {
    var x, y, z := KeyOf(a, order.column), KeyOf(b, order.column), KeyOf(c, order.column);
    KeyLessTrichotomy(x, y);
    KeyLessTrichotomy(y, z);
    KeyLessTrichotomy(x, z);
    if order.direction == Asc {
      KeyLessTransitive(z, x, y);
      KeyLessTransitive(y, z, x);
    } else {
      KeyLessTransitive(x, z, y);
      KeyLessTransitive(y, x, z);
    }
  }
}
