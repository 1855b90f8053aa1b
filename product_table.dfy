/** The state of the product table component and the handlers that overwrite it:
    the store's snapshot callback, the header click and the page change. */
module ProductTableView {
  import opened Products
  import opened Comparator
  import opened StableSort
  import opened Pagination

  /** What the store's value callback receives: no value (`null`) or the stored products. */
  datatype Option<T> = None | Some(value: T)

  class ProductTable {
    /** The sorted product list the table shows, page by page. */
    var products: seq<Product>
    /** The 1-based page on show. */
    var currentPage: int
    /** The active sort column and direction. */
    var sortOrder: SortOrder
    /** The value the store last delivered to the subscription. Re-subscribing, which
        happens whenever the sort order changes, delivers this value again. */
    var latestSnapshot: Option<seq<Product>>

    /** Whenever the store holds products, the table shows them sorted by the active order. */
    ghost predicate Valid()
      reads this
    {
      latestSnapshot.Some? ==> products == SortBy(latestSnapshot.value, sortOrder)
    }

    /** An empty table on page 1, sorted by price ascending, before the store has answered. */
    constructor ()
      ensures Valid()
      ensures products == [] && currentPage == 1 && sortOrder == InitialSortOrder
      ensures latestSnapshot == None
    {
      products := [];
      currentPage := 1;
      sortOrder := InitialSortOrder;
      latestSnapshot := None;
    }

    /** The value callback: a non-null snapshot replaces the list with its products sorted
        by the active order; a null one leaves the list as it was. */
    method OnSnapshot(data: Option<seq<Product>>)
      modifies this
      ensures Valid()
      ensures latestSnapshot == data
      ensures products == if data.Some? then SortBy(data.value, sortOrder) else old(products)
      ensures currentPage == old(currentPage) && sortOrder == old(sortOrder)
    {
      latestSnapshot := data;
      if data.Some? {
        products := SortBy(data.value, sortOrder);
      }
    }

    /** A click on a column header: the sort order follows the toggle rule, and the
        subscription made for the new order re-sorts what the store holds. */
    method HandleSort(column: Column)
      requires Valid()
      modifies this
      ensures Valid()
      ensures sortOrder == NextSortOrder(old(sortOrder), column)
      ensures latestSnapshot == old(latestSnapshot) && currentPage == old(currentPage)
      ensures products == if latestSnapshot.Some? then SortBy(latestSnapshot.value, sortOrder)
                          else old(products)
    {
      sortOrder := NextSortOrder(sortOrder, column);
      OnSnapshot(latestSnapshot);
    }

    /** Moves to `pageNumber` as it is, without checking it against the list. */
    method HandlePageChange(pageNumber: int)
      modifies this
      ensures currentPage == pageNumber
      ensures products == old(products) && sortOrder == old(sortOrder)
      ensures latestSnapshot == old(latestSnapshot)
    {
      currentPage := pageNumber;
    }

    /** The products on the current page. */
    function CurrentProducts(): (r: seq<Product>)
      reads this
      ensures |r| <= ProductsPerPage
      ensures currentPage >= 1 ==> r == products[Min((currentPage - 1) * ProductsPerPage, |products|)
                                                   ..Min(currentPage * ProductsPerPage, |products|)]
    {
      PageSlice(products, currentPage)
    }

    /** The Previous button: goes back one page unless it is disabled. */
    method ClickPrevious()
      modifies this
      ensures currentPage == if PrevDisabled(old(currentPage)) then old(currentPage) else old(currentPage) - 1
      ensures old(currentPage) >= 1 ==> currentPage >= 1
      ensures products == old(products) && sortOrder == old(sortOrder)
      ensures latestSnapshot == old(latestSnapshot)
    {
      if !PrevDisabled(currentPage) {
        HandlePageChange(currentPage - 1);
      }
    }

    /** The Next button: goes forward one page unless it is disabled, and from any page
        from 1 on it only ever leads to a page that shows products. */
    method ClickNext()
      modifies this
      ensures currentPage == if NextDisabled(old(currentPage), |products|) then old(currentPage)
                             else old(currentPage) + 1
      ensures old(currentPage) >= 1 ==> currentPage >= 1
      ensures old(currentPage) >= 1 && currentPage != old(currentPage) ==> CurrentProducts() != []
      ensures products == old(products) && sortOrder == old(sortOrder)
      ensures latestSnapshot == old(latestSnapshot)
    {
      if !NextDisabled(currentPage, |products|) {
        if currentPage >= 0 { NextDisabledIffNextPageEmpty(products, currentPage); }
        HandlePageChange(currentPage + 1);
      }
    }
  }

  /** After a snapshot, the list holds exactly the snapshot's products, ordered by the active
      order, with products of equal sort value in the snapshot's order. */
  lemma SnapshotShowsSortedProducts(t: ProductTable, data: seq<Product>, k: Key)
    requires t.Valid() && t.latestSnapshot == Some(data)
    ensures multiset(t.products) == multiset(data)
    ensures SortedBy(t.products, t.sortOrder)
    ensures WithKey(t.products, t.sortOrder.column, k) == WithKey(data, t.sortOrder.column, k)
  {
    SortByPermutation(data, t.sortOrder);
    SortBySorted(data, t.sortOrder);
    SortByStable(data, t.sortOrder, k);
  }

  /** A session: a snapshot arrives, the user pages forward and back and re-sorts. */
  method BrowseSession(data: seq<Product>)
  {
    var t := new ProductTable();
    t.OnSnapshot(Some(data));
    t.ClickPrevious();
    assert t.currentPage == 1;
    t.ClickNext();
    t.ClickNext();
    t.ClickPrevious();
    assert t.currentPage >= 1;
    t.HandleSort(Price);
    assert t.sortOrder == SortOrder(Price, Desc);
    t.OnSnapshot(None);
    t.HandleSort(Title);
    assert t.sortOrder == SortOrder(Title, Asc) && t.products == SortBy(data, SortOrder(Price, Desc));
  }
}
