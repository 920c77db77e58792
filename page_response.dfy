/** The paginated response of the common library: one page of content together with the
    page arithmetic a client uses to navigate. */
module Pagination {

  datatype PageResponse<T> = PageResponse(
    content: seq<T>,
    page: int,
    size: int,
    totalElements: int,
    totalPages: int,
    first: bool,
    last: bool)

  /** `Math.ceil(a / b)` for a positive divisor, in integers. */
  function CeilDiv(a: int, b: int): (q: int)
    requires b > 0
    ensures (q - 1) * b < a <= q * b
  {
    var d := (-a) / b;
    assert -a == d * b + (-a) % b;
    -d
  }

  /** `PageResponse.of`: the number of pages is the ceiling of totalElements / size when
      the size is positive and 0 otherwise; `first` is page 0 and `last` any page at or
      past the final one. */
  function Of<T>(content: seq<T>, page: int, size: int, totalElements: int): (r: PageResponse<T>)
    ensures r.content == content && r.page == page && r.size == size && r.totalElements == totalElements
    ensures size <= 0 ==> r.totalPages == 0
    ensures size > 0 ==> (r.totalPages - 1) * size < totalElements <= r.totalPages * size
    ensures r.first <==> page == 0
    ensures r.last <==> page >= r.totalPages - 1
  {
    var totalPages := if size > 0 then CeilDiv(totalElements, size) else 0;
    PageResponse(content, page, size, totalElements, totalPages, page == 0, page >= totalPages - 1)
  }

  lemma MulCancel(a: int, b: int, c: int)
    requires c > 0 && a * c < b * c
    ensures a < b
  {
  }

  /** The page count is the least number of pages of `size` that hold every element. */
  lemma TotalPagesIsLeast<T>(content: seq<T>, page: int, size: int, totalElements: int, n: int)
    requires size > 0 && totalElements <= n * size
    ensures Of(content, page, size, totalElements).totalPages <= n
  {
    var tp := Of(content, page, size, totalElements).totalPages;
    MulCancel(tp - 1, n, size);
  }

  /** With no elements there are no pages, and every page from -1 on counts as the last. */
  lemma EmptyResultIsLast<T>(content: seq<T>, page: int, size: int)
    requires page >= -1
    ensures Of(content, page, size, 0).totalPages == 0
    ensures Of(content, page, size, 0).last
  {
    var r := Of(content, page, size, 0);
    if size > 0 {
      assert (r.totalPages - 1) * size < 0 <= r.totalPages * size;
    }
  }
}
