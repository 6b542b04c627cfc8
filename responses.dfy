/** The response envelope and its builders: `ApiResponse`, the pagination
    metadata of `ResponseBuilder.paginated`, and `success` / `error`. */
module Responses {
  import opened Common
  import opened Exceptions

  /** A JavaScript number as `Math.ceil(a / b)` on integers can produce it. */
  datatype JsNumber = Finite(n: int) | Infinity | NegInfinity | NaN

  /** JavaScript's `<` between an integer and such a number (false against NaN). */
  predicate LessThan(x: int, y: JsNumber) {
    match y
    case Finite(n) => x < n
    case Infinity => true
    case NegInfinity => false
    case NaN => false
  }

  /** The mathematical ceiling of a / b. */
  function CeilDiv(a: int, b: int): (r: int)
    requires b != 0
    ensures b > 0 ==> (r - 1) * b < a <= r * b
    ensures b < 0 ==> r * b <= a < (r - 1) * b
  {
    if b > 0 then
      var q := (-a) / b;
      assert -a == q * b + (-a) % b;
      assert -q * b == a + (-a) % b;
      -q
    else
      var q := a / (-b);
      assert a == q * (-b) + a % (-b);
      assert -q * b == a - a % (-b);
      -q
  }

  /** `Math.ceil(a / b)`: division by zero gives an infinity, or NaN for 0 / 0. */
  function CeilDivide(a: int, b: int): (r: JsNumber)
    ensures b != 0 ==> r == Finite(CeilDiv(a, b))
    ensures b == 0 ==> (r == if a > 0 then Infinity else if a < 0 then NegInfinity else NaN)
  {
    if b != 0 then Finite(CeilDiv(a, b))
    else if a > 0 then Infinity
    else if a < 0 then NegInfinity
    else NaN
  }

  datatype PaginationMeta = PaginationMeta(page: int, limit: int, totalItems: int, totalPages: JsNumber,
                                           hasNextPage: bool, hasPrevPage: bool)

  datatype PaginatedResponse<T> = PaginatedResponse(data: seq<T>, meta: PaginationMeta)

  /** The response envelope; `timestamp` is the clock reading it was built at. */
  datatype ApiResponse<T> = ApiResponse(status: int, success: bool, data: Option<T>, message: Option<string>,
                                        error: Option<string>, code: Option<string>, details: Option<Details>,
                                        timestamp: Time, path: Option<string>)

  /** `ResponseBuilder.paginated`: the data and the request's numbers pass through;
      for a positive limit there are just enough pages to hold every item, and
      the page flags compare the page with the page count. */
  function Paginated<T>(data: seq<T>, page: int, limit: int, totalItems: int): (r: PaginatedResponse<T>)
    ensures r.data == data
    ensures r.meta.page == page && r.meta.limit == limit && r.meta.totalItems == totalItems
    ensures limit > 0 ==> r.meta.totalPages.Finite?
                          && (r.meta.totalPages.n - 1) * limit < totalItems <= r.meta.totalPages.n * limit
    ensures limit > 0 ==> (r.meta.hasNextPage <==> page < r.meta.totalPages.n)
    ensures r.meta.hasPrevPage <==> page > 1
  {
    var totalPages := CeilDivide(totalItems, limit);
    PaginatedResponse(data, PaginationMeta(page, limit, totalItems, totalPages,
                                           LessThan(page, totalPages), page > 1))
  }

  /** With no items and a positive limit there are no pages, so no next page
      from any page at or after the start; with limit 0 the page count is NaN and
      there is never a next page. */
  lemma PaginatedEmpty<T>(data: seq<T>, page: int, limit: int)
    requires limit >= 0 && page >= 0
    ensures var r := Paginated(data, page, limit, 0);
            && !r.meta.hasNextPage
            && (limit > 0 ==> r.meta.totalPages == Finite(0))
            && (limit == 0 ==> r.meta.totalPages == NaN)
  {
    if limit > 0 {
      assert CeilDiv(0, limit) == 0;
    }
  }

  /** `ResponseBuilder.success`: a successful envelope carrying the data, with
      status 200 unless one is given. */
  function Success<T>(data: T, status: Option<int>, message: Option<string>, now: Time): (r: ApiResponse<T>)
    ensures r.success && r.data == Some(data) && r.message == message && r.timestamp == now
    ensures status.None? ==> r.status == 200
    ensures status.Some? ==> r.status == status.value
    ensures r.error.None? && r.code.None? && r.details.None? && r.path.None?
  {
    ApiResponse(OrDefault(status, 200), true, Some(data), message, None, None, None, now, None)
  }

  /** `ResponseBuilder.error`: a failed envelope, status 500 unless one is
      given, that never carries the `data` argument. */
  function Error<T>(message: string, error: string, data: Option<T>, status: Option<int>, path: Option<string>,
                    now: Time): (r: ApiResponse<T>)
    ensures !r.success && r.data.None?
    ensures r.message == Some(message) && r.error == Some(error) && r.path == path && r.timestamp == now
    ensures status.None? ==> r.status == 500
    ensures status.Some? ==> r.status == status.value
  {
    ApiResponse(OrDefault(status, 500), false, None, Some(message), Some(error), None, None, now, path)
  }
}
