/**
 * The product API's listing endpoint: a CORS preflight answer, the check of
 * the `limit` query parameter, and the manual offset/limit pagination of a
 * full table scan, with the `hasMore` and `nextOffset` hints of the reply.
 * The query parameters arrive as strings and are read with `parseInt`.
 */
module ProductListing {
  import opened Wrappers
  import opened Numerals
  import opened JsText

  /** The parts of the API Gateway event the handler reads. */
  datatype Event = Event(httpMethod: string, queryStringParameters: Option<map<string, string>>)

  /** What the table scan answers: its `Items` (possibly absent), or an error. */
  datatype Scan<T> = Scanned(items: Option<seq<T>>) | ScanError(message: string)

  /** The `pagination` object of a reply. */
  datatype Pagination = Pagination(limit: int, offset: Num, hasMore: bool, nextOffset: Num)

  /** The replies of the handler. */
  datatype Listing<T> =
    | Preflight
    | BadLimit
    | Failed(detalle: string)
    | Page(productos: seq<T>, count: nat, totalCount: nat, pagination: Option<Pagination>)
  {
    function StatusCode(): int {
      match this
      case Preflight => 200
      case BadLimit => 400
      case Failed(_) => 500
      case Page(_, _, _, _) => 200
    }

    /** The `message` or `mensaje` field of the body. */
    function Message(): string {
      match this
      case Preflight => "CORS preflight OK"
      case BadLimit => "El límite debe estar entre 1 y 100"
      case Failed(_) => "Error al listar productos"
      case Page(_, _, _, _) => "Productos listados exitosamente - Grupo 3"
    }
  }

  const MissingTable := "PRODUCTOS_TABLE environment variable is not set"

  /** JavaScript truthiness of an optional string. */
  predicate Present(s: Option<string>) {
    s.Some? && s.value != ""
  }

  /** `event.queryStringParameters || {}`. */
  function Query(event: Event): map<string, string> {
    event.queryStringParameters.GetOr(map[])
  }

  function Param(q: map<string, string>, key: string): Option<string> {
    if key in q then Some(q[key]) else None
  }

  /** `param ? parseInt(param) : null`. */
  function ParsedParam(param: Option<string>): Option<Num> {
    if Present(param) then Some(ParseInt(param.value)) else None
  }

  /** `queryParams.limit ? parseInt(queryParams.limit) : null`. */
  function LimitOf(q: map<string, string>): Option<Num> {
    ParsedParam(Param(q, "limit"))
  }

  /** `queryParams.offset ? parseInt(queryParams.offset) : 0`. */
  function OffsetOf(q: map<string, string>): Num {
    ParsedParam(Param(q, "offset")).GetOr(Int(0))
  }

  /** The limit is truthy: a number other than 0 and NaN. */
  predicate HasLimit(limit: Option<Num>) {
    limit.Some? && limit.value.Truthy()
  }

  /** `limit || 0`. */
  function LimitOrZero(limit: Option<Num>): int {
    if HasLimit(limit) then limit.value.value else 0
  }

  /** `limit && (limit < 1 || limit > 100)`. */
  predicate OutOfRange(limit: Option<Num>) {
    HasLimit(limit) && (limit.value.value < 1 || limit.value.value > 100)
  }

  /** `offset > 0`; NaN compares false. */
  predicate Positive(offset: Num) {
    offset.Int? && offset.value > 0
  }

  /** Number addition, NaN absorbing. */
  function Plus(a: Num, b: int): Num {
    if a.NaN? then NaN else Int(a.value + b)
  }

  function Min(a: int, b: int): int {
    if a <= b then a else b
  }

  /** The index `Array.prototype.slice` makes of a relative position: negative counts from the end. */
  function Relative(k: int, len: nat): (r: nat)
    ensures r <= len
  {
    if k < 0 then (if len + k < 0 then 0 else len + k) else Min(k, len)
  }

  /** `s.slice(start, end)`. */
  function Slice<T>(s: seq<T>, start: int, end: int): seq<T> {
    var from := Relative(start, |s|);
    var to := Relative(end, |s|);
    if from < to then s[from..to] else []
  }

  predicate TableSet(tableName: Option<string>) {
    Present(tableName)
  }

  /** `listarProductos`, with the environment's table name and the scan given as parameters. */
  function ListProducts<T>(event: Event, tableName: Option<string>, scan: Scan<T>): (l: Listing<T>)
    ensures l.Page? ==> event.httpMethod != "OPTIONS" && TableSet(tableName) && scan.Scanned?
  {
    if event.httpMethod == "OPTIONS" then Preflight
    else if !TableSet(tableName) then Failed(MissingTable)
    else Respond(LimitOf(Query(event)), OffsetOf(Query(event)), scan)
  }

  /** The reply once the query is parsed: the limit check, then the scan. */
  function Respond<T>(limit: Option<Num>, offset: Num, scan: Scan<T>): (l: Listing<T>)
    ensures l.Page? <==> !OutOfRange(limit) && scan.Scanned?
    ensures l.Failed? <==> !OutOfRange(limit) && scan.ScanError?
  {
    if OutOfRange(limit) then BadLimit
    else
      match scan
      case ScanError(message) => Failed(message)
      case Scanned(items) => Paginate(items.GetOr([]), limit, offset)
  }

  /** The page of the scanned items `all`, and its pagination hints. */
  function Paginate<T>(all: seq<T>, limit: Option<Num>, offset: Num): (l: Listing<T>)
    ensures l.Page? && l.count == |l.productos| <= |all| && l.totalCount == |all|
  {
    var skipped := if Positive(offset) then Slice(all, offset.value, |all|) else all;
    var productos := if HasLimit(limit) then Slice(skipped, 0, limit.value.value) else skipped;
    var hasMore := HasLimit(limit) && offset.Int? && offset.value + limit.value.value < |all|;
    var nextOffset := Plus(offset, LimitOrZero(limit));
    var pagination :=
      if HasLimit(limit) || Positive(offset)
      then Some(Pagination(if HasLimit(limit) then limit.value.value else |all|, offset, hasMore, nextOffset))
      else None;
    Page(productos, |productos|, |all|, pagination)
  }

  // ---------------------------------------------------------------------------
  // Properties

  /** A preflight request is answered before anything else is looked at. */
  lemma PreflightIgnoresEverything<T>(event: Event, t1: Option<string>, t2: Option<string>, s1: Scan<T>, s2: Scan<T>)
    requires event.httpMethod == "OPTIONS"
    ensures ListProducts(event, t1, s1) == ListProducts(event, t2, s2) == Preflight
  {
  }

  /** A missing table name is a 500, whatever the query says, checked before the limit. */
  lemma MissingTableFailsFirst<T>(event: Event, tableName: Option<string>, scan: Scan<T>)
    requires event.httpMethod != "OPTIONS" && !TableSet(tableName)
    ensures var r := ListProducts(event, tableName, scan);
            r == Failed(MissingTable) && r.StatusCode() == 500
  {
  }

  /**
   * The reply is a 400 exactly when the parsed limit is an integer below 0 or
   * above 100: a limit of 0 (or one that is not a number) passes the check.
   */
  lemma BadLimitIff<T>(event: Event, tableName: Option<string>, scan: Scan<T>)
    requires event.httpMethod != "OPTIONS" && TableSet(tableName)
    ensures ListProducts(event, tableName, scan).StatusCode() == 400 <==>
            var limit := LimitOf(Query(event));
            limit.Some? && limit.value.Int? && (limit.value.value < 0 || limit.value.value > 100)
  {
  }

  /** A rejected limit is answered without the scan. */
  lemma BadLimitSkipsScan<T>(event: Event, tableName: Option<string>, s1: Scan<T>, s2: Scan<T>)
    requires event.httpMethod != "OPTIONS" && TableSet(tableName)
    requires OutOfRange(LimitOf(Query(event)))
    ensures ListProducts(event, tableName, s1) == ListProducts(event, tableName, s2) == BadLimit
  {
  }

  /** A failing scan is a 500 carrying the scan's error message. */
  lemma ScanErrorIsReported<T>(event: Event, tableName: Option<string>, message: string)
    requires event.httpMethod != "OPTIONS" && TableSet(tableName)
    requires !OutOfRange(LimitOf(Query(event)))
    ensures ListProducts<T>(event, tableName, ScanError(message)) == Failed(message)
  {
  }

  /** "No limit": a `limit` that parses to 0 or NaN gives the same reply as no `limit` at all. */
  lemma ZeroLimitMeansNoLimit<T>(method_: string, q: map<string, string>, tableName: Option<string>, scan: Scan<T>)
    requires "limit" in q && !ParseInt(q["limit"]).Truthy()
    ensures ListProducts(Event(method_, Some(q)), tableName, scan) ==
            ListProducts(Event(method_, Some(q - {"limit"})), tableName, scan)
  {
    var q' := q - {"limit"};
    var e1, e2 := Event(method_, Some(q)), Event(method_, Some(q'));
    assert Query(e1) == q && Query(e2) == q';
    if method_ != "OPTIONS" && TableSet(tableName) {
      assert Param(q', "offset") == Param(q, "offset");
      assert Param(q', "limit") == None;
      assert LimitOf(q') == None && OffsetOf(q') == OffsetOf(q);
      FalsyLimitsAgree(LimitOf(q), None, OffsetOf(q), scan);
      assert ListProducts(e1, tableName, scan) == Respond(LimitOf(q), OffsetOf(q), scan);
      assert ListProducts(e2, tableName, scan) == Respond(LimitOf(q'), OffsetOf(q'), scan);
    }
  }

  /** The reply depends on a falsy limit not at all. */
  lemma FalsyLimitsAgree<T>(l1: Option<Num>, l2: Option<Num>, offset: Num, scan: Scan<T>)
    requires !HasLimit(l1) && !HasLimit(l2)
    ensures Respond(l1, offset, scan) == Respond(l2, offset, scan)
  {
  }

  /** Once the method, the table and the limit pass, the reply is the page of the scanned items. */
  lemma ScannedItemsArePaginated<T>(event: Event, tableName: Option<string>, items: Option<seq<T>>)
    requires event.httpMethod != "OPTIONS" && TableSet(tableName)
    requires !OutOfRange(LimitOf(Query(event)))
    ensures ListProducts(event, tableName, Scanned(items)) ==
            Paginate(items.GetOr([]), LimitOf(Query(event)), OffsetOf(Query(event)))
  {
  }

  /** Where the page starts in the scanned items: a positive offset, clipped to the end; otherwise 0. */
  function Start(offset: Num, n: nat): (s: nat)
    ensures s <= n
    ensures Positive(offset) ==> s == Min(offset.value, n)
    ensures !Positive(offset) ==> s == 0
  {
    if Positive(offset) then Min(offset.value, n) else 0
  }

  /**
   * The page is the window of the scanned items that starts at the clipped
   * offset and holds at most `limit` items (all the rest when there is no
   * limit); `count` is its length and `totalCount` the number of items.
   */
  lemma PageIsWindow<T>(all: seq<T>, limit: Option<Num>, offset: Num)
    requires !OutOfRange(limit)
    ensures var r := Paginate(all, limit, offset);
            var start := Start(offset, |all|);
            var end := if HasLimit(limit) then Min(start + limit.value.value, |all|) else |all|;
            r.Page? && start <= end && r.productos == all[start..end] &&
            r.count == |r.productos| && r.totalCount == |all| &&
            (HasLimit(limit) ==> r.count <= limit.value.value)
  {
    var start := Start(offset, |all|);
    var skipped := if Positive(offset) then Slice(all, offset.value, |all|) else all;
    assert skipped == all[start..];
    if HasLimit(limit) {
      var end := Min(start + limit.value.value, |all|);
      assert Slice(skipped, 0, limit.value.value) == all[start..end];
    }
  }

  /** The `pagination` object is present exactly when a limit applies or the offset is positive. */
  lemma PaginationPresentIff<T>(all: seq<T>, limit: Option<Num>, offset: Num)
    ensures var r := Paginate(all, limit, offset);
            r.Page? &&
            (r.pagination.Some? <==> HasLimit(limit) || Positive(offset)) &&
            (r.pagination.Some? ==>
               r.pagination.value.offset == offset &&
               r.pagination.value.limit == (if HasLimit(limit) then limit.value.value else |all|) &&
               r.pagination.value.nextOffset == Plus(offset, LimitOrZero(limit)) &&
               (!HasLimit(limit) ==> !r.pagination.value.hasMore))
  {
  }

  /**
   * For an offset that is a non-negative integer, `hasMore` says exactly
   * whether scanned items remain after the page.
   */
  lemma HasMoreIffItemsRemain<T>(all: seq<T>, limit: Option<Num>, offset: Num)
    requires !OutOfRange(limit)
    requires offset.Int? && offset.value >= 0
    ensures var r := Paginate(all, limit, offset);
            r.Page? &&
            ((r.pagination.Some? && r.pagination.value.hasMore) <==> Start(offset, |all|) + r.count < |all|)
  {
    PageIsWindow(all, limit, offset);
  }

  /**
   * A negative offset skips nothing, yet `hasMore` is computed from it: with
   * a limit that covers all items, the whole table is returned and more is
   * still announced.
   */
  lemma NegativeOffsetAnnouncesMore<T>(all: seq<T>, limit: Option<Num>, offset: Num)
    requires !OutOfRange(limit) && HasLimit(limit)
    requires offset.Int? && offset.value < 0
    requires |all| <= limit.value.value < |all| - offset.value
    ensures var r := Paginate(all, limit, offset);
            r.Page? && r.productos == all && r.pagination.Some? && r.pagination.value.hasMore
  {
    PageIsWindow(all, limit, offset);
    assert all[0..|all|] == all;
  }

  /**
   * An offset that is not a number skips nothing and never announces more,
   * even when the limit cuts the page short; its `nextOffset` is NaN too.
   */
  lemma NaNOffsetHidesMore<T>(all: seq<T>, limit: Option<Num>)
    requires !OutOfRange(limit) && HasLimit(limit)
    requires limit.value.value < |all|
    ensures var r := Paginate(all, limit, NaN);
            r.Page? && r.productos == all[..limit.value.value] &&
            r.pagination.Some? && !r.pagination.value.hasMore && r.pagination.value.nextOffset == NaN
  {
    PageIsWindow(all, limit, NaN);
  }

  // ---------------------------------------------------------------------------
  // Following the pages

  /** A query whose `limit` parses to an accepted, non-zero value. */
  predicate PagedQuery(q: map<string, string>) {
    "limit" in q && ParseInt(q["limit"]).Int? && 1 <= ParseInt(q["limit"]).value <= 100
  }

  /** The request for the page at offset `o`, written in decimal. */
  function PageRequest(q: map<string, string>, o: nat): Event {
    Event("GET", Some(q["offset" := NatToString(o)]))
  }

  /** The reply to a page request is the page of the scanned items at offset `o` under the query's limit. */
  lemma PageRequestIsPaginated<T>(q: map<string, string>, tableName: Option<string>, all: seq<T>, o: nat)
    requires PagedQuery(q) && TableSet(tableName)
    ensures ListProducts(PageRequest(q, o), tableName, Scanned(Some(all))) ==
            Paginate(all, Some(ParseInt(q["limit"])), Int(o))
  {
    PageRequestParses(q, o);
    ScannedItemsArePaginated(PageRequest(q, o), tableName, Some(all));
  }

  /** The page request keeps the query's limit and carries the offset `o`. */
  lemma PageRequestParses(q: map<string, string>, o: nat)
    requires PagedQuery(q)
    ensures LimitOf(Query(PageRequest(q, o))) == Some(ParseInt(q["limit"]))
    ensures OffsetOf(Query(PageRequest(q, o))) == Int(o)
  {
    var q' := q["offset" := NatToString(o)];
    assert Query(PageRequest(q, o)) == q';
    assert Param(q', "limit") == Param(q, "limit") == Some(q["limit"]);
    assert Param(q', "offset") == Some(NatToString(o));
    DecimalParamParses(o);
  }

  lemma DecimalParamParses(o: nat)
    ensures ParsedParam(Some(NatToString(o))) == Some(Int(o))
  {
    ParseIntOfDecimal(o);
  }

  /** The page at a non-negative offset `o` with an accepted limit. */
  lemma WindowAt<T>(all: seq<T>, limit: int, o: nat)
    requires 1 <= limit <= 100 && o <= |all|
    ensures var r := Paginate(all, Some(Int(limit)), Int(o));
            r.Page? && r.productos == all[o..Min(o + limit, |all|)] &&
            r.pagination == Some(Pagination(limit, Int(o), o + limit < |all|, Int(o + limit)))
  {
    PageIsWindow(all, Some(Int(limit)), Int(o));
  }

  /**
   * What a client collects by asking for the page at offset `o` and then
   * following `nextOffset` for as long as `hasMore` is announced, page by
   * page as `CollectFollowsPages` shows; by `PageRequestIsPaginated`, each of
   * these pages is the reply to `PageRequest(q, o)` for a query `q` whose
   * limit parses to `limit`.
   */
  function Collect<T>(all: seq<T>, limit: int, o: nat): seq<T>
    requires 1 <= limit <= 100 && o <= |all|
    decreases |all| - o
  {
    if o + limit < |all| then all[o..o + limit] + Collect(all, limit, o + limit) else all[o..]
  }

  /** Each step of `Collect` is the page served at its offset, followed by the pages its hints lead to. */
  lemma CollectFollowsPages<T>(all: seq<T>, limit: int, o: nat)
    requires 1 <= limit <= 100 && o <= |all|
    ensures var r := Paginate(all, Some(Int(limit)), Int(o));
            r.Page? && r.pagination.Some? && r.pagination.value.nextOffset == Int(o + limit) &&
            Collect(all, limit, o) ==
              r.productos + (if r.pagination.value.hasMore then Collect(all, limit, o + limit) else [])
  {
    WindowAt(all, limit, o);
    if o + limit >= |all| {
      assert all[o..Min(o + limit, |all|)] == all[o..];
    }
  }

  /** Following the pages from offset `o` yields every item from `o` on, once each and in scan order. */
  lemma {:induction false} CollectCoversRest<T>(all: seq<T>, limit: int, o: nat)
    requires 1 <= limit <= 100 && o <= |all|
    ensures Collect(all, limit, o) == all[o..]
    decreases |all| - o
  {
    if o + limit < |all| {
      CollectCoversRest(all, limit, o + limit);
      assert all[o..o + limit] + all[o + limit..] == all[o..];
    }
  }

  /** Starting from offset 0, a client receives the whole table. */
  lemma CollectFromZeroIsEverything<T>(q: map<string, string>, all: seq<T>)
    requires PagedQuery(q)
    ensures Collect(all, ParseInt(q["limit"]).value, 0) == all
  {
    CollectCoversRest(all, ParseInt(q["limit"]).value, 0);
  }
}
