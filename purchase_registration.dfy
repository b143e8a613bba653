/**
 * The purchase API's `registrar_compra` handler: every requested product line
 * is validated, its stock checked and decremented in the product table, one
 * line at a time, and only when every line passed is the purchase written to
 * the purchase table.
 *
 * The two tables are the state of a `PurchaseApi` object. The first failing
 * line ends the request: the decrements of the lines before it stay applied.
 * The token check, the purchase identifier, the clock and the success of the
 * final write are parameters.
 */
module PurchaseRegistration {
  import opened Wrappers

  /** A row of the product table; each attribute may be absent. */
  datatype StoredProduct = StoredProduct(nombre: Option<string>, precio: Option<real>, cantidad: Option<int>)

  /** The product table, by `codigo`. */
  type Table = map<string, StoredProduct>

  /** One element of the request's `productos` list: its `codigo` and `cantidad`, each possibly absent. */
  datatype RequestLine = RequestLine(codigo: Option<string>, cantidad: Option<int>)

  /** One line of the recorded purchase. */
  datatype ConfirmedLine = ConfirmedLine(codigo: string, nombre: string, precioUnitario: real, cantidad: int)

  /** The purchase record written to the purchase table. */
  datatype Compra = Compra(compraId: string, userId: string, tenantId: string, productos: seq<ConfirmedLine>, fecha: string)

  /** The token table's entry for the caller's token; its attributes may be absent. */
  datatype TokenData = TokenData(userId: Option<string>, tenantId: Option<string>)

  /** What the token middleware answers: the token's data, or the error reply to send back. */
  datatype TokenCheck = Accepted(datos: TokenData) | Rejected(statusCode: int, mensaje: string)

  /** The request body: not JSON at all, or its `productos` list (`[]` when the key is absent). */
  datatype Body = Unparsable | Parsed(productos: seq<RequestLine>)

  datatype Event = Event(httpMethod: Option<string>, body: Body)

  /** Why a line ended the request. */
  datatype Failure =
    | InvalidLine(line: RequestLine)   // 400: no `codigo`, or a `cantidad` of 0 or less
    | UnknownProduct(codigo: string)   // 404
    | OutOfStock(codigo: string)       // 400
    | MissingAttribute(codigo: string) // 500: the stored product has no `nombre` or `precio`

  datatype Response =
    | Preflight
    | Unauthorized(status: int, mensaje: string)
    | NoProducts
    | LineFailed(failure: Failure)
    | ServerError(error: string)
    | Registered(compraId: string)
  {
    function StatusCode(): int {
      match this
      case Preflight => 200
      case Unauthorized(status, _) => status
      case NoProducts => 400
      case LineFailed(f) =>
        (match f
         case InvalidLine(_) => 400
         case UnknownProduct(_) => 404
         case OutOfStock(_) => 400
         case MissingAttribute(_) => 500)
      case ServerError(_) => 500
      case Registered(_) => 200
    }
  }

  // ---------------------------------------------------------------------------
  // One line

  /** `p.get('cantidad', 1)`. */
  function Quantity(line: RequestLine): int {
    line.cantidad.GetOr(1)
  }

  /** The line's code, `""` when it has none. */
  function Code(line: RequestLine): string {
    line.codigo.GetOr("")
  }

  /** `not codigo or cantidad <= 0` is false. */
  predicate ValidLine(line: RequestLine) {
    Code(line) != "" && Quantity(line) > 0
  }

  /** `item.get('cantidad', 0)` for the product with code `c`; an unknown product holds none. */
  function Stock(table: Table, c: string): int {
    if c in table then table[c].cantidad.GetOr(0) else 0
  }

  /** The product exists and carries the `nombre` and `precio` a confirmed line copies. */
  predicate Known(table: Table, c: string) {
    c in table && table[c].nombre.Some? && table[c].precio.Some?
  }

  /** The outcome of one line: its confirmed form, or the failure; and the product table after it. */
  datatype Step = Confirmed(line: ConfirmedLine, table: Table) | Refused(failure: Failure, table: Table)

  /**
   * One iteration of the loop: the validation, the lookup, the stock check,
   * the decrement, and the copy of the stored name and price. A stored
   * product without `nombre` or `precio` fails after its decrement.
   */
  function LineStep(table: Table, line: RequestLine): (s: Step)
    ensures s.table.Keys == table.Keys
    ensures forall c :: c in table && s.table[c] != table[c] ==> ValidLine(line) && c == Code(line)
  {
    if !ValidLine(line) then Refused(InvalidLine(line), table)
    else
      var codigo, cantidad := Code(line), Quantity(line);
      if codigo !in table then Refused(UnknownProduct(codigo), table)
      else
        var item := table[codigo];
        if Stock(table, codigo) < cantidad then Refused(OutOfStock(codigo), table)
        else
          var after := table[codigo := item.(cantidad := Some(Stock(table, codigo) - cantidad))];
          if item.nombre.None? || item.precio.None? then Refused(MissingAttribute(codigo), after)
          else Confirmed(ConfirmedLine(codigo, item.nombre.value, item.precio.value, cantidad), after)
  }

  /**
   * A line is refused, in this order, when it is invalid, when its product
   * does not exist and when the stock is short, and then the table is left
   * as it was; otherwise the product's stock drops by the quantity, nothing
   * else in the table changes, and the line is confirmed exactly when the
   * product has a name and a price, which the confirmed line copies.
   */
  lemma LineStepEffect(table: Table, line: RequestLine)
    ensures var s, c, q := LineStep(table, line), Code(line), Quantity(line);
            (!ValidLine(line) ==> s == Refused(InvalidLine(line), table)) &&
            (ValidLine(line) && c !in table ==> s == Refused(UnknownProduct(c), table)) &&
            (ValidLine(line) && c in table && Stock(table, c) < q ==> s == Refused(OutOfStock(c), table))
    ensures var s, c, q := LineStep(table, line), Code(line), Quantity(line);
            ValidLine(line) && c in table && Stock(table, c) >= q ==>
              s.table.Keys == table.Keys &&
              Stock(s.table, c) == Stock(table, c) - q >= 0 &&
              s.table[c].nombre == table[c].nombre && s.table[c].precio == table[c].precio &&
              (forall other :: other in table && other != c ==> s.table[other] == table[other]) &&
              (s.Confirmed? <==> Known(table, c))
    ensures var s, c := LineStep(table, line), Code(line);
            s.Confirmed? ==>
              s.line == ConfirmedLine(c, table[c].nombre.value, table[c].precio.value, Quantity(line))
  {
  }

  // ---------------------------------------------------------------------------
  // The loop

  /** The loop's result: the confirmed lines, the failure that ended it if any, the product table after it. */
  datatype Checkout = Checkout(confirmed: seq<ConfirmedLine>, failure: Option<Failure>, table: Table)

  /** The loop over the requested lines, in order, stopping at the first failure. */
  function RunCheckout(table: Table, lines: seq<RequestLine>): Checkout
    decreases |lines|
  {
    if lines == [] then Checkout([], None, table)
    else
      var n := |lines| - 1;
      var prev := RunCheckout(table, lines[..n]);
      if prev.failure.Some? then prev
      else
        match LineStep(prev.table, lines[n])
        case Refused(f, after) => Checkout(prev.confirmed, Some(f), after)
        case Confirmed(l, after) => Checkout(prev.confirmed + [l], None, after)
  }

  /** The total quantity the lines ask of code `c`. */
  function Requested(lines: seq<RequestLine>, c: string): int {
    if lines == [] then 0
    else Requested(lines[..|lines| - 1], c) + (if Code(lines[|lines| - 1]) == c then Quantity(lines[|lines| - 1]) else 0)
  }

  /**
   * The request can be met: every line is valid and names a product with a
   * name and a price, and no requested product is asked for more in total
   * than it holds.
   */
  predicate Satisfiable(table: Table, lines: seq<RequestLine>) {
    forall i :: 0 <= i < |lines| ==>
      ValidLine(lines[i]) && Known(table, Code(lines[i])) &&
      Requested(lines, Code(lines[i])) <= Stock(table, Code(lines[i]))
  }

  /** The product table after the decrements of lines that all passed: each stock less what the lines asked of it. */
  predicate Decremented(before: Table, after: Table, lines: seq<RequestLine>) {
    after.Keys == before.Keys &&
    (forall c :: c in before ==> Stock(after, c) == Stock(before, c) - Requested(lines, c)) &&
    (forall c :: c in before ==> after[c].nombre == before[c].nombre && after[c].precio == before[c].precio)
  }

  /** Once a prefix of the request has failed, the whole request ends as that prefix did. */
  lemma {:induction false} FailurePersists(table: Table, lines: seq<RequestLine>, k: nat)
    requires k <= |lines| && RunCheckout(table, lines[..k]).failure.Some?
    ensures RunCheckout(table, lines) == RunCheckout(table, lines[..k])
    decreases |lines| - k
  {
    if k < |lines| {
      assert lines[..k + 1][..k] == lines[..k];
      FailurePersists(table, lines, k + 1);
    } else {
      assert lines[..k] == lines;
    }
  }

  /** A request whose lines all passed has applied exactly their decrements, and confirmed one line per line. */
  lemma {:induction false} PassedLinesAreDecremented(table: Table, lines: seq<RequestLine>)
    requires RunCheckout(table, lines).failure.None?
    ensures Decremented(table, RunCheckout(table, lines).table, lines)
    ensures forall i :: 0 <= i < |lines| ==> ValidLine(lines[i]) && Known(table, Code(lines[i]))
    ensures |RunCheckout(table, lines).confirmed| == |lines|
    ensures forall i :: 0 <= i < |lines| ==> Stock(RunCheckout(table, lines).table, Code(lines[i])) >= 0
  {
    if lines != [] {
      var n := |lines| - 1;
      var prefix := lines[..n];
      PassedLinesAreDecremented(table, prefix);
      var prev := RunCheckout(table, prefix);
      var line := lines[n];
      forall i | 0 <= i < |lines|
        ensures ValidLine(lines[i]) && Known(table, Code(lines[i]))
        ensures Stock(RunCheckout(table, lines).table, Code(lines[i])) >= 0
      {
        if i < n { assert lines[i] == prefix[i]; }
      }
    }
  }

  /**
   * The request passes exactly when every line is valid and names a product
   * with a name and a price, and no product is asked for more in total than
   * its stock: the order of the lines does not matter for success.
   */
  lemma {:induction false} CheckoutSucceedsIff(table: Table, lines: seq<RequestLine>)
    ensures RunCheckout(table, lines).failure.None? <==> Satisfiable(table, lines)
  {
    if RunCheckout(table, lines).failure.None? {
      PassedLinesAreDecremented(table, lines);
    } else if lines != [] && Satisfiable(table, lines) {
      var n := |lines| - 1;
      var prefix := lines[..n];
      var line := lines[n];
      var code := Code(line);
      assert Satisfiable(table, prefix) by {
        forall i | 0 <= i < |prefix|
          ensures ValidLine(prefix[i]) && Known(table, Code(prefix[i]))
          ensures Requested(prefix, Code(prefix[i])) <= Stock(table, Code(prefix[i]))
        {
          assert prefix[i] == lines[i];
          assert Requested(lines, Code(lines[i])) == Requested(prefix, Code(lines[i])) +
                 (if code == Code(lines[i]) then Quantity(line) else 0);
        }
      }
      CheckoutSucceedsIff(table, prefix);
      assert Requested(lines, code) == Requested(prefix, code) + Quantity(line);
      PassedLinesAreDecremented(table, prefix);
    }
  }

  /** The first refused line ends the request with its failure, and the lines after it are not looked at. */
  lemma FirstFailureEndsRequest(table: Table, lines: seq<RequestLine>, k: nat)
    requires k < |lines|
    requires RunCheckout(table, lines[..k]).failure.None?
    requires LineStep(RunCheckout(table, lines[..k]).table, lines[k]).Refused?
    ensures var prev := RunCheckout(table, lines[..k]);
            var step := LineStep(prev.table, lines[k]);
            RunCheckout(table, lines) == Checkout(prev.confirmed, Some(step.failure), step.table)
  {
    assert lines[..k + 1][..k] == lines[..k];
    FailurePersists(table, lines, k + 1);
  }

  /**
   * No rollback: when line `k` is the first to fail, the decrements of lines
   * 0 to k-1 stay applied, and line k's own too when the failure is a stored
   * product without a name or a price.
   */
  lemma FailureKeepsEarlierDecrements(table: Table, lines: seq<RequestLine>, k: nat)
    requires k < |lines|
    requires RunCheckout(table, lines[..k]).failure.None?
    requires LineStep(RunCheckout(table, lines[..k]).table, lines[k]).Refused?
    ensures var r := RunCheckout(table, lines);
            r.failure.Some? &&
            Decremented(table, r.table, lines[..if r.failure.value.MissingAttribute? then k + 1 else k])
  {
    var prefix := lines[..k];
    var prev := RunCheckout(table, prefix);
    var step := LineStep(prev.table, lines[k]);
    FirstFailureEndsRequest(table, lines, k);
    PassedLinesAreDecremented(table, prefix);
    if step.failure.MissingAttribute? {
      DecrementExtends(table, prev.table, lines, k);
    } else {
      LineStepEffect(prev.table, lines[k]);
    }
  }

  /** One more passed stock check extends the decrements by that line's quantity. */
  lemma DecrementExtends(table: Table, current: Table, lines: seq<RequestLine>, k: nat)
    requires k < |lines| && Decremented(table, current, lines[..k])
    requires ValidLine(lines[k]) && Code(lines[k]) in current && Stock(current, Code(lines[k])) >= Quantity(lines[k])
    ensures Decremented(table, LineStep(current, lines[k]).table, lines[..k + 1])
  {
    assert lines[..k + 1][..k] == lines[..k];
    forall c | c in table
      ensures Stock(LineStep(current, lines[k]).table, c) == Stock(table, c) - Requested(lines[..k + 1], c)
    {
      assert Requested(lines[..k + 1], c) ==
             Requested(lines[..k], c) + (if Code(lines[k]) == c then Quantity(lines[k]) else 0);
    }
  }

  /** When the request passes, the confirmed lines follow it in order, with the stored name and price. */
  lemma {:induction false} ConfirmedLinesFollowRequest(table: Table, lines: seq<RequestLine>)
    requires RunCheckout(table, lines).failure.None?
    ensures var r := RunCheckout(table, lines);
            |r.confirmed| == |lines| &&
            forall i :: 0 <= i < |lines| ==>
              Known(table, Code(lines[i])) &&
              r.confirmed[i] == ConfirmedLine(Code(lines[i]), table[Code(lines[i])].nombre.value,
                                              table[Code(lines[i])].precio.value, Quantity(lines[i]))
  {
    PassedLinesAreDecremented(table, lines);
    if lines != [] {
      var n := |lines| - 1;
      var prefix := lines[..n];
      ConfirmedLinesFollowRequest(table, prefix);
      PassedLinesAreDecremented(table, prefix);
      var prev := RunCheckout(table, prefix);
      LineStepEffect(prev.table, lines[n]);
      var r := RunCheckout(table, lines);
      assert r.confirmed == prev.confirmed + [LineStep(prev.table, lines[n]).line];
      forall i | 0 <= i < |lines|
        ensures r.confirmed[i] == ConfirmedLine(Code(lines[i]), table[Code(lines[i])].nombre.value,
                                                table[Code(lines[i])].precio.value, Quantity(lines[i]))
      {
        if i < n { assert lines[i] == prefix[i]; }
      }
    }
  }

  /** Stock never goes negative: a table without negative stock keeps none, whatever the request. */
  lemma {:induction false} StockStaysNonNegative(table: Table, lines: seq<RequestLine>)
    requires forall c :: c in table ==> Stock(table, c) >= 0
    ensures var r := RunCheckout(table, lines);
            r.table.Keys == table.Keys && forall c :: c in r.table ==> Stock(r.table, c) >= 0
  {
    if lines != [] {
      StockStaysNonNegative(table, lines[..|lines| - 1]);
    }
  }

  // ---------------------------------------------------------------------------
  // The handler

  /** The reply and the two tables after a request. */
  datatype Outcome = Outcome(response: Response, productos: Table, compras: seq<Compra>)

  /**
   * `lambda_handler`: the preflight, the token check, the body, the lines,
   * then the purchase record, which needs the token's `user_id` and
   * `tenant_id` and a successful write.
   */
  function Handle(event: Event, token: TokenCheck, compraId: string, now: string, putOk: bool,
                  productos: Table, compras: seq<Compra>): (o: Outcome)
    ensures o.compras == compras || (o.response == Registered(compraId) && |o.compras| == |compras| + 1)
    ensures o.response.Registered? ==> o.response.StatusCode() == 200
  {
    if event.httpMethod == Some("OPTIONS") then Outcome(Preflight, productos, compras)
    else if token.Rejected? then Outcome(Unauthorized(token.statusCode, token.mensaje), productos, compras)
    else if event.body.Unparsable? then Outcome(ServerError("body is not JSON"), productos, compras)
    else if event.body.productos == [] then Outcome(NoProducts, productos, compras)
    else
      Conclude(RunCheckout(productos, event.body.productos), token.datos, compraId, now, putOk, compras)
  }

  /** What follows the loop: the first failure, or the record, which needs the user, the tenant and the write. */
  function Conclude(r: Checkout, datos: TokenData, compraId: string, now: string, putOk: bool,
                    compras: seq<Compra>): Outcome
  {
    if r.failure.Some? then Outcome(LineFailed(r.failure.value), r.table, compras)
    else if datos.userId.None? then Outcome(ServerError("'user_id'"), r.table, compras)
    else if datos.tenantId.None? then Outcome(ServerError("'tenant_id'"), r.table, compras)
    else if !putOk then Outcome(ServerError("put_item failed"), r.table, compras)
    else
      var compra := Compra(compraId, datos.userId.value, datos.tenantId.value, r.confirmed, now);
      Outcome(Registered(compraId), r.table, compras + [compra])
  }

  /** An empty product list is a 400 that leaves both tables as they were. */
  lemma EmptyRequestIsRejected(event: Event, token: TokenCheck, compraId: string, now: string, putOk: bool,
                               productos: Table, compras: seq<Compra>)
    requires event.httpMethod != Some("OPTIONS") && token.Accepted? && event.body == Parsed([])
    ensures Handle(event, token, compraId, now, putOk, productos, compras) == Outcome(NoProducts, productos, compras)
    ensures NoProducts.StatusCode() == 400
  {
  }

  /**
   * A registered purchase: exactly one record, carrying the token's user and
   * tenant and the confirmed lines in request order, and every product's
   * stock lowered by what was bought of it.
   */
  lemma RegisteredPurchase(event: Event, token: TokenCheck, compraId: string, now: string, putOk: bool,
                           productos: Table, compras: seq<Compra>)
    requires Handle(event, token, compraId, now, putOk, productos, compras).response.Registered?
    ensures var o := Handle(event, token, compraId, now, putOk, productos, compras);
            var lines := event.body.productos;
            token.Accepted? && event.body.Parsed? && lines != [] && Satisfiable(productos, lines) &&
            |o.compras| == |compras| + 1 && o.compras[..|compras|] == compras &&
            o.compras[|compras|].userId == token.datos.userId.value &&
            o.compras[|compras|].tenantId == token.datos.tenantId.value &&
            o.compras[|compras|].productos == RunCheckout(productos, lines).confirmed &&
            |o.compras[|compras|].productos| == |lines| &&
            Decremented(productos, o.productos, lines)
  {
    var lines := event.body.productos;
    CheckoutSucceedsIff(productos, lines);
    PassedLinesAreDecremented(productos, lines);
    var o := Handle(event, token, compraId, now, putOk, productos, compras);
    assert o.compras[..|compras|] == compras;
  }

  /** A request whose lines fail writes no purchase, and a line-level refusal is a 400, 404 or 500. */
  lemma FailedLinesWriteNoPurchase(event: Event, token: TokenCheck, compraId: string, now: string, putOk: bool,
                                   productos: Table, compras: seq<Compra>)
    requires event.httpMethod != Some("OPTIONS") && token.Accepted? && event.body.Parsed? && event.body.productos != []
    requires !Satisfiable(productos, event.body.productos)
    ensures var o := Handle(event, token, compraId, now, putOk, productos, compras);
            o.response.LineFailed? && o.response.StatusCode() in {400, 404, 500} &&
            o.compras == compras && o.productos == RunCheckout(productos, event.body.productos).table
  {
    CheckoutSucceedsIff(productos, event.body.productos);
  }

  /** The two tables the handler works on. */
  class PurchaseApi {
    var productos: Table
    var compras: seq<Compra>

    constructor (productos: Table, compras: seq<Compra>)
      ensures this.productos == productos && this.compras == compras
    {
      this.productos := productos;
      this.compras := compras;
    }

    /**
     * `lambda_handler` as it runs: the checks before the loop, the loop over
     * the lines, then the purchase record.
     */
    method LambdaHandler(event: Event, token: TokenCheck, compraId: string, now: string, putOk: bool)
      returns (response: Response)
      modifies this
      ensures Outcome(response, productos, compras) ==
              Handle(event, token, compraId, now, putOk, old(productos), old(compras))
    {
      if event.httpMethod == Some("OPTIONS") {
        return Preflight;
      }
      if token.Rejected? {
        return Unauthorized(token.statusCode, token.mensaje);
      }
      if event.body.Unparsable? {
        return ServerError("body is not JSON");
      }
      var lines := event.body.productos;
      if lines == [] {
        return NoProducts;
      }
      var confirmados, failure := ConfirmLines(lines);
      if failure.Some? {
        return LineFailed(failure.value);
      }
      if token.datos.userId.None? {
        return ServerError("'user_id'");
      }
      if token.datos.tenantId.None? {
        return ServerError("'tenant_id'");
      }
      if !putOk {
        return ServerError("put_item failed");
      }
      compras := compras + [Compra(compraId, token.datos.userId.value, token.datos.tenantId.value, confirmados, now)];
      response := Registered(compraId);
    }

    /**
     * The loop of `lambda_handler`: each line's stock is decremented in the
     * product table as it goes, and the first failing line ends the loop.
     */
    method ConfirmLines(lines: seq<RequestLine>) returns (confirmados: seq<ConfirmedLine>, failure: Option<Failure>)
      modifies this
      ensures compras == old(compras)
      ensures RunCheckout(old(productos), lines) == Checkout(confirmados, failure, productos)
    {
      confirmados := [];
      var i := 0;
      while i < |lines|
        invariant 0 <= i <= |lines|
        invariant compras == old(compras)
        invariant RunCheckout(old(productos), lines[..i]) == Checkout(confirmados, None, productos)
      {
        var line := lines[i];
        if !ValidLine(line) {
          FirstFailureEndsRequest(old(productos), lines, i);
          return confirmados, Some(InvalidLine(line));
        }
        var codigo, cantidad := Code(line), Quantity(line);
        if codigo !in productos {
          FirstFailureEndsRequest(old(productos), lines, i);
          return confirmados, Some(UnknownProduct(codigo));
        }
        var item := productos[codigo];
        if item.cantidad.GetOr(0) < cantidad {
          FirstFailureEndsRequest(old(productos), lines, i);
          return confirmados, Some(OutOfStock(codigo));
        }
        ghost var before := productos;
        productos := productos[codigo := item.(cantidad := Some(item.cantidad.GetOr(0) - cantidad))];
        if item.nombre.None? || item.precio.None? {
          assert LineStep(before, line) == Refused(MissingAttribute(codigo), productos);
          FirstFailureEndsRequest(old(productos), lines, i);
          return confirmados, Some(MissingAttribute(codigo));
        }
        confirmados := confirmados + [ConfirmedLine(codigo, item.nombre.value, item.precio.value, cantidad)];
        assert lines[..i + 1][..i] == lines[..i];
        i := i + 1;
      }
      assert lines[..|lines|] == lines;
      failure := None;
    }
  }
}
