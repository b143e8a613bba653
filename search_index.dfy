/**
 * `ElasticSearchManager`: the tenant-to-endpoint registry, the health probe
 * and the three writes against a tenant's `productos` index.
 *
 * The HTTP transport is an oracle `Server`: given the endpoint, the request
 * and the current contents of that endpoint's index, `reply` yields the final
 * reply (after the transport's own retries), or `TransportError` for a timeout
 * or a connection failure, and `applies` says whether the cluster carried the
 * write out. A write the client counts as successful is taken to have been
 * applied; one it counts as failed may or may not have been (a timed-out PUT
 * can still land), and a write applies whole or not at all.
 */
module SearchIndex {
  import opened Wrappers
  import opened Numerals
  import opened ProductDecoder

  /** The `ES_ENDPOINTS` setting: unset, not a JSON object, or an object of addresses. */
  datatype EndpointConfig = Unset | Malformed | Parsed(entries: map<string, string>)

  /** `_parse_endpoints`: the configured addresses; an unusable setting gives none. */
  function ParseEndpoints(config: EndpointConfig): (endpoints: map<string, string>)
    ensures config.Parsed? ==> endpoints == config.entries
    ensures !config.Parsed? ==> endpoints == map[]
  {
    if config.Parsed? then config.entries else map[]
  }

  /** The manager's state, fixed when it is constructed and read-only afterwards. */
  datatype Manager = Manager(endpoints: map<string, string>) {

    /**
     * `get_endpoint`: the tenant's own entry when it has one, otherwise the
     * `default` entry, otherwise nothing. Only a string can name a tenant entry.
     */
    function GetEndpoint(tenant: Value): (r: Option<string>)
      ensures tenant.Text? && tenant.text in endpoints ==> r == Some(endpoints[tenant.text])
      ensures !(tenant.Text? && tenant.text in endpoints) && "default" in endpoints ==>
                r == Some(endpoints["default"])
      ensures !(tenant.Text? && tenant.text in endpoints) && "default" !in endpoints ==> r == None
      ensures r.Some? ==> r.value in endpoints.Values
    {
      if tenant.Text? && tenant.text in endpoints then Some(endpoints[tenant.text])
      else if "default" in endpoints then Some(endpoints["default"])
      else None
    }
  }

  /** The constructor: the endpoint table is read from the configuration once. */
  function NewManager(config: EndpointConfig): (m: Manager)
    ensures config.Parsed? ==>
              forall tenant :: tenant in config.entries ==> m.GetEndpoint(Text(tenant)) == Some(config.entries[tenant])
    ensures forall tenant :: m.GetEndpoint(tenant).Some? ==>
              config.Parsed? && m.GetEndpoint(tenant).value in config.entries.Values
  {
    Manager(ParseEndpoints(config))
  }

  /** An unusable configuration resolves no tenant at all. */
  lemma UnusableConfigResolvesNothing(config: EndpointConfig, tenant: Value)
    requires !config.Parsed?
    ensures NewManager(config).GetEndpoint(tenant) == None
  {
  }

  /** The document sent to the index, with the fixed field set of the source. */
  datatype Doc = Doc(
    codigo: Value, nombre: Value, descripcion: Value,
    precio: real, cantidad: int,
    categoria: Value, tenantId: Value, userId: Value,
    fechaCreacion: Value, fechaModificacion: Value,
    timestamp: string)

  datatype Request =
    | ClusterHealth                                       // GET  {ep}/_cluster/health
    | PutDoc(id: Value, doc: Doc)                         // PUT  {ep}/productos/_doc/{id}
    | UpdateDoc(id: Value, doc: Doc, docAsUpsert: bool)   // POST {ep}/productos/_update/{id}
    | DeleteDoc(id: Value)                                // DELETE {ep}/productos/_doc/{id}

  predicate IsWrite(req: Request) { !req.ClusterHealth? }

  datatype Reply = Status(code: int) | TransportError

  /**
   * The documents of one endpoint's `productos` index, by identifier. The
   * cluster names a document by the text of its `codigo`; since `codigo` is
   * the product table's key, its type is fixed, and two identifiers of one
   * index never share a text.
   */
  type Index = map<Value, Doc>

  /** The cluster as the client sees it: the final reply to a request, and whether a write was carried out. */
  datatype Server = Server(reply: (string, Request, Index) -> Reply, applies: (string, Request, Index) -> bool)

  /** Python truthiness of a decoded value. */
  predicate Truthy(v: Value) {
    match v
    case Text(s) => s != ""
    case Number(r) => r != 0.0
    case Boolean(b) => b
    case Null => false
  }

  function Get(row: Row, key: string, dflt: Value): Value {
    if key in row then row[key] else dflt
  }

  /** `product_data.get('codigo')` when it is truthy: the document identifier. */
  function Identifier(row: Row): (id: Option<Value>)
    ensures id.Some? <==> "codigo" in row && Truthy(row["codigo"])
    ensures id.Some? ==> id.value == row["codigo"] && Truthy(id.value)
  {
    if "codigo" in row && Truthy(row["codigo"]) then Some(row["codigo"]) else None
  }

  /** Python's `float(v)`; `None` stands for the exception it raises. */
  function ToFloat(v: Value): Option<real> {
    match v
    case Text(s) => ParseDecimal(s)
    case Number(r) => Some(r)
    case Boolean(b) => Some(if b then 1.0 else 0.0)
    case Null => None
  }

  /** Python's `int(v)`: a float is truncated toward zero; `None` stands for the exception. */
  function ToInt(v: Value): (r: Option<int>)
    ensures v.Number? && 0.0 <= v.number ==> r.Some? && (r.value as real) <= v.number < (r.value as real) + 1.0
    ensures v.Number? && v.number < 0.0 ==> r.Some? && (r.value as real) - 1.0 < v.number <= (r.value as real)
    ensures v.Text? ==> r == ParseInteger(v.text)
    ensures v.Boolean? ==> r == Some(if v.truth then 1 else 0)
    ensures v.Null? ==> r.None?
  {
    match v
    case Text(s) => ParseInteger(s)
    case Number(x) => Some(if x >= 0.0 then x.Floor else -((-x).Floor))
    case Boolean(b) => Some(if b then 1 else 0)
    case Null => None
  }

  /** The fields that default to the empty string. */
  const TextFields: set<string> :=
    {"nombre", "descripcion", "categoria", "tenant_id", "user_id", "fechaCreacion", "fechaModificacion"}

  /** A defaulted field of the document, by its name in the row. */
  function DocText(d: Doc, key: string): Value
    requires key in TextFields
  {
    if key == "nombre" then d.nombre
    else if key == "descripcion" then d.descripcion
    else if key == "categoria" then d.categoria
    else if key == "tenant_id" then d.tenantId
    else if key == "user_id" then d.userId
    else if key == "fechaCreacion" then d.fechaCreacion
    else d.fechaModificacion
  }

  /** The document built from a row, or `None` when `float(precio)` or `int(cantidad)` raises. */
  function BuildDoc(row: Row, now: string): (d: Option<Doc>)
    ensures d.Some? <==> ToFloat(Get(row, "precio", Number(0.0))).Some? &&
                         ToInt(Get(row, "cantidad", Number(0.0))).Some?
    ensures d.Some? ==> d.value.precio == ToFloat(Get(row, "precio", Number(0.0))).value &&
                        d.value.cantidad == ToInt(Get(row, "cantidad", Number(0.0))).value
    ensures d.Some? ==> d.value.timestamp == now
    ensures d.Some? ==> d.value.codigo == Get(row, "codigo", Null)
    ensures d.Some? ==> forall key :: key in TextFields ==> DocText(d.value, key) == Get(row, key, Text(""))
  {
    match (ToFloat(Get(row, "precio", Number(0.0))), ToInt(Get(row, "cantidad", Number(0.0))))
    case (Some(precio), Some(cantidad)) =>
      Some(Doc(Get(row, "codigo", Null), Get(row, "nombre", Text("")), Get(row, "descripcion", Text("")),
               precio, cantidad,
               Get(row, "categoria", Text("")), Get(row, "tenant_id", Text("")), Get(row, "user_id", Text("")),
               Get(row, "fechaCreacion", Text("")), Get(row, "fechaModificacion", Text("")),
               now))
    case _ => None
  }

  /** The reply codes each request counts as success. */
  predicate Accepted(req: Request, reply: Reply) {
    match req
    case ClusterHealth => reply == Status(200)
    case PutDoc(_, _) => reply == Status(200) || reply == Status(201)
    case UpdateDoc(_, _, _) => reply == Status(200) || reply == Status(201)
    case DeleteDoc(_) => reply == Status(200) || reply == Status(404)
  }

  /** What an accepted request does to the index. */
  function Effect(index: Index, req: Request): Index {
    match req
    case ClusterHealth => index
    case PutDoc(id, doc) => index[id := doc]
    case UpdateDoc(id, doc, upsert) => if id in index || upsert then index[id := doc] else index
    case DeleteDoc(id) => index - {id}
  }

  /** The outcome of one client operation: its result, the requests it sent, the index after. */
  datatype Call = Call(ok: bool, sent: seq<Request>, index: Index)

  /**
   * One request: it succeeds when its reply is among the accepted ones; the
   * write lands whole or not at all, and an accepted one has landed.
   */
  function Send(server: Server, ep: string, index: Index, req: Request): (c: Call)
    ensures c.sent == [req]
    ensures c.ok <==> Accepted(req, server.reply(ep, req, index))
    ensures c.index == index || c.index == Effect(index, req)
    ensures c.ok ==> c.index == Effect(index, req)
    ensures !c.ok && !server.applies(ep, req, index) ==> c.index == index
  {
    var ok := Accepted(req, server.reply(ep, req, index));
    Call(ok, [req], if ok || server.applies(ep, req, index) then Effect(index, req) else index)
  }

  /** `health_check`: the cluster is usable only when its health endpoint answers 200. */
  predicate HealthCheck(server: Server, ep: string, index: Index) {
    server.reply(ep, ClusterHealth, index) == Status(200)
  }

  /**
   * `index_product`: with an identifier and a buildable document, one PUT of
   * the whole document; success iff the reply is 200 or 201.
   */
  function IndexProduct(server: Server, ep: string, index: Index, row: Row, now: string): (c: Call)
    ensures Identifier(row).None? || BuildDoc(row, now).None? ==> c == Call(false, [], index)
    ensures Identifier(row).Some? && BuildDoc(row, now).Some? ==>
              var req := PutDoc(Identifier(row).value, BuildDoc(row, now).value);
              var stored := index[Identifier(row).value := BuildDoc(row, now).value];
              c.sent == [req] &&
              (c.ok <==> server.reply(ep, req, index) in {Status(200), Status(201)}) &&
              (c.ok ==> c.index == stored) &&
              (c.index == index || c.index == stored) &&
              (!c.ok && !server.applies(ep, req, index) ==> c.index == index)
  {
    match (Identifier(row), BuildDoc(row, now))
    case (Some(id), Some(doc)) => Send(server, ep, index, PutDoc(id, doc))
    case _ => Call(false, [], index)
  }

  /**
   * `update_product`: with an identifier and a buildable document, one partial
   * update with `doc_as_upsert`; success iff the reply is 200 or 201.
   */
  function UpdateProduct(server: Server, ep: string, index: Index, row: Row, now: string): (c: Call)
    ensures Identifier(row).None? || BuildDoc(row, now).None? ==> c == Call(false, [], index)
    ensures Identifier(row).Some? && BuildDoc(row, now).Some? ==>
              var req := UpdateDoc(Identifier(row).value, BuildDoc(row, now).value, true);
              var stored := index[Identifier(row).value := BuildDoc(row, now).value];
              c.sent == [req] &&
              (c.ok <==> server.reply(ep, req, index) in {Status(200), Status(201)}) &&
              (c.ok ==> c.index == stored) &&
              (c.index == index || c.index == stored) &&
              (!c.ok && !server.applies(ep, req, index) ==> c.index == index)
  {
    match (Identifier(row), BuildDoc(row, now))
    case (Some(id), Some(doc)) => Send(server, ep, index, UpdateDoc(id, doc, true))
    case _ => Call(false, [], index)
  }

  /** `delete_product`: one DELETE; success iff the reply is 200 or 404 (already absent). */
  function DeleteProduct(server: Server, ep: string, index: Index, id: Value): (c: Call)
    ensures c.sent == [DeleteDoc(id)]
    ensures c.ok <==> server.reply(ep, DeleteDoc(id), index) in {Status(200), Status(404)}
    ensures c.ok ==> c.index == index - {id}
    ensures c.index == index || c.index == index - {id}
    ensures !c.ok && !server.applies(ep, DeleteDoc(id), index) ==> c.index == index
  {
    Send(server, ep, index, DeleteDoc(id))
  }

  /**
   * A well-behaved Elasticsearch cluster: always healthy; a write by
   * identifier answers 201 when it creates the document and 200 when it
   * replaces it; a delete or a plain update of a missing document answers 404.
   */
  function ElasticReply(ep: string, req: Request, index: Index): Reply {
    match req
    case ClusterHealth => Status(200)
    case PutDoc(id, _) => if id in index then Status(200) else Status(201)
    case UpdateDoc(id, _, upsert) =>
      if id in index then Status(200) else if upsert then Status(201) else Status(404)
    case DeleteDoc(id) => if id in index then Status(200) else Status(404)
  }

  /** The reference cluster carries out every request it receives. */
  predicate ElasticApplies(ep: string, req: Request, index: Index) { true }

  const Elastic := Server(ElasticReply, ElasticApplies)

  /** Deleting the same identifier twice succeeds both times and ends with it absent. */
  lemma DeleteIsIdempotent(ep: string, index: Index, id: Value)
    ensures var first := DeleteProduct(Elastic, ep, index, id);
            var second := DeleteProduct(Elastic, ep, first.index, id);
            first.ok && second.ok && id !in second.index && second.index == first.index
  {
  }

  /** The update of a document the index does not hold yet still succeeds and creates it. */
  lemma UpsertCreatesMissing(ep: string, index: Index, row: Row, now: string)
    requires Identifier(row).Some? && BuildDoc(row, now).Some?
    requires Identifier(row).value !in index
    ensures var c := UpdateProduct(Elastic, ep, index, row, now);
            c.ok && c.index == index[Identifier(row).value := BuildDoc(row, now).value]
  {
  }

  /** Without the upsert flag the same update would be rejected with 404 and create nothing. */
  lemma PlainUpdateOfMissingFails(ep: string, index: Index, id: Value, doc: Doc)
    requires id !in index
    ensures var c := Send(Elastic, ep, index, UpdateDoc(id, doc, false));
            !c.ok && c.index == index
  {
  }
}
