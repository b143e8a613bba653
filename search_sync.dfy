/**
 * `process_dynamodb_record` and `handler`: the change dispatcher and the
 * batch coordinator of the product search projector.
 *
 * Each record resolves its tenant's endpoint, passes the health gate, and
 * only then issues the write its event kind calls for. An unrecognised event
 * is a successful no-op. The batch folds over the records in order, counting
 * successes and failures, and always answers 200.
 */
module SearchSync {
  import opened Wrappers
  import opened DynamoAttr
  import opened ProductDecoder
  import opened SearchIndex

  /** A stream record: its `eventName` and the images under `dynamodb`, each possibly absent. */
  datatype StreamRecord = StreamRecord(eventName: Option<string>, newImage: Option<Item>, oldImage: Option<Item>)

  datatype Kind = Insert | Modify | Remove

  function KindOf(eventName: Option<string>): (k: Option<Kind>)
    ensures k == Some(Insert) <==> eventName == Some("INSERT")
    ensures k == Some(Modify) <==> eventName == Some("MODIFY")
    ensures k == Some(Remove) <==> eventName == Some("REMOVE")
  {
    match eventName
    case Some("INSERT") => Some(Insert)
    case Some("MODIFY") => Some(Modify)
    case Some("REMOVE") => Some(Remove)
    case _ => None
  }

  /** The image a kind reads: the old one for a removal, the new one otherwise; `{}` when absent. */
  function Image(rec: StreamRecord, kind: Kind): Item {
    if kind == Remove then rec.oldImage.GetOr(map[]) else rec.newImage.GetOr(map[])
  }

  /** The decoded row the record's kind works on. */
  function RowOf(rec: StreamRecord, kind: Kind): Row {
    Decode(Image(rec, kind))
  }

  /** `product_data.get('tenant_id', 'default')`. */
  function Tenant(row: Row): Value {
    Get(row, "tenant_id", Text("default"))
  }

  /** The resolved endpoint, when it is there and not the empty string. */
  function Target(mgr: Manager, row: Row): (ep: Option<string>)
    ensures ep.Some? <==> mgr.GetEndpoint(Tenant(row)).Some? && mgr.GetEndpoint(Tenant(row)).value != ""
    ensures ep.Some? ==> ep == mgr.GetEndpoint(Tenant(row))
  {
    var ep := mgr.GetEndpoint(Tenant(row));
    if ep.Some? && ep.value != "" then ep else None
  }

  /** Every endpoint's index; an endpoint never written to holds an empty one. */
  type Indices = map<string, Index>

  function IndexAt(indices: Indices, ep: string): Index {
    if ep in indices then indices[ep] else map[]
  }

  /** The outcome of one record: success, every request sent with its endpoint, the indices after. */
  datatype Outcome = Outcome(ok: bool, sent: seq<(string, Request)>, indices: Indices)

  function Tag(ep: string, reqs: seq<Request>): (r: seq<(string, Request)>)
    ensures |r| == |reqs|
    ensures forall i :: 0 <= i < |r| ==> r[i] == (ep, reqs[i])
  {
    if reqs == [] then [] else [(ep, reqs[0])] + Tag(ep, reqs[1..])
  }

  /** The write a kind calls for, once the endpoint is known to be healthy. */
  function Write(kind: Kind, server: Server, ep: string, index: Index, row: Row, now: string): (c: Call)
    ensures |c.sent| <= 1 && forall i :: 0 <= i < |c.sent| ==> IsWrite(c.sent[i])
    ensures c.sent == [] ==> !c.ok && c.index == index
  {
    match kind
    case Insert => IndexProduct(server, ep, index, row, now)
    case Modify => UpdateProduct(server, ep, index, row, now)
    case Remove =>
      match Identifier(row)
      case Some(id) => DeleteProduct(server, ep, index, id)
      case None => Call(false, [], index)
  }

  /** The indices after a call: only the endpoint's index can change, and only when the call changed it. */
  function Store(indices: Indices, ep: string, call: Call): Indices {
    if call.index == IndexAt(indices, ep) then indices else indices[ep := call.index]
  }

  /** The dispatch of a recognised kind: resolve the endpoint, probe it, then write. */
  function Dispatch(mgr: Manager, kind: Kind, row: Row, now: string, server: Server, indices: Indices): (o: Outcome)
    ensures |o.sent| <= 2 && (o.sent != [] ==> o.sent[0].1 == ClusterHealth)
    ensures forall i :: 0 <= i < |o.sent| ==> Some(o.sent[i].0) == Target(mgr, row)
  {
    match Target(mgr, row)
    case None => Outcome(false, [], indices)
    case Some(ep) =>
      var index := IndexAt(indices, ep);
      if !HealthCheck(server, ep, index) then Outcome(false, [(ep, ClusterHealth)], indices)
      else
        var call := Write(kind, server, ep, index, row, now);
        Outcome(call.ok, [(ep, ClusterHealth)] + Tag(ep, call.sent), Store(indices, ep, call))
  }

  /** `process_dynamodb_record`. */
  function ProcessRecord(mgr: Manager, rec: StreamRecord, now: string, server: Server, indices: Indices): (o: Outcome)
    ensures |o.sent| <= 2
    ensures forall i :: 0 <= i < |o.sent| ==> o.sent[i].0 == o.sent[0].0
  {
    match KindOf(rec.eventName)
    case None => Outcome(true, [], indices)
    case Some(kind) => Dispatch(mgr, kind, RowOf(rec, kind), now, server, indices)
  }

  /** An unrecognised or missing event name is a success that sends nothing. */
  lemma UnknownEventIsNoOp(mgr: Manager, rec: StreamRecord, now: string, server: Server, indices: Indices)
    requires rec.eventName !in {Some("INSERT"), Some("MODIFY"), Some("REMOVE")}
    ensures ProcessRecord(mgr, rec, now, server, indices) == Outcome(true, [], indices)
  {
  }

  /**
   * The write gate, for every event kind: without a usable endpoint nothing
   * is sent; with an unhealthy one only the probe is sent; either way the
   * record fails and no index changes.
   */
  lemma WritesAreGated(mgr: Manager, rec: StreamRecord, now: string, server: Server, indices: Indices)
    requires KindOf(rec.eventName).Some?
    ensures var kind := KindOf(rec.eventName).value;
            var o := ProcessRecord(mgr, rec, now, server, indices);
            var ep := Target(mgr, RowOf(rec, kind));
            (ep.None? ==> !o.ok && o.sent == [] && o.indices == indices) &&
            (ep.Some? && !HealthCheck(server, ep.value, IndexAt(indices, ep.value)) ==>
               !o.ok && o.sent == [(ep.value, ClusterHealth)] && o.indices == indices)
  {
  }

  /** A write request goes out only to the resolved endpoint, after a probe of it that answered 200. */
  lemma WriteImpliesHealthyTarget(mgr: Manager, rec: StreamRecord, now: string, server: Server, indices: Indices, i: nat)
    requires var o := ProcessRecord(mgr, rec, now, server, indices);
             i < |o.sent| && IsWrite(o.sent[i].1)
    ensures var o := ProcessRecord(mgr, rec, now, server, indices);
            var kind := KindOf(rec.eventName).value;
            KindOf(rec.eventName).Some? &&
            Target(mgr, RowOf(rec, kind)) == Some(o.sent[i].0) &&
            HealthCheck(server, o.sent[i].0, IndexAt(indices, o.sent[i].0)) &&
            i == 1 && o.sent[0] == (o.sent[i].0, ClusterHealth)
  {
    var o := ProcessRecord(mgr, rec, now, server, indices);
    var kind := KindOf(rec.eventName).value;
    var ep := Target(mgr, RowOf(rec, kind)).value;
    var call := Write(kind, server, ep, IndexAt(indices, ep), RowOf(rec, kind), now);
    assert |call.sent| <= 1;
    assert o.sent == [(ep, ClusterHealth)] + Tag(ep, call.sent);
  }

  /** INSERT: PUT the whole document built from the new image; success iff 200 or 201. */
  lemma InsertDispatch(mgr: Manager, rec: StreamRecord, now: string, server: Server, indices: Indices, ep: string)
    requires rec.eventName == Some("INSERT")
    requires Target(mgr, RowOf(rec, Insert)) == Some(ep) && HealthCheck(server, ep, IndexAt(indices, ep))
    ensures var row := RowOf(rec, Insert);
            var o := ProcessRecord(mgr, rec, now, server, indices);
            (Identifier(row).None? || BuildDoc(row, now).None? ==>
               !o.ok && o.sent == [(ep, ClusterHealth)] && o.indices == indices) &&
            (Identifier(row).Some? && BuildDoc(row, now).Some? ==>
               var req := PutDoc(Identifier(row).value, BuildDoc(row, now).value);
               o.sent == [(ep, ClusterHealth), (ep, req)] &&
               (o.ok <==> server.reply(ep, req, IndexAt(indices, ep)) in {Status(200), Status(201)}))
  {
    var row := RowOf(rec, Insert);
    var call := IndexProduct(server, ep, IndexAt(indices, ep), row, now);
    if Identifier(row).Some? && BuildDoc(row, now).Some? {
      assert Tag(ep, call.sent) == [(ep, call.sent[0])];
    }
  }

  /** MODIFY: an update with `doc_as_upsert` from the new image; success iff 200 or 201. */
  lemma ModifyDispatch(mgr: Manager, rec: StreamRecord, now: string, server: Server, indices: Indices, ep: string)
    requires rec.eventName == Some("MODIFY")
    requires Target(mgr, RowOf(rec, Modify)) == Some(ep) && HealthCheck(server, ep, IndexAt(indices, ep))
    ensures var row := RowOf(rec, Modify);
            var o := ProcessRecord(mgr, rec, now, server, indices);
            (Identifier(row).None? || BuildDoc(row, now).None? ==>
               !o.ok && o.sent == [(ep, ClusterHealth)] && o.indices == indices) &&
            (Identifier(row).Some? && BuildDoc(row, now).Some? ==>
               var req := UpdateDoc(Identifier(row).value, BuildDoc(row, now).value, true);
               o.sent == [(ep, ClusterHealth), (ep, req)] &&
               (o.ok <==> server.reply(ep, req, IndexAt(indices, ep)) in {Status(200), Status(201)}))
  {
    var row := RowOf(rec, Modify);
    var call := UpdateProduct(server, ep, IndexAt(indices, ep), row, now);
    if Identifier(row).Some? && BuildDoc(row, now).Some? {
      assert Tag(ep, call.sent) == [(ep, call.sent[0])];
    }
  }

  /**
   * REMOVE: a DELETE by the old image's identifier; success iff 200 or 404.
   * A missing identifier fails after the probe, with no DELETE.
   */
  lemma RemoveDispatch(mgr: Manager, rec: StreamRecord, now: string, server: Server, indices: Indices, ep: string)
    requires rec.eventName == Some("REMOVE")
    requires Target(mgr, RowOf(rec, Remove)) == Some(ep) && HealthCheck(server, ep, IndexAt(indices, ep))
    ensures var row := RowOf(rec, Remove);
            var o := ProcessRecord(mgr, rec, now, server, indices);
            (Identifier(row).None? ==> !o.ok && o.sent == [(ep, ClusterHealth)] && o.indices == indices) &&
            (Identifier(row).Some? ==>
               var req := DeleteDoc(Identifier(row).value);
               o.sent == [(ep, ClusterHealth), (ep, req)] &&
               (o.ok <==> server.reply(ep, req, IndexAt(indices, ep)) in {Status(200), Status(404)}))
  {
    var row := RowOf(rec, Remove);
    if Identifier(row).Some? {
      var call := DeleteProduct(server, ep, IndexAt(indices, ep), Identifier(row).value);
      assert Tag(ep, call.sent) == [(ep, call.sent[0])];
    }
  }

  /** The path of a record whose endpoint resolved and answered the probe: the kind's write. */
  lemma HealthyPath(mgr: Manager, rec: StreamRecord, now: string, server: Server, indices: Indices, kind: Kind, ep: string)
    requires KindOf(rec.eventName) == Some(kind)
    requires Target(mgr, RowOf(rec, kind)) == Some(ep) && HealthCheck(server, ep, IndexAt(indices, ep))
    ensures var call := Write(kind, server, ep, IndexAt(indices, ep), RowOf(rec, kind), now);
            ProcessRecord(mgr, rec, now, server, indices) ==
              Outcome(call.ok, [(ep, ClusterHealth)] + Tag(ep, call.sent), Store(indices, ep, call))
  {
  }

  /** A REMOVE delivered twice succeeds both times, and the second delivery changes nothing. */
  lemma RemoveRedeliveryIsHarmless(mgr: Manager, rec: StreamRecord, now1: string, now2: string, indices: Indices)
    requires rec.eventName == Some("REMOVE")
    requires Target(mgr, RowOf(rec, Remove)).Some? && Identifier(RowOf(rec, Remove)).Some?
    ensures var first := ProcessRecord(mgr, rec, now1, Elastic, indices);
            var second := ProcessRecord(mgr, rec, now2, Elastic, first.indices);
            first.ok && second.ok && second.indices == first.indices &&
            Identifier(RowOf(rec, Remove)).value !in IndexAt(first.indices, Target(mgr, RowOf(rec, Remove)).value)
  {
    DeletedTwice(mgr, RowOf(rec, Remove), now1, now2, indices);
  }

  lemma DeletedTwice(mgr: Manager, row: Row, now1: string, now2: string, indices: Indices)
    requires Target(mgr, row).Some? && Identifier(row).Some?
    ensures var first := Dispatch(mgr, Remove, row, now1, Elastic, indices);
            var second := Dispatch(mgr, Remove, row, now2, Elastic, first.indices);
            first.ok && second.ok && second.indices == first.indices &&
            Identifier(row).value !in IndexAt(first.indices, Target(mgr, row).value)
  {
    var ep := Target(mgr, row).value;
    var id := Identifier(row).value;
    var index := IndexAt(indices, ep);
    assert HealthCheck(Elastic, ep, index);
    var call1 := DeleteProduct(Elastic, ep, index, id);
    assert call1.ok && call1.index == index - {id};
    var first := Dispatch(mgr, Remove, row, now1, Elastic, indices);
    var index1 := IndexAt(first.indices, ep);
    assert index1 == index - {id};
    assert HealthCheck(Elastic, ep, index1);
    var call2 := DeleteProduct(Elastic, ep, index1, id);
    assert call2.ok && call2.index == index1 - {id};
    assert index1 - {id} == index1;
  }

  /** A MODIFY of a document the index does not hold yet succeeds and creates it. */
  lemma ModifyCreatesMissing(mgr: Manager, rec: StreamRecord, now: string, indices: Indices)
    requires rec.eventName == Some("MODIFY")
    requires var row := RowOf(rec, Modify);
             Target(mgr, row).Some? && Identifier(row).Some? && BuildDoc(row, now).Some? &&
             Identifier(row).value !in IndexAt(indices, Target(mgr, row).value)
    ensures var row := RowOf(rec, Modify);
            var ep := Target(mgr, row).value;
            var o := ProcessRecord(mgr, rec, now, Elastic, indices);
            o.ok && IndexAt(o.indices, ep) == IndexAt(indices, ep)[Identifier(row).value := BuildDoc(row, now).value]
  {
    var row := RowOf(rec, Modify);
    var ep := Target(mgr, row).value;
    var index := IndexAt(indices, ep);
    var id, doc := Identifier(row).value, BuildDoc(row, now).value;
    assert HealthCheck(Elastic, ep, index);
    HealthyPath(mgr, rec, now, Elastic, indices, Modify, ep);
    var call := UpdateProduct(Elastic, ep, index, row, now);
    assert ElasticReply(ep, UpdateDoc(id, doc, true), index) == Status(201);
    assert call.ok && call.index == index[id := doc];
  }

  /**
   * Redelivery of an INSERT or MODIFY converges: processing it twice leaves
   * the indices exactly as processing it once at the later time does.
   */
  lemma UpsertRedeliveryConverges(mgr: Manager, rec: StreamRecord, now1: string, now2: string, indices: Indices)
    requires rec.eventName == Some("INSERT") || rec.eventName == Some("MODIFY")
    ensures var first := ProcessRecord(mgr, rec, now1, Elastic, indices);
            var second := ProcessRecord(mgr, rec, now2, Elastic, first.indices);
            second.indices == ProcessRecord(mgr, rec, now2, Elastic, indices).indices
  {
    var kind := KindOf(rec.eventName).value;
    var row := RowOf(rec, kind);
    var first := ProcessRecord(mgr, rec, now1, Elastic, indices);
    if Target(mgr, row).Some? && Identifier(row).Some? && BuildDoc(row, now1).Some? {
      StoredTwice(mgr, rec, kind, now1, now2, indices);
    } else {
      assert BuildDoc(row, now1).None? <==> BuildDoc(row, now2).None?;
      NoWriteKeepsIndices(mgr, rec, now1, Elastic, indices);
      NoWriteKeepsIndices(mgr, rec, now2, Elastic, indices);
    }
  }

  /** A record that sends no write (its event is unknown, or it fails before the write) changes no index. */
  lemma NoWriteKeepsIndices(mgr: Manager, rec: StreamRecord, now: string, server: Server, indices: Indices)
    ensures var o := ProcessRecord(mgr, rec, now, server, indices);
            |o.sent| <= 1 ==> o.indices == indices
  {
    if KindOf(rec.eventName).Some? {
      var kind := KindOf(rec.eventName).value;
      var row := RowOf(rec, kind);
      if Target(mgr, row).Some? && HealthCheck(server, Target(mgr, row).value, IndexAt(indices, Target(mgr, row).value)) {
        var ep := Target(mgr, row).value;
        var call := Write(kind, server, ep, IndexAt(indices, ep), row, now);
        assert |Tag(ep, call.sent)| == |call.sent|;
      }
    }
  }

  /**
   * A record changes at most the index at the endpoint it wrote to, and only
   * by the effect of the one write it sent; a write it counted as successful
   * has taken effect.
   */
  lemma OnlyTheSentWriteChangesIndices(mgr: Manager, rec: StreamRecord, now: string, server: Server, indices: Indices)
    ensures var o := ProcessRecord(mgr, rec, now, server, indices);
            o.indices == indices ||
            (|o.sent| == 2 && o.indices == indices[o.sent[1].0 := Effect(IndexAt(indices, o.sent[1].0), o.sent[1].1)])
    ensures var o := ProcessRecord(mgr, rec, now, server, indices);
            o.ok && |o.sent| == 2 ==>
              IndexAt(o.indices, o.sent[1].0) == Effect(IndexAt(indices, o.sent[1].0), o.sent[1].1)
  {
    var o := ProcessRecord(mgr, rec, now, server, indices);
    if KindOf(rec.eventName).Some? {
      var kind := KindOf(rec.eventName).value;
      var row := RowOf(rec, kind);
      if Target(mgr, row).Some? && HealthCheck(server, Target(mgr, row).value, IndexAt(indices, Target(mgr, row).value)) {
        var ep := Target(mgr, row).value;
        var index := IndexAt(indices, ep);
        var call := Write(kind, server, ep, index, row, now);
        assert |call.sent| <= 1;
        if call.sent != [] {
          assert o.sent[1] == (ep, call.sent[0]);
          assert call.index == index || call.index == Effect(index, call.sent[0]);
          assert call.ok ==> call.index == Effect(index, call.sent[0]);
        } else {
          assert call.index == index;
        }
      }
    }
  }

  lemma StoredTwice(mgr: Manager, rec: StreamRecord, kind: Kind, now1: string, now2: string, indices: Indices)
    requires KindOf(rec.eventName) == Some(kind) && kind != Remove
    requires var row := RowOf(rec, kind);
             Target(mgr, row).Some? && Identifier(row).Some? && BuildDoc(row, now1).Some?
    ensures var first := ProcessRecord(mgr, rec, now1, Elastic, indices);
            var second := ProcessRecord(mgr, rec, now2, Elastic, first.indices);
            second.indices == ProcessRecord(mgr, rec, now2, Elastic, indices).indices
  {
    DispatchedTwice(mgr, kind, RowOf(rec, kind), now1, now2, indices);
  }

  lemma DispatchedTwice(mgr: Manager, kind: Kind, row: Row, now1: string, now2: string, indices: Indices)
    requires kind != Remove
    requires Target(mgr, row).Some? && Identifier(row).Some? && BuildDoc(row, now1).Some?
    ensures var first := Dispatch(mgr, kind, row, now1, Elastic, indices);
            var second := Dispatch(mgr, kind, row, now2, Elastic, first.indices);
            second.indices == Dispatch(mgr, kind, row, now2, Elastic, indices).indices
  {
    var ep := Target(mgr, row).value;
    var index := IndexAt(indices, ep);
    var id := Identifier(row).value;
    var d1, d2 := BuildDoc(row, now1).value, BuildDoc(row, now2).value;
    DispatchedOnce(mgr, kind, row, now1, indices);
    DispatchedOnce(mgr, kind, row, now2, indices);
    DispatchedOnce(mgr, kind, row, now2, Dispatch(mgr, kind, row, now1, Elastic, indices).indices);
    StoredOver(indices, ep, id, d1, d2);
  }

  /** Storing a document over the one just stored under the same id at the same endpoint. */
  lemma StoredOver(indices: Indices, ep: string, id: Value, d1: Doc, d2: Doc)
    ensures var first := indices[ep := IndexAt(indices, ep)[id := d1]];
            first[ep := IndexAt(first, ep)[id := d2]] == indices[ep := IndexAt(indices, ep)[id := d2]]
  {
    var index := IndexAt(indices, ep);
    assert index[id := d1][id := d2] == index[id := d2];
  }

  /** With the reference cluster an INSERT or MODIFY stores its document at its endpoint. */
  lemma DispatchedOnce(mgr: Manager, kind: Kind, row: Row, now: string, indices: Indices)
    requires kind != Remove
    requires Target(mgr, row).Some? && Identifier(row).Some? && BuildDoc(row, now).Some?
    ensures var ep := Target(mgr, row).value;
            Dispatch(mgr, kind, row, now, Elastic, indices).indices ==
              indices[ep := IndexAt(indices, ep)[Identifier(row).value := BuildDoc(row, now).value]]
  {
    var ep := Target(mgr, row).value;
    var index := IndexAt(indices, ep);
    assert HealthCheck(Elastic, ep, index);
    UpsertAccepted(kind, ep, index, row, now);
  }

  /** With the reference cluster an INSERT's or MODIFY's write is accepted and stores the document. */
  lemma UpsertAccepted(kind: Kind, ep: string, index: Index, row: Row, now: string)
    requires kind != Remove && Identifier(row).Some? && BuildDoc(row, now).Some?
    ensures var call := Write(kind, Elastic, ep, index, row, now);
            call.ok && call.index == index[Identifier(row).value := BuildDoc(row, now).value]
  {
    var id, doc := Identifier(row).value, BuildDoc(row, now).value;
    if kind == Insert {
      assert ElasticReply(ep, PutDoc(id, doc), index) in {Status(200), Status(201)};
    } else {
      assert ElasticReply(ep, UpdateDoc(id, doc, true), index) in {Status(200), Status(201)};
    }
  }

  /** The batch result: the counters, the indices after the batch, every request in order. */
  datatype Tally = Tally(successful: nat, failed: nat, indices: Indices, sent: seq<(string, Request)>)

  /** The fold over the records in order; record `i` is stamped with `clock(i)`. */
  function ProcessBatch(mgr: Manager, records: seq<StreamRecord>, clock: nat -> string, server: Server, indices: Indices): (t: Tally)
    ensures |t.sent| <= 2 * |records|
    decreases |records|
  {
    if records == [] then Tally(0, 0, indices, [])
    else
      var n := |records| - 1;
      var t := ProcessBatch(mgr, records[..n], clock, server, indices);
      var o := ProcessRecord(mgr, records[n], clock(n), server, t.indices);
      Tally(t.successful + (if o.ok then 1 else 0), t.failed + (if o.ok then 0 else 1), o.indices, t.sent + o.sent)
  }

  /** Every record is counted exactly once. */
  lemma {:induction false} BatchCountsEveryRecord(mgr: Manager, records: seq<StreamRecord>, clock: nat -> string, server: Server, indices: Indices)
    ensures var t := ProcessBatch(mgr, records, clock, server, indices);
            t.successful + t.failed == |records|
  {
    if records != [] {
      BatchCountsEveryRecord(mgr, records[..|records| - 1], clock, server, indices);
    }
  }

  /** A batch of unrecognised events counts no failure, sends nothing and changes no index. */
  lemma {:induction false} UnknownEventsNeverFail(mgr: Manager, records: seq<StreamRecord>, clock: nat -> string, server: Server, indices: Indices)
    requires forall i :: 0 <= i < |records| ==> KindOf(records[i].eventName).None?
    ensures ProcessBatch(mgr, records, clock, server, indices) == Tally(|records|, 0, indices, [])
  {
    if records != [] {
      UnknownEventsNeverFail(mgr, records[..|records| - 1], clock, server, indices);
    }
  }

  /** The handler's answer. */
  datatype BatchResponse = BatchResponse(statusCode: int, message: string, successfulRecords: nat, failedRecords: nat, totalRecords: nat)

  /** `handler`: build the manager once, then process every record in order, never aborting. */
  method Handler(config: EndpointConfig, records: seq<StreamRecord>, clock: nat -> string, server: Server, indices: Indices)
    returns (response: BatchResponse, finalIndices: Indices)
    ensures response.statusCode == 200
    ensures response.totalRecords == |records|
    ensures response.successfulRecords + response.failedRecords == |records|
    ensures var t := ProcessBatch(NewManager(config), records, clock, server, indices);
            response.successfulRecords == t.successful && response.failedRecords == t.failed &&
            finalIndices == t.indices
  {
    var mgr := NewManager(config);
    var successful, failed := 0, 0;
    finalIndices := indices;
    var i := 0;
    while i < |records|
      invariant 0 <= i <= |records|
      invariant successful + failed == i
      invariant var t := ProcessBatch(mgr, records[..i], clock, server, indices);
                successful == t.successful && failed == t.failed && finalIndices == t.indices
    {
      assert records[..i + 1][..i] == records[..i];
      var o := ProcessRecord(mgr, records[i], clock(i), server, finalIndices);
      if o.ok {
        successful := successful + 1;
      } else {
        failed := failed + 1;
      }
      finalIndices := o.indices;
      i := i + 1;
    }
    assert records[..|records|] == records;
    response := BatchResponse(200, "Procesamiento completado", successful, failed, |records|);
  }
}
