/** The `POST /webhooks/products` route: picks the service operation from the
    `x-shopify-topic` header, runs it to completion, then acknowledges with 200
    whatever happened, so that Shopify does not retry. */
module ShopifyWebhook {
  import opened Wrappers
  import opened ProductService

  const DeleteTopic: string := "products/delete"
  const CreateTopic: string := "products/create"
  const UpdateTopic: string := "products/update"

  datatype Route = SoftDelete | Save | Ignore

  /** The exact-match choice on the topic header (absent when `None`). */
  function RouteOf(topic: Option<string>): (r: Route)
    ensures r == SoftDelete <==> topic == Some(DeleteTopic)
    ensures r == Save <==> topic == Some(CreateTopic) || topic == Some(UpdateTopic)
  {
    if topic == Some(DeleteTopic) then SoftDelete
    else if topic == Some(CreateTopic) || topic == Some(UpdateTopic) then Save
    else Ignore
  }

  /** The shop-domain header, or the empty string when the header is absent. */
  function ShopOf(header: Option<string>): (shop: string)
    ensures header.Some? ==> shop == header.value
    ensures header == None ==> shop == ""
  {
    if header.Some? then header.value else ""
  }

  /** The JSON body `{ received, success, error? }` sent with `status`. */
  datatype Response = Response(status: int, received: bool, success: bool, error: Option<string>)

  /** The response for the outcome of the try block: 200 in every case, failure
      reported in the body with the error's message. */
  function Acknowledge(reply: Reply): (resp: Response)
    ensures resp.status == 200 && resp.received
    ensures resp.success <==> reply.Success?
    ensures resp.error.Some? <==> reply.Failure?
    ensures reply.Failure? ==> resp.error == Some(reply.error.message)
  {
    match reply
    case Success(_) => Response(200, true, true, None)
    case Failure(err) => Response(200, true, false, Some(err.message))
  }

  /** The reply and the table left by one event. */
  function Dispatch(configured: bool, rows: map<string, Product>, topic: Option<string>, shopHeader: Option<string>,
                    p: Payload, now: Timestamp, fault: Option<string>): (e: Effect)
    ensures RouteOf(topic) == Ignore ==> e == Effect(Success(None), rows)
    ensures RouteOf(topic) == SoftDelete ==> e == DeleteEffect(configured, rows, p, now, fault)
    ensures RouteOf(topic) == Save ==> e == UpsertEffect(configured, rows, p, ShopOf(shopHeader), now, fault)
    ensures e.reply.Failure? ==> e.rows == rows
    ensures Consistent(rows) ==> Consistent(e.rows)
    ensures forall k :: k in rows && Some(k) != ProductKey(p.id) ==> k in e.rows && e.rows[k] == rows[k]
  {
    match RouteOf(topic)
    case SoftDelete => DeleteEffect(configured, rows, p, now, fault)
    case Save => UpsertEffect(configured, rows, p, ShopOf(shopHeader), now, fault)
    case Ignore => Effect(Success(None), rows)
  }

  /** The route handler: exactly one response per event, always 200 and `received`. */
  method HandleProducts(table: ProductTable, topic: Option<string>, shopHeader: Option<string>,
                        p: Payload, now: Timestamp, fault: Option<string>) returns (resp: Response)
    requires table.Valid()
    modifies table
    ensures table.Valid()
    ensures resp.status == 200 && resp.received
    ensures var e := Dispatch(table.configured, old(table.rows), topic, shopHeader, p, now, fault);
      table.rows == e.rows && resp == Acknowledge(e.reply)
  {
    var result: Reply := Success(None);
    var route := RouteOf(topic);
    if route == SoftDelete {
      result := table.Delete(p, now, fault);
    } else if route == Save {
      result := table.Upsert(p, ShopOf(shopHeader), now, fault);
    }
    resp := Acknowledge(result);
  }

  /** Shopify delivers at least once: a create or update redelivered with the same
      stamped payload leaves the table as the first delivery left it. */
  lemma RedeliveryIsIdempotent(configured: bool, rows: map<string, Product>, topic: Option<string>,
                               shopHeader: Option<string>, p: Payload, now1: Timestamp, now2: Timestamp,
                               fault2: Option<string>)
    requires RouteOf(topic) == Save && p.updatedAt.Some?
    ensures var once := Dispatch(configured, rows, topic, shopHeader, p, now1, None);
      Dispatch(configured, once.rows, topic, shopHeader, p, now2, fault2).rows == once.rows
  {
    UpsertIsIdempotent(configured, rows, p, ShopOf(shopHeader), now1, now2, fault2);
  }

  /** A create whose payload has no id is still acknowledged with 200, as a failure
      carrying the validation message, and changes nothing. */
  lemma MissingIdIsAcknowledgedAsFailure(rows: map<string, Product>, topic: Option<string>,
                                         shopHeader: Option<string>, p: Payload, now: Timestamp, fault: Option<string>)
    requires RouteOf(topic) == Save && p.id == None
    ensures var e := Dispatch(true, rows, topic, shopHeader, p, now, fault);
      e.rows == rows && Acknowledge(e.reply) == Response(200, true, false, Some(MissingIdMessage))
  {
  }

  /** A delete event for a stored product leaves the row in the table, marked deleted
      and stamped with the time of the event, and reports it back. */
  lemma DeleteTopicSoftDeletes(rows: map<string, Product>, shopHeader: Option<string>,
                               p: Payload, now: Timestamp)
    requires ProductKey(p.id).Some? && ProductKey(p.id).value in rows
    ensures var key := ProductKey(p.id).value;
      var e := Dispatch(true, rows, Some(DeleteTopic), shopHeader, p, now, None);
      && e.rows.Keys == rows.Keys
      && e.rows[key].status == DeletedStatus && e.rows[key].updatedAt == now
      && Acknowledge(e.reply) == Response(200, true, true, None)
  {
  }

  /** A create, update or delete event whose store write fails is acknowledged with 200 and
      the store's message, and leaves the table as it was. */
  lemma StoreFailureIsAcknowledged(rows: map<string, Product>, topic: Option<string>, shopHeader: Option<string>,
                                   p: Payload, now: Timestamp, message: string)
    requires RouteOf(topic) != Ignore && ProductKey(p.id).Some?
    ensures var e := Dispatch(true, rows, topic, shopHeader, p, now, Some(message));
      e.rows == rows && Acknowledge(e.reply) == Response(200, true, false, Some(message))
  {
  }

  /** A delete whose payload has no id is logged and acknowledged as a success. */
  lemma DeleteWithoutIdIsIgnored(configured: bool, rows: map<string, Product>, shopHeader: Option<string>,
                                 p: Payload, now: Timestamp, fault: Option<string>)
    requires p.id == None || p.id == Some(TextId(""))
    ensures var e := Dispatch(configured, rows, Some(DeleteTopic), shopHeader, p, now, fault);
      e.rows == rows && Acknowledge(e.reply).success
  {
  }

  /** An example create event: id 123, two variant prices, a handle and
      a shop domain give the expected row. */
  lemma CreateExample(now: Timestamp)
    ensures var p := Payload(Some(NumericId(123)), Some("Red Shirt"), None, None, None, None, Some("red-shirt"),
                             Some([Variant(Some(19.99)), Variant(Some(24.99))]), None);
      var shop := "my-store.myshopify.com";
      var e := Dispatch(true, map[], Some(CreateTopic), Some(shop), p, now, None);
      && "123" in e.rows
      && e.rows["123"] == Product("123", "Red Shirt", "", "", 19.99, 24.99, ActiveStatus, "",
                                  "https://" + shop + "/products/" + "red-shirt", now)
  {
    var p := Payload(Some(NumericId(123)), Some("Red Shirt"), None, None, None, None, Some("red-shirt"),
                     Some([Variant(Some(19.99)), Variant(Some(24.99))]), None);
    NormalizeExample(p, now);
  }
}
