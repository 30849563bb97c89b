/** The product service: turns a Shopify product payload into a canonical
    product row, and writes rows into the `products` table (whole-row upsert
    keyed on `product_id`, soft delete). The table is a map from `product_id`
    to row; `configured` is false when no store client could be built, in which
    case both writes are skipped. */
module ProductService {
  import opened Wrappers
  import Text

  /** A point in time; only its order matters, and the model uses the store's order
      of timestamps. */
  type Timestamp = int

  /** The payload's `id`: Shopify sends a JSON number, but a string is also accepted. */
  datatype ProductId = NumericId(n: int) | TextId(s: string)

  /** One variant; `price` is the parsed number, `None` when the text does not parse. */
  datatype Variant = Variant(price: Option<real>)

  /** The fields of the webhook body that the normalizer reads; `None` stands for a
      field that is absent or null. */
  datatype Payload = Payload(
    id: Option<ProductId>,
    title: Option<string>,
    vendor: Option<string>,
    productType: Option<string>,
    status: Option<string>,
    tags: Option<string>,
    handle: Option<string>,
    variants: Option<seq<Variant>>,
    updatedAt: Option<Timestamp>)

  /** A row of the `products` table. */
  datatype Product = Product(
    productId: string,
    title: string,
    vendor: string,
    productType: string,
    priceMin: real,
    priceMax: real,
    status: string,
    tags: string,
    productUrl: string,
    updatedAt: Timestamp)

  /** What the service throws: the normalizer's validation error, or the store's error. */
  datatype Error = ValidationError(message: string) | StoreError(message: string)

  /** The result of an upsert or a delete: `Success(None)` is JavaScript's `null`,
      `Success(Some(rows))` the rows the store returned, `Failure` a thrown error. */
  type Reply = Result<Option<seq<Product>>, Error>

  const MissingIdMessage: string := "Product ID is required"
  const ActiveStatus: string := "active"
  const DeletedStatus: string := "deleted"

  /** A string field, or the fallback when the field is absent, null or empty
      (the falsy strings of JavaScript). */
  function OrElse(field: Option<string>, fallback: string): (r: string)
    ensures field.Some? && field.value != "" ==> r == field.value
    ensures field == None || field == Some("") ==> r == fallback
  {
    if field.Some? && field.value != "" then field.value else fallback
  }

  /** The product key: the id written as a string, or nothing when the id is absent
      or its string form is empty. */
  function ProductKey(id: Option<ProductId>): (k: Option<string>)
    ensures k == None <==> id == None || id == Some(TextId(""))
    ensures k.Some? ==> k.value != ""
    ensures id.Some? && id.value.NumericId? ==> k == Some(Text.IntToDecimal(id.value.n))
    ensures id.Some? && id.value.TextId? && id.value.s != "" ==> k == Some(id.value.s)
  {
    match id
    case None => None
    case Some(NumericId(n)) => Some(Text.IntToDecimal(n))
    case Some(TextId(s)) => if s == "" then None else Some(s)
  }

  /** `p` is a price some variant parses to, and it is not negative. */
  predicate IsValidPrice(variants: seq<Variant>, p: real) {
    p >= 0.0 && Some(p) in PricesOf(variants)
  }

  function PricesOf(variants: seq<Variant>): (r: seq<Option<real>>)
    ensures |r| == |variants|
    ensures forall i :: 0 <= i < |variants| ==> r[i] == variants[i].price
  {
    seq(|variants|, i requires 0 <= i < |variants| => variants[i].price)
  }

  /** The parsed variant prices, in variant order, without the ones that are not
      numbers or are negative. */
  function ValidPrices(variants: seq<Variant>): (ps: seq<real>)
    ensures forall p :: p in ps <==> IsValidPrice(variants, p)
  {
    if variants == [] then []
    else
      var head := variants[0].price;
      var rest := ValidPrices(variants[1..]);
      assert PricesOf(variants) == [head] + PricesOf(variants[1..]);
      if head.Some? && head.value >= 0.0 then [head.value] + rest else rest
  }

  /** The smallest price of a non-empty list. */
  function Least(ps: seq<real>): (m: real)
    requires ps != []
    ensures m in ps
    ensures forall p :: p in ps ==> m <= p
  {
    if |ps| == 1 then ps[0]
    else
      var m := Least(ps[1..]);
      assert ps == [ps[0]] + ps[1..];
      if ps[0] <= m then ps[0] else m
  }

  /** The largest price of a non-empty list. */
  function Greatest(ps: seq<real>): (m: real)
    requires ps != []
    ensures m in ps
    ensures forall p :: p in ps ==> p <= m
  {
    if |ps| == 1 then ps[0]
    else
      var m := Greatest(ps[1..]);
      assert ps == [ps[0]] + ps[1..];
      if ps[0] >= m then ps[0] else m
  }

  /** The `(price_min, price_max)` pair: the least and greatest valid variant
      price, or `(0, 0)` when there is none. */
  function PriceRange(variants: seq<Variant>): (bounds: (real, real))
    ensures 0.0 <= bounds.0 <= bounds.1
    ensures (forall p :: !IsValidPrice(variants, p)) ==> bounds == (0.0, 0.0)
    ensures (exists p :: IsValidPrice(variants, p)) ==>
      && IsValidPrice(variants, bounds.0) && IsValidPrice(variants, bounds.1)
      && forall p :: IsValidPrice(variants, p) ==> bounds.0 <= p <= bounds.1
  {
    var ps := ValidPrices(variants);
    if ps == [] then (0.0, 0.0)
    else
      assert IsValidPrice(variants, ps[0]);
      (Least(ps), Greatest(ps))
  }

  /** The shop domain without one leading `http://` or `https://` scheme. */
  function CleanShop(shopDomain: string): (r: string)
    ensures || shopDomain == "https://" + r
            || shopDomain == "http://" + r
            || (shopDomain == r && !Text.OccursAt(shopDomain, "https://", 0) && !Text.OccursAt(shopDomain, "http://", 0))
  {
    if Text.OccursAt(shopDomain, "https://", 0) then shopDomain[8..]
    else if Text.OccursAt(shopDomain, "http://", 0) then shopDomain[7..]
    else shopDomain
  }

  /** The storefront URL of the product: empty without a handle, absolute when the
      shop domain is known, root-relative otherwise. */
  function ProductUrl(handle: Option<string>, shopDomain: string): (url: string)
    ensures url == "" <==> handle == None || handle == Some("")
    ensures handle.Some? && handle.value != "" && CleanShop(shopDomain) != "" ==>
      url == "https://" + CleanShop(shopDomain) + "/products/" + handle.value
    ensures handle.Some? && handle.value != "" && CleanShop(shopDomain) == "" ==>
      url == "/products/" + handle.value
  {
    if handle.None? || handle.value == "" then ""
    else
      var clean := CleanShop(shopDomain);
      if clean != "" then "https://" + clean + "/products/" + handle.value
      else "/products/" + handle.value
  }

  /** The invariant every stored row satisfies. */
  predicate WellFormed(row: Product) {
    row.productId != "" && 0.0 <= row.priceMin <= row.priceMax
  }

  /** `normalizeProduct(payload, shopDomain)`, with the clock reading `now`. */
  function Normalize(p: Payload, shopDomain: string, now: Timestamp): (r: Result<Product, Error>)
    ensures r.Failure? <==> ProductKey(p.id) == None
    ensures r.Failure? ==> r.error == ValidationError(MissingIdMessage)
    ensures r.Success? ==> WellFormed(r.value) && r.value.productId == ProductKey(p.id).value
    ensures r.Success? ==>
      (r.value.priceMin, r.value.priceMax) == PriceRange(if p.variants.Some? then p.variants.value else [])
    ensures r.Success? ==> r.value.productUrl == ProductUrl(p.handle, shopDomain)
    ensures r.Success? ==>
      && r.value.title == OrElse(p.title, "")
      && r.value.vendor == OrElse(p.vendor, "")
      && r.value.productType == OrElse(p.productType, "")
      && r.value.tags == OrElse(p.tags, "")
      && r.value.status == OrElse(p.status, ActiveStatus)
    ensures r.Success? ==> r.value.updatedAt == if p.updatedAt.Some? then p.updatedAt.value else now
  {
    match ProductKey(p.id)
    case None => Failure(ValidationError(MissingIdMessage))
    case Some(key) =>
      var bounds := PriceRange(if p.variants.Some? then p.variants.value else []);
      Success(Product(
        productId := key,
        title := OrElse(p.title, ""),
        vendor := OrElse(p.vendor, ""),
        productType := OrElse(p.productType, ""),
        priceMin := bounds.0,
        priceMax := bounds.1,
        status := OrElse(p.status, ActiveStatus),
        tags := OrElse(p.tags, ""),
        productUrl := ProductUrl(p.handle, shopDomain),
        updatedAt := if p.updatedAt.Some? then p.updatedAt.value else now))
  }

  /** Every field of a normalized row is defined: the text fields fall back to `''`
      and the status to `'active'`, the timestamp to the clock. */
  lemma NormalizeDefaults(p: Payload, shopDomain: string, now: Timestamp)
    requires ProductKey(p.id).Some?
    ensures var row := Normalize(p, shopDomain, now).value;
      && (p.title == None || p.title == Some("") ==> row.title == "")
      && (p.title.Some? ==> row.title == p.title.value)
      && (p.vendor == None || p.vendor == Some("") ==> row.vendor == "")
      && (p.vendor.Some? ==> row.vendor == p.vendor.value)
      && (p.productType == None || p.productType == Some("") ==> row.productType == "")
      && (p.productType.Some? ==> row.productType == p.productType.value)
      && (p.tags == None || p.tags == Some("") ==> row.tags == "")
      && (p.tags.Some? ==> row.tags == p.tags.value)
      && (p.status == None || p.status == Some("") ==> row.status == ActiveStatus)
      && (p.status.Some? && p.status.value != "" ==> row.status == p.status.value)
      && (p.updatedAt == None ==> row.updatedAt == now)
      && (p.updatedAt.Some? ==> row.updatedAt == p.updatedAt.value)
      && (p.variants == None ==> row.priceMin == 0.0 && row.priceMax == 0.0)
  {
  }

  /** A payload that carries its own `updated_at` normalizes the same at any time. */
  lemma StampedPayloadIgnoresClock(p: Payload, shopDomain: string, now1: Timestamp, now2: Timestamp)
    requires p.updatedAt.Some?
    ensures Normalize(p, shopDomain, now1) == Normalize(p, shopDomain, now2)
  {
  }

  /** An example payload: id 123, prices "19.99" and "24.99", handle
      `red-shirt`, shop `my-store.myshopify.com`. */
  lemma NormalizeExample(p: Payload, now: Timestamp)
    requires p == Payload(Some(NumericId(123)), Some("Red Shirt"), None, None, None, None, Some("red-shirt"),
                          Some([Variant(Some(19.99)), Variant(Some(24.99))]), None)
    ensures var shop := "my-store.myshopify.com";
      Normalize(p, shop, now) == Success(Product(
        "123", "Red Shirt", "", "", 19.99, 24.99, ActiveStatus, "",
        "https://" + shop + "/products/" + "red-shirt", now))
  {
    ExampleKey();
    ExamplePrices(p.variants.value);
    ExampleUrl("my-store.myshopify.com");
  }

  lemma ExampleKey()
    ensures ProductKey(Some(NumericId(123))) == Some("123")
  {
    assert Text.NatToDecimal(12) == "12";
    assert Text.DigitChar(3) == '3';
    assert Text.NatToDecimal(123) == "12" + "3" == "123";
  }

  lemma ExamplePrices(vs: seq<Variant>)
    requires vs == [Variant(Some(19.99)), Variant(Some(24.99))]
    ensures PriceRange(vs) == (19.99, 24.99)
  {
    assert vs[1..] == [Variant(Some(24.99))];
    assert vs[1..][1..] == [];
    assert ValidPrices(vs[1..]) == [24.99];
    assert ValidPrices(vs) == [19.99, 24.99];
  }

  lemma ExampleShop(shop: string)
    requires shop == "my-store.myshopify.com"
    ensures CleanShop(shop) == shop
  {
    assert shop[0] == 'm';
    assert !Text.OccursAt(shop, "https://", 0);
    assert !Text.OccursAt(shop, "http://", 0);
  }

  lemma ExampleUrl(shop: string)
    requires shop == "my-store.myshopify.com"
    ensures ProductUrl(Some("red-shirt"), shop) == "https://" + shop + "/products/" + "red-shirt"
  {
    ExampleShop(shop);
  }

  /** The table invariant: each row is stored under its own key and is well formed. */
  ghost predicate Consistent(rows: map<string, Product>) {
    forall k :: k in rows ==> rows[k].productId == k && WellFormed(rows[k])
  }

  /** The reply of an operation and the table it leaves behind. */
  datatype Effect = Effect(reply: Reply, rows: map<string, Product>)

  /** What `upsertProduct(p, shopDomain)` returns and does to the table. */
  function UpsertEffect(configured: bool, rows: map<string, Product>, p: Payload, shopDomain: string,
                        now: Timestamp, fault: Option<string>): (e: Effect)
    ensures !configured ==> e == Effect(Success(None), rows)
    ensures configured && ProductKey(p.id) == None ==> e == Effect(Failure(ValidationError(MissingIdMessage)), rows)
    ensures configured && fault.Some? ==> e.rows == rows && e.reply.Failure?
    ensures configured && ProductKey(p.id).Some? && fault.Some? ==> e == Effect(Failure(StoreError(fault.value)), rows)
    ensures e.reply.Failure? ==> e.rows == rows
    ensures configured && ProductKey(p.id).Some? && fault == None ==>
      var key := ProductKey(p.id).value;
      && e.rows.Keys == rows.Keys + {key}
      && e.reply == Success(Some([e.rows[key]]))
      && Some(e.rows[key]) == Normalize(p, shopDomain, now).ToOption()
    ensures forall k :: k in rows && Some(k) != ProductKey(p.id) ==> k in e.rows && e.rows[k] == rows[k]
    ensures Consistent(rows) ==> Consistent(e.rows)
  {
    if !configured then Effect(Success(None), rows)
    else
      match Normalize(p, shopDomain, now)
      case Failure(err) => Effect(Failure(err), rows)
      case Success(row) =>
        if fault.Some? then Effect(Failure(StoreError(fault.value)), rows)
        else Effect(Success(Some([row])), rows[row.productId := row])
  }

  /** What `deleteProduct(p)` returns and does to the table, the store stamping `now`. */
  function DeleteEffect(configured: bool, rows: map<string, Product>, p: Payload,
                        now: Timestamp, fault: Option<string>): (e: Effect)
    ensures !configured || ProductKey(p.id) == None ==> e == Effect(Success(None), rows)
    ensures e.reply.Failure? ==> e.rows == rows && e.reply.error.StoreError?
    ensures configured && ProductKey(p.id).Some? && fault.Some? ==> e == Effect(Failure(StoreError(fault.value)), rows)
    ensures e.rows.Keys == rows.Keys
    ensures forall k :: k in rows && Some(k) != ProductKey(p.id) ==> e.rows[k] == rows[k]
    ensures configured && ProductKey(p.id).Some? && fault == None ==>
      var key := ProductKey(p.id).value;
      && (key in rows ==> e.rows[key] == rows[key].(status := DeletedStatus, updatedAt := now)
                          && e.reply == Success(Some([e.rows[key]])))
      && (key !in rows ==> e.reply == Success(Some([])))
    ensures Consistent(rows) ==> Consistent(e.rows)
  {
    if !configured then Effect(Success(None), rows)
    else
      match ProductKey(p.id)
      case None => Effect(Success(None), rows)
      case Some(key) =>
        if fault.Some? then Effect(Failure(StoreError(fault.value)), rows)
        else if key in rows then
          var row := rows[key].(status := DeletedStatus, updatedAt := now);
          Effect(Success(Some([row])), rows[key := row])
        else Effect(Success(Some([])), rows)
  }

  /** Upserting the same stamped payload twice leaves the table as upserting it once. */
  lemma UpsertIsIdempotent(configured: bool, rows: map<string, Product>, p: Payload, shopDomain: string,
                           now1: Timestamp, now2: Timestamp, fault2: Option<string>)
    requires p.updatedAt.Some?
    ensures var once := UpsertEffect(configured, rows, p, shopDomain, now1, None);
      UpsertEffect(configured, once.rows, p, shopDomain, now2, fault2).rows == once.rows
  {
    StampedPayloadIgnoresClock(p, shopDomain, now1, now2);
  }

  /** After a soft delete the row stays in the table, marked deleted, until an upsert
      of the same key overwrites it. */
  lemma DeleteMarksRow(rows: map<string, Product>, p: Payload, now: Timestamp)
    requires ProductKey(p.id).Some? && ProductKey(p.id).value in rows
    ensures var e := DeleteEffect(true, rows, p, now, None);
      var key := ProductKey(p.id).value;
      key in e.rows && e.rows[key].status == DeletedStatus
  {
  }

  /** The `products` table as the service sees it. */
  class ProductTable {
    /** False when no store client exists; it never changes after start-up. */
    const configured: bool
    var rows: map<string, Product>

    ghost predicate Valid()
      reads this
    {
      Consistent(rows)
    }

    constructor (configured: bool, rows: map<string, Product>)
      requires Consistent(rows)
      ensures Valid()
      ensures this.configured == configured && this.rows == rows
    {
      this.configured := configured;
      this.rows := rows;
    }

    /** `upsertProduct(p, shopDomain)`. */
    method Upsert(p: Payload, shopDomain: string, now: Timestamp, fault: Option<string>) returns (reply: Reply)
      requires Valid()
      modifies this
      ensures Valid()
      ensures Effect(reply, rows) == UpsertEffect(configured, old(rows), p, shopDomain, now, fault)
    {
      if !configured {
        return Success(None);
      }
      var normalized := Normalize(p, shopDomain, now);
      if normalized.Failure? {
        return Failure(normalized.error);
      }
      var row := normalized.value;
      if fault.Some? {
        return Failure(StoreError(fault.value));
      }
      rows := rows[row.productId := row];
      reply := Success(Some([row]));
    }

    /** `deleteProduct(p)`. */
    method Delete(p: Payload, now: Timestamp, fault: Option<string>) returns (reply: Reply)
      requires Valid()
      modifies this
      ensures Valid()
      ensures Effect(reply, rows) == DeleteEffect(configured, old(rows), p, now, fault)
    {
      if !configured {
        return Success(None);
      }
      var key := ProductKey(p.id);
      if key.None? {
        return Success(None);
      }
      if fault.Some? {
        return Failure(StoreError(fault.value));
      }
      if key.value in rows {
        var row := rows[key.value].(status := DeletedStatus, updatedAt := now);
        rows := rows[key.value := row];
        reply := Success(Some([row]));
      } else {
        reply := Success(Some([]));
      }
    }
  }
}
