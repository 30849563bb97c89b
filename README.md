# Shopify product webhook ingestion and product chat context — a Dafny model

This project models the core of a small Node.js backend that keeps a `products`
table in step with a Shopify store and uses it to ground a product chat:

- **Normalizer** (`ProductService.Normalize`): turns a Shopify product payload and
  a shop domain into a canonical row — `product_id` as a string, price bounds over
  the valid variant prices, the storefront URL, and a default for every other field.
- **Product table** (`ProductService.ProductTable`): a class holding the table as a
  map from `product_id` to row and a `configured` flag (false when no store client
  exists). `Upsert` replaces the whole row at its key; `Delete` is a soft delete that
  sets `status` to `deleted` and refreshes `updated_at`. Both are proved against the
  pure functions `UpsertEffect` and `DeleteEffect`, which carry the properties.
- **Webhook route** (`ShopifyWebhook`): an exact match on the topic header sends the
  event to delete, to upsert or to nothing; every outcome, a thrown error included,
  is acknowledged with status 200, `received: true` and `success` telling whether it
  worked.
- **Read side** (`ProductSearch`, `Chat`): keyword search and the recency listing as
  filter, order and limit over the table's rows; the text block rendered for the
  prompt; the chat route's validation, its fallback from the search to the most
  recent products, and its response mapping.

The store's answers that the model cannot compute — a failed write, a failed
query, the text completion — are parameters: `fault: Option<string>` (the store's
error message) for writes, `failed: bool` for queries, and a `Responder` function
for the completion. The clock is the parameter `now`.

Files: `wrappers.dfy` (Option, Result), `text.dfy` (trim, ASCII lower-casing,
substring search, join/split, decimal integers), `product_service.dfy`,
`product_search.dfy`, `shopify_webhook.dfy`, `chat.dfy`.

## Model

| member | source | states |
|---|---|---|
| `Text.Trim` | src/services/productSearch.js:20 | the result is a slice of the input; everything before and after it is whitespace (ECMAScript WhiteSpace and LineTerminator), and the slice neither starts nor ends with whitespace |
| `Text.TrimIsEmptyIffBlank` | src/services/productSearch.js:20 | a string trims to `''` exactly when every character is whitespace |
| `Text.Lower` | src/routes/chat.js:26 | same length; each ASCII capital becomes its small letter, every other character is kept |
| `Text.TrimLower` | src/routes/chat.js:26 | lower-casing commutes with trimming |
| `Text.Contains` | src/services/productSearch.js:36-43 | true exactly when the term occurs at some position of the text (the `%term%` pattern) |
| `Text.Join` | src/services/productSearch.js:90-92 | joining no lines gives `''`; a non-empty join starts with the first line |
| `Text.SplitJoin` | src/services/productSearch.js:90-92 | splitting a `'\n'`-join of lines without `'\n'` gives the lines back |
| `Text.NatToDecimal` | src/services/productService.js:15 | non-empty, digits only, no leading zero |
| `Text.IntToDecimal` | src/services/productService.js:15 | `String(n)` of an integer is never empty |
| `Text.DecimalRoundTrip` | src/services/productService.js:15 | reading back `String(n)` gives `n` |
| `Text.DecimalIsInjective` | src/services/productService.js:15 | distinct numeric ids give distinct keys |
| `ProductService.OrElse` | src/services/productService.js:41-47 | a non-empty field passes through; an absent, null or empty one becomes the fallback |
| `ProductService.ProductKey` | src/services/productService.js:15-18 | the key is missing exactly for an absent/null id or `''`; a numeric id (0 included) is always accepted as its decimal string; a key is never empty |
| `ProductService.ValidPrices` | src/services/productService.js:21-24 | holds exactly the variant prices that parsed and are not negative |
| `ProductService.Least` | src/services/productService.js:26 | an element of the list no greater than any element |
| `ProductService.Greatest` | src/services/productService.js:27 | an element of the list no smaller than any element |
| `ProductService.PriceRange` | src/services/productService.js:21-27 | `(0, 0)` without a valid price; otherwise the least and the greatest valid price; always `0 <= price_min <= price_max` |
| `ProductService.CleanShop` | src/services/productService.js:32 | exactly one leading `https://` or `http://` is removed, nothing otherwise |
| `ProductService.ProductUrl` | src/services/productService.js:30-36 | `''` exactly when there is no handle; else `https://{cleanShop}/products/{handle}`, or `/products/{handle}` when the cleaned shop is empty |
| `ProductService.Normalize` | src/services/productService.js:13-53 | fails with "Product ID is required" exactly when the key is missing; otherwise the row is well formed and carries the key, the price range of the valid variant prices, the storefront URL of the handle and shop, each text field or its default, and the payload's `updated_at` or the clock |
| `ProductService.NormalizeDefaults` | src/services/productService.js:39-50 | absent or empty text fields become `''`, an absent or empty status `'active'`, absent variants give `0`/`0` prices, an absent `updated_at` the clock; present non-empty title, vendor, product type, tags, status and `updated_at` pass through unchanged |
| `ProductService.StampedPayloadIgnoresClock` | src/services/productService.js:49 | a payload carrying `updated_at` normalizes the same at any time |
| `ProductService.NormalizeExample` | src/services/productService.js:13-53 | id 123, prices 19.99 and 24.99, handle `red-shirt`, shop `my-store.myshopify.com` give key `"123"`, bounds 19.99/24.99, status `active` and the absolute URL |
| `ProductService.UpsertEffect` | src/services/productService.js:59-97 | unconfigured: `null`, table unchanged, before any validation; invalid payload: the validation error, table unchanged; store error: that error with the store's message, table unchanged; otherwise the whole row at the key is replaced by the normalized row, which is returned; other keys untouched; the table invariant is kept |
| `ProductService.DeleteEffect` | src/services/productService.js:102-141 | unconfigured or missing id: `null`, table unchanged; store error: that error with the store's message, table unchanged; otherwise only `status := 'deleted'` and `updated_at := now` of the matching row change, an unmatched key returns `[]`; no row is ever removed; the table invariant is kept |
| `ProductService.UpsertIsIdempotent` | src/services/productService.js:74-77 | upserting the same stamped payload a second time leaves the table as the first upsert did |
| `ProductService.DeleteMarksRow` | src/services/productService.js:116-123 | after a soft delete the row is still there with status `deleted` |
| `ProductService.ProductTable.constructor` | src/services/productService.js:6 | a table with the given configuration and rows |
| `ProductService.ProductTable.Upsert` | src/services/productService.js:59-97 | reply and new table are those of `UpsertEffect`; the table invariant is kept |
| `ProductService.ProductTable.Delete` | src/services/productService.js:102-141 | reply and new table are those of `DeleteEffect`; the table invariant is kept |
| `ProductSearch.LiveRows` | src/services/productSearch.js:25 | exactly the rows whose status is not `deleted`, each as many times as in the table scan |
| `ProductSearch.MatchesTerm` | src/services/productSearch.js:36-43 | true exactly when the lower-cased term occurs in the lower-cased title, vendor, product type or tags |
| `ProductSearch.MatchingRows` | src/services/productSearch.js:42-43 | exactly the live rows whose title, vendor, product type or tags contain the term, ignoring case, each as many times as in the table scan |
| `ProductSearch.SortByRecency` | src/services/productSearch.js:26 | a permutation of the rows, most recently updated first |
| `ProductSearch.Take` | src/services/productSearch.js:27 | the first `min(n, length)` rows |
| `ProductSearch.IsBlank` | src/services/productSearch.js:20 | true exactly when the query is absent or made of whitespace only (the empty string included) |
| `ProductSearch.NewestFirstIsPairwise` | src/services/productSearch.js:26 | in a newest-first sequence no row is more recent than any row before it |
| `ProductSearch.NewestPrefix` | src/services/productSearch.js:26-27 | the first `n` rows of a newest-first sequence are drawn from it and no row left out is more recent than a row kept |
| `ProductSearch.RecentRows` | src/services/productSearch.js:20-27 | `min(limit, live rows)` live rows of the table, newest first, none repeated beyond its count in the table, and no live row left out is more recent than a row returned |
| `ProductSearch.SearchProducts` | src/services/productSearch.js:14-53 | `[]` when unconfigured or on a query error; never more than `limit` rows, never a deleted row; a blank query gives exactly the recency listing; otherwise the first `min(limit, matches)` rows matching the trimmed query, in scan order, with no row repeated beyond its count in the table |
| `ProductSearch.SearchIgnoresQueryCase` | src/services/productSearch.js:36-43 | searching the lower-cased query returns the same rows as searching the query |
| `ProductSearch.GetAllProducts` | src/services/productSearch.js:60-78 | `[]` when unconfigured or on a query error; otherwise `min(limit, live rows)` live rows, newest first, drawn from the table without repetition, and no live row left out is more recent than a row returned |
| `ProductSearch.GetAllIsBlankSearch` | src/services/productSearch.js:60-70 | listing all products equals searching with an absent or whitespace-only query |
| `ProductSearch.DeletedRowIsNeverFound` | src/services/productSearch.js:39-44 | after a soft delete, no search of the table returns a row with the deleted key |
| `ProductSearch.ProductLine` | src/services/productSearch.js:91 | the line is `"- "` and the title, then ` (` vendor or `No vendor` `) - ₹` and the lower price at the next position; after it ` to ₹` and the upper price exactly when that exceeds the lower one (the line then contains that text); then ` - ` and the URL or `No URL`, ending the line |
| `ProductSearch.ProductLines` | src/services/productSearch.js:90-91 | one line per product, in input order |
| `ProductSearch.ProductLineIsOneLine` | src/services/productSearch.js:91 | a line holds no newline when its fields and price texts hold none |
| `ProductSearch.FormatProductsForContext` | src/services/productSearch.js:85-93 | the text is `No products available.` exactly when the list is absent or empty |
| `ProductSearch.ContextHasOneLinePerProduct` | src/services/productSearch.js:90-92 | splitting the block at newlines gives back one line per product, in order |
| `ShopifyWebhook.RouteOf` | src/routes/shopifyWebhook.js:32-40 | delete exactly for topic `products/delete`; upsert exactly for `products/create` or `products/update`; anything else, a missing topic included, is ignored |
| `ShopifyWebhook.ShopOf` | src/routes/shopifyWebhook.js:16 | the shop header, or `''` when absent |
| `ShopifyWebhook.Acknowledge` | src/routes/shopifyWebhook.js:48-59 | always status 200 and `received: true`; `success` exactly when nothing was thrown; on failure the error's message |
| `ShopifyWebhook.Dispatch` | src/routes/shopifyWebhook.js:29-45 | `products/delete` runs the soft delete, `products/create` and `products/update` run the upsert with the shop header; any other topic changes nothing and succeeds; a failure changes nothing; rows under other keys are untouched; the table invariant is kept |
| `ShopifyWebhook.DeleteTopicSoftDeletes` | src/routes/shopifyWebhook.js:32-34 | a delete event for a stored product keeps the row, marks it deleted at the event time, and is acknowledged as a success |
| `ShopifyWebhook.StoreFailureIsAcknowledged` | src/routes/shopifyWebhook.js:48-59 | a create, update or delete whose store write fails gets 200 with `success: false` and the store's message, table unchanged |
| `ShopifyWebhook.HandleProducts` | src/routes/shopifyWebhook.js:14-61 | one 200 response with `received: true` per event; new table and response are those of `Dispatch` and `Acknowledge` |
| `ShopifyWebhook.RedeliveryIsIdempotent` | src/routes/shopifyWebhook.js:35-37 | a create or update redelivered with the same stamped payload leaves the table as the first delivery did |
| `ShopifyWebhook.MissingIdIsAcknowledgedAsFailure` | src/routes/shopifyWebhook.js:50-59 | a create without id changes nothing and gets 200 with `success: false` and "Product ID is required" |
| `ShopifyWebhook.DeleteWithoutIdIsIgnored` | src/routes/shopifyWebhook.js:32-34 | a delete without id changes nothing and is acknowledged as a success |
| `ShopifyWebhook.CreateExample` | src/routes/shopifyWebhook.js:35-37 | an example create event (id 123, two variant prices, a handle and a shop domain) stores the expected row under `"123"` |
| `Chat.IsValidMessage` | src/routes/chat.js:17 | a message is accepted exactly when it is a string with a character that is not whitespace |
| `Chat.ContextProducts` | src/routes/chat.js:26-34 | at most 15 live rows of the table: the search hits for the keywords when there are any, otherwise the recency listing of 15; never empty when the store works and holds a live row |
| `Chat.HandleChat` | src/routes/chat.js:11-58 | an invalid message gets 400 "Message is required" whatever the store and the responder hold; otherwise the context is built from the lower-cased message with limit 15, the reply carries `productsUsed` equal to the number of products rendered, and a failed completion gives 500 with its message (or the default text when that is empty) |

## Left out

- The Supabase client and the PostgREST filter syntax: the table is a map, a query sees its rows as a sequence in the store's scan order, and a query containing `%`, `_`, `*` (an alias of `%` in PostgREST patterns), `\` (the LIKE escape), `"` (quoting in `or` filters), `,` or parentheses, all of which would change the `.or(...)` filter, is assumed not to occur.
- A store write that fails is assumed to write nothing; partial writes are not modelled.
- The normalizer reads `price` from every entry of `variants`: a `null` entry, or a `variants` value that is not an array, throws a TypeError there, which the route reports as `success: false`; the `Variant` datatype cannot express such payloads, so that path is not modelled.
- `parseFloat`: a variant's price is given already parsed (`None` for NaN); floating point is modelled by `real`, so rounding and `Infinity` (which `parseFloat` accepts and the `>= 0` filter lets through) are not captured.
- Number-to-text formatting of prices in the rendered line is a caller-supplied function.
- `String(id)` is modelled for integers and strings only; JSON numbers beyond 2^53 losing precision before stringification, fractional ids and booleans are not modelled.
- Payload text fields are modelled as strings or absent; a truthy non-string value (a number as title, say) is not.
- `updated_at` is an integer timestamp, and the clock is the parameter `now`; an empty-string `updated_at` (falsy in JavaScript) is not representable.
- Case folding is ASCII only, both for `toLowerCase` and for `ilike`.
- The completion service (`src/services/aiService.js`) is the `Responder` parameter; its own fallback text and its configuration check are inside it.
- Logging, the response-lifetime concern on serverless hosts, and concurrent or out-of-order webhook deliveries (last write wins) are not modelled.
- A request body that is not an object (the route reads `payload.id` before its try block) is a transport concern and is not modelled.
- `src/index.js`, `src/routes/health.js` and `src/middleware/errorHandler.js` (bootstrap, CORS, body parsing, health report, error formatting) are not part of this model.
- `ProductSearch.SearchProducts`: the store promises no order for a non-blank query; the model returns the first matches in its scan order, so which matches survive the limit is a modelling choice.
- The default limits of `searchProducts` (10) and `getAllProducts` (20) are not modelled: every caller in the core passes its limit (15).
