/** The `POST /chat` route: validates the message, gathers product context from the
    table (keyword search, else the most recent products), and asks the responder
    for a reply. */
module Chat {
  import opened Wrappers
  import Text
  import opened ProductService
  import opened ProductSearch

  const ContextLimit: nat := 15
  const DefaultFailureMessage: string := "Failed to process chat request"

  /** The `message` field of the request body: absent or null, a string, or some other JSON value. */
  datatype MessageField = Missing | Message(text: string) | NotText

  /** The check before any search: the message is accepted exactly when it is a
      string holding a character that is not whitespace. */
  function IsValidMessage(m: MessageField): (ok: bool)
    ensures ok <==> m.Message? && exists i :: 0 <= i < |m.text| && !Text.IsWhitespace(m.text[i])
  {
    if m.Message? then
      Text.TrimIsEmptyIffBlank(m.text);
      m.text != "" && Text.Trim(m.text) != ""
    else false
  }

  /** The table as the chat route reads it, with whether each of its two queries fails. */
  datatype StoreView = StoreView(configured: bool, rows: seq<Product>, searchFails: bool, listFails: bool)

  /** `generateChatResponse(message, context)`: a reply, or the message of what it threw. */
  type Responder = (string, string) -> Result<string, string>

  datatype ChatResponse =
    | Reply(reply: string, productsUsed: nat)
    | Rejected(status: int, error: string, message: string)

  /** The products the reply is grounded on: the search hits for the keywords, or the
      most recent products when the search finds nothing. */
  function ContextProducts(db: StoreView, keywords: string): (products: seq<Product>)
    ensures |products| <= ContextLimit
    ensures forall x :: x in products ==> x in db.rows && IsLive(x)
    ensures SearchProducts(db.configured, db.rows, Some(keywords), ContextLimit, db.searchFails) != [] ==>
      products == SearchProducts(db.configured, db.rows, Some(keywords), ContextLimit, db.searchFails)
    ensures SearchProducts(db.configured, db.rows, Some(keywords), ContextLimit, db.searchFails) == [] ==>
      products == GetAllProducts(db.configured, db.rows, ContextLimit, db.listFails)
    ensures db.configured && !db.listFails && LiveRows(db.rows) != [] ==> products != []
  {
    var found := SearchProducts(db.configured, db.rows, Some(keywords), ContextLimit, db.searchFails);
    if found != [] then found else GetAllProducts(db.configured, db.rows, ContextLimit, db.listFails)
  }

  /** The route handler. */
  method HandleChat(message: MessageField, db: StoreView, show: PriceText, respond: Responder) returns (resp: ChatResponse)
    ensures !IsValidMessage(message) ==> resp == Rejected(400, "Bad Request", "Message is required")
    ensures IsValidMessage(message) ==>
      var products := ContextProducts(db, Text.Lower(message.text));
      match respond(message.text, FormatProductsForContext(Some(products), show))
      case Success(reply) => resp == Reply(reply, |products|)
      case Failure(err) => resp == Rejected(500, "Internal Server Error", if err != "" then err else DefaultFailureMessage)
    ensures resp.Reply? ==> resp.productsUsed <= ContextLimit
  {
    if !IsValidMessage(message) {
      return Rejected(400, "Bad Request", "Message is required");
    }
    var keywords := Text.Lower(message.text);
    var products := SearchProducts(db.configured, db.rows, Some(keywords), ContextLimit, db.searchFails);
    if |products| == 0 {
      products := GetAllProducts(db.configured, db.rows, ContextLimit, db.listFails);
    }
    var context := FormatProductsForContext(Some(products), show);
    match respond(message.text, context)
    case Success(reply) =>
      resp := Reply(reply, |products|);
    case Failure(err) =>
      resp := Rejected(500, "Internal Server Error", if err != "" then err else DefaultFailureMessage);
  }
}
